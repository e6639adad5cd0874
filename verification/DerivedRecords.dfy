/** What `#[derive(Insertable)]` and `#[derive(AsChangeset)]` generate for a struct, and what the generated
    expressions evaluate to: diesel_derives/src/insertable.rs and diesel_derives/src/as_changeset.rs. */
module DerivedRecords {
  import opened Prelude

  datatype SqlValue = Null | Stored(content: int)

  /** A Rust value by what it serializes to: a plain one or `Some` of one, or `None`. What is present may
      itself be NULL, as `Some(None)` is in a field of type `Option<Option<T>>`. */
  datatype RustValue = Present(value: SqlValue) | Absent

  function ToSqlValue(v: RustValue): SqlValue {
    if v.Present? then v.value else Null
  }

  /** A field with its attributes. A tuple field has no column unless one is given; `serializeAs` says
      whether the type named there is an `Option`. */
  datatype Field = Field(
    column: Option<string>, isOption: bool, serializeAs: Option<bool>,
    treatNoneAsDefault: Option<bool>, treatNoneAsNull: Option<bool>,
    skipInsertion: bool, skipUpdate: bool)

  /** A field's value, its conversion into the `serialize_as` type, and the conversion of what is inside it. */
  datatype FieldValue = FieldValue(raw: RustValue, into: RustValue, intoInner: RustValue)

  /** What the Rust types guarantee about a value. */
  predicate WellTyped(f: Field, v: FieldValue) {
    && (!f.isOption ==> v.raw.Present?)
    && (f.serializeAs == Some(false) ==> v.into.Present? && v.intoInner.Present?)
  }

  predicate StructTyped(fields: seq<Field>, values: seq<FieldValue>) {
    |fields| == |values| && forall i :: 0 <= i < |fields| ==> WellTyped(fields[i], values[i])
  }

  datatype DeriveError = NotAnOption | NoColumnName | OnlyPrimaryKeys

  // ----- the generated expressions

  /** One element of the generated tuple, for field `i`; `byRef` marks the version for a borrowed struct. */
  datatype Expr =
    | MapEq(i: nat, column: string, byRef: bool)        // self.f.map(|x| column.eq(x))
    | SomeEq(i: nat, column: string, byRef: bool)       // Some(column.eq(self.f))
    | PlainEq(i: nat, column: string, byRef: bool)      // column.eq(self.f)
    | IntoMapEq(i: nat, column: string)                 // self.f.into().map(|v| column.eq(v))
    | SomeIntoEq(i: nat, column: string)                // Some(column.eq(self.f.into()))
    | PlainIntoEq(i: nat, column: string)               // column.eq(self.f.into())
    | MapIntoEq(i: nat, column: string)                 // self.f.map(|x| column.eq(x.into()))

  /** `Option<Eq<..>>` or `Eq<..>`, as the trait impls distinguish them. */
  datatype Item = Optional(column: string, given: Option<RustValue>) | Always(column: string, value: RustValue)

  /** `map` over an optional field: what is there, if anything is. */
  function Given(v: RustValue): Option<RustValue> { if v.Present? then Some(v) else None }

  function Eval(e: Expr, v: FieldValue): Item {
    match e
    case MapEq(_, c, _) => Optional(c, Given(v.raw))
    case SomeEq(_, c, _) => Optional(c, Some(v.raw))
    case PlainEq(_, c, _) => Always(c, v.raw)
    case IntoMapEq(_, c) => Optional(c, Given(v.into))
    case SomeIntoEq(_, c) => Optional(c, Some(v.into))
    case PlainIntoEq(_, c) => Always(c, v.into)
    case MapIntoEq(_, c) => Optional(c, if v.raw.Present? then Some(v.intoInner) else None)
  }

  datatype Derived = Derived(owned: seq<Expr>, borrowed: Option<seq<Expr>>)

  // ----- what is intended

  /** What a record says about a column. */
  datatype Intent = LeaveOut | Store(value: SqlValue)

  function Meaning(item: Item): Intent {
    match item
    case Optional(_, v) => if v.None? then LeaveOut else Store(ToSqlValue(v.value))
    case Always(_, v) => Store(ToSqlValue(v))
  }

  /** Inserting: `None` means the column's default where it is treated so, and NULL otherwise; `Some(None)`
      always means NULL. */
  function InsertIntent(f: Field, v: FieldValue, structDefault: bool): Intent {
    var value := if f.serializeAs.Some? then v.into else v.raw;
    var treat := if f.treatNoneAsDefault.Some? then f.treatNoneAsDefault.value else structDefault;
    if treat && value.Absent? then LeaveOut else Store(ToSqlValue(value))
  }

  /** Updating: `None` leaves the column alone unless it is treated as NULL; `Some(None)` always means NULL. */
  function UpdateIntent(f: Field, v: FieldValue, structDefault: bool): Intent {
    var treat := if f.treatNoneAsNull.Some? then f.treatNoneAsNull.value else structDefault;
    if !treat && f.isOption then
      if v.raw.Absent? then LeaveOut else Store(ToSqlValue(if f.serializeAs.Some? then v.intoInner else v.raw))
    else Store(ToSqlValue(if f.serializeAs.Some? then v.into else v.raw))
  }

  // ----- #[derive(Insertable)]

  function InsertError(f: Field): Option<DeriveError> {
    if f.skipInsertion then None
    else if f.treatNoneAsDefault.Some? && !f.isOption then Some(NotAnOption)
    else if f.column.None? then Some(NoColumnName)
    else None
  }

  function FieldExpr(f: Field, i: nat, column: string, byRef: bool, treat: bool): Expr {
    if treat then (if f.isOption then MapEq(i, column, byRef) else SomeEq(i, column, byRef))
    else PlainEq(i, column, byRef)
  }

  function FieldExprSerializeAs(i: nat, column: string, tyIsOption: bool, treat: bool): Expr {
    if treat then (if tyIsOption then IntoMapEq(i, column) else SomeIntoEq(i, column))
    else PlainIntoEq(i, column)
  }

  /** The positions of the fields that the derive uses. */
  ghost function Chosen(fields: seq<Field>, pick: Field -> bool): (r: seq<nat>)
    ensures forall k :: 0 <= k < |r| ==> r[k] < |fields| && pick(fields[r[k]])
    ensures forall k, l :: 0 <= k < l < |r| ==> r[k] < r[l]
    ensures forall i :: 0 <= i < |fields| && pick(fields[i]) ==> i in r
  {
    if fields == [] then []
    else
      var front, last := fields[..|fields| - 1], |fields| - 1;
      var r := Chosen(front, pick);
      assert forall i :: 0 <= i < last ==> fields[i] == front[i];
      if pick(fields[last]) then r + [last] else r
  }

  type IntentOf = (Field, FieldValue) -> Intent

  /** One expression per chosen field, in order, for that field's column, and meaning what is intended
      whatever the value of the struct. */
  ghost predicate Derives(fields: seq<Field>, pick: Field -> bool, intent: IntentOf, exprs: seq<Expr>) {
    var chosen := Chosen(fields, pick);
    && |exprs| == |chosen|
    && forall k :: 0 <= k < |exprs| ==> exprs[k].i == chosen[k] && Says(fields[chosen[k]], intent, exprs[k])
  }

  ghost predicate Says(f: Field, intent: IntentOf, e: Expr) {
    f.column == Some(e.column) && forall v :: WellTyped(f, v) ==> Meaning(Eval(e, v)) == intent(f, v)
  }

  lemma DeriveSkip(fields: seq<Field>, f: Field, pick: Field -> bool, intent: IntentOf, exprs: seq<Expr>)
    requires Derives(fields, pick, intent, exprs) && !pick(f)
    ensures Derives(fields + [f], pick, intent, exprs)
  {
  }

  lemma DerivePush(fields: seq<Field>, f: Field, pick: Field -> bool, intent: IntentOf, exprs: seq<Expr>, e: Expr)
    requires Derives(fields, pick, intent, exprs) && pick(f)
    requires e.i == |fields| && Says(f, intent, e)
    ensures Derives(fields + [f], pick, intent, exprs + [e])
  {
  }

  function Inserted(): Field -> bool { (f: Field) => !f.skipInsertion }

  function InsertIntents(structDefault: bool): IntentOf { (f, v) => InsertIntent(f, v, structDefault) }

  ghost predicate FirstError(fields: seq<Field>, errorOf: Field -> Option<DeriveError>, e: DeriveError) {
    exists k :: ErrorAt(fields, errorOf, k, e)
  }

  ghost predicate ErrorAt(fields: seq<Field>, errorOf: Field -> Option<DeriveError>, k: int, e: DeriveError) {
    0 <= k < |fields| && errorOf(fields[k]) == Some(e) && forall j :: 0 <= j < k ==> errorOf(fields[j]).None?
  }

  predicate ForBorrowed(exprs: seq<Expr>) {
    forall k :: 0 <= k < |exprs| ==> (exprs[k].MapEq? || exprs[k].SomeEq? || exprs[k].PlainEq?) && exprs[k].byRef
  }

  /** Each generated tuple inserts what is intended; a borrowed struct gets one exactly when no used field
      is serialized as another type; the first bad field is reported. */
  method DeriveIntoSingleTable(fields: seq<Field>, structDefault: bool) returns (r: Result<Derived, DeriveError>)
    ensures r.Ok? <==> forall i :: 0 <= i < |fields| ==> InsertError(fields[i]).None?
    ensures r.Ok? <==> forall i :: 0 <= i < |fields| && !fields[i].skipInsertion ==>
                         fields[i].column.Some? && (fields[i].treatNoneAsDefault.Some? ==> fields[i].isOption)
    ensures r.Err? ==> FirstError(fields, InsertError, r.error)
    ensures r.Ok? ==> Derives(fields, Inserted(), InsertIntents(structDefault), r.value.owned)
    ensures r.Ok? ==> (r.value.borrowed.Some? <==>
              forall i :: 0 <= i < |fields| && !fields[i].skipInsertion ==> fields[i].serializeAs.None?)
    ensures r.Ok? && r.value.borrowed.Some? ==>
              Derives(fields, Inserted(), InsertIntents(structDefault), r.value.borrowed.value) && ForBorrowed(r.value.borrowed.value)
  {
    hide Derives, Says;
    var generateBorrowed := true;
    var direct: seq<Expr> := [];
    var refs: seq<Expr> := [];
    ghost var pick, intent := Inserted(), InsertIntents(structDefault);
    NothingDerived(pick, intent);
    assert fields[..0] == [];
    for i := 0 to |fields|
      invariant forall j :: 0 <= j < i ==> InsertError(fields[j]).None?
      invariant Derives(fields[..i], pick, intent, direct)
      invariant generateBorrowed <==> forall j :: 0 <= j < i && !fields[j].skipInsertion ==> fields[j].serializeAs.None?
      invariant generateBorrowed ==> Derives(fields[..i], pick, intent, refs)
      invariant ForBorrowed(refs)
    {
      var field := fields[i];
      assert fields[..i + 1] == fields[..i] + [field];
      if field.skipInsertion {
        DeriveSkip(fields[..i], field, pick, intent, direct);
        if generateBorrowed { DeriveSkip(fields[..i], field, pick, intent, refs); }
      } else {
        if field.treatNoneAsDefault.Some? && !field.isOption {
          assert ErrorAt(fields, InsertError, i, NotAnOption);
          return Err(NotAnOption);
        }
        var treat := if field.treatNoneAsDefault.Some? then field.treatNoneAsDefault.value else structDefault;
        if field.column.None? {
          assert ErrorAt(fields, InsertError, i, NoColumnName);
          return Err(NoColumnName);
        }
        var column := field.column.value;
        InsertSays(field, i, column, false, structDefault);
        InsertSays(field, i, column, true, structDefault);
        match field.serializeAs {
          case None =>
            var own, borrowed := FieldExpr(field, i, column, false, treat), FieldExpr(field, i, column, true, treat);
            DerivePush(fields[..i], field, pick, intent, direct, own);
            if generateBorrowed { DerivePush(fields[..i], field, pick, intent, refs, borrowed); }
            direct := direct + [own];
            refs := refs + [borrowed];
          case Some(ty) =>
            var own := FieldExprSerializeAs(i, column, ty, treat);
            DerivePush(fields[..i], field, pick, intent, direct, own);
            direct := direct + [own];
            generateBorrowed := false;
        }
      }
    }
    assert fields[..|fields|] == fields;
    r := Ok(Derived(direct, if generateBorrowed then Some(refs) else None));
  }

  lemma InsertSays(f: Field, i: nat, column: string, byRef: bool, structDefault: bool)
    requires f.column == Some(column)
    ensures var treat := if f.treatNoneAsDefault.Some? then f.treatNoneAsDefault.value else structDefault;
            && (f.serializeAs.None? && (f.treatNoneAsDefault.Some? ==> f.isOption) ==>
                  Says(f, InsertIntents(structDefault), FieldExpr(f, i, column, byRef, treat)))
            && (f.serializeAs.Some? ==>
                  Says(f, InsertIntents(structDefault), FieldExprSerializeAs(i, column, f.serializeAs.value, treat)))
  {
  }

  lemma UpdateSays(f: Field, i: nat, column: string, byRef: bool, structNull: bool)
    requires f.column == Some(column)
    ensures var treat := if f.treatNoneAsNull.Some? then f.treatNoneAsNull.value else structNull;
            && (f.serializeAs.None? ==> Says(f, UpdateIntents(structNull), ChangesetExpr(f, i, column, byRef, treat)))
            && (f.serializeAs.Some? ==> Says(f, UpdateIntents(structNull), ChangesetExprSerializeAs(f, i, column, treat)))
  {
  }

  /** A bad field is reported for its attribute before it is reported for its missing column name. */
  lemma ErrorsAre(keys: seq<string>, f: Field)
    ensures InsertError(f) == Some(NotAnOption) <==> !f.skipInsertion && f.treatNoneAsDefault.Some? && !f.isOption
    ensures InsertError(f) == Some(NoColumnName) <==>
              !f.skipInsertion && f.column.None? && (f.treatNoneAsDefault.Some? ==> f.isOption)
    ensures UpdateError(keys, f) == Some(NotAnOption) <==>
              !f.skipUpdate && (f.column.Some? ==> f.column.value !in keys) && f.treatNoneAsNull.Some? && !f.isOption
    ensures UpdateError(keys, f) == Some(NoColumnName) <==>
              !f.skipUpdate && f.column.None? && (f.treatNoneAsNull.Some? ==> f.isOption)
    ensures InsertError(f) != Some(OnlyPrimaryKeys) && UpdateError(keys, f) != Some(OnlyPrimaryKeys)
  {
  }

  lemma NothingDerived(pick: Field -> bool, intent: IntentOf)
    ensures Derives([], pick, intent, [])
  {
  }

  // ----- #[derive(AsChangeset)]

  predicate IsKey(keys: seq<string>, f: Field) { f.column.Some? && f.column.value in keys }

  predicate IsUpdated(keys: seq<string>, f: Field) { !IsKey(keys, f) && !f.skipUpdate }

  function UpdateError(keys: seq<string>, f: Field): Option<DeriveError> {
    if !IsUpdated(keys, f) then None
    else if f.treatNoneAsNull.Some? && !f.isOption then Some(NotAnOption)
    else if f.column.None? then Some(NoColumnName)
    else None
  }

  function UpdateErrors(keys: seq<string>): Field -> Option<DeriveError> { (f: Field) => UpdateError(keys, f) }

  function Updated(keys: seq<string>): Field -> bool { (f: Field) => IsUpdated(keys, f) }

  function UpdateIntents(structNull: bool): IntentOf { (f, v) => UpdateIntent(f, v, structNull) }

  function ChangesetExpr(f: Field, i: nat, column: string, byRef: bool, treat: bool): Expr {
    if !treat && f.isOption then MapEq(i, column, byRef) else PlainEq(i, column, byRef)
  }

  function ChangesetExprSerializeAs(f: Field, i: nat, column: string, treat: bool): Expr {
    if !treat && f.isOption then MapIntoEq(i, column) else PlainIntoEq(i, column)
  }

  /** Each generated tuple changes what is intended, never a primary key; a struct of primary keys only is
      refused. */
  method DeriveAsChangeset(fields: seq<Field>, keys: seq<string>, structNull: bool) returns (r: Result<Derived, DeriveError>)
    ensures r == Err(OnlyPrimaryKeys) <==> forall i :: 0 <= i < |fields| ==> IsKey(keys, fields[i])
    ensures r.Ok? <==> (exists i :: 0 <= i < |fields| && !IsKey(keys, fields[i]))
                       && forall i :: 0 <= i < |fields| ==> UpdateError(keys, fields[i]).None?
    ensures r.Ok? <==>
              && (exists i :: 0 <= i < |fields| && (fields[i].column.Some? ==> fields[i].column.value !in keys))
              && (forall i :: 0 <= i < |fields| && !fields[i].skipUpdate && (fields[i].column.Some? ==> fields[i].column.value !in keys) ==>
                    fields[i].column.Some? && (fields[i].treatNoneAsNull.Some? ==> fields[i].isOption))
    ensures r.Err? && r.error != OnlyPrimaryKeys ==> FirstError(fields, UpdateErrors(keys), r.error)
    ensures r.Ok? ==> Derives(fields, Updated(keys), UpdateIntents(structNull), r.value.owned)
    ensures r.Ok? ==> (r.value.borrowed.Some? <==>
              forall i :: 0 <= i < |fields| && IsUpdated(keys, fields[i]) ==> fields[i].serializeAs.None?)
    ensures r.Ok? && r.value.borrowed.Some? ==>
              Derives(fields, Updated(keys), UpdateIntents(structNull), r.value.borrowed.value) && ForBorrowed(r.value.borrowed.value)
  {
    hide Derives, Says;
    var anyForUpdate := false;
    for i := 0 to |fields|
      invariant anyForUpdate <==> exists j :: 0 <= j < i && !IsKey(keys, fields[j])
    {
      if !IsKey(keys, fields[i]) { anyForUpdate := true; }
    }
    if !anyForUpdate {
      return Err(OnlyPrimaryKeys);
    }
    var generateBorrowed := true;
    var direct: seq<Expr> := [];
    var refs: seq<Expr> := [];
    ghost var pick, intent, errors := Updated(keys), UpdateIntents(structNull), UpdateErrors(keys);
    NothingDerived(pick, intent);
    assert fields[..0] == [];
    for i := 0 to |fields|
      invariant forall j :: 0 <= j < i ==> UpdateError(keys, fields[j]).None?
      invariant Derives(fields[..i], pick, intent, direct)
      invariant generateBorrowed <==> forall j :: 0 <= j < i && IsUpdated(keys, fields[j]) ==> fields[j].serializeAs.None?
      invariant generateBorrowed ==> Derives(fields[..i], pick, intent, refs)
      invariant ForBorrowed(refs)
    {
      var field := fields[i];
      assert fields[..i + 1] == fields[..i] + [field];
      if IsKey(keys, field) || field.skipUpdate {
        DeriveSkip(fields[..i], field, pick, intent, direct);
        if generateBorrowed { DeriveSkip(fields[..i], field, pick, intent, refs); }
      } else {
        if field.treatNoneAsNull.Some? && !field.isOption {
          assert ErrorAt(fields, errors, i, NotAnOption);
          return Err(NotAnOption);
        }
        var treat := if field.treatNoneAsNull.Some? then field.treatNoneAsNull.value else structNull;
        if field.column.None? {
          assert ErrorAt(fields, errors, i, NoColumnName);
          return Err(NoColumnName);
        }
        var column := field.column.value;
        UpdateSays(field, i, column, false, structNull);
        UpdateSays(field, i, column, true, structNull);
        match field.serializeAs {
          case None =>
            var own, borrowed := ChangesetExpr(field, i, column, false, treat), ChangesetExpr(field, i, column, true, treat);
            DerivePush(fields[..i], field, pick, intent, direct, own);
            if generateBorrowed { DerivePush(fields[..i], field, pick, intent, refs, borrowed); }
            direct := direct + [own];
            refs := refs + [borrowed];
          case Some(ty) =>
            var own := ChangesetExprSerializeAs(field, i, column, treat);
            DerivePush(fields[..i], field, pick, intent, direct, own);
            direct := direct + [own];
            generateBorrowed := false;
        }
      }
    }
    assert fields[..|fields|] == fields;
    r := Ok(Derived(direct, if generateBorrowed then Some(refs) else None));
  }
}
