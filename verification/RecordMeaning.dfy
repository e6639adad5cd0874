/** What derived records do to a row: inserting them in the dialects with and without a DEFAULT keyword
    (diesel/src/insertable.rs and the tuple impls it is used through), and updating with them. */
module RecordMeaning {
  import opened Prelude
  import opened DerivedRecords

  // ----- insertable values

  /** `DefaultableColumnInsertValue` and `ColumnInsertValue`. */
  datatype InsertValue = Defaultable(column: string, expr: Option<RustValue>) | ColumnInsert(column: string, value: RustValue)

  /** `Insertable::values` of a tuple element; `InsertableOptionHelper` turns an absent assignment into a default. */
  function Values(items: seq<Item>): (r: seq<InsertValue>)
    ensures |r| == |items|
    ensures forall k :: 0 <= k < |r| ==> r[k].column == items[k].column && MeaningOfValue(r[k]) == Meaning(items[k])
  {
    if items == [] then []
    else
      var head := match items[0]
                  case Optional(c, given) => Defaultable(c, given)
                  case Always(c, value) => ColumnInsert(c, value);
      [head] + Values(items[1..])
  }

  function MeaningOfValue(v: InsertValue): Intent {
    match v
    case Defaultable(_, expr) => if expr.None? then LeaveOut else Store(ToSqlValue(expr.value))
    case ColumnInsert(_, value) => Store(ToSqlValue(value))
  }

  datatype Dialect = IsoDefaultKeyword | NoDefaultKeyword

  datatype Token = Default | Bound(value: SqlValue)

  datatype Insert = DefaultValues | ColumnsAndValues(columns: seq<string>, values: seq<Token>)

  /** `is_noop` of one value: only an absent one in a dialect that has nothing to write for it. */
  predicate IsNoop(d: Dialect, v: InsertValue) {
    d.NoDefaultKeyword? && v.Defaultable? && v.expr.None?
  }

  function Written(v: InsertValue): Token {
    if MeaningOfValue(v).LeaveOut? then Default else Bound(MeaningOfValue(v).value)
  }

  /** The values that a dialect lists. */
  function Listed(d: Dialect, values: seq<InsertValue>): (r: seq<InsertValue>)
    ensures forall v :: v in r <==> v in values && !IsNoop(d, v)
  {
    if values == [] then []
    else
      var front, last := values[..|values| - 1], values[|values| - 1];
      assert values == front + [last];
      if IsNoop(d, last) then Listed(d, front) else Listed(d, front) + [last]
  }

  /** `InsertValues::column_names` of the tuple. */
  method ColumnNames(d: Dialect, values: seq<InsertValue>) returns (names: seq<string>)
    ensures |names| == |Listed(d, values)| && forall k :: 0 <= k < |names| ==> names[k] == Listed(d, values)[k].column
  {
    names := [];
    for i := 0 to |values|
      invariant var listed := Listed(d, values[..i]);
                |names| == |listed| && forall k :: 0 <= k < |names| ==> names[k] == listed[k].column
    {
      assert values[..i + 1][..i] == values[..i];
      if !IsNoop(d, values[i]) {
        names := names + [values[i].column];
      }
    }
    assert values[..|values|] == values;
  }

  /** `walk_ast` of the tuple: `DEFAULT` or the value, and nothing for what is skipped. */
  method ValueList(d: Dialect, values: seq<InsertValue>) returns (tokens: seq<Token>)
    ensures |tokens| == |Listed(d, values)| && forall k :: 0 <= k < |tokens| ==> tokens[k] == Written(Listed(d, values)[k])
  {
    tokens := [];
    for i := 0 to |values|
      invariant var listed := Listed(d, values[..i]);
                |tokens| == |listed| && forall k :: 0 <= k < |tokens| ==> tokens[k] == Written(listed[k])
    {
      assert values[..i + 1][..i] == values[..i];
      if !IsNoop(d, values[i]) {
        match values[i] {
          case Defaultable(_, expr) =>
            tokens := tokens + [if expr.None? then Default else Bound(ToSqlValue(expr.value))];
          case ColumnInsert(_, value) =>
            tokens := tokens + [Bound(ToSqlValue(value))];
        }
      }
    }
    assert values[..|values|] == values;
  }

  /** The statement is for these values: each listed column stands at the position of its own value, and
      with nothing to list all columns get their defaults. */
  ghost predicate IsInsertOf(d: Dialect, values: seq<InsertValue>, stmt: Insert) {
    var listed := Listed(d, values);
    if listed == [] then stmt == DefaultValues
    else
      && stmt.ColumnsAndValues? && |stmt.columns| == |listed| == |stmt.values|
      && forall k :: 0 <= k < |listed| ==> stmt.columns[k] == listed[k].column && stmt.values[k] == Written(listed[k])
  }

  /** `ValuesClause::walk_ast`. */
  method ValuesClause(d: Dialect, values: seq<InsertValue>) returns (stmt: Insert)
    ensures IsInsertOf(d, values, stmt)
  {
    var columns := ColumnNames(d, values);
    var tokens := ValueList(d, values);
    stmt := if columns == [] then DefaultValues else ColumnsAndValues(columns, tokens);
  }

  // ----- the inserted row

  type RowOf = map<string, SqlValue>

  /** What the database does: every column starts with its default, listed columns take their values in order. */
  function Fill(row: RowOf, defaults: RowOf, columns: seq<string>, values: seq<Token>): RowOf
    requires |columns| == |values| && forall k :: 0 <= k < |columns| ==> columns[k] in defaults
  {
    if columns == [] then row
    else
      var last := |columns| - 1;
      Fill(row, defaults, columns[..last], values[..last])
        [columns[last] := if values[last].Default? then defaults[columns[last]] else values[last].value]
  }

  function Execute(stmt: Insert, defaults: RowOf): RowOf
    requires stmt.ColumnsAndValues? ==> |stmt.columns| == |stmt.values| && forall k :: 0 <= k < |stmt.columns| ==> stmt.columns[k] in defaults
  {
    match stmt
    case DefaultValues => defaults
    case ColumnsAndValues(columns, values) => Fill(defaults, defaults, columns, values)
  }

  predicate DistinctColumns(values: seq<InsertValue>) {
    forall i, j :: 0 <= i < j < |values| ==> values[i].column != values[j].column
  }

  predicate ColumnsOf(values: seq<InsertValue>, defaults: RowOf) {
    forall k :: 0 <= k < |values| ==> values[k].column in defaults
  }

  /** The row that the values mean: a stored value where one is given, the default everywhere else. */
  ghost predicate IsMeantRow(values: seq<InsertValue>, defaults: RowOf, row: RowOf) {
    && row.Keys == defaults.Keys
    && (forall k :: 0 <= k < |values| && MeaningOfValue(values[k]).Store? && values[k].column in row ==>
          row[values[k].column] == MeaningOfValue(values[k]).value)
    && (forall c :: c in row && (forall k :: 0 <= k < |values| && values[k].column == c ==> MeaningOfValue(values[k]).LeaveOut?) ==>
          row[c] == defaults[c])
  }

  lemma MeantRowUnique(values: seq<InsertValue>, defaults: RowOf, a: RowOf, b: RowOf)
    requires IsMeantRow(values, defaults, a) && IsMeantRow(values, defaults, b)
    ensures a == b
  {
  }

  /** Filling in distinct columns: each listed column gets its value, the others keep theirs. */
  lemma {:induction false} FillEach(row: RowOf, defaults: RowOf, columns: seq<string>, values: seq<Token>)
    requires |columns| == |values| && forall k :: 0 <= k < |columns| ==> columns[k] in defaults
    requires row.Keys == defaults.Keys
    requires forall i, j :: 0 <= i < j < |columns| ==> columns[i] != columns[j]
    ensures var r := Fill(row, defaults, columns, values);
            && r.Keys == defaults.Keys
            && (forall k :: 0 <= k < |columns| ==>
                  r[columns[k]] == if values[k].Default? then defaults[columns[k]] else values[k].value)
            && (forall c :: c in row && c !in columns ==> r[c] == row[c])
    decreases |columns|
  {
    if columns != [] {
      var last := |columns| - 1;
      FillEach(row, defaults, columns[..last], values[..last]);
    }
  }

  lemma {:induction false} ListedDistinct(d: Dialect, values: seq<InsertValue>)
    requires DistinctColumns(values)
    ensures DistinctColumns(Listed(d, values))
    decreases |values|
  {
    if values != [] {
      var last := |values| - 1;
      ListedDistinct(d, values[..last]);
      forall v | v in Listed(d, values[..last])
        ensures v.column != values[last].column
      {
        assert v in values[..last];
      }
    }
  }

  /** In either dialect the statement inserts the row that the values mean. */
  lemma InsertsMeantRow(d: Dialect, values: seq<InsertValue>, stmt: Insert, defaults: RowOf)
    requires IsInsertOf(d, values, stmt) && DistinctColumns(values) && ColumnsOf(values, defaults)
    ensures stmt.ColumnsAndValues? ==> |stmt.columns| == |stmt.values| && forall k :: 0 <= k < |stmt.columns| ==> stmt.columns[k] in defaults
    ensures IsMeantRow(values, defaults, Execute(stmt, defaults))
  {
    var listed := Listed(d, values);
    forall k | 0 <= k < |listed|
      ensures listed[k].column in defaults
    {
      assert listed[k] in values;
    }
    ListedDistinct(d, values);
    if stmt.ColumnsAndValues? {
      FillEach(defaults, defaults, stmt.columns, stmt.values);
    }
    var row := Execute(stmt, defaults);
    forall k | 0 <= k < |values| && MeaningOfValue(values[k]).Store?
      ensures row[values[k].column] == MeaningOfValue(values[k]).value
    {
      assert values[k] in listed;
      var j :| 0 <= j < |listed| && listed[j] == values[k];
      assert stmt.columns[j] == values[k].column;
    }
    forall c | c in row && (forall k :: 0 <= k < |values| && values[k].column == c ==> MeaningOfValue(values[k]).LeaveOut?)
      ensures row[c] == defaults[c]
    {
      if stmt.ColumnsAndValues? && c in stmt.columns {
        var j :| 0 <= j < |stmt.columns| && stmt.columns[j] == c;
        assert listed[j] in values;
        var k :| 0 <= k < |values| && values[k] == listed[j];
        assert MeaningOfValue(values[k]).LeaveOut?;
      }
    }
  }

  /** Writing DEFAULT for missing values and leaving their columns out insert the same row. */
  lemma DialectsInsertSameRow(values: seq<InsertValue>, iso: Insert, sqlite: Insert, defaults: RowOf)
    requires DistinctColumns(values) && ColumnsOf(values, defaults)
    requires IsInsertOf(IsoDefaultKeyword, values, iso) && IsInsertOf(NoDefaultKeyword, values, sqlite)
    ensures iso.ColumnsAndValues? ==> |iso.columns| == |iso.values| && forall k :: 0 <= k < |iso.columns| ==> iso.columns[k] in defaults
    ensures sqlite.ColumnsAndValues? ==> |sqlite.columns| == |sqlite.values| && forall k :: 0 <= k < |sqlite.columns| ==> sqlite.columns[k] in defaults
    ensures Execute(iso, defaults) == Execute(sqlite, defaults)
  {
    InsertsMeantRow(IsoDefaultKeyword, values, iso, defaults);
    InsertsMeantRow(NoDefaultKeyword, values, sqlite, defaults);
    MeantRowUnique(values, defaults, Execute(iso, defaults), Execute(sqlite, defaults));
  }

  // ----- from the struct to the row

  predicate FieldsDistinct(fields: seq<Field>, pick: Field -> bool) {
    forall i, j :: 0 <= i < j < |fields| && pick(fields[i]) && pick(fields[j]) && fields[i].column.Some? ==>
      fields[i].column != fields[j].column
  }

  predicate FieldColumns(fields: seq<Field>, pick: Field -> bool, row: RowOf) {
    forall i :: 0 <= i < |fields| && pick(fields[i]) && fields[i].column.Some? ==> fields[i].column.value in row
  }

  lemma DerivedFor(fields: seq<Field>, pick: Field -> bool, intent: IntentOf, exprs: seq<Expr>, i: nat) returns (k: nat)
    requires Derives(fields, pick, intent, exprs) && i < |fields| && pick(fields[i])
    ensures k < |exprs| && exprs[k].i == i
  {
    k :| 0 <= k < |Chosen(fields, pick)| && Chosen(fields, pick)[k] == i;
  }

  /** Item `k` is what field `exprs[k].i` contributes. */
  ghost predicate Contributes(fields: seq<Field>, pick: Field -> bool, intent: IntentOf, values: seq<FieldValue>, i: nat,
                              column: string, meaning: Intent)
  {
    && i < |fields| && i < |values| && pick(fields[i]) && fields[i].column == Some(column)
    && meaning == intent(fields[i], values[i])
  }

  ghost predicate Evaluates(exprs: seq<Expr>, values: seq<FieldValue>, items: seq<Item>) {
    |items| == |exprs| && forall k :: 0 <= k < |exprs| ==> exprs[k].i < |values| && items[k] == Eval(exprs[k], values[exprs[k].i])
  }

  /** A derived tuple, evaluated: item by item what the used fields contribute, for different columns. */
  lemma DerivedItems(fields: seq<Field>, pick: Field -> bool, intent: IntentOf, exprs: seq<Expr>, values: seq<FieldValue>,
                     items: seq<Item>, columns: RowOf)
    requires Derives(fields, pick, intent, exprs) && StructTyped(fields, values) && Evaluates(exprs, values, items)
    requires FieldsDistinct(fields, pick) && FieldColumns(fields, pick, columns)
    ensures |items| == |exprs|
    ensures forall k :: 0 <= k < |items| ==> Contributes(fields, pick, intent, values, exprs[k].i, items[k].column, Meaning(items[k]))
    ensures forall k :: 0 <= k < |items| ==> items[k].column in columns
    ensures forall k, l :: 0 <= k < l < |items| ==> items[k].column != items[l].column
  {
  }

  /** The derived record, inserted in either dialect, gives each used field's column what is intended for it
      and every other column its default. */
  lemma DerivedInsertRow(fields: seq<Field>, structDefault: bool, exprs: seq<Expr>, values: seq<FieldValue>,
                         d: Dialect, items: seq<Item>, stmt: Insert, defaults: RowOf)
    requires Derives(fields, Inserted(), InsertIntents(structDefault), exprs) && StructTyped(fields, values)
    requires FieldsDistinct(fields, Inserted()) && FieldColumns(fields, Inserted(), defaults)
    requires Evaluates(exprs, values, items) && IsInsertOf(d, Values(items), stmt)
    ensures stmt.ColumnsAndValues? ==> |stmt.columns| == |stmt.values| && forall k :: 0 <= k < |stmt.columns| ==> stmt.columns[k] in defaults
    ensures IsIntendedRow(fields, Inserted(), InsertIntents(structDefault), values, defaults, Execute(stmt, defaults))
  {
    hide Derives, Says, Execute, IsInsertOf, InsertIntent, Eval, Evaluates, FieldsDistinct, IsMeantRow, UnusedColumn;
    var pick, intent, inserts := Inserted(), InsertIntents(structDefault), Values(items);
    DerivedItems(fields, pick, intent, exprs, values, items, defaults);
    InsertsMeantRow(d, inserts, stmt, defaults);
    var row := Execute(stmt, defaults);
    forall i | 0 <= i < |fields| && pick(fields[i])
      ensures FieldStored(fields[i], intent(fields[i], values[i]), defaults, row)
    {
      var k := DerivedFor(fields, pick, intent, exprs, i);
      MeantAt(inserts, defaults, row, k);
    }
    forall c | c in defaults && UnusedColumn(fields, pick, c)
      ensures row[c] == defaults[c]
    {
      UnusedNotListed(fields, pick, intent, exprs, values, items, c);
      MeantElsewhere(inserts, defaults, row, c);
    }
    MeantKeys(inserts, defaults, row);
  }

  lemma UnusedNotListed(fields: seq<Field>, pick: Field -> bool, intent: IntentOf, exprs: seq<Expr>, values: seq<FieldValue>,
                        items: seq<Item>, c: string)
    requires |items| == |exprs| && UnusedColumn(fields, pick, c)
    requires forall k :: 0 <= k < |items| ==> Contributes(fields, pick, intent, values, exprs[k].i, items[k].column, Meaning(items[k]))
    ensures forall k :: 0 <= k < |items| ==> items[k].column != c
  {
  }

  lemma MeantElsewhere(values: seq<InsertValue>, defaults: RowOf, row: RowOf, c: string)
    requires IsMeantRow(values, defaults, row) && c in defaults && forall k :: 0 <= k < |values| ==> values[k].column != c
    ensures c in row && row[c] == defaults[c]
  {
  }

  lemma MeantKeys(values: seq<InsertValue>, defaults: RowOf, row: RowOf)
    requires IsMeantRow(values, defaults, row)
    ensures row.Keys == defaults.Keys
  {
  }

  lemma MeantAt(values: seq<InsertValue>, defaults: RowOf, row: RowOf, k: nat)
    requires IsMeantRow(values, defaults, row) && DistinctColumns(values) && k < |values| && values[k].column in defaults
    ensures values[k].column in row
    ensures var m := MeaningOfValue(values[k]); row[values[k].column] == if m.Store? then m.value else defaults[values[k].column]
  {
  }

  predicate UnusedColumn(fields: seq<Field>, pick: Field -> bool, c: string) {
    forall j :: 0 <= j < |fields| && pick(fields[j]) ==> fields[j].column != Some(c)
  }

  /** The column of `f` holds what is intended for it, or what it held before. */
  ghost predicate FieldStored(f: Field, intent: Intent, before: RowOf, after: RowOf) {
    && f.column.Some? && f.column.value in before && f.column.value in after
    && after[f.column.value] == if intent.Store? then intent.value else before[f.column.value]
  }

  /** `after` differs from `before` exactly as the used fields intend. */
  ghost predicate IsIntendedRow(fields: seq<Field>, pick: Field -> bool, intent: IntentOf, values: seq<FieldValue>,
                                before: RowOf, after: RowOf)
    requires |values| == |fields|
  {
    && after.Keys == before.Keys
    && (forall i :: 0 <= i < |fields| && pick(fields[i]) ==> FieldStored(fields[i], intent(fields[i], values[i]), before, after))
    && (forall c :: c in before && UnusedColumn(fields, pick, c) ==> after[c] == before[c])
  }

  // ----- updating

  /** The assignments of a changeset: an absent one disappears from the SET clause. */
  method Assignments(items: seq<Item>) returns (assignments: seq<(string, SqlValue)>)
    ensures assignments == AssignmentsOf(items)
  {
    assignments := [];
    for i := 0 to |items|
      invariant assignments == AssignmentsOf(items[..i])
    {
      assert items[..i + 1][..i] == items[..i];
      match items[i] {
        case Optional(c, given) =>
          if given.Some? { assignments := assignments + [(c, ToSqlValue(given.value))]; }
        case Always(c, value) =>
          assignments := assignments + [(c, ToSqlValue(value))];
      }
    }
    assert items[..|items|] == items;
  }

  function AssignmentsOf(items: seq<Item>): seq<(string, SqlValue)> {
    if items == [] then []
    else
      var front, last := items[..|items| - 1], items[|items| - 1];
      var assignments := AssignmentsOf(front);
      if Meaning(last).Store? then assignments + [(last.column, Meaning(last).value)] else assignments
  }

  function Update(row: RowOf, assignments: seq<(string, SqlValue)>): RowOf {
    if assignments == [] then row
    else Update(row, assignments[..|assignments| - 1])[assignments[|assignments| - 1].0 := assignments[|assignments| - 1].1]
  }

  ghost predicate IsUpdateOf(row: RowOf, items: seq<Item>, after: RowOf) {
    && after.Keys == row.Keys
    && (forall k :: 0 <= k < |items| ==> ItemStored(items[k], row, after))
    && (forall c :: c in row && (forall k :: 0 <= k < |items| ==> items[k].column != c) ==> after[c] == row[c])
  }

  ghost predicate ItemStored(item: Item, before: RowOf, after: RowOf) {
    && item.column in before && item.column in after
    && after[item.column] == if Meaning(item).Store? then Meaning(item).value else before[item.column]
  }

  lemma {:induction false} UpdateEach(row: RowOf, items: seq<Item>)
    requires forall i, j :: 0 <= i < j < |items| ==> items[i].column != items[j].column
    requires forall k :: 0 <= k < |items| ==> items[k].column in row
    ensures IsUpdateOf(row, items, Update(row, AssignmentsOf(items)))
    decreases |items|
  {
    if items != [] {
      var last := |items| - 1;
      UpdateEach(row, items[..last]);
      UpdateStep(row, AssignmentsOf(items[..last]), items[last]);
      UpdateLast(row, items, Update(row, AssignmentsOf(items[..last])));
    }
  }

  lemma UpdateStep(row: RowOf, assignments: seq<(string, SqlValue)>, item: Item)
    ensures Meaning(item).Store? ==>
              Update(row, assignments + [(item.column, Meaning(item).value)]) == Update(row, assignments)[item.column := Meaning(item).value]
  {
  }

  lemma UpdateLast(row: RowOf, items: seq<Item>, r: RowOf)
    requires items != [] && IsUpdateOf(row, items[..|items| - 1], r)
    requires forall i, j :: 0 <= i < j < |items| ==> items[i].column != items[j].column
    requires items[|items| - 1].column in row
    ensures var item := items[|items| - 1];
            IsUpdateOf(row, items, if Meaning(item).Store? then r[item.column := Meaning(item).value] else r)
  {
    var item, front := items[|items| - 1], items[..|items| - 1];
    assert r[item.column] == row[item.column];
    var after := if Meaning(item).Store? then r[item.column := Meaning(item).value] else r;
    forall k | 0 <= k < |items|
      ensures ItemStored(items[k], row, after)
    {
      assert k < |front| ==> front[k] == items[k] && ItemStored(front[k], row, r);
    }
  }

  /** A derived changeset changes exactly the columns of updated fields whose value is to be stored; skipped
      fields and primary keys, like all other columns, keep what the row had. */
  lemma DerivedUpdateRow(fields: seq<Field>, keys: seq<string>, structNull: bool, exprs: seq<Expr>, values: seq<FieldValue>,
                         items: seq<Item>, row: RowOf)
    requires Derives(fields, Updated(keys), UpdateIntents(structNull), exprs) && StructTyped(fields, values)
    requires FieldsDistinct(fields, Updated(keys)) && FieldColumns(fields, Updated(keys), row)
    requires Evaluates(exprs, values, items)
    ensures IsIntendedRow(fields, Updated(keys), UpdateIntents(structNull), values, row, Update(row, AssignmentsOf(items)))
    ensures forall c :: c in row && c in keys ==> Update(row, AssignmentsOf(items))[c] == row[c]
  {
    hide Derives, Says, Update, AssignmentsOf, UpdateIntent, Eval, Evaluates, FieldsDistinct, UnusedColumn;
    var pick, intent := Updated(keys), UpdateIntents(structNull);
    DerivedItems(fields, pick, intent, exprs, values, items, row);
    UpdateEach(row, items);
    var after := Update(row, AssignmentsOf(items));
    forall i | 0 <= i < |fields| && pick(fields[i])
      ensures FieldStored(fields[i], intent(fields[i], values[i]), row, after)
    {
      var k := DerivedFor(fields, pick, intent, exprs, i);
      assert ItemStored(items[k], row, after);
    }
    forall c | c in row && UnusedColumn(fields, pick, c)
      ensures after[c] == row[c]
    {
      UnusedNotListed(fields, pick, intent, exprs, values, items, c);
    }
    forall c | c in row && c in keys
      ensures after[c] == row[c]
    {
      KeysUnused(fields, keys, c);
    }
  }

  /** The column that a field has in the table after a record was written to it. */
  ghost predicate Holds(row: RowOf, f: Field, value: SqlValue) {
    f.column.Some? && f.column.value in row && row[f.column.value] == value
  }

  /** What an update stores for every field it uses, attribute by attribute. `None` in an optional field that is not
      to be treated as null leaves the column alone, and any other `None` sets NULL; what is present is stored, and
      `Some(None)` is NULL. With `serialize_as` the same goes for the converted value. */
  lemma UpdateStores(fields: seq<Field>, keys: seq<string>, structNull: bool, exprs: seq<Expr>, values: seq<FieldValue>,
                     items: seq<Item>, row: RowOf, i: nat)
    requires Derives(fields, Updated(keys), UpdateIntents(structNull), exprs) && StructTyped(fields, values)
    requires FieldsDistinct(fields, Updated(keys)) && FieldColumns(fields, Updated(keys), row)
    requires Evaluates(exprs, values, items)
    requires i < |fields| && !fields[i].skipUpdate && fields[i].column.Some? && fields[i].column.value !in keys
    ensures fields[i].column.value in row
    ensures var f, v, after := fields[i], values[i], Update(row, AssignmentsOf(items));
            var asNull := f.treatNoneAsNull == Some(true) || (f.treatNoneAsNull.None? && structNull);
            var was := row[f.column.value];
            && (f.isOption && !asNull && v.raw.Absent? ==> Holds(after, f, was))
            && (f.serializeAs.None? && (!f.isOption || asNull) && v.raw.Absent? ==> Holds(after, f, Null))
            && (f.serializeAs.None? && v.raw.Present? ==> Holds(after, f, v.raw.value))
            && (f.serializeAs.Some? && f.isOption && !asNull && v.raw.Present? ==>
                  Holds(after, f, if v.intoInner.Present? then v.intoInner.value else Null))
            && (f.serializeAs.Some? && (!f.isOption || asNull) ==> Holds(after, f, if v.into.Present? then v.into.value else Null))
  {
    hide Derives, Update, AssignmentsOf, Evaluates, FieldsDistinct, FieldColumns;
    DerivedUpdateRow(fields, keys, structNull, exprs, values, items, row);
    assert Updated(keys)(fields[i]);
    assert FieldStored(fields[i], UpdateIntents(structNull)(fields[i], values[i]), row, Update(row, AssignmentsOf(items)));
  }

  /** A column is left alone unless a field is named for it that is neither skipped nor a primary key. */
  lemma UpdateLeavesAlone(fields: seq<Field>, keys: seq<string>, structNull: bool, exprs: seq<Expr>, values: seq<FieldValue>,
                          items: seq<Item>, row: RowOf, c: string)
    requires Derives(fields, Updated(keys), UpdateIntents(structNull), exprs) && StructTyped(fields, values)
    requires FieldsDistinct(fields, Updated(keys)) && FieldColumns(fields, Updated(keys), row)
    requires Evaluates(exprs, values, items) && c in row
    requires c in keys || forall i :: 0 <= i < |fields| && fields[i].column == Some(c) ==> fields[i].skipUpdate
    ensures var after := Update(row, AssignmentsOf(items)); c in after && after[c] == row[c]
  {
    hide Derives, Update, AssignmentsOf, Evaluates, FieldsDistinct, FieldColumns;
    DerivedUpdateRow(fields, keys, structNull, exprs, values, items, row);
    assert c !in keys ==> UnusedColumn(fields, Updated(keys), c);
  }

  /** What an insert stores for every field it uses, in either dialect: `None` where it is treated as a default gives
      the column's default, and any other `None` NULL; what is present is stored, and `Some(None)` is NULL. With
      `serialize_as` the same goes for the converted value. */
  lemma InsertStores(fields: seq<Field>, structDefault: bool, exprs: seq<Expr>, values: seq<FieldValue>,
                     d: Dialect, items: seq<Item>, stmt: Insert, defaults: RowOf, i: nat)
    requires Derives(fields, Inserted(), InsertIntents(structDefault), exprs) && StructTyped(fields, values)
    requires FieldsDistinct(fields, Inserted()) && FieldColumns(fields, Inserted(), defaults)
    requires Evaluates(exprs, values, items) && IsInsertOf(d, Values(items), stmt)
    requires i < |fields| && !fields[i].skipInsertion && fields[i].column.Some?
    ensures fields[i].column.value in defaults
    ensures stmt.ColumnsAndValues? ==> |stmt.columns| == |stmt.values| && forall k :: 0 <= k < |stmt.columns| ==> stmt.columns[k] in defaults
    ensures var f, row := fields[i], Execute(stmt, defaults);
            var v := if f.serializeAs.Some? then values[i].into else values[i].raw;
            var asDefault := f.treatNoneAsDefault == Some(true) || (f.treatNoneAsDefault.None? && structDefault);
            && (v.Absent? && asDefault ==> Holds(row, f, defaults[f.column.value]))
            && (v.Absent? && !asDefault ==> Holds(row, f, Null))
            && (v.Present? ==> Holds(row, f, v.value))
  {
    hide Derives, Execute, IsInsertOf, Evaluates, FieldsDistinct, FieldColumns;
    DerivedInsertRow(fields, structDefault, exprs, values, d, items, stmt, defaults);
    assert Inserted()(fields[i]);
    assert FieldStored(fields[i], InsertIntents(structDefault)(fields[i], values[i]), defaults, Execute(stmt, defaults));
  }

  /** A column gets its default unless a field is named for it that is not skipped. */
  lemma InsertLeavesDefault(fields: seq<Field>, structDefault: bool, exprs: seq<Expr>, values: seq<FieldValue>,
                            d: Dialect, items: seq<Item>, stmt: Insert, defaults: RowOf, c: string)
    requires Derives(fields, Inserted(), InsertIntents(structDefault), exprs) && StructTyped(fields, values)
    requires FieldsDistinct(fields, Inserted()) && FieldColumns(fields, Inserted(), defaults)
    requires Evaluates(exprs, values, items) && IsInsertOf(d, Values(items), stmt) && c in defaults
    requires forall i :: 0 <= i < |fields| && fields[i].column == Some(c) ==> fields[i].skipInsertion
    ensures stmt.ColumnsAndValues? ==> |stmt.columns| == |stmt.values| && forall k :: 0 <= k < |stmt.columns| ==> stmt.columns[k] in defaults
    ensures var row := Execute(stmt, defaults); c in row && row[c] == defaults[c]
  {
    hide Derives, Execute, IsInsertOf, Evaluates, FieldsDistinct, FieldColumns;
    DerivedInsertRow(fields, structDefault, exprs, values, d, items, stmt, defaults);
    assert UnusedColumn(fields, Inserted(), c);
  }

  // ----- what the two dialects write

  /** With a DEFAULT keyword every column is listed, and DEFAULT stands for what is missing. */
  lemma IsoListsAll(values: seq<InsertValue>, stmt: Insert)
    requires IsInsertOf(IsoDefaultKeyword, values, stmt) && values != []
    ensures stmt.ColumnsAndValues? && |stmt.columns| == |stmt.values| == |values|
    ensures forall k :: 0 <= k < |values| ==>
              && stmt.columns[k] == values[k].column
              && stmt.values[k] == match values[k]
                                   case Defaultable(_, None) => Default
                                   case Defaultable(_, Some(Present(v))) => Bound(v)
                                   case ColumnInsert(_, Present(v)) => Bound(v)
                                   case _ => Bound(Null)
  {
    AllListed(values);
  }

  lemma {:induction false} AllListed(values: seq<InsertValue>)
    ensures Listed(IsoDefaultKeyword, values) == values
    decreases |values|
  {
    if values != [] {
      AllListed(values[..|values| - 1]);
      assert values == values[..|values| - 1] + [values[|values| - 1]];
    }
  }

  /** Without one DEFAULT is never written: the columns of missing values are left out and the others stay in order;
      if all are missing the row is inserted with defaults. */
  lemma SqliteListsPresent(values: seq<InsertValue>, stmt: Insert) returns (at: seq<nat>)
    requires IsInsertOf(NoDefaultKeyword, values, stmt)
    ensures forall j :: 0 <= j < |at| ==> at[j] < |values|
    ensures forall j, k :: 0 <= j < k < |at| ==> at[j] < at[k]
    ensures forall k :: 0 <= k < |values| ==> (k in at <==> !(values[k].Defaultable? && values[k].expr.None?))
    ensures stmt.DefaultValues? <==> at == []
    ensures stmt.ColumnsAndValues? ==> |stmt.columns| == |stmt.values| == |at|
    ensures stmt.ColumnsAndValues? ==> Default !in stmt.values && forall j :: 0 <= j < |at| ==> stmt.columns[j] == values[at[j]].column
  {
    at := PresentAt(values);
    var listed := Listed(NoDefaultKeyword, values);
    assert forall k :: 0 <= k < |listed| ==> Written(listed[k]).Bound?;
  }

  lemma {:induction false} PresentAt(values: seq<InsertValue>) returns (at: seq<nat>)
    ensures ListedFrom(values, at, Listed(NoDefaultKeyword, values)) && ArePresent(values, at)
    decreases |values|
  {
    if values == [] {
      at := [];
    } else {
      hide *;
      var last := |values| - 1;
      at := PresentAt(values[..last]);
      ListedStep(values);
      PresentStep(values, at);
      FromStep(values, at, Listed(NoDefaultKeyword, values[..last]));
      if !IsNoop(NoDefaultKeyword, values[last]) { at := at + [last]; }
    }
  }

  /** The values at these ascending positions. */
  ghost predicate ListedFrom(values: seq<InsertValue>, at: seq<nat>, listed: seq<InsertValue>) {
    && |at| == |listed|
    && (forall j :: 0 <= j < |at| ==> at[j] < |values| && values[at[j]] == listed[j])
    && (forall j, k :: 0 <= j < k < |at| ==> at[j] < at[k])
  }

  lemma FromStep(values: seq<InsertValue>, at: seq<nat>, listed: seq<InsertValue>)
    requires values != [] && ListedFrom(values[..|values| - 1], at, listed)
    ensures ListedFrom(values, at, listed) && ListedFrom(values, at + [|values| - 1], listed + [values[|values| - 1]])
  {
  }

  lemma ListedStep(values: seq<InsertValue>)
    requires values != []
    ensures var front, last := values[..|values| - 1], values[|values| - 1];
            Listed(NoDefaultKeyword, values)
            == if IsNoop(NoDefaultKeyword, last) then Listed(NoDefaultKeyword, front) else Listed(NoDefaultKeyword, front) + [last]
  {
  }

  ghost predicate ArePresent(values: seq<InsertValue>, at: seq<nat>) {
    forall k :: 0 <= k < |values| ==> (k in at <==> !(values[k].Defaultable? && values[k].expr.None?))
  }

  lemma PresentStep(values: seq<InsertValue>, at: seq<nat>)
    requires values != [] && ArePresent(values[..|values| - 1], at)
    requires ListedFrom(values[..|values| - 1], at, Listed(NoDefaultKeyword, values[..|values| - 1]))
    ensures ArePresent(values, if IsNoop(NoDefaultKeyword, values[|values| - 1]) then at else at + [|values| - 1])
  {
    var last := |values| - 1;
    assert forall k :: k in at + [last] <==> k in at || k == last;
    assert forall k :: 0 <= k < last ==> values[..last][k] == values[k];
  }

  lemma KeysUnused(fields: seq<Field>, keys: seq<string>, c: string)
    requires c in keys
    ensures UnusedColumn(fields, Updated(keys), c)
  {
  }
}
