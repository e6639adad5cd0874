/** Custom SQL types in a schema printed for PostgreSQL: which types are overridden, defined and imported,
    in diesel_cli/src/print_schema.rs. */
module CustomTypes {
  import opened Prelude
  import opened Ordering

  /** What a type definition is made of. */
  datatype ColumnType = ColumnType(rustName: string, sqlName: string, schema: Option<string>)

  datatype Column = Column(rustName: string, ty: ColumnType)

  datatype Relation = Relation(name: string, columns: seq<Column>)

  // ----- the overrides

  /** A column's type is overridden unless Diesel provides it or the configuration excepts its name. */
  function Override(provided: set<string>, excepted: string -> bool, c: Column): Option<ColumnType> {
    if c.ty.rustName in provided || excepted(c.ty.rustName) then None else Some(c.ty)
  }

  function RelationOverrides(provided: set<string>, excepted: string -> bool, columns: seq<Column>)
    : (r: seq<Option<ColumnType>>)
    ensures |r| == |columns| && forall i :: 0 <= i < |r| ==> r[i] == Override(provided, excepted, columns[i])
  {
    if columns == [] then []
    else [Override(provided, excepted, columns[0])] + RelationOverrides(provided, excepted, columns[1..])
  }

  function Overrides(provided: set<string>, excepted: string -> bool, data: seq<Relation>)
    : (r: seq<seq<Option<ColumnType>>>)
    ensures |r| == |data| && forall i :: 0 <= i < |r| ==> r[i] == RelationOverrides(provided, excepted, data[i].columns)
  {
    if data == [] then []
    else [RelationOverrides(provided, excepted, data[0].columns)] + Overrides(provided, excepted, data[1..])
  }

  function Present(overrides: seq<Option<ColumnType>>): (r: seq<ColumnType>)
    ensures forall t :: t in r <==> Some(t) in overrides
  {
    if overrides == [] then []
    else
      assert forall o :: o in overrides <==> o == overrides[0] || o in overrides[1..];
      if overrides[0].Some? then [overrides[0].value] + Present(overrides[1..]) else Present(overrides[1..])
  }

  function Flattened(overrides: seq<seq<Option<ColumnType>>>): (r: seq<ColumnType>)
    ensures forall t :: t in r <==> exists i :: 0 <= i < |overrides| && Some(t) in overrides[i]
  {
    if overrides == [] then []
    else
      assert forall i :: 1 <= i < |overrides| ==> overrides[i] == overrides[1..][i - 1];
      Present(overrides[0]) + Flattened(overrides[1..])
  }

  // ----- the definitions

  predicate NameLe(a: ColumnType, b: ColumnType) { StringLe(a.rustName, b.rustName) }

  lemma NamePreorder()
    ensures Preorder(NameLe)
  {
    forall a, b, c
      ensures NameLe(a, b) || NameLe(b, a)
      ensures NameLe(a, b) && NameLe(b, c) ==> NameLe(a, c)
    {
      StringOrder(a.rustName, b.rustName, c.rustName);
    }
  }

  function Names(types: seq<ColumnType>): (r: seq<string>)
    ensures |r| == |types| && forall i :: 0 <= i < |r| ==> r[i] == types[i].rustName
  {
    if types == [] then [] else [types[0].rustName] + Names(types[1..])
  }

  /** `dedup_by_key` on the names: of each run of equal names the first type stays. */
  method Dedup(types: seq<ColumnType>) returns (kept: seq<ColumnType>)
    requires Sorted(NameLe, types)
    ensures StrictlySorted(StringLe, Names(kept))
    ensures forall t :: t in kept ==> t in types
    ensures forall t :: t in types ==> t.rustName in Names(kept)
  {
    hide StringLe;
    kept := [];
    for i := 0 to |types|
      invariant Sorted(NameLe, kept) && NoDuplicates(Names(kept))
      invariant forall t :: t in kept ==> t in types[..i]
      invariant forall j :: 0 <= j < i ==> types[j].rustName in Names(kept)
      invariant kept != [] ==> i > 0 && kept[|kept| - 1].rustName == types[i - 1].rustName
      invariant kept == [] ==> i == 0
    {
      if kept == [] || kept[|kept| - 1].rustName != types[i].rustName {
        NewNameIsLast(types, i, kept);
        assert Names(kept + [types[i]]) == Names(kept) + [types[i].rustName];
        kept := kept + [types[i]];
      }
    }
    assert types[..|types|] == types;
  }

  /** In sorted types a name that differs from the last one kept is a new name and comes after all others. */
  lemma NewNameIsLast(types: seq<ColumnType>, i: nat, kept: seq<ColumnType>)
    requires Sorted(NameLe, types) && i < |types| && Sorted(NameLe, kept)
    requires forall t :: t in kept ==> t in types[..i]
    requires kept != [] ==> kept[|kept| - 1].rustName != types[i].rustName
    ensures types[i].rustName !in Names(kept)
    ensures Sorted(NameLe, kept + [types[i]])
  {
    hide *;
    forall k | 0 <= k < |kept|
      ensures Below(kept[k], types[i])
    {
      KeptBelowNext(types, i, kept, k);
    }
    LastInOrder(kept, types[i]);
  }

  predicate Below(t: ColumnType, next: ColumnType) { NameLe(t, next) && t.rustName != next.rustName }

  lemma LastInOrder(kept: seq<ColumnType>, next: ColumnType)
    requires Sorted(NameLe, kept) && forall k :: 0 <= k < |kept| ==> Below(kept[k], next)
    ensures next.rustName !in Names(kept) && Sorted(NameLe, kept + [next])
  {
    hide NameLe, StringLe;
  }

  lemma KeptBelowNext(types: seq<ColumnType>, i: nat, kept: seq<ColumnType>, k: nat)
    requires Sorted(NameLe, types) && i < |types| && Sorted(NameLe, kept) && k < |kept|
    requires forall t :: t in kept ==> t in types[..i]
    requires kept[|kept| - 1].rustName != types[i].rustName
    ensures Below(kept[k], types[i])
  {
    hide NameLe, StringLe;
    var last := kept[|kept| - 1];
    assert last in kept;
    KeptBelow(kept, k);
    BelowNext(types, i, last);
    BelowLast(kept[k], last, types[i]);
  }

  lemma KeptBelow(kept: seq<ColumnType>, k: nat)
    requires Sorted(NameLe, kept) && k < |kept|
    ensures NameLe(kept[k], kept[|kept| - 1]) || kept[k] == kept[|kept| - 1]
  {
  }

  lemma BelowLast(t: ColumnType, last: ColumnType, next: ColumnType)
    requires NameLe(t, last) || t == last
    requires NameLe(last, next) && last.rustName != next.rustName
    ensures NameLe(t, next) && t.rustName != next.rustName
  {
    hide StringLe;
    StringOrder(t.rustName, last.rustName, next.rustName);
    StringOrder(last.rustName, next.rustName, last.rustName);
  }

  lemma BelowNext(types: seq<ColumnType>, i: nat, t: ColumnType)
    requires Sorted(NameLe, types) && i < |types| && t in types[..i]
    ensures NameLe(t, types[i])
  {
  }

  /** The types defined in `sql_types`: names strictly increasing, and exactly the overridden names. */
  ghost predicate IsDefinitions(overrides: seq<seq<Option<ColumnType>>>, types: seq<ColumnType>) {
    && StrictlySorted(StringLe, Names(types))
    && (forall t :: t in types ==> t in Flattened(overrides))
    && (forall t :: t in Flattened(overrides) ==> t.rustName in Names(types))
  }

  /** The Postgres branch of the printer: the types of the `sql_types` module. */
  method TypesToGenerate(overrides: seq<seq<Option<ColumnType>>>) returns (types: seq<ColumnType>)
    ensures IsDefinitions(overrides, types)
  {
    types := Flattened(overrides);
    if types == [] {
      return;
    }
    NamePreorder();
    SortSorts(NameLe, types);
    SameElements(Sort(NameLe, types), types);
    types := Sort(NameLe, types);
    types := Dedup(types);
  }

  // ----- the imports of one table

  datatype Import = UserImport(path: string) | DieselTypes | CustomType(name: string)

  function UserImports(paths: seq<string>): (r: seq<Import>)
    ensures |r| == |paths| && forall i :: 0 <= i < |r| ==> r[i] == UserImport(paths[i])
  {
    if paths == [] then [] else [UserImport(paths[0])] + UserImports(paths[1..])
  }

  /** Each name once, where it occurs first. */
  function FirstSeen(names: seq<string>): (r: seq<string>)
    ensures forall name :: name in r <==> name in names
  {
    if names == [] then []
    else
      var front, last := names[..|names| - 1], names[|names| - 1];
      assert names == front + [last];
      if last in front then FirstSeen(front) else FirstSeen(front) + [last]
  }

  function CustomImports(names: seq<string>): (r: seq<Import>)
    ensures |r| == |names| && forall i :: 0 <= i < |r| ==> r[i] == CustomType(names[i])
  {
    if names == [] then [] else [CustomType(names[0])] + CustomImports(names[1..])
  }

  /** The imports of a table: what the user asked for, then Diesel's own types if nothing else was imported
      before the first custom type, then each overridden name where it occurs first. */
  function ImportLines(importTypes: seq<string>, overrides: seq<Option<ColumnType>>): seq<Import> {
    UserImports(importTypes)
    + (if importTypes == [] && Present(overrides) != [] then [DieselTypes] else [])
    + CustomImports(FirstSeen(Names(Present(overrides))))
  }

  lemma NoNames()
    ensures Present([]) == [] && Names([]) == []
  {
  }

  lemma NamesAppend(a: seq<ColumnType>, t: ColumnType)
    ensures Names(a + [t]) == Names(a) + [t.rustName]
  {
  }

  lemma PresentAppend(a: seq<Option<ColumnType>>, o: Option<ColumnType>)
    ensures Present(a + [o]) == if o.Some? then Present(a) + [o.value] else Present(a)
  {
    if a == [] {
      assert a + [o] == [o];
    } else {
      PresentAppend(a[1..], o);
      assert (a + [o])[1..] == a[1..] + [o];
    }
  }

  /** The `use` lines at the head of a table definition. */
  method Imports(importTypes: seq<string>, overrides: seq<Option<ColumnType>>) returns (lines: seq<Import>)
    ensures lines == ImportLines(importTypes, overrides)
  {
    hide Present, Names, UserImports, FirstSeen, CustomImports, ImportLines;
    lines := UserImports(importTypes);
    var hasWrittenImport := importTypes != [];
    var already: set<string> := {};
    NoNames();
    NoImports(importTypes);
    assert overrides[..0] == [];
    for i := 0 to |overrides|
      invariant lines == ImportLines(importTypes, overrides[..i])
      invariant hasWrittenImport <==> importTypes != [] || Present(overrides[..i]) != []
      invariant forall name :: name in already <==> name in Names(Present(overrides[..i]))
    {
      assert overrides[..i + 1] == overrides[..i] + [overrides[i]];
      PresentAppend(overrides[..i], overrides[i]);
      if overrides[i].Some? {
        var name := overrides[i].value.rustName;
        ghost var seen := Present(overrides[..i]);
        NamesAppend(seen, overrides[i].value);
        ImportLinesAppend(importTypes, overrides[..i], overrides[i].value);
        if name !in already {
          already := already + {name};
          assert lines + [] == lines;
          if !hasWrittenImport {
            lines := lines + [DieselTypes];
          }
          lines := lines + [CustomType(name)];
          hasWrittenImport := true;
        }
      } else {
        SameImportLines(importTypes, overrides[..i + 1], overrides[..i]);
      }
    }
    assert overrides[..|overrides|] == overrides;
  }

  lemma SameImportLines(importTypes: seq<string>, a: seq<Option<ColumnType>>, b: seq<Option<ColumnType>>)
    requires Present(a) == Present(b)
    ensures ImportLines(importTypes, a) == ImportLines(importTypes, b)
  {
  }

  lemma NoImports(importTypes: seq<string>)
    ensures ImportLines(importTypes, []) == UserImports(importTypes)
  {
  }

  lemma ImportLinesAppend(importTypes: seq<string>, overrides: seq<Option<ColumnType>>, t: ColumnType)
    ensures var lines, seen := ImportLines(importTypes, overrides), Present(overrides);
            ImportLines(importTypes, overrides + [Some(t)]) ==
              if t.rustName in Names(seen) then lines
              else lines + (if importTypes == [] && seen == [] then [DieselTypes] else []) + [CustomType(t.rustName)]
    ensures t.rustName in Names(Present(overrides)) ==> Present(overrides) != []
  {
    var seen := Present(overrides);
    PresentAppend(overrides, Some(t));
    NamesAppend(seen, t);
    FirstSeenAppend(Names(seen), t.rustName);
    CustomImportsAppend(FirstSeen(Names(seen)), t.rustName);
    NoNames();
    NothingSeen();
    ImportLinesAre(importTypes, overrides);
    ImportLinesAre(importTypes, overrides + [Some(t)]);
    hide *;
    var user, custom, grown := UserImports(importTypes), CustomImports(FirstSeen(Names(seen))), [CustomType(t.rustName)];
    LinesGrow(user, [], custom, grown);
    LinesGrow(user, [DieselTypes], custom, grown);
    FirstLines(user, grown);
  }

  lemma LinesGrow(user: seq<Import>, diesel: seq<Import>, custom: seq<Import>, grown: seq<Import>)
    ensures user + diesel + (custom + grown) == user + diesel + custom + [] + grown
  {
  }

  lemma FirstLines(user: seq<Import>, grown: seq<Import>)
    ensures user + [DieselTypes] + ([] + grown) == user + [] + [] + [DieselTypes] + grown
  {
  }

  lemma ImportLinesAre(importTypes: seq<string>, overrides: seq<Option<ColumnType>>)
    ensures ImportLines(importTypes, overrides)
         == UserImports(importTypes) + (if importTypes == [] && Present(overrides) != [] then [DieselTypes] else [])
            + CustomImports(FirstSeen(Names(Present(overrides))))
  {
  }

  lemma NothingSeen()
    ensures FirstSeen([]) == [] && CustomImports([]) == []
  {
  }

  lemma FirstSeenAppend(names: seq<string>, name: string)
    ensures FirstSeen(names + [name]) == if name in names then FirstSeen(names) else FirstSeen(names) + [name]
  {
  }

  lemma CustomImportsAppend(names: seq<string>, name: string)
    ensures CustomImports(names + [name]) == CustomImports(names) + [CustomType(name)]
  {
  }

  lemma {:induction false} FirstSeenOnce(names: seq<string>)
    ensures NoDuplicates(FirstSeen(names))
    decreases |names|
  {
    if names != [] { FirstSeenOnce(names[..|names| - 1]); }
  }

  /** A table imports exactly its overridden names, each once; Diesel's own types come first, and only when
      the user imports nothing and there is a custom type. */
  lemma ImportsExact(importTypes: seq<string>, overrides: seq<Option<ColumnType>>)
    ensures var lines := ImportLines(importTypes, overrides);
            && NoDuplicates(lines[|importTypes|..])
            && (forall name :: CustomType(name) in lines <==> name in Names(Present(overrides)))
            && (DieselTypes in lines <==> importTypes == [] && Present(overrides) != [])
            && (DieselTypes in lines ==> lines[0] == DieselTypes)
  {
    hide Present, Names, UserImports, FirstSeen, CustomImports;
    var names := FirstSeen(Names(Present(overrides)));
    FirstSeenOnce(Names(Present(overrides)));
    OwnImportsExact(importTypes == [] && Present(overrides) != [], names);
    var lines := ImportLines(importTypes, overrides);
    var own := (if importTypes == [] && Present(overrides) != [] then [DieselTypes] else []) + CustomImports(names);
    assert lines == UserImports(importTypes) + own;
    assert lines[|importTypes|..] == own;
    assert forall l :: l in lines <==> l in UserImports(importTypes) || l in own;
  }

  lemma OwnImportsExact(diesel: bool, names: seq<string>)
    requires NoDuplicates(names)
    ensures var own := (if diesel then [DieselTypes] else []) + CustomImports(names);
            && NoDuplicates(own)
            && (forall name :: CustomType(name) in own <==> name in names)
            && (DieselTypes in own <==> diesel)
  {
  }

  // ----- the printed schema as a whole

  /** The type printed for a column: its override where there is one. */
  function PrintedType(override: Option<ColumnType>, c: Column): ColumnType {
    if override.Some? then override.value else c.ty
  }

  ghost predicate HasName(types: seq<ColumnType>, name: string) {
    exists t :: t in types && t.rustName == name
  }

  lemma NameWitness(types: seq<ColumnType>, name: string)
    ensures name in Names(types) <==> HasName(types, name)
  {
  }

  lemma InFlattened(overrides: seq<seq<Option<ColumnType>>>, name: string)
    ensures name in Names(Flattened(overrides)) <==> exists i :: 0 <= i < |overrides| && name in Names(Present(overrides[i]))
  {
    hide Names, Present, Flattened;
    NameWitness(Flattened(overrides), name);
    forall i | 0 <= i < |overrides|
      ensures name in Names(Present(overrides[i])) <==> HasName(Present(overrides[i]), name)
    {
      NameWitness(Present(overrides[i]), name);
    }
    if t :| t in Flattened(overrides) && t.rustName == name {
      var i :| 0 <= i < |overrides| && Some(t) in overrides[i];
      assert t in Present(overrides[i]);
    }
    if i :| 0 <= i < |overrides| && HasName(Present(overrides[i]), name) {
      var t :| t in Present(overrides[i]) && t.rustName == name;
      assert t in Flattened(overrides);
    }
  }

  lemma DefinedNames(overrides: seq<seq<Option<ColumnType>>>, types: seq<ColumnType>, name: string)
    requires IsDefinitions(overrides, types)
    ensures name in Names(types) <==> name in Names(Flattened(overrides))
  {
    hide Names, Flattened;
    NameWitness(types, name);
    NameWitness(Flattened(overrides), name);
  }

  /** The imports of each table. */
  ghost predicate AllImports(overrides: seq<seq<Option<ColumnType>>>, importTypes: seq<string>, imports: seq<seq<Import>>) {
    |imports| == |overrides| && forall i :: 0 <= i < |imports| ==> imports[i] == ImportLines(importTypes, overrides[i])
  }

  ghost predicate ImportedSomewhere(imports: seq<seq<Import>>, name: string) {
    exists i :: 0 <= i < |imports| && CustomType(name) in imports[i]
  }

  ghost predicate DefinesImported(types: seq<ColumnType>, imports: seq<seq<Import>>) {
    forall name {:trigger ImportedSomewhere(imports, name)} :: name in Names(types) <==> ImportedSomewhere(imports, name)
  }

  /** A name is defined in `sql_types` exactly when some table imports it. */
  lemma DefinedIffImported(overrides: seq<seq<Option<ColumnType>>>, types: seq<ColumnType>,
                           importTypes: seq<string>, imports: seq<seq<Import>>)
    requires IsDefinitions(overrides, types) && AllImports(overrides, importTypes, imports)
    ensures DefinesImported(types, imports)
  {
    hide ImportLines, Names, Present, Flattened, IsDefinitions;
    forall name
      ensures name in Names(types) <==> ImportedSomewhere(imports, name)
    {
      DefinedNames(overrides, types, name);
      InFlattened(overrides, name);
      forall i | 0 <= i < |imports|
        ensures CustomType(name) in imports[i] <==> name in Names(Present(overrides[i]))
      {
        ImportsExact(importTypes, overrides[i]);
      }
    }
  }

  /** Every column prints its own type, and that type is imported into its table exactly when Diesel does
      not provide it and no rule excepts it. */
  lemma ColumnsResolve(provided: set<string>, excepted: string -> bool, importTypes: seq<string>,
                       columns: seq<Column>, lines: seq<Import>, k: nat)
    requires k < |columns|
    requires lines == ImportLines(importTypes, RelationOverrides(provided, excepted, columns))
    ensures PrintedType(RelationOverrides(provided, excepted, columns)[k], columns[k]) == columns[k].ty
    ensures var name := columns[k].ty.rustName;
            name !in provided && !excepted(name) ==> CustomType(name) in lines
    ensures forall name :: CustomType(name) in lines ==> name !in provided && !excepted(name)
  {
    hide ImportLines, Names, Present, RelationOverrides;
    var overrides := RelationOverrides(provided, excepted, columns);
    ImportsExact(importTypes, overrides);
    if overrides[k].Some? {
      assert Some(columns[k].ty) in overrides;
      var j :| 0 <= j < |Present(overrides)| && Present(overrides)[j] == columns[k].ty;
      assert Names(Present(overrides))[j] == columns[k].ty.rustName;
    }
    forall name | CustomType(name) in lines
      ensures name !in provided && !excepted(name)
    {
      var j :| 0 <= j < |Present(overrides)| && Names(Present(overrides))[j] == name;
      assert Some(Present(overrides)[j]) in overrides;
    }
  }

  ghost predicate NamesDetermineTypes(types: seq<ColumnType>) {
    forall a, b :: a in types && b in types && a.rustName == b.rustName ==> a == b
  }

  /** Definitions are kept apart by name only: every overridden type has its own definition exactly when no
      two of them share a name. */
  lemma DefinitionsFaithfulIff(overrides: seq<seq<Option<ColumnType>>>, types: seq<ColumnType>)
    requires IsDefinitions(overrides, types)
    ensures (forall t :: t in Flattened(overrides) ==> t in types) <==> NamesDetermineTypes(Flattened(overrides))
  {
    hide Flattened, StringLe;
    forall a, b | a in types && b in types && a.rustName == b.rustName
      ensures a == b
    {
      var i :| 0 <= i < |types| && types[i] == a;
      var j :| 0 <= j < |types| && types[j] == b;
      assert Names(types)[i] == Names(types)[j];
      assert i == j;
    }
    if NamesDetermineTypes(Flattened(overrides)) {
      forall t | t in Flattened(overrides)
        ensures t in types
      {
        assert t.rustName in Names(types);
        var i :| 0 <= i < |types| && Names(types)[i] == t.rustName;
        assert types[i] in Flattened(overrides);
      }
    }
  }

  /** Definitions stand in the order of their names. */
  lemma DefinitionsInOrder(overrides: seq<seq<Option<ColumnType>>>, types: seq<ColumnType>)
    requires IsDefinitions(overrides, types)
    ensures forall j, k :: 0 <= j < k < |types| ==> Precedes(types[j].rustName, types[k].rustName)
  {
    hide StringLe, Precedes;
    forall j, k | 0 <= j < k < |types|
      ensures Precedes(types[j].rustName, types[k].rustName)
    {
      assert Names(types)[j] == types[j].rustName && Names(types)[k] == types[k].rustName;
      StringLeIff(types[j].rustName, types[k].rustName);
    }
  }

  /** The import of a custom type stands where its name occurs first: after those of names that occur earlier. */
  lemma {:induction false} FirstSeenInOrder(names: seq<string>) returns (at: seq<nat>)
    ensures |at| == |FirstSeen(names)|
    ensures forall j :: 0 <= j < |at| ==>
              at[j] < |names| && names[at[j]] == FirstSeen(names)[j] && names[at[j]] !in names[..at[j]]
    ensures forall j, k :: 0 <= j < k < |at| ==> at[j] < at[k]
    decreases |names|
  {
    if names == [] {
      at := [];
    } else {
      var last := |names| - 1;
      at := FirstSeenInOrder(names[..last]);
      assert forall j :: 0 <= j < |at| ==> names[..last][..at[j]] == names[..at[j]];
      if names[last] !in names[..last] { at := at + [last]; }
    }
  }

  /** First the user's imports, then Diesel's own types if `diesel` says so, then the custom types. */
  predicate InOrder(lines: seq<Import>, user: seq<string>, diesel: bool, custom: seq<string>) {
    var own := |user| + if diesel then 1 else 0;
    && |lines| == own + |custom|
    && (forall k :: 0 <= k < |user| ==> lines[k] == UserImport(user[k]))
    && (diesel ==> lines[|user|] == DieselTypes)
    && (forall k :: own <= k < |lines| ==> lines[k] == CustomType(custom[k - own]))
  }

  /** The imports of a table in order; Diesel's own types are due when the user imports nothing and there is a custom type. */
  lemma ImportsInOrder(importTypes: seq<string>, overrides: seq<Option<ColumnType>>)
    ensures InOrder(ImportLines(importTypes, overrides), importTypes, importTypes == [] && Present(overrides) != [],
                    FirstSeen(Names(Present(overrides))))
  {
    hide *;
    ImportLinesAre(importTypes, overrides);
    LinesInOrder(importTypes, importTypes == [] && Present(overrides) != [], FirstSeen(Names(Present(overrides))));
  }

  lemma LinesInOrder(user: seq<string>, diesel: bool, custom: seq<string>)
    ensures InOrder(UserImports(user) + (if diesel then [DieselTypes] else []) + CustomImports(custom), user, diesel, custom)
  {
    hide UserImports, CustomImports;
    InThreeParts(UserImports(user), if diesel then [DieselTypes] else [], CustomImports(custom));
  }

  lemma InThreeParts<T>(a: seq<T>, b: seq<T>, c: seq<T>)
    ensures var all := a + b + c;
            && |all| == |a| + |b| + |c|
            && (forall k :: 0 <= k < |a| ==> all[k] == a[k])
            && (forall k :: 0 <= k < |b| ==> all[|a| + k] == b[k])
            && (forall k :: 0 <= k < |c| ==> all[|a| + |b| + k] == c[k])
  {
  }

  /** A table with columns of types B, A and B again. */
  lemma ImportsInFull()
    ensures var a, b := ColumnType("A", "a", None), ColumnType("B", "b", None);
            ImportLines([], [Some(b), None, Some(a), Some(b)]) == [DieselTypes, CustomType("B"), CustomType("A")]
  {
    var a, b := ColumnType("A", "a", None), ColumnType("B", "b", None);
    hide *;
    var none: seq<Option<ColumnType>> := [];
    PresentInFull(a, b);
    Grown(none, a, b);
    NoNames();
    NoImports([]);
    NoUserImports();
    ImportLinesAppend([], none, b);
    SameImportLines([], [Some(b), None], [Some(b)]);
    ImportLinesAppend([], [Some(b), None], a);
    ImportLinesAppend([], [Some(b), None, Some(a)], b);
  }

  lemma Grown(none: seq<Option<ColumnType>>, a: ColumnType, b: ColumnType)
    requires none == []
    ensures none + [Some(b)] == [Some(b)] && [Some(b), None] + [Some(a)] == [Some(b), None, Some(a)]
    ensures [Some(b), None, Some(a)] + [Some(b)] == [Some(b), None, Some(a), Some(b)]
  {
  }

  lemma NoUserImports()
    ensures UserImports([]) == []
  {
  }

  lemma PresentInFull(a: ColumnType, b: ColumnType)
    ensures Present([Some(b)]) == [b] && Present([Some(b), None]) == [b] && Present([Some(b), None, Some(a)]) == [b, a]
    ensures Names([b]) == [b.rustName] && Names([b, a]) == [b.rustName, a.rustName]
  {
    NoNames();
    PresentAppend([], Some(b));
    PresentAppend([Some(b)], None);
    PresentAppend([Some(b), None], Some(a));
    assert [] + [Some(b)] == [Some(b)] && [Some(b)] + [None] == [Some(b), None] && [Some(b), None] + [Some(a)] == [Some(b), None, Some(a)];
  }

  /** Two columns of one type name in two schemas: whichever definition is kept, the other type has none. */
  lemma SecondSchemaLost(types: seq<ColumnType>)
    requires IsDefinitions([[Some(ColumnType("Mood", "mood", Some("a"))), Some(ColumnType("Mood", "mood", Some("b")))]], types)
    ensures |types| == 1
    ensures types == [ColumnType("Mood", "mood", Some("a"))] || types == [ColumnType("Mood", "mood", Some("b"))]
  {
    var a, b := ColumnType("Mood", "mood", Some("a")), ColumnType("Mood", "mood", Some("b"));
    var overrides := [[Some(a), Some(b)]];
    hide StringLe;
    assert Some(a) in overrides[0] && a in Flattened(overrides);
    assert "Mood" in Names(types);
    forall k | 0 <= k < |types|
      ensures types[k] in [a, b] && Names(types)[k] == "Mood"
    {
      assert types[k] in Flattened(overrides);
    }
  }
}
