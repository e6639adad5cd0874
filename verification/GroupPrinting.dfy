/** The `allow_tables_to_appear_in_same_query!` part of the schema printer:
    `QueryRelationDefinitions::fmt` in diesel_cli/src/print_schema.rs. */
module GroupPrinting {
  import opened Ordering
  import opened ForeignKeyGroups
  import opened Indentation

  datatype Relation = Table(name: TableName) | View(name: TableName)

  datatype SameQueryConfig = FkRelatedTables | AllTables | NoTables

  /** The names of the tables, without the views. */
  function TableNames(data: seq<Relation>): (names: seq<TableName>)
    ensures forall x :: x in names <==> Table(x) in data
  {
    if data == [] then []
    else
      assert forall r :: r in data <==> r == data[0] || r in data[1..];
      if data[0].Table? then [data[0].name] + TableNames(data[1..]) else TableNames(data[1..])
  }

  function RelationNames(data: seq<Relation>): (names: seq<TableName>)
    ensures |names| == |data| && forall k :: 0 <= k < |names| ==> names[k] == data[k].name
  {
    if data == [] then [] else [data[0].name] + RelationNames(data[1..])
  }

  /** The groups that are printed: those with at least two tables. */
  function Large(groups: seq<seq<TableName>>): (large: seq<seq<TableName>>)
    ensures forall g :: g in large <==> g in groups && |g| >= 2
  {
    if groups == [] then []
    else
      var front, last := groups[..|groups| - 1], groups[|groups| - 1];
      assert groups == front + [last];
      if |last| >= 2 then Large(front) + [last] else Large(front)
  }

  const MACRO := "diesel::allow_tables_to_appear_in_same_query!("

  function NameList(group: seq<TableName>): string {
    if group == [] then "" else NameList(group[..|group| - 1]) + (group[|group| - 1].rustName + ",")
  }

  /** One macro call: the names on one line, indented by four. */
  function Invocation(group: seq<TableName>): string {
    MACRO + Indented(PAD, "\n" + NameList(group), false) + ");\n"
  }

  function Invocations(groups: seq<seq<TableName>>): string {
    if groups == [] then "" else Invocations(groups[..|groups| - 1]) + Invocation(groups[|groups| - 1])
  }

  method PrintTableGroups(config: SameQueryConfig, data: seq<Relation>, fks: seq<ForeignKey>, f0: string)
    returns (f: string, groups: seq<seq<TableName>>)
    ensures config.FkRelatedTables? ==> IsGrouping(TableNames(data), fks, groups)
    ensures config.AllTables? ==> groups == [RelationNames(data)]
    ensures config.NoTables? ==> groups == []
    ensures f == f0 + (if Large(groups) == [] then "" else "\n" + Invocations(Large(groups)))
  {
    match config {
      case FkRelatedTables => groups := ForeignKeyTableGroups(TableNames(data), fks);
      case AllTables => groups := [RelationNames(data)];
      case NoTables => groups := [];
    }
    f := PrintGroups(groups, f0);
  }

  method PrintGroups(groups: seq<seq<TableName>>, f0: string) returns (f: string)
    ensures f == f0 + (if Large(groups) == [] then "" else "\n" + Invocations(Large(groups)))
  {
    f := f0;
    var index := 0;
    hide Invocation, Invocations;
    for i := 0 to |groups|
      invariant index == |Large(groups[..i])|
      invariant f == f0 + (if index == 0 then "" else "\n" + Invocations(Large(groups[..i])))
    {
      LargeAppend(groups[..i], groups[i]);
      assert groups[..i + 1] == groups[..i] + [groups[i]];
      if |groups[i]| >= 2 {
        if index == 0 {
          f := f + "\n";
        }
        InvocationsText(f0, Large(groups[..i]), groups[i]);
        f := PrintGroup(groups[i], f);
        index := index + 1;
      }
    }
    assert groups[..|groups|] == groups;
  }

  method PrintGroup(group: seq<TableName>, f0: string) returns (f: string)
    ensures f == f0 + Invocation(group)
  {
    f := f0 + MACRO;
    var out := new PadAdapter(f);
    out.WriteStr("\n");
    ghost var text := "\n";
    for j := 0 to |group|
      invariant text == "\n" + NameList(group[..j])
      invariant out.fmt == f + Indented(PAD, text, false)
      invariant out.onNewline == EndsLine(text, false)
    {
      assert group[..j + 1][..j] == group[..j];
      WriteName(f, text, group[j].rustName);
      ConcatAssociative("\n", NameList(group[..j]), group[j].rustName + ",");
      out.WriteStr(group[j].rustName);
      out.WriteStr(",");
      text := text + (group[j].rustName + ",");
    }
    assert group[..|group|] == group;
    InvocationText(f0, group);
    f := out.fmt + ");\n";
  }

  lemma LargeAppend(groups: seq<seq<TableName>>, g: seq<TableName>)
    ensures Large(groups + [g]) == if |g| >= 2 then Large(groups) + [g] else Large(groups)
  {
  }

  /** Writing a name and its comma in two calls is writing them in one. */
  lemma WriteName(f: string, text: string, name: string)
    ensures f + Indented(PAD, text, false) + Indented(PAD, name, EndsLine(text, false))
              + Indented(PAD, ",", EndsLine(name, EndsLine(text, false)))
         == f + Indented(PAD, text + (name + ","), false)
    ensures EndsLine(text + (name + ","), false) == EndsLine(",", EndsLine(name, EndsLine(text, false)))
  {
    IndentedAppend(PAD, name, ",", EndsLine(text, false));
    IndentedAppend(PAD, text, name + ",", false);
    var a, b := Indented(PAD, text, false), Indented(PAD, name, EndsLine(text, false));
    var c := Indented(PAD, ",", EndsLine(name, EndsLine(text, false)));
    ConcatAssociative(f, a, b);
    ConcatAssociative(f, a + b, c);
    ConcatAssociative(a, b, c);
  }

  lemma InvocationText(lead: string, g: seq<TableName>)
    ensures lead + MACRO + Indented(PAD, "\n" + NameList(g), false) + ");\n" == lead + Invocation(g)
  {
  }

  lemma InvocationsText(f0: string, large: seq<seq<TableName>>, g: seq<TableName>)
    ensures (if large == [] then f0 + "\n" else f0 + ("\n" + Invocations(large))) + Invocation(g)
         == f0 + ("\n" + Invocations(large + [g]))
  {
    assert (large + [g])[..|large|] == large;
    var x, y := Invocations(large), Invocation(g);
    if large == [] {
      assert "" + y == y;
      ConcatAssociative(f0, "\n", y);
    } else {
      ConcatAssociative(f0, "\n" + x, y);
      ConcatAssociative("\n", x, y);
    }
  }

  /** With identifiers for names, the call spans two lines: the opening one and one padded line. */
  lemma InvocationLayout(g: seq<TableName>)
    requires g != [] && forall x :: x in g ==> '\n' !in x.rustName
    ensures Invocation(g) == MACRO + "\n" + (PAD + NameList(g)) + ");\n"
  {
    var names := NameList(g);
    NamesOnOneLine(g);
    hide NameList;
    assert ("\n" + names)[1..] == names;
    assert '\n' !in names[..|names| - 1];
    IndentedChunk(PAD, names, true);
    assert names != "\n" by { assert names[0] in names; }
    assert MACRO + ("\n" + (PAD + names)) + ");\n" == MACRO + "\n" + (PAD + names) + ");\n";
  }

  lemma {:induction false} NamesOnOneLine(g: seq<TableName>)
    requires g != [] && forall x :: x in g ==> '\n' !in x.rustName
    ensures NameList(g) != "" && '\n' !in NameList(g)
  {
    var last := g[|g| - 1];
    assert last in g;
    if |g| > 1 {
      NamesOnOneLine(g[..|g| - 1]);
    } else {
      assert NameList(g[..|g| - 1]) == "";
    }
  }

  ghost predicate TogetherAt(groups: seq<seq<TableName>>, k: int, a: TableName, b: TableName) {
    0 <= k < |groups| && a in groups[k] && b in groups[k]
  }

  /** Two different listed tables are allowed in the same query by some printed group exactly when
      foreign keys connect them. */
  lemma PrintedTogetherIffConnected(tables: seq<TableName>, fks: seq<ForeignKey>, groups: seq<seq<TableName>>,
                                    a: TableName, b: TableName)
    requires IsGrouping(tables, fks, groups) && a in tables && b in tables && a != b
    ensures (exists k :: TogetherAt(Large(groups), k, a, b)) <==> Connected(fks, a, b)
  {
    assert InSomeGroup(groups, a);
    SameGroupIffConnected(tables, fks, groups, a, b);
    hide IsGrouping, Connected, Large;
    if k :| TogetherAt(Large(groups), k, a, b) {
      assert Large(groups)[k] in groups;
      assert SameGroup(groups, a, b);
    }
    if SameGroup(groups, a, b) {
      var g :| g in groups && a in g && b in g;
      TwoMembers(g, a, b);
      assert g in Large(groups);
      var k :| 0 <= k < |Large(groups)| && Large(groups)[k] == g;
      assert TogetherAt(Large(groups), k, a, b);
    }
  }

  lemma TwoMembers(g: seq<TableName>, a: TableName, b: TableName)
    requires a in g && b in g && a != b
    ensures |g| >= 2
  {
  }

  /** No table is printed in two groups. */
  lemma PrintedOnce(tables: seq<TableName>, fks: seq<ForeignKey>, groups: seq<seq<TableName>>, a: TableName, j: int, k: int)
    requires IsGrouping(tables, fks, groups)
    requires 0 <= j < |Large(groups)| && 0 <= k < |Large(groups)| && a in Large(groups)[j] && a in Large(groups)[k]
    ensures j == k
  {
    LargeNoDuplicates(groups);
    GroupsDisjoint(tables, fks, groups, Large(groups)[j], Large(groups)[k], a);
  }

  lemma {:induction false} LargeNoDuplicates(groups: seq<seq<TableName>>)
    requires NoDuplicates(groups)
    ensures NoDuplicates(Large(groups))
  {
    if groups != [] {
      var k := |groups| - 1;
      assert groups[k] !in groups[..k];
      LargeNoDuplicates(groups[..k]);
    }
  }

  /** Every foreign key between two different listed tables is served by exactly one printed group. */
  lemma ForeignKeyPrintedOnce(tables: seq<TableName>, fks: seq<ForeignKey>, groups: seq<seq<TableName>>, fk: ForeignKey)
    returns (k: int)
    requires IsGrouping(tables, fks, groups) && fk in fks
    requires fk.childTable in tables && fk.parentTable in tables && fk.childTable != fk.parentTable
    ensures TogetherAt(Large(groups), k, fk.childTable, fk.parentTable)
    ensures forall j :: 0 <= j < |Large(groups)| && (fk.childTable in Large(groups)[j] || fk.parentTable in Large(groups)[j]) ==> j == k
  {
    assert Joins(fk, fk.childTable, fk.parentTable);
    ConnectedReflexive(fks, fk.childTable);
    ConnectedStep(fks, fk.childTable, fk.childTable, fk.parentTable);
    PrintedTogetherIffConnected(tables, fks, groups, fk.childTable, fk.parentTable);
    k :| TogetherAt(Large(groups), k, fk.childTable, fk.parentTable);
    forall j | 0 <= j < |Large(groups)| && (fk.childTable in Large(groups)[j] || fk.parentTable in Large(groups)[j])
      ensures j == k
    {
      PrintedOnce(tables, fks, groups, if fk.childTable in Large(groups)[j] then fk.childTable else fk.parentTable, j, k);
    }
  }

  /** What is printed for posts that refer to users, next to tags that refer to nothing. */
  lemma BlogInFull(f: string, groups: seq<seq<TableName>>)
    requires IsGrouping([USERS, TAGS, POSTS], [ForeignKey(POSTS, USERS)], groups)
    requires f == (if Large(groups) == [] then "" else "\n" + Invocations(Large(groups)))
    ensures f == "\n" + "diesel::allow_tables_to_appear_in_same_query!(\n    posts,users,);\n"
  {
    BlogGroups(groups);
    hide IsGrouping;
    BlogLarge();
    BlogNames();
    hide Large, Invocation, NameList, Indented;
    InvocationLayout([POSTS, USERS]);
    OneInvocation([POSTS, USERS]);
    BlogWords();
  }

  lemma BlogLarge()
    ensures Large([[POSTS, USERS], [TAGS]]) == [[POSTS, USERS]]
  {
    LargeAppend([[POSTS, USERS]], [TAGS]);
    LargeAppend([], [POSTS, USERS]);
    assert [[POSTS, USERS]] + [[TAGS]] == [[POSTS, USERS], [TAGS]] && [] + [[POSTS, USERS]] == [[POSTS, USERS]];
  }

  lemma BlogNames()
    ensures NameList([POSTS, USERS]) == "posts,users,"
    ensures forall x :: x in [POSTS, USERS] ==> '\n' !in x.rustName
  {
    assert [POSTS, USERS][..1] == [POSTS] && [POSTS][..0] == [];
    assert NameList([POSTS]) == "" + "posts,";
  }

  lemma OneInvocation(g: seq<TableName>)
    ensures Invocations([g]) == Invocation(g)
  {
    assert [g][..0] == [] && "" + Invocation(g) == Invocation(g);
  }

  lemma BlogWords()
    ensures "\n" + (MACRO + "\n" + (PAD + "posts,users,") + ");\n")
         == "\n" + "diesel::allow_tables_to_appear_in_same_query!(\n    posts,users,);\n"
  {
    assert PAD + "posts,users," == "    posts,users,";
    assert MACRO + "\n" == "diesel::allow_tables_to_appear_in_same_query!(\n";
    assert MACRO + "\n" + "    posts,users," == "diesel::allow_tables_to_appear_in_same_query!(\n    posts,users,";
    assert MACRO + "\n" + "    posts,users," + ");\n" == "diesel::allow_tables_to_appear_in_same_query!(\n    posts,users,);\n";
  }
}
