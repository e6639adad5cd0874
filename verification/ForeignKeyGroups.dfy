/** The worklist that groups tables related by foreign keys: `foreign_key_table_groups`
    in diesel_cli/src/print_schema.rs. */
module ForeignKeyGroups {
  import opened Prelude
  import opened Ordering

  datatype TableName = TableName(sqlName: string, rustName: string, schema: Option<string>)

  datatype ForeignKey = ForeignKey(childTable: TableName, parentTable: TableName)

  // ----- the derived orders of table names and of groups

  predicate TableLe(a: TableName, b: TableName) {
    if a.sqlName != b.sqlName then StringLe(a.sqlName, b.sqlName)
    else if a.rustName != b.rustName then StringLe(a.rustName, b.rustName)
    else OptionStringLe(a.schema, b.schema)
  }

  predicate GroupLe(a: seq<TableName>, b: seq<TableName>) { LexLe(TableLe, a, b) }

  lemma TableOrder()
    ensures TotalOrder(TableLe)
  {
    forall a, b, c
      ensures TableLe(a, b) || TableLe(b, a)
      ensures TableLe(a, b) && TableLe(b, a) ==> a == b
      ensures TableLe(a, b) && TableLe(b, c) ==> TableLe(a, c)
    {
      StringOrder(a.sqlName, b.sqlName, c.sqlName);
      StringOrder(b.sqlName, c.sqlName, a.sqlName);
      StringOrder(a.rustName, b.rustName, c.rustName);
      StringOrder(b.rustName, c.rustName, a.rustName);
      OptionStringOrder(a.schema, b.schema, c.schema);
    }
  }

  lemma GroupOrder()
    ensures TotalOrder(GroupLe)
  {
    TableOrder();
    forall a, b
      ensures GroupLe(a, b) || GroupLe(b, a)
      ensures GroupLe(a, b) && GroupLe(b, a) ==> a == b
    {
      LexTotal(TableLe, a, b);
    }
    forall a, b, c | GroupLe(a, b) && GroupLe(b, c)
      ensures GroupLe(a, c)
    {
      LexTransitive(TableLe, a, b, c);
    }
  }

  // ----- the undirected graph

  predicate Joins(fk: ForeignKey, a: TableName, b: TableName) {
    (fk.parentTable == a && fk.childTable == b) || (fk.childTable == a && fk.parentTable == b)
  }

  ghost predicate Adjacent(fks: seq<ForeignKey>, a: TableName, b: TableName) {
    exists fk :: fk in fks && Joins(fk, a, b)
  }

  ghost predicate IsPath(fks: seq<ForeignKey>, p: seq<TableName>) {
    p != [] && forall i :: 0 <= i < |p| - 1 ==> Adjacent(fks, p[i], p[i + 1])
  }

  /** `p` leads from `a` to `b` along foreign keys, each read in either direction. */
  ghost predicate Links(fks: seq<ForeignKey>, p: seq<TableName>, a: TableName, b: TableName) {
    IsPath(fks, p) && p[0] == a && p[|p| - 1] == b
  }

  ghost predicate Connected(fks: seq<ForeignKey>, a: TableName, b: TableName) {
    exists p :: Links(fks, p, a, b)
  }

  ghost predicate Closed(fks: seq<ForeignKey>, names: set<TableName>) {
    forall a, b :: a in names && Adjacent(fks, a, b) ==> b in names
  }

  lemma ConnectedReflexive(fks: seq<ForeignKey>, a: TableName)
    ensures Connected(fks, a, a)
  {
    assert Links(fks, [a], a, a);
  }

  lemma ConnectedStep(fks: seq<ForeignKey>, a: TableName, b: TableName, c: TableName)
    requires Connected(fks, a, b) && Adjacent(fks, b, c)
    ensures Connected(fks, a, c)
  {
    var p :| Links(fks, p, a, b);
    assert Links(fks, p + [c], a, c);
  }

  lemma {:induction false} ConnectedTransitive(
    fks: seq<ForeignKey>, a: TableName, b: TableName, c: TableName, p: seq<TableName>)
    requires Connected(fks, a, b) && Links(fks, p, b, c)
    ensures Connected(fks, a, c)
    decreases |p|
  {
    if |p| > 1 {
      var front := p[..|p| - 1];
      var last := front[|front| - 1];
      assert Links(fks, front, b, last);
      ConnectedTransitive(fks, a, b, last, front);
      assert Adjacent(fks, p[|p| - 2], p[|p| - 1]);
      ConnectedStep(fks, a, last, c);
    }
  }

  lemma {:induction false} ConnectedSymmetric(fks: seq<ForeignKey>, a: TableName, b: TableName, p: seq<TableName>)
    requires Links(fks, p, a, b)
    ensures Connected(fks, b, a)
    decreases |p|
  {
    if |p| == 1 {
      ConnectedReflexive(fks, a);
    } else {
      assert Adjacent(fks, p[0], p[1]);
      assert Links(fks, p[1..], p[1], b);
      ConnectedSymmetric(fks, p[1], b, p[1..]);
      assert Adjacent(fks, p[1], p[0]) by {
        var fk :| fk in fks && Joins(fk, p[0], p[1]);
        assert Joins(fk, p[1], p[0]);
      }
      ConnectedStep(fks, b, p[1], a);
    }
  }

  /** Being joined by a path is an equivalence. */
  lemma ConnectedEquivalence(fks: seq<ForeignKey>, a: TableName, b: TableName, c: TableName)
    ensures Connected(fks, a, a)
    ensures Connected(fks, a, b) ==> Connected(fks, b, a)
    ensures Connected(fks, a, b) && Connected(fks, b, c) ==> Connected(fks, a, c)
  {
    ConnectedReflexive(fks, a);
    if Connected(fks, a, b) {
      var p :| Links(fks, p, a, b);
      ConnectedSymmetric(fks, a, b, p);
      if Connected(fks, b, c) {
        var q :| Links(fks, q, b, c);
        ConnectedTransitive(fks, a, b, c, q);
      }
    }
  }

  lemma {:induction false} ClosedKeepsPaths(fks: seq<ForeignKey>, names: set<TableName>, p: seq<TableName>)
    requires Closed(fks, names) && IsPath(fks, p) && p[0] in names
    ensures p[|p| - 1] in names
    decreases |p|
  {
    if |p| > 1 {
      assert Adjacent(fks, p[0], p[1]);
      assert IsPath(fks, p[1..]);
      ClosedKeepsPaths(fks, names, p[1..]);
    }
  }

  lemma ClosedContainsConnected(fks: seq<ForeignKey>, names: set<TableName>, a: TableName, b: TableName)
    requires Closed(fks, names) && Connected(fks, a, b)
    ensures a in names <==> b in names
  {
    ConnectedEquivalence(fks, a, b, a);
    var p :| Links(fks, p, a, b);
    var q :| Links(fks, q, b, a);
    if a in names { ClosedKeepsPaths(fks, names, p); }
    if b in names { ClosedKeepsPaths(fks, names, q); }
  }

  // ----- the search

  ghost function Endpoints(fks: seq<ForeignKey>): set<TableName> {
    (set fk | fk in fks :: fk.childTable) + (set fk | fk in fks :: fk.parentTable)
  }

  /** `reach` is the set of tables connected to `root`. */
  ghost predicate IsReach(fks: seq<ForeignKey>, root: TableName, reach: iset<TableName>) {
    forall x {:trigger Connected(fks, root, x)} :: x in reach <==> Connected(fks, root, x)
  }

  /** State of one search with `before` already visited: nothing is queued or collected twice,
      only reachable tables are queued or collected, and exactly those have been added to `visited`. */
  ghost predicate SearchState(reach: iset<TableName>, before: set<TableName>, visited: set<TableName>,
                              component: seq<TableName>, pending: seq<TableName>)
  {
    && before <= visited
    && NoDuplicates(component)
    && NoDuplicates(pending)
    && (forall x :: x in component ==> x in reach && x in visited && x !in before && x !in pending)
    && (forall x :: x in pending ==> x in reach && x in visited && x !in before)
    && (forall x :: x in visited ==> x in before || x in component || x in pending)
  }

  ghost predicate NeighboursVisited(fks: seq<ForeignKey>, component: seq<TableName>, visited: set<TableName>) {
    forall x :: x in component ==> NeighboursIn(fks, x, visited)
  }

  ghost predicate NeighboursIn(fks: seq<ForeignKey>, x: TableName, visited: set<TableName>) {
    && (forall y :: y in Children(fks, x) ==> y in visited)
    && (forall y :: y in Parents(fks, x) ==> y in visited)
  }

  /** The child tables of the constraints whose parent is `name`. */
  function Children(fks: seq<ForeignKey>, name: TableName): seq<TableName> {
    if fks == [] then []
    else (if fks[0].parentTable == name then [fks[0].childTable] else []) + Children(fks[1..], name)
  }

  /** The parent tables of the constraints whose child is `name`. */
  function Parents(fks: seq<ForeignKey>, name: TableName): seq<TableName> {
    if fks == [] then []
    else (if fks[0].childTable == name then [fks[0].parentTable] else []) + Parents(fks[1..], name)
  }

  lemma {:induction false} RelatedIsAdjacent(fks: seq<ForeignKey>, name: TableName, x: TableName)
    ensures x in Children(fks, name) || x in Parents(fks, name) <==> Adjacent(fks, name, x)
    ensures Adjacent(fks, name, x) ==> x in Endpoints(fks)
  {
    if fks == [] {
    } else {
      RelatedIsAdjacent(fks[1..], name, x);
      assert forall fk :: fk in fks <==> fk == fks[0] || fk in fks[1..];
      assert Adjacent(fks, name, x) <==> Joins(fks[0], name, x) || Adjacent(fks[1..], name, x);
    }
  }

  /** Runs the `visit` closure on each related table: insert it into the visited set and push it if that was new. */
  method VisitAll(related: seq<TableName>, visited0: set<TableName>, pending0: seq<TableName>,
                  ghost reach: iset<TableName>, ghost before: set<TableName>, ghost component: seq<TableName>)
    returns (visited: set<TableName>, pending: seq<TableName>)
    requires SearchState(reach, before, visited0, component, pending0)
    requires forall x :: x in related ==> x in reach
    ensures SearchState(reach, before, visited, component, pending)
    ensures visited0 <= visited
    ensures forall x :: x in related ==> x in visited
    ensures forall x :: x in visited ==> x in visited0 || x in related
    ensures |visited| - |pending| == |visited0| - |pending0|
  {
    visited, pending := visited0, pending0;
    for i := 0 to |related|
      invariant SearchState(reach, before, visited, component, pending)
      invariant visited0 <= visited
      invariant forall j :: 0 <= j < i ==> related[j] in visited
      invariant forall x :: x in visited ==> x in visited0 || x in related
      invariant |visited| - |pending| == |visited0| - |pending0|
    {
      var name := related[i];
      if name !in visited {
        PushKeepsState(reach, before, visited, component, pending, name);
        visited := visited + {name};
        pending := pending + [name];
      }
    }
  }

  /** One depth-first search: collects exactly the connected component of `root`. */
  method Search(root: TableName, fks: seq<ForeignKey>, before: set<TableName>)
    returns (component: seq<TableName>, visited: set<TableName>)
    requires Closed(fks, before) && root !in before
    ensures NoDuplicates(component)
    ensures forall x :: x in component <==> Connected(fks, root, x)
    ensures visited == before + (set x | x in component)
    ensures Closed(fks, visited)
  {
    ghost var reach := ReachFrom(fks, root);
    visited := before + {root};
    component := [];
    var pending := [root];
    ghost var universe := before + {root} + Endpoints(fks);
    while pending != []
      invariant SearchState(reach, before, visited, component, pending)
      invariant NeighboursVisited(fks, component, visited)
      invariant root in visited && visited <= universe
      decreases |universe| - |visited| + |pending|
    {
      SubsetSize(visited, universe);
      var name := pending[|pending| - 1];
      PopKeepsState(reach, before, visited, component, pending);
      pending := pending[..|pending| - 1];
      component := component + [name];
      RelatedIsReached(fks, root, reach, name);
      visited, pending := VisitAll(Children(fks, name), visited, pending, reach, before, component);
      visited, pending := VisitAll(Parents(fks, name), visited, pending, reach, before, component);
      SubsetSize(visited, universe);
    }
    SearchDone(fks, root, reach, before, visited, component);
  }

  lemma ReachFrom(fks: seq<ForeignKey>, root: TableName) returns (reach: iset<TableName>)
    ensures IsReach(fks, root, reach) && root in reach
  {
    reach := iset x | Connected(fks, root, x);
    ConnectedReflexive(fks, root);
  }

  lemma RelatedIsReached(fks: seq<ForeignKey>, root: TableName, reach: iset<TableName>, name: TableName)
    requires IsReach(fks, root, reach) && name in reach
    ensures forall x :: x in Children(fks, name) ==> x in reach && x in Endpoints(fks)
    ensures forall x :: x in Parents(fks, name) ==> x in reach && x in Endpoints(fks)
  {
    assert Connected(fks, root, name);
    forall x
      ensures x in Children(fks, name) || x in Parents(fks, name) ==> x in reach && x in Endpoints(fks)
    {
      RelatedIsAdjacent(fks, name, x);
      if Adjacent(fks, name, x) { ConnectedStep(fks, root, name, x); }
    }
  }

  lemma PushKeepsState(reach: iset<TableName>, before: set<TableName>, visited: set<TableName>,
                       component: seq<TableName>, pending: seq<TableName>, name: TableName)
    requires SearchState(reach, before, visited, component, pending)
    requires name !in visited && name in reach
    ensures SearchState(reach, before, visited + {name}, component, pending + [name])
  {
  }

  lemma PopKeepsState(reach: iset<TableName>, before: set<TableName>, visited: set<TableName>,
                      component: seq<TableName>, pending: seq<TableName>)
    requires pending != [] && SearchState(reach, before, visited, component, pending)
    ensures var k := |pending| - 1;
            SearchState(reach, before, visited, component + [pending[k]], pending[..k])
    ensures pending[|pending| - 1] in reach
  {
    var k := |pending| - 1;
    assert pending[k] in pending && pending[k] !in component;
    assert pending == pending[..k] + [pending[k]];
    assert pending[k] !in pending[..k];
    assert forall x :: x in component + [pending[k]] <==> x in component || x == pending[k];
  }

  lemma {:induction false} SubsetSize(a: set<TableName>, b: set<TableName>)
    requires a <= b
    ensures |a| <= |b|
  {
    assert b == a + (b - a);
  }

  lemma SearchDone(fks: seq<ForeignKey>, root: TableName, reach: iset<TableName>, before: set<TableName>,
                   visited: set<TableName>, component: seq<TableName>)
    requires Closed(fks, before) && root !in before && root in visited
    requires IsReach(fks, root, reach)
    requires SearchState(reach, before, visited, component, [])
    requires NeighboursVisited(fks, component, visited)
    ensures forall x :: x in component <==> Connected(fks, root, x)
    ensures visited == before + (set x | x in component)
    ensures Closed(fks, visited)
  {
    forall a, b | a in visited && Adjacent(fks, a, b)
      ensures b in visited
    {
      RelatedIsAdjacent(fks, a, b);
      assert a !in before ==> NeighboursIn(fks, a, visited);
    }
    forall x
      ensures x in component <==> Connected(fks, root, x)
    {
      if Connected(fks, root, x) {
        ClosedContainsConnected(fks, visited, root, x);
        ClosedContainsConnected(fks, before, root, x);
      }
    }
  }

  // ----- the grouping

  /** `group` lists, without repetition, the component of one of the tables. */
  ghost predicate IsComponent(tables: seq<TableName>, fks: seq<ForeignKey>, group: seq<TableName>) {
    exists root :: root in tables && IsComponentOf(fks, root, group)
  }

  ghost predicate IsComponentOf(fks: seq<ForeignKey>, root: TableName, group: seq<TableName>) {
    NoDuplicates(group) && forall x :: x in group <==> Connected(fks, root, x)
  }

  ghost predicate SortedComponent(tables: seq<TableName>, fks: seq<ForeignKey>, group: seq<TableName>) {
    StrictlySorted(TableLe, group) && IsComponent(tables, fks, group)
  }

  /** What the grouping promises: sorted groups in sorted order, each the component of a
      table, and every table in one of them. */
  ghost predicate IsGrouping(tables: seq<TableName>, fks: seq<ForeignKey>, groups: seq<seq<TableName>>) {
    && StrictlySorted(GroupLe, groups)
    && (forall g {:trigger SortedComponent(tables, fks, g)} :: g in groups ==> SortedComponent(tables, fks, g))
    && (forall t {:trigger InSomeGroup(groups, t)} :: t in tables ==> InSomeGroup(groups, t))
  }

  ghost predicate InSomeGroup(groups: seq<seq<TableName>>, x: TableName) {
    exists g :: g in groups && x in g
  }

  /** `foreign_key_table_groups`: one `visited` set shared by all searches, each component
      sorted, then the list of components sorted. */
  method ForeignKeyTableGroups(tables: seq<TableName>, fks: seq<ForeignKey>) returns (components: seq<seq<TableName>>)
    ensures IsGrouping(tables, fks, components)
  {
    TableOrder();
    GroupOrder();
    var visited: set<TableName> := {};
    components := [];
    for i := 0 to |tables|
      invariant Closed(fks, visited)
      invariant forall x :: x in visited <==> InSomeGroup(components, x)
      invariant forall j :: 0 <= j < i ==> tables[j] in visited
      invariant forall g :: g in components ==> SortedComponent(tables, fks, g)
      invariant NoDuplicates(components)
    {
      var name := tables[i];
      if name !in visited {
        ghost var visited0, components0 := visited, components;
        var component;
        component, visited := Search(name, fks, visited);
        SortStrict(TableLe, component);
        component := Sort(TableLe, component);
        ConnectedReflexive(fks, name);
        assert name in component;
        assert IsComponentOf(fks, name, component);
        assert component in components0 ==> InSomeGroup(components0, name);
        components := components + [component];
        AddGroup(components0, component);
      }
    }
    SortStrict(GroupLe, components);
    SameGroupsSameMembers(components, Sort(GroupLe, components));
    components := Sort(GroupLe, components);
  }

  lemma SameGroupsSameMembers(groups: seq<seq<TableName>>, groups': seq<seq<TableName>>)
    requires forall g :: g in groups <==> g in groups'
    ensures forall x :: InSomeGroup(groups, x) <==> InSomeGroup(groups', x)
  {
  }

  lemma AddGroup(groups: seq<seq<TableName>>, g: seq<TableName>)
    ensures forall x :: InSomeGroup(groups + [g], x) <==> InSomeGroup(groups, x) || x in g
  {
  }

  // ----- what every grouping satisfies

  lemma GroupIsComponentOfMember(tables: seq<TableName>, fks: seq<ForeignKey>, groups: seq<seq<TableName>>,
                                 g: seq<TableName>, a: TableName)
    requires IsGrouping(tables, fks, groups) && g in groups && a in g
    ensures IsComponentOf(fks, a, g) && StrictlySorted(TableLe, g)
  {
    assert SortedComponent(tables, fks, g);
    var root :| root in tables && IsComponentOf(fks, root, g);
    forall x
      ensures x in g <==> Connected(fks, a, x)
    {
      ConnectedEquivalence(fks, root, a, x);
      ConnectedEquivalence(fks, a, root, x);
      ConnectedEquivalence(fks, root, a, root);
    }
  }

  lemma GroupOf(tables: seq<TableName>, fks: seq<ForeignKey>, groups: seq<seq<TableName>>, a: TableName)
    returns (g: seq<TableName>)
    requires IsGrouping(tables, fks, groups) && InSomeGroup(groups, a)
    ensures g in groups && a in g && IsComponentOf(fks, a, g) && StrictlySorted(TableLe, g)
  {
    g :| g in groups && a in g;
    GroupIsComponentOfMember(tables, fks, groups, g, a);
  }

  ghost predicate SameGroup(groups: seq<seq<TableName>>, a: TableName, b: TableName) {
    exists g :: g in groups && a in g && b in g
  }

  /** Two reached names share a group exactly when an undirected path of foreign keys joins them. */
  lemma SameGroupIffConnected(tables: seq<TableName>, fks: seq<ForeignKey>, groups: seq<seq<TableName>>,
                              a: TableName, b: TableName)
    requires IsGrouping(tables, fks, groups)
    requires InSomeGroup(groups, a)
    ensures SameGroup(groups, a, b) <==> Connected(fks, a, b)
  {
    var h := GroupOf(tables, fks, groups, a);
    if g :| g in groups && a in g && b in g {
      GroupIsComponentOfMember(tables, fks, groups, g, a);
    }
  }

  /** No name is in two groups. */
  lemma GroupsDisjoint(tables: seq<TableName>, fks: seq<ForeignKey>, groups: seq<seq<TableName>>,
                       g: seq<TableName>, h: seq<TableName>, x: TableName)
    requires IsGrouping(tables, fks, groups)
    requires g in groups && h in groups && x in g && x in h
    ensures g == h
  {
    GroupIsComponentOfMember(tables, fks, groups, g, x);
    GroupIsComponentOfMember(tables, fks, groups, h, x);
    TableOrder();
    StrictlySortedUnique(TableLe, g, h);
  }

  ghost predicate ReachedFromTable(tables: seq<TableName>, fks: seq<ForeignKey>, x: TableName) {
    exists t :: t in tables && Connected(fks, t, x)
  }

  /** The groups hold exactly what the tables reach. */
  lemma GroupsCoverReached(tables: seq<TableName>, fks: seq<ForeignKey>, groups: seq<seq<TableName>>, x: TableName)
    requires IsGrouping(tables, fks, groups)
    ensures InSomeGroup(groups, x) <==> ReachedFromTable(tables, fks, x)
  {
    if g :| g in groups && x in g {
      assert SortedComponent(tables, fks, g);
      var root :| root in tables && IsComponentOf(fks, root, g);
      assert Connected(fks, root, x);
    }
    if t :| t in tables && Connected(fks, t, x) {
      assert InSomeGroup(groups, t);
      var g := GroupOf(tables, fks, groups, t);
      assert x in g;
    }
  }

  /** When every foreign key joins listed tables, the groups hold exactly the listed tables. */
  lemma GroupsCoverTables(tables: seq<TableName>, fks: seq<ForeignKey>, groups: seq<seq<TableName>>, x: TableName)
    requires IsGrouping(tables, fks, groups)
    requires forall e :: e in Endpoints(fks) ==> e in tables
    ensures InSomeGroup(groups, x) <==> x in tables
  {
    GroupsCoverReached(tables, fks, groups, x);
    var all := set t | t in tables;
    forall a, b | a in all && Adjacent(fks, a, b)
      ensures b in all
    {
      RelatedIsAdjacent(fks, a, b);
    }
    if t :| t in tables && Connected(fks, t, x) {
      ClosedContainsConnected(fks, all, t, x);
    }
    if x in tables { ConnectedReflexive(fks, x); }
  }

  // ----- canonicity

  ghost predicate SameGraph(fks: seq<ForeignKey>, fks': seq<ForeignKey>) {
    forall a, b :: Adjacent(fks, a, b) <==> Adjacent(fks', a, b)
  }

  lemma SameGraphSameLinks(fks: seq<ForeignKey>, fks': seq<ForeignKey>, a: TableName, b: TableName)
    requires SameGraph(fks, fks')
    ensures Connected(fks, a, b) <==> Connected(fks', a, b)
  {
    if p :| Links(fks, p, a, b) { assert Links(fks', p, a, b); }
    if p :| Links(fks', p, a, b) { assert Links(fks, p, a, b); }
  }

  lemma GroupOfOther(tables: seq<TableName>, fks: seq<ForeignKey>, groups: seq<seq<TableName>>,
                     tables': seq<TableName>, fks': seq<ForeignKey>, groups': seq<seq<TableName>>, g: seq<TableName>)
    requires IsGrouping(tables, fks, groups) && IsGrouping(tables', fks', groups')
    requires (forall t :: t in tables <==> t in tables') && SameGraph(fks, fks')
    requires g in groups
    ensures g in groups'
  {
    assert SortedComponent(tables, fks, g);
    var root :| root in tables && IsComponentOf(fks, root, g);
    assert InSomeGroup(groups', root);
    var g' := GroupOf(tables', fks', groups', root);
    forall x
      ensures x in g <==> x in g'
    {
      SameGraphSameLinks(fks, fks', root, x);
    }
    TableOrder();
    StrictlySortedUnique(TableLe, g, g');
  }

  /** The answer depends only on the set of tables and the undirected graph: any two runs, whatever
      the order of tables, of constraints or of visits, return the same list of lists. */
  lemma GroupingUnique(tables: seq<TableName>, fks: seq<ForeignKey>, groups: seq<seq<TableName>>,
                       tables': seq<TableName>, fks': seq<ForeignKey>, groups': seq<seq<TableName>>)
    requires IsGrouping(tables, fks, groups) && IsGrouping(tables', fks', groups')
    requires (forall t :: t in tables <==> t in tables') && SameGraph(fks, fks')
    ensures groups == groups'
  {
    forall g
      ensures g in groups <==> g in groups'
    {
      if g in groups { GroupOfOther(tables, fks, groups, tables', fks', groups', g); }
      if g in groups' { GroupOfOther(tables', fks', groups', tables, fks, groups, g); }
    }
    GroupOrder();
    StrictlySortedUnique(GroupLe, groups, groups');
  }

  /** Permuting the tables or the constraints changes nothing. */
  lemma GroupingPermuted(tables: seq<TableName>, fks: seq<ForeignKey>, groups: seq<seq<TableName>>,
                         tables': seq<TableName>, fks': seq<ForeignKey>, groups': seq<seq<TableName>>)
    requires IsGrouping(tables, fks, groups) && IsGrouping(tables', fks', groups')
    requires multiset(tables) == multiset(tables') && multiset(fks) == multiset(fks')
    ensures groups == groups'
  {
    SameElements(tables, tables');
    SameElements(fks, fks');
    GroupingUnique(tables, fks, groups, tables', fks', groups');
  }

  // ----- which order

  /** SQL names decide, then Rust names, then schemas, of which an absent one comes first. */
  ghost predicate TableBefore(a: TableName, b: TableName) {
    || Precedes(a.sqlName, b.sqlName)
    || (a.sqlName == b.sqlName && Precedes(a.rustName, b.rustName))
    || (a.sqlName == b.sqlName && a.rustName == b.rustName
        && b.schema.Some? && (a.schema.None? || Precedes(a.schema.value, b.schema.value)))
  }

  lemma TableLeIff(a: TableName, b: TableName)
    ensures TableLe(a, b) <==> a == b || TableBefore(a, b)
  {
    hide StringLe, Precedes;
    StringLeIff(a.sqlName, b.sqlName);
    StringLeIff(a.rustName, b.rustName);
    if a.schema.Some? && b.schema.Some? { StringLeIff(a.schema.value, b.schema.value); }
    NotBeforeItself(a.sqlName);
    NotBeforeItself(a.rustName);
  }

  lemma NotBeforeItself(s: string)
    ensures !Precedes(s, s)
  {
  }

  /** Within a group tables stand in the order of their names, and groups in the order of their first tables. */
  lemma GroupsInOrder(tables: seq<TableName>, fks: seq<ForeignKey>, groups: seq<seq<TableName>>)
    requires IsGrouping(tables, fks, groups)
    ensures forall g, j, k :: g in groups && 0 <= j < k < |g| ==> TableBefore(g[j], g[k])
    ensures forall k :: 0 <= k < |groups| ==> groups[k] != []
    ensures forall j, k :: 0 <= j < k < |groups| ==> TableBefore(groups[j][0], groups[k][0])
  {
    hide TableLe, TableBefore;
    forall g, j, k | g in groups && 0 <= j < k < |g|
      ensures TableBefore(g[j], g[k])
    {
      assert SortedComponent(tables, fks, g);
      TableLeIff(g[j], g[k]);
    }
    forall k | 0 <= k < |groups|
      ensures groups[k] != []
    {
      NonEmptyGroup(tables, fks, groups[k]);
    }
    forall j, k | 0 <= j < k < |groups|
      ensures TableBefore(groups[j][0], groups[k][0])
    {
      var g, h := groups[j], groups[k];
      if g[0] == h[0] { GroupsDisjoint(tables, fks, groups, g, h, g[0]); }
      assert LexLe(TableLe, g, h) by { assert GroupLe(g, h); }
      TableLeIff(g[0], h[0]);
    }
  }

  lemma NonEmptyGroup(tables: seq<TableName>, fks: seq<ForeignKey>, g: seq<TableName>)
    requires SortedComponent(tables, fks, g)
    ensures g != []
  {
    var root :| root in tables && IsComponentOf(fks, root, g);
    ConnectedReflexive(fks, root);
  }

  const POSTS := TableName("posts", "posts", None)
  const USERS := TableName("users", "users", None)
  const TAGS := TableName("tags", "tags", None)

  /** Posts refer to users and tags to nothing: whatever the order of the tables, there are two groups. */
  lemma BlogGroups(groups: seq<seq<TableName>>)
    requires IsGrouping([USERS, TAGS, POSTS], [ForeignKey(POSTS, USERS)], groups)
    ensures groups == [[POSTS, USERS], [TAGS]]
  {
    var tables, fks := [USERS, TAGS, POSTS], [ForeignKey(POSTS, USERS)];
    BlogOrder();
    BlogConnected(fks);
    GroupsInOrder(tables, fks, groups);
    GroupOrder();
    var expected := [[POSTS, USERS], [TAGS]];
    assert IsComponentOf(fks, USERS, [POSTS, USERS]) && IsComponentOf(fks, TAGS, [TAGS]);
    assert expected[0] == [POSTS, USERS] && expected[1] == [TAGS];
    assert IsGrouping(tables, fks, expected) by {
      assert SortedComponent(tables, fks, expected[0]) && SortedComponent(tables, fks, expected[1]);
      assert USERS in expected[0] && POSTS in expected[0] && TAGS in expected[1];
      assert expected[0] in expected && expected[1] in expected;
    }
    GroupingUnique(tables, fks, groups, tables, fks, expected);
  }

  lemma BlogOrder()
    ensures TableLe(POSTS, USERS) && TableLe(POSTS, TAGS)
  {
    TableLeIff(POSTS, USERS);
    TableLeIff(POSTS, TAGS);
    assert PartsAt("posts", "users", 0) && PartsAt("posts", "tags", 0);
  }

  lemma BlogConnected(fks: seq<ForeignKey>)
    requires fks == [ForeignKey(POSTS, USERS)]
    ensures forall x :: Connected(fks, USERS, x) <==> x == POSTS || x == USERS
    ensures forall x :: Connected(fks, TAGS, x) <==> x == TAGS
  {
    assert Joins(fks[0], USERS, POSTS);
    ConnectedReflexive(fks, USERS);
    ConnectedReflexive(fks, TAGS);
    ConnectedStep(fks, USERS, USERS, POSTS);
    var two, one := {POSTS, USERS}, {TAGS};
    assert POSTS.sqlName != TAGS.sqlName && USERS.sqlName != TAGS.sqlName;
    assert Closed(fks, two) && Closed(fks, one);
    forall x
      ensures Connected(fks, USERS, x) <==> x in two
      ensures Connected(fks, TAGS, x) <==> x in one
    {
      if Connected(fks, USERS, x) { ClosedContainsConnected(fks, two, USERS, x); }
      if Connected(fks, TAGS, x) { ClosedContainsConnected(fks, one, TAGS, x); }
    }
  }
}
