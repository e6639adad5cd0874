/** What statements look like: their SQL text, their binds and their cache verdict, clause by clause, and some
    whole statements. */
module StatementText {
  import opened Prelude
  import opened QueryPass
  import opened MultiConnection
  import opened MultiBinds
  import opened MultiTrace
  import opened QueryText
  import opened MultiForwarding
  import opened SerializedQuery

  // ----- names and markers

  /** Reads a name up to its closing quote: a doubled quote stands for one. */
  function ReadQuoted(quote: char, s: string): Option<string> {
    if s == "" then None
    else if s[0] != quote then
      var rest := ReadQuoted(quote, s[1..]);
      if rest.Some? then Some([s[0]] + rest.value) else None
    else if |s| == 1 then Some("")
    else if s[1] != quote then None
    else
      var rest := ReadQuoted(quote, s[2..]);
      if rest.Some? then Some([quote] + rest.value) else None
  }

  /** A quoted name is enclosed in the dialect's quotes and reads back as the name, whatever quotes it contains. */
  lemma QuotedReadsBack(d: Dialect, name: string)
    ensures var quote, quoted := if d.Pg? then '"' else '`', Quoted(d, name);
            |quoted| >= 2 && quoted[0] == quote && ReadQuoted(quote, quoted[1..]) == Some(name)
  {
    var quote := if d.Pg? then '"' else '`';
    DoubledReadsBack(quote, name);
    assert Quoted(d, name)[1..] == Doubled(name, quote) + [quote];
  }

  lemma {:induction false} DoubledReadsBack(quote: char, name: string)
    ensures ReadQuoted(quote, Doubled(name, quote) + [quote]) == Some(name)
  {
    if name != "" {
      DoubledReadsBack(quote, name[1..]);
      var rest := Doubled(name[1..], quote) + [quote];
      var head := if name[0] == quote then [quote, quote] else [name[0]];
      assert Doubled(name, quote) + [quote] == head + rest;
      assert (head + rest)[|head|..] == rest;
      assert name == [name[0]] + name[1..];
    }
  }

  function Digit(c: char): nat { if '0' <= c <= '9' then c as nat - '0' as nat else 0 }

  function Number(s: string): nat {
    if s == "" then 0 else 10 * Number(s[..|s| - 1]) + Digit(s[|s| - 1])
  }

  /** Markers are numbered in decimal digits on PostgreSQL and all alike elsewhere. */
  lemma MarkerReadsBack(d: Dialect, n: nat)
    ensures d.Pg? ==> |Marker(d, n)| >= 2 && Marker(d, n)[0] == '$' && Number(Marker(d, n)[1..]) == n
                      && forall k :: 1 <= k < |Marker(d, n)| ==> '0' <= Marker(d, n)[k] <= '9'
    ensures !d.Pg? ==> Marker(d, n) == "?"
  {
    DecimalReadsBack(n);
    assert d.Pg? ==> Marker(d, n)[1..] == Decimal(n);
  }

  lemma {:induction false} DecimalReadsBack(n: nat)
    ensures Decimal(n) != "" && Number(Decimal(n)) == n && forall k :: 0 <= k < |Decimal(n)| ==> '0' <= Decimal(n)[k] <= '9'
  {
    var digit := "0123456789"[n % 10];
    assert Digit(digit) == n % 10 && '0' <= digit <= '9';
    if n < 10 {
      assert Decimal(n) == [digit] && [digit][..0] == "";
    } else {
      DecimalReadsBack(n / 10);
      assert (Decimal(n / 10) + [digit])[..|Decimal(n / 10)|] == Decimal(n / 10);
    }
  }

  // ----- clause by clause

  /** The number of binds before the next clause. */
  function After(d: Dialect, i: nat, n: nat, node: Node): nat { n + |Listing(d, i, node)| }

  lemma LeafText(d: Dialect, i: nat, n: nat, text: string, name: string, sqlType: SqlType, value: Value)
    ensures SqlText(d, i, n, Sql(text)) == text && Listing(d, i, Sql(text)) == []
    ensures SqlText(d, i, n, Identifier(name)) == Quoted(d, name) && Listing(d, i, Identifier(name)) == []
    ensures SqlText(d, i, n, BindParam(sqlType, value)) == Marker(d, n + 1)
    ensures Listing(d, i, BindParam(sqlType, value)) == [Seen(false, sqlType, value)]
    ensures SqlText(d, i, n, Uncacheable) == "" && Listing(d, i, Uncacheable) == []
  {
    OneText(d, n, Wrote(text));
    OneText(d, n, Named(name));
    OneText(d, n, Marked(Seen(false, sqlType, value)));
    OneText(d, n, Unsafe);
  }

  /** Fragments in a row are written in a row, and their binds are numbered on. */
  lemma GroupText(d: Dialect, i: nat, n: nat, first: Node, rest: seq<Node>)
    ensures SqlText(d, i, n, Group([first] + rest)) == SqlText(d, i, n, first) + SqlText(d, i, After(d, i, n, first), Group(rest))
    ensures Listing(d, i, Group([first] + rest)) == Listing(d, i, first) + Listing(d, i, Group(rest))
    ensures SqlText(d, i, n, Group([])) == "" && Listing(d, i, Group([])) == []
  {
    hide TextOf, BindsOf;
    GroupTrace(d, i, first, rest);
    NoText(d, n);
    TextAppend(d, n, Trace(d, i, false, first), Trace(d, i, false, Group(rest)));
  }

  lemma GroupTrace(d: Dialect, i: nat, first: Node, rest: seq<Node>)
    ensures Trace(d, i, false, Group([first] + rest)) == Trace(d, i, false, first) + Trace(d, i, false, Group(rest))
    ensures Trace(d, i, false, Group([])) == []
  {
    var nodes := [first] + rest;
    assert nodes[0] == first && nodes[1..] == rest;
    SameParent(d, i, Group(nodes), Group(rest), rest);
  }

  lemma {:induction false} SameParent(d: Dialect, i: nat, parent: Node, other: Node, nodes: seq<Node>)
    requires forall k :: 0 <= k < |nodes| ==> nodes[k] < parent && nodes[k] < other
    ensures TraceAll(d, i, false, parent, nodes) == TraceAll(d, i, false, other, nodes)
    decreases |nodes|
  {
    if nodes != [] { SameParent(d, i, parent, other, nodes[1..]); }
  }

  lemma SelectIsGroup(d: Dialect, i: nat, n: nat, distinct: Node, select: Node, from: Node, filter: Node, groupBy: Node, having: Node,
                      order: Node, limitOffset: Node, locking: Node)
    ensures var whole := Select(distinct, select, from, filter, groupBy, having, order, limitOffset, locking);
            var clauses := Group([distinct] + ([select] + ([from] + ([filter] + ([groupBy] + ([having] + ([order] + ([limitOffset] + ([locking] + [])))))))));
            && SqlText(d, i, n, whole) == "SELECT " + SqlText(d, i, n, clauses)
            && Listing(d, i, whole) == Listing(d, i, clauses)
  {
    var whole := Select(distinct, select, from, filter, groupBy, having, order, limitOffset, locking);
    ClauseList(whole);
    SelectTrace(d, i, whole);
    hide *;
    var rest := Trace(d, i, false, Group(AnsiSelectOrder(whole)));
    TextFront(d, n, Wrote("SELECT "), rest);
    SelectWord(d, n);
    TextIs(d, i, n, whole);
    TextIs(d, i, n, Group(AnsiSelectOrder(whole)));
    assert [] + BindsOf(rest) == BindsOf(rest);
  }

  lemma SelectWord(d: Dialect, n: nat)
    ensures PieceText(d, n, Wrote("SELECT ")) == "SELECT " && Head(Wrote("SELECT ")) == []
  {
  }

  lemma TextIs(d: Dialect, i: nat, n: nat, node: Node)
    ensures SqlText(d, i, n, node) == TextOf(d, n, Trace(d, i, false, node)) && Listing(d, i, node) == BindsOf(Trace(d, i, false, node))
  {
  }

  lemma ClauseList(node: Node)
    requires node.Select?
    ensures AnsiSelectOrder(node)
         == [node.distinct] + ([node.select] + ([node.from] + ([node.filter] + ([node.groupBy] + ([node.having] + ([node.order] + ([node.limitOffset] + ([node.locking] + []))))))))
  {
  }

  lemma SelectTrace(d: Dialect, i: nat, node: Node)
    requires node.Select?
    ensures Trace(d, i, false, node) == [Wrote("SELECT ")] + Trace(d, i, false, Group(AnsiSelectOrder(node)))
  {
    SameParent(d, i, node, Group(AnsiSelectOrder(node)), AnsiSelectOrder(node));
  }

  /** The texts of fragments in a row, each numbering its binds on from those before. */
  function TextsFrom(d: Dialect, i: nat, n: nat, nodes: seq<Node>): (texts: seq<string>)
    ensures |texts| == |nodes|
    decreases |nodes|
  {
    if nodes == [] then []
    else [SqlText(d, i, n, nodes[0])] + TextsFrom(d, i, After(d, i, n, nodes[0]), nodes[1..])
  }

  function Joined(texts: seq<string>): string {
    if texts == [] then "" else texts[0] + Joined(texts[1..])
  }

  lemma {:induction false} GroupWrites(d: Dialect, i: nat, n: nat, nodes: seq<Node>)
    ensures SqlText(d, i, n, Group(nodes)) == Joined(TextsFrom(d, i, n, nodes))
    decreases |nodes|
  {
    hide SqlText, Listing;
    if nodes == [] {
      GroupText(d, i, n, Sql(""), []);
    } else {
      assert nodes == [nodes[0]] + nodes[1..];
      GroupText(d, i, n, nodes[0], nodes[1..]);
      GroupWrites(d, i, After(d, i, n, nodes[0]), nodes[1..]);
    }
  }

  /** A select statement: the keyword and its nine clauses, in this order, with their binds numbered through. */
  lemma SelectText(d: Dialect, i: nat, n: nat, distinct: Node, select: Node, from: Node, filter: Node, groupBy: Node, having: Node,
                   order: Node, limitOffset: Node, locking: Node)
    ensures var whole := Select(distinct, select, from, filter, groupBy, having, order, limitOffset, locking);
            var clauses := [distinct, select, from, filter, groupBy, having, order, limitOffset, locking];
            && SqlText(d, i, n, whole) == "SELECT " + Joined(TextsFrom(d, i, n, clauses))
            && Listing(d, i, whole)
               == Listing(d, i, distinct) + Listing(d, i, select) + Listing(d, i, from) + Listing(d, i, filter) + Listing(d, i, groupBy)
                  + Listing(d, i, having) + Listing(d, i, order) + Listing(d, i, limitOffset) + Listing(d, i, locking)
  {
    hide *;
    var whole := Select(distinct, select, from, filter, groupBy, having, order, limitOffset, locking);
    SelectIsGroup(d, i, n, distinct, select, from, filter, groupBy, having, order, limitOffset, locking);
    NineInARow(distinct, select, from, filter, groupBy, having, order, limitOffset, locking);
    GroupWrites(d, i, n, [distinct, select, from, filter, groupBy, having, order, limitOffset, locking]);
    NineListings(d, i, distinct, select, from, filter, groupBy, having, order, limitOffset, locking);
  }

  lemma NineInARow(distinct: Node, select: Node, from: Node, filter: Node, groupBy: Node, having: Node, order: Node, limitOffset: Node, locking: Node)
    ensures [distinct] + ([select] + ([from] + ([filter] + ([groupBy] + ([having] + ([order] + ([limitOffset] + ([locking] + []))))))))
         == [distinct, select, from, filter, groupBy, having, order, limitOffset, locking]
  {
  }

  lemma NineListings(d: Dialect, i: nat, distinct: Node, select: Node, from: Node, filter: Node, groupBy: Node, having: Node,
                     order: Node, limitOffset: Node, locking: Node)
    ensures Listing(d, i, Group([distinct] + ([select] + ([from] + ([filter] + ([groupBy] + ([having] + ([order] + ([limitOffset] + ([locking] + []))))))))))
         == Listing(d, i, distinct) + Listing(d, i, select) + Listing(d, i, from) + Listing(d, i, filter) + Listing(d, i, groupBy)
            + Listing(d, i, having) + Listing(d, i, order) + Listing(d, i, limitOffset) + Listing(d, i, locking)
  {
    hide *;
    var eight := [locking] + [];
    var seven := [limitOffset] + eight;
    var six := [order] + seven;
    var five := [having] + six;
    var four := [groupBy] + five;
    var three := [filter] + four;
    var two := [from] + three;
    var one := [select] + two;
    GroupText(d, i, 0, distinct, one);
    GroupText(d, i, 0, select, two);
    GroupText(d, i, 0, from, three);
    GroupText(d, i, 0, filter, four);
    GroupText(d, i, 0, groupBy, five);
    GroupText(d, i, 0, having, six);
    GroupText(d, i, 0, order, seven);
    GroupText(d, i, 0, limitOffset, eight);
    GroupText(d, i, 0, locking, []);
    GlueClauses(Listing(d, i, distinct), Listing(d, i, select), Listing(d, i, from), Listing(d, i, filter), Listing(d, i, groupBy),
                Listing(d, i, having), Listing(d, i, order), Listing(d, i, limitOffset), Listing(d, i, locking));
  }

  lemma GlueClauses(a: seq<Seen>, b: seq<Seen>, c: seq<Seen>, d: seq<Seen>, e: seq<Seen>, f: seq<Seen>, g: seq<Seen>, h: seq<Seen>, j: seq<Seen>)
    ensures a + (b + (c + (d + (e + (f + (g + (h + (j + [])))))))) == a + b + c + d + e + f + g + h + j
  {
  }

  /** Limit and offset are written in that order; MySQL and SQLite are given a limit where the query has none. */
  lemma BoxedText(d: Dialect, i: nat, n: nat, limit: Node, offset: Node)
    ensures SqlText(d, i, n, BoxedLimitOffset(Some(limit), Some(offset)))
         == SqlText(d, i, n, limit) + SqlText(d, i, After(d, i, n, limit), offset)
    ensures SqlText(d, i, n, BoxedLimitOffset(Some(limit), None)) == SqlText(d, i, n, limit)
    ensures SqlText(d, i, n, BoxedLimitOffset(None, Some(offset)))
         == (match d case Pg => "" case Mysql => " LIMIT 18446744073709551615 " case Sqlite => " LIMIT -1 ") + SqlText(d, i, n, offset)
    ensures SqlText(d, i, n, BoxedLimitOffset(None, None)) == ""
  {
    hide TextOf, BindsOf;
    BoxedTrace(d, i, limit, offset);
    hide Trace;
    NoText(d, n);
    TextAppend(d, n, Trace(d, i, false, limit), Trace(d, i, false, offset));
    OneText(d, n, Wrote(LimitForBareOffset(d)));
    TextAppend(d, n, [Wrote(LimitForBareOffset(d))], Trace(d, i, false, offset));
    assert "" + SqlText(d, i, n, offset) == SqlText(d, i, n, offset);
  }

  lemma BoxedTrace(d: Dialect, i: nat, limit: Node, offset: Node)
    ensures Trace(d, i, false, BoxedLimitOffset(Some(limit), Some(offset))) == Trace(d, i, false, limit) + Trace(d, i, false, offset)
    ensures Trace(d, i, false, BoxedLimitOffset(Some(limit), None)) == Trace(d, i, false, limit)
    ensures Trace(d, i, false, BoxedLimitOffset(None, Some(offset)))
         == if d.Pg? then Trace(d, i, false, offset) else [Wrote(LimitForBareOffset(d))] + Trace(d, i, false, offset)
    ensures Trace(d, i, false, BoxedLimitOffset(None, None)) == []
  {
    var front, back := Trace(d, i, false, limit), Trace(d, i, false, offset);
    assert [] + front + back == front + back && [] + front + [] == front;
    var pad := [Wrote(LimitForBareOffset(d))];
    assert pad + [] + back == pad + back && [] + [] + back == back;
  }

  /** A dispatched fragment is written as the variant's own impl writes it. */
  lemma {:induction false} DispatchText(d: Dialect, i: nat, n: nat, impls: seq<Node>)
    requires i < |impls|
    ensures SqlText(d, i, n, Dispatch(impls)) == SqlText(d, i, n, impls[i])
    ensures |Listing(d, i, Dispatch(impls))| == |Listing(d, i, impls[i])|
    ensures forall k :: 0 <= k < |Listing(d, i, impls[i])| ==>
              Listing(d, i, Dispatch(impls))[k] == Listing(d, i, impls[i])[k].(dispatched := true)
  {
    DispatchedText(d, n, Trace(d, i, false, impls[i]));
  }

  lemma {:induction false} DispatchedText(d: Dialect, n: nat, trace: seq<Piece>)
    ensures TextOf(d, n, Dispatched(trace)) == TextOf(d, n, trace)
    ensures |BindsOf(Dispatched(trace))| == |BindsOf(trace)|
    ensures forall k :: 0 <= k < |BindsOf(trace)| ==> BindsOf(Dispatched(trace))[k] == BindsOf(trace)[k].(dispatched := true)
    decreases |trace|
  {
    if trace != [] {
      assert Dispatched(trace)[1..] == Dispatched(trace[1..]);
      DispatchedText(d, if trace[0].Marked? then n + 1 else n, trace[1..]);
    }
  }

  /** A tuple writes the elements that are not empty, with commas between them. */
  lemma TupleText(d: Dialect, i: nat, n: nat, first: Node, rest: seq<Node>)
    ensures SqlText(d, i, n, CommaList([])) == ""
    ensures var whole, others := CommaList([first] + rest), CommaList(rest);
            SqlText(d, i, n, whole) ==
              if Empty(d, i, false, first) then SqlText(d, i, n, others)
              else if Empty(d, i, false, others) then SqlText(d, i, n, first)
              else SqlText(d, i, n, first) + ", " + SqlText(d, i, After(d, i, n, first), others)
  {
    hide Trace, Empty, TextOf, BindsOf, Silent, Cacheable;
    var nodes := [first] + rest;
    assert nodes[0] == first && nodes[1..] == rest;
    ListTrace(d, i, []);
    ListTrace(d, i, nodes);
    ListTrace(d, i, rest);
    NoText(d, n);
    TraceReads(d, i, false, first);
    TraceReads(d, i, false, CommaList(rest));
    var head, tail := Trace(d, i, false, first), TraceList(d, i, false, rest, true);
    if !Silent(head) {
      DueComma(d, i, rest, After(d, i, n, first));
      TextAppend(d, n, head, tail);
      assert Comma(false) + head == head;
      var t, o := SqlText(d, i, n, first), SqlText(d, i, After(d, i, n, first), CommaList(rest));
      assert t + (", " + o) == t + ", " + o && t + "" == t;
    }
  }

  lemma ListTrace(d: Dialect, i: nat, nodes: seq<Node>)
    ensures Trace(d, i, false, CommaList(nodes)) == TraceList(d, i, false, nodes, false)
  {
  }

  /** A due comma goes in front of the first element that is written. */
  lemma {:induction false} DueComma(d: Dialect, i: nat, nodes: seq<Node>, n: nat)
    ensures var list, after := TraceList(d, i, false, nodes, false), TraceList(d, i, false, nodes, true);
            TextOf(d, n, after) == if Silent(list) then "" else ", " + TextOf(d, n, list)
    decreases nodes
  {
    hide Trace;
    if nodes != [] {
      var head, tail := Trace(d, i, false, nodes[0]), TraceList(d, i, false, nodes[1..], true);
      if Silent(head) {
        DueComma(d, i, nodes[1..], n);
      } else {
        assert TraceList(d, i, false, nodes, true) == Comma(true) + (head + tail);
        assert TraceList(d, i, false, nodes, false) == head + tail by { assert Comma(false) + head == head; }
        FlagsAppend(head, tail);
        TextAppend(d, n, Comma(true), head + tail);
        OneText(d, n, Wrote(", "));
      }
    }
  }

  /** An insert's VALUES clause: the columns of the values that are not empty, and these values; or the dialect's
      own way of inserting nothing but defaults. */
  lemma ValuesText(d: Dialect, i: nat, n: nat, columns: seq<string>, values: seq<Node>)
    ensures SqlText(d, i, n, Values(columns, values)) ==
              if Empty(d, i, false, CommaList(values)) then (if d.Mysql? then "() VALUES ()" else "DEFAULT VALUES")
              else "(" + ColumnText(d, i, columns, values) + ") VALUES (" + SqlText(d, i, n, CommaList(values)) + ")"
  {
    hide Trace, Empty;
    var names, list := TraceColumns(d, i, false, columns, values, false), TraceList(d, i, false, values, false);
    ListTrace(d, i, values);
    TraceReads(d, i, false, CommaList(values));
    ValuesTrace(d, i, columns, values);
    if Silent(list) {
      OneText(d, n, Wrote(DefaultRow(d)));
    } else {
      ColumnsCacheable(d, i, false, columns, values, false);
      ColumnsRead(d, i, n, columns, values);
      InsertText(d, n, names, list);
    }
  }

  lemma ValuesTrace(d: Dialect, i: nat, columns: seq<string>, values: seq<Node>)
    ensures Trace(d, i, false, Values(columns, values))
         == InsertPieces(d, TraceColumns(d, i, false, columns, values, false), TraceList(d, i, false, values, false))
  {
  }

  lemma InsertText(d: Dialect, n: nat, names: seq<Piece>, list: seq<Piece>)
    requires BindsOf(names) == [] && !Silent(list)
    ensures TextOf(d, n, InsertPieces(d, names, list)) == "(" + TextOf(d, n, names) + ") VALUES (" + TextOf(d, n, list) + ")"
  {
    InsertIs(d, names, list);
    InsertWords(d, n);
    hide *;
    var close: seq<Piece> := [Wrote(")")];
    var tail := list + close;
    var middle := [Wrote(") VALUES (")] + tail;
    TextFront(d, n, Wrote("("), names + middle);
    TextAppend(d, n, names, middle);
    TextFront(d, n, Wrote(") VALUES ("), tail);
    TextAppend(d, n, list, close);
    OneText(d, n + |BindsOf(list)|, Wrote(")"));
    InsertWords(d, n + |BindsOf(list)|);
    GlueInsert("(", TextOf(d, n, names), ") VALUES (", TextOf(d, n, list), ")");
  }

  lemma InsertWords(d: Dialect, n: nat)
    ensures PieceText(d, n, Wrote("(")) == "(" && PieceText(d, n, Wrote(") VALUES (")) == ") VALUES (" && PieceText(d, n, Wrote(")")) == ")"
    ensures |Head(Wrote("("))| == |Head(Wrote(") VALUES ("))| == |BindsOf([])| == 0
  {
  }

  lemma GlueInsert(a: string, b: string, c: string, d: string, e: string)
    ensures a + (b + (c + (d + e))) == a + b + c + d + e
  {
  }

  /** Quoted column names with commas between them, for the values that are not empty. */
  function ColumnText(d: Dialect, i: nat, columns: seq<string>, values: seq<Node>): string {
    if columns == [] || values == [] then ""
    else
      var rest := ColumnText(d, i, columns[1..], values[1..]);
      if Empty(d, i, false, values[0]) then rest
      else if rest == "" then Quoted(d, columns[0])
      else Quoted(d, columns[0]) + ", " + rest
  }

  lemma {:induction false} ColumnsRead(d: Dialect, i: nat, n: nat, columns: seq<string>, values: seq<Node>)
    ensures var text := ColumnText(d, i, columns, values);
            && TextOf(d, n, TraceColumns(d, i, false, columns, values, false)) == text
            && TextOf(d, n, TraceColumns(d, i, false, columns, values, true)) == if text == "" then "" else ", " + text
    decreases values
  {
    hide Trace, Empty, TextOf, BindsOf, Silent, Cacheable, Quoted;
    NoText(d, n);
    if columns != [] && values != [] {
      TraceReads(d, i, false, values[0]);
      ColumnsRead(d, i, n, columns[1..], values[1..]);
      if !Silent(Trace(d, i, false, values[0])) {
        ColumnsHead(d, n, columns[0], TraceColumns(d, i, false, columns[1..], values[1..], true), ColumnText(d, i, columns[1..], values[1..]));
      }
    }
  }

  lemma ColumnsHead(d: Dialect, n: nat, column: string, rest: seq<Piece>, text: string)
    requires TextOf(d, n, rest) == if text == "" then "" else ", " + text
    ensures var whole := if text == "" then Quoted(d, column) else Quoted(d, column) + ", " + text;
            && whole != ""
            && TextOf(d, n, Comma(false) + [Named(column)] + rest) == whole
            && TextOf(d, n, Comma(true) + [Named(column)] + rest) == ", " + whole
  {
    hide TextOf, BindsOf;
    var name, quoted := [Named(column)], Quoted(d, column);
    OneText(d, n, name[0]);
    OneText(d, n, Wrote(", "));
    TextAppend(d, n, name, rest);
    TextAppend(d, n, [Wrote(", ")], name + rest);
    assert Comma(true) + name + rest == [Wrote(", ")] + (name + rest) && Comma(false) + name + rest == name + rest;
    assert quoted + "" == quoted && quoted + (", " + text) == quoted + ", " + text;
  }

  // ----- whole statements

  predicate IsStatement(d: Dialect, s: Statement, sql: string, safe: bool, binds: seq<Seen>) {
    && s.sql == Done(sql) && s.safeToCache == Done(safe)
    && s.binds == if Accepted(d, binds) < |binds| then Failed else Done(BoundEach(d, false, binds))
  }

  /** What a backend makes of a statement that it does not refuse. */
  lemma BodyStatement(variants: Variants, i: nat, query: Query)
    requires i < |variants| && CompleteQuery(variants, query) && !NothingToUpdate(variants[i], i, false, query)
    ensures var d, body := variants[i], Body(query);
            IsStatement(d, DirectStatement(variants, i, query), SqlText(d, i, 0, body), !Uncached(d, i, false, body), Listing(d, i, body))
  {
    hide Trace, Uncached, Accepted, CompleteQuery, NothingToUpdate, DirectStatement, Body;
    DirectIs(variants, i, query);
    DirectBindsListed(variants, i, query);
    TraceReads(variants[i], i, false, Body(query));
  }

  /** A statement that is not an update, as a backend makes it. */
  lemma FragmentStatement(variants: Variants, i: nat, node: Node)
    requires i < |variants| && Complete(variants, node)
    ensures var d := variants[i];
            IsStatement(d, DirectStatement(variants, i, Fragment(node)), SqlText(d, i, 0, node), !Uncached(d, i, false, node), Listing(d, i, node))
  {
    BodyStatement(variants, i, Fragment(node));
  }

  lemma UpdateText(d: Dialect, i: nat, from: Node, assignments: Node, filter: Node, returning: Node)
    ensures var body := Body(Update(from, assignments, filter, returning));
            var setAt := |Listing(d, i, from)|;
            var filterAt := setAt + |Listing(d, i, assignments)|;
            var returningAt := filterAt + |Listing(d, i, filter)|;
            && SqlText(d, i, 0, body) == "UPDATE " + SqlText(d, i, 0, from) + " SET " + SqlText(d, i, setAt, assignments)
                                         + SqlText(d, i, filterAt, filter) + SqlText(d, i, returningAt, returning)
            && Listing(d, i, body) == Listing(d, i, from) + Listing(d, i, assignments) + Listing(d, i, filter) + Listing(d, i, returning)
            && Uncached(d, i, false, body)
  {
    hide *;
    UpdateNodes(from, assignments, filter, returning);
    UpdateUncached(d, i, Update(from, assignments, filter, returning));
    var setAt := |Listing(d, i, from)|;
    var filterAt := setAt + |Listing(d, i, assignments)|;
    var returningAt := filterAt + |Listing(d, i, filter)|;
    LeafText(d, i, 0, "UPDATE ", "", NotNull(BaseType.Text), NoneValue);
    LeafText(d, i, setAt, " SET ", "", NotNull(BaseType.Text), NoneValue);
    var last := [returning] + [];
    var after := [filter] + last;
    var middle := [assignments] + after;
    var clause := [Sql(" SET ")] + middle;
    var rest := [from] + clause;
    GroupText(d, i, returningAt, returning, []);
    GroupText(d, i, After(d, i, returningAt, returning), returning, []);
    GroupText(d, i, filterAt, filter, last);
    GroupText(d, i, setAt, assignments, after);
    GroupText(d, i, setAt, Sql(" SET "), middle);
    GroupText(d, i, 0, from, clause);
    GroupText(d, i, 0, Sql("UPDATE "), rest);
    GroupText(d, i, 0, Uncacheable, [Sql("UPDATE ")] + rest);
    AfterIs(d, i);
    Glue("UPDATE ", SqlText(d, i, 0, from), " SET ", SqlText(d, i, setAt, assignments),
         SqlText(d, i, filterAt, filter), SqlText(d, i, returningAt, returning));
    GlueBinds(Listing(d, i, from), Listing(d, i, assignments), Listing(d, i, filter), Listing(d, i, returning));
  }

  lemma AfterIs(d: Dialect, i: nat)
    ensures forall n: nat, node {:trigger After(d, i, n, node)} :: After(d, i, n, node) == n + |Listing(d, i, node)|
  {
  }

  lemma UpdateUncached(d: Dialect, i: nat, query: Query)
    requires query.Update?
    ensures Uncached(d, i, false, Body(query))
  {
    assert Body(query).children[0] == Uncacheable && Uncached(d, i, false, Uncacheable);
  }

  lemma UpdateNodes(from: Node, assignments: Node, filter: Node, returning: Node)
    ensures Body(Update(from, assignments, filter, returning))
         == Group([Uncacheable] + ([Sql("UPDATE ")] + ([from] + ([Sql(" SET ")] + ([assignments] + ([filter] + ([returning] + [])))))))
  {
  }

  lemma Glue(a: string, b: string, c: string, d: string, e: string, f: string)
    ensures "" + (a + (b + (c + (d + (e + (f + "")))))) == a + b + c + d + e + f
  {
  }

  lemma GlueBinds(a: seq<Seen>, b: seq<Seen>, c: seq<Seen>, d: seq<Seen>)
    ensures [] + ([] + (a + ([] + (b + (c + (d + [])))))) == a + b + c + d
  {
  }

  /** An update that changes something: the keyword, the table, the assignments, the filter and the RETURNING
      clause, in this order and with their binds in this order; never cached. */
  lemma UpdateStatement(variants: Variants, i: nat, from: Node, assignments: Node, filter: Node, returning: Node)
    requires i < |variants|
    requires Complete(variants, from) && Complete(variants, assignments) && Complete(variants, filter) && Complete(variants, returning)
    requires !Empty(variants[i], i, false, assignments)
    ensures var d, s := variants[i], DirectStatement(variants, i, Update(from, assignments, filter, returning));
            var setAt := |Listing(d, i, from)|;
            var filterAt := setAt + |Listing(d, i, assignments)|;
            var returningAt := filterAt + |Listing(d, i, filter)|;
            IsStatement(d, s, "UPDATE " + SqlText(d, i, 0, from) + " SET " + SqlText(d, i, setAt, assignments)
                              + SqlText(d, i, filterAt, filter) + SqlText(d, i, returningAt, returning),
                        false, Listing(d, i, from) + Listing(d, i, assignments) + Listing(d, i, filter) + Listing(d, i, returning))
  {
    hide *;
    var query := Update(from, assignments, filter, returning);
    UpdateGiven(variants, variants[i], i, query);
    BodyStatement(variants, i, query);
    UpdateText(variants[i], i, from, assignments, filter, returning);
  }

  lemma UpdateGiven(variants: Variants, d: Dialect, i: nat, query: Query)
    requires query.Update? && !Empty(d, i, false, query.assignments)
    requires Complete(variants, query.from) && Complete(variants, query.assignments)
    requires Complete(variants, query.filter) && Complete(variants, query.returning)
    ensures CompleteQuery(variants, query) && !NothingToUpdate(d, i, false, query)
  {
  }

  // ----- some statements in full

  const ID := BindParam(NotNull(BaseType.Integer), LeafValue(SizedLeaf(BaseType.Integer, "i32", 1), {}))
  const NAME := BindParam(NotNull(BaseType.Text), LeafValue(TextLeaf("Jo"), {}))

  /** Some text and a bind after it. */
  lemma PairText(d: Dialect, n: nat, text: string, bind: Node)
    requires bind.BindParam?
    ensures SqlText(d, 0, n, Group([Sql(text), bind])) == text + Marker(d, n + 1)
    ensures Listing(d, 0, Group([Sql(text), bind])) == [Seen(false, bind.sqlType, bind.value)]
    ensures !Uncached(d, 0, false, Group([Sql(text), bind])) && !Empty(d, 0, false, Group([Sql(text), bind]))
    ensures Complete([d], Group([Sql(text), bind]))
  {
    hide *;
    PairFlags(d, text, bind);
    PairNodes(text, bind);
    LeafText(d, 0, n, text, "", bind.sqlType, bind.value);
    AfterIs(d, 0);
    GroupText(d, 0, n, Sql(text), [bind] + []);
    GroupText(d, 0, n, bind, []);
    GroupText(d, 0, After(d, 0, n, bind), bind, []);
    assert text + (Marker(d, n + 1) + "") == text + Marker(d, n + 1);
    assert [] + ([Seen(false, bind.sqlType, bind.value)] + []) == [Seen(false, bind.sqlType, bind.value)];
    BindIsItself(bind);
  }

  lemma BindIsItself(bind: Node)
    requires bind.BindParam?
    ensures bind == BindParam(bind.sqlType, bind.value)
  {
  }

  lemma PairNodes(text: string, bind: Node)
    ensures [Sql(text), bind] == [Sql(text)] + ([bind] + [])
  {
  }

  lemma PairFlags(d: Dialect, text: string, bind: Node)
    requires bind.BindParam?
    ensures !Uncached(d, 0, false, Group([Sql(text), bind])) && !Empty(d, 0, false, Group([Sql(text), bind]))
    ensures Complete([d], Group([Sql(text), bind]))
  {
    assert !Empty(d, 0, false, Group([Sql(text), bind]).children[0]);
  }

  lemma Markers()
    ensures Marker(Pg, 1) == "$1" && Marker(Pg, 2) == "$2" && Marker(Mysql, 1) == Marker(Sqlite, 1) == "?"
    ensures Marker(Pg, 10) == "$10"
  {
    assert Decimal(1) == "1" && Decimal(2) == "2" && Decimal(0) == "0";
    assert Decimal(10) == Decimal(1) + "0";
  }

  /** An update of one row, on PostgreSQL: a text and an integer are bound, in this order. */
  lemma UpdateInFull()
    ensures var query := Update(Sql("users"), Group([Sql("name = "), NAME]), Group([Sql(" WHERE id = "), ID]), Sql(""));
            DirectStatement([Pg], 0, query)
            == Statement(Done("UPDATE users SET name = $1 WHERE id = $2"), Done(false),
                         Done([Bind(PgMetadata(Oids(25, 1009)), Some(Encoded(Pg, TextLeaf("Jo")))),
                               Bind(PgMetadata(Oids(23, 1007)), Some(Encoded(Pg, SizedLeaf(BaseType.Integer, "i32", 1))))]))
  {
    hide *;
    var assign, filter := Group([Sql("name = "), NAME]), Group([Sql(" WHERE id = "), ID]);
    var variants := [Pg];
    Binds();
    var name, id := Seen(false, NAME.sqlType, NAME.value), Seen(false, ID.sqlType, ID.value);
    BoundPair(name, id);
    LeavesComplete(variants);
    PairText(Pg, 0, "name = ", NAME);
    PairText(Pg, 1, " WHERE id = ", ID);
    LeafText(Pg, 0, 0, "users", "", NAME.sqlType, NAME.value);
    LeafText(Pg, 0, 2, "", "", NAME.sqlType, NAME.value);
    UpdateStatement(variants, 0, Sql("users"), assign, filter, Sql(""));
    Markers();
    assert [] + [name] + [id] + [] == [name, id];
    assert "UPDATE " + "users" + " SET " + ("name = " + "$1") + (" WHERE id = " + "$2") + "" == "UPDATE users SET name = $1 WHERE id = $2";
    MadeOf(Pg, DirectStatement(variants, 0, Update(Sql("users"), assign, filter, Sql(""))),
           "UPDATE users SET name = $1 WHERE id = $2", false, [name, id]);
  }

  lemma Binds()
    ensures NAME.BindParam? && ID.BindParam?
  {
  }

  lemma LeavesComplete(variants: Variants)
    ensures forall text :: Complete(variants, Sql(text))
  {
  }

  lemma MadeOf(d: Dialect, s: Statement, sql: string, safe: bool, binds: seq<Seen>)
    requires IsStatement(d, s, sql, safe, binds) && Accepted(d, binds) == |binds|
    ensures s == Statement(Done(sql), Done(safe), Done(BoundEach(d, false, binds)))
  {
  }

  lemma BoundPair(name: Seen, id: Seen)
    requires name == Seen(false, NAME.sqlType, NAME.value) && id == Seen(false, ID.sqlType, ID.value)
    ensures Accepted(Pg, [name, id]) == 2
    ensures BoundEach(Pg, false, [name, id]) == [Bind(PgMetadata(Oids(25, 1009)), Some(Encoded(Pg, TextLeaf("Jo")))),
                                                 Bind(PgMetadata(Oids(23, 1007)), Some(Encoded(Pg, SizedLeaf(BaseType.Integer, "i32", 1))))]
  {
    assert [name, id][1..] == [id];
  }

  /** A query with a bind, on each backend, which may be cached. */
  lemma CachedInFull(d: Dialect)
    ensures var s := DirectStatement([d], 0, Fragment(Group([Sql("SELECT * FROM users WHERE id = "), ID])));
            && s.sql == Done(if d.Pg? then "SELECT * FROM users WHERE id = $1" else "SELECT * FROM users WHERE id = ?")
            && s.safeToCache == Done(true)
  {
    hide *;
    var query := Group([Sql("SELECT * FROM users WHERE id = "), ID]);
    Binds();
    PairText(d, 0, "SELECT * FROM users WHERE id = ", ID);
    PairFlags(d, "SELECT * FROM users WHERE id = ", ID);
    FragmentStatement([d], 0, query);
    MadeOfParts(d, DirectStatement([d], 0, Fragment(query)), SqlText(d, 0, 0, query), !Uncached(d, 0, false, query), Listing(d, 0, query));
    MarkerOf(d);
    assert "SELECT * FROM users WHERE id = " + "$1" == "SELECT * FROM users WHERE id = $1";
    assert "SELECT * FROM users WHERE id = " + "?" == "SELECT * FROM users WHERE id = ?";
  }

  lemma MarkerOf(d: Dialect)
    ensures Marker(d, 1) == if d.Pg? then "$1" else "?"
  {
    Markers();
  }

  lemma MadeOfParts(d: Dialect, s: Statement, sql: string, safe: bool, binds: seq<Seen>)
    requires IsStatement(d, s, sql, safe, binds)
    ensures s.sql == Done(sql) && s.safeToCache == Done(safe)
  {
  }

  /** The same query with a mark on it, which must not be. */
  lemma UncachedInFull(d: Dialect)
    ensures DirectStatement([d], 0, Fragment(Group([Uncacheable, ID]))).safeToCache == Done(false)
    ensures DirectStatement([d], 0, Fragment(CommaList([Uncacheable, ID]))).safeToCache == Done(true)
  {
    var marked, tuple := Group([Uncacheable, ID]), CommaList([Uncacheable, ID]);
    MarkedFlags(d);
    hide *;
    FragmentStatement([d], 0, marked);
    FragmentStatement([d], 0, tuple);
    MadeOfParts(d, DirectStatement([d], 0, Fragment(marked)), SqlText(d, 0, 0, marked), !Uncached(d, 0, false, marked), Listing(d, 0, marked));
    MadeOfParts(d, DirectStatement([d], 0, Fragment(tuple)), SqlText(d, 0, 0, tuple), !Uncached(d, 0, false, tuple), Listing(d, 0, tuple));
  }

  lemma MarkedFlags(d: Dialect)
    ensures Complete([d], Group([Uncacheable, ID])) && Complete([d], CommaList([Uncacheable, ID]))
    ensures Uncached(d, 0, false, Group([Uncacheable, ID])) && !Uncached(d, 0, false, CommaList([Uncacheable, ID]))
  {
    var nodes := [Uncacheable, ID];
    assert nodes[0] == Uncacheable && nodes[1] == ID;
    assert Empty(d, 0, false, Uncacheable) && Uncached(d, 0, false, Uncacheable) && !Uncached(d, 0, false, ID);
    GroupUncached(d, 0, nodes);
    hide Empty, Uncached;
    assert Uncached(d, 0, false, CommaList(nodes)) <==> exists k :: 0 <= k < 2 && !Empty(d, 0, false, nodes[k]) && Uncached(d, 0, false, nodes[k]);
  }

  lemma GroupUncached(d: Dialect, i: nat, nodes: seq<Node>)
    ensures Uncached(d, i, false, Group(nodes)) <==> exists k :: 0 <= k < |nodes| && Uncached(d, i, false, nodes[k])
    ensures Uncached(d, i, false, CommaList(nodes)) <==>
              exists k :: 0 <= k < |nodes| && !Empty(d, i, false, nodes[k]) && Uncached(d, i, false, nodes[k])
  {
  }

  /** A missing value, as an insert writes it on PostgreSQL and on SQLite. */
  const MISSING := Dispatch([Group([Uncacheable, Sql("DEFAULT")]), Group([])])

  /** An insert of a name and a missing age: PostgreSQL lists both columns, SQLite one. */
  lemma InsertInFull()
    ensures var values := Values(["name", "age"], [NAME, MISSING]);
            && DirectStatement([Pg, Sqlite], 0, Fragment(values)).sql == Done("(\"name\", \"age\") VALUES ($1, DEFAULT)")
            && DirectStatement([Pg, Sqlite], 1, Fragment(values)).sql == Done("(`name`) VALUES (?)")
            && DirectStatement([Pg, Sqlite], 0, Fragment(values)).safeToCache == Done(false)
            && DirectStatement([Pg, Sqlite], 1, Fragment(values)).safeToCache == Done(true)
  {
    hide *;
    var variants, values := [Pg, Sqlite], Values(["name", "age"], [NAME, MISSING]);
    InsertFlags(variants);
    InsertOnPg();
    InsertOnSqlite();
    FragmentStatement(variants, 0, values);
    FragmentStatement(variants, 1, values);
    MadeOfParts(Pg, DirectStatement(variants, 0, Fragment(values)), SqlText(Pg, 0, 0, values), !Uncached(Pg, 0, false, values), Listing(Pg, 0, values));
    MadeOfParts(Sqlite, DirectStatement(variants, 1, Fragment(values)), SqlText(Sqlite, 1, 0, values), !Uncached(Sqlite, 1, false, values), Listing(Sqlite, 1, values));
  }

  lemma MissingFlags()
    ensures Complete([Pg, Sqlite], MISSING)
    ensures !Empty(Pg, 0, false, MISSING) && Uncached(Pg, 0, false, MISSING)
    ensures Empty(Sqlite, 1, false, MISSING) && !Uncached(Sqlite, 1, false, MISSING)
  {
    var pg, sqlite := Group([Uncacheable, Sql("DEFAULT")]), Group([]);
    var impls := [pg, sqlite];
    assert impls[0] == pg && impls[1] == sqlite && MISSING == Dispatch(impls);
    assert !Empty(Pg, 0, false, pg.children[1]) && Uncached(Pg, 0, false, pg.children[0]);
    assert Empty(Sqlite, 1, false, sqlite) && !Uncached(Sqlite, 1, false, sqlite);
    assert Complete([Pg, Sqlite], pg) && Complete([Pg, Sqlite], sqlite);
  }

  lemma NameFlags(d: Dialect, i: nat)
    ensures !Empty(d, i, false, NAME) && !Uncached(d, i, false, NAME) && Complete([Pg, Sqlite], NAME)
  {
  }

  lemma InsertFlags(variants: Variants)
    requires variants == [Pg, Sqlite]
    ensures var values := Values(["name", "age"], [NAME, MISSING]);
            && Complete(variants, values) && Uncached(Pg, 0, false, values) && !Uncached(Sqlite, 1, false, values)
    ensures !Empty(Pg, 0, false, MISSING) && Empty(Sqlite, 1, false, MISSING) && !Empty(Pg, 0, false, NAME) && !Empty(Sqlite, 1, false, NAME)
  {
    MissingFlags();
    NameFlags(Pg, 0);
    NameFlags(Sqlite, 1);
    ValuesFlags(Pg, 0);
    ValuesFlags(Sqlite, 1);
  }

  lemma ValuesFlags(d: Dialect, i: nat)
    requires Complete([Pg, Sqlite], NAME) && Complete([Pg, Sqlite], MISSING) && !Uncached(d, i, false, NAME)
    ensures var values := Values(["name", "age"], [NAME, MISSING]);
            Complete([Pg, Sqlite], values) && (Uncached(d, i, false, values) <==> !Empty(d, i, false, MISSING) && Uncached(d, i, false, MISSING))
  {
    var values := [NAME, MISSING];
    assert values[0] == NAME && values[1] == MISSING;
    ValuesUncached(d, i, ["name", "age"], values);
    ValuesComplete(["name", "age"], values);
    hide Empty, Uncached, Complete;
    assert Uncached(d, i, false, Values(["name", "age"], values)) <==>
             exists k :: 0 <= k < 2 && !Empty(d, i, false, values[k]) && Uncached(d, i, false, values[k]);
  }

  lemma ValuesComplete(columns: seq<string>, values: seq<Node>)
    ensures Complete([Pg, Sqlite], Values(columns, values)) <==>
              |columns| == |values| && forall k :: 0 <= k < |values| ==> Complete([Pg, Sqlite], values[k])
  {
  }

  lemma ValuesUncached(d: Dialect, i: nat, columns: seq<string>, values: seq<Node>)
    ensures Uncached(d, i, false, Values(columns, values)) <==>
              exists k :: 0 <= k < |values| && !Empty(d, i, false, values[k]) && Uncached(d, i, false, values[k])
  {
  }

  lemma InsertOnPg()
    ensures SqlText(Pg, 0, 0, Values(["name", "age"], [NAME, MISSING])) == "(\"name\", \"age\") VALUES ($1, DEFAULT)"
  {
    hide *;
    Binds();
    InsertFlags([Pg, Sqlite]);
    ValuesText(Pg, 0, 0, ["name", "age"], [NAME, MISSING]);
    ColumnTexts(Pg, 0);
    TwoValues(Pg, 0);
    MissingText();
    Markers();
    assert "(" + "\"name\", \"age\"" + ") VALUES (" + ("$1" + ", " + "DEFAULT") + ")" == "(\"name\", \"age\") VALUES ($1, DEFAULT)";
  }

  lemma InsertOnSqlite()
    ensures SqlText(Sqlite, 1, 0, Values(["name", "age"], [NAME, MISSING])) == "(`name`) VALUES (?)"
  {
    hide *;
    Binds();
    InsertFlags([Pg, Sqlite]);
    ValuesText(Sqlite, 1, 0, ["name", "age"], [NAME, MISSING]);
    ColumnTexts(Sqlite, 1);
    TwoValues(Sqlite, 1);
    Markers();
    assert "(" + "`name`" + ") VALUES (" + "?" + ")" == "(`name`) VALUES (?)";
  }

  lemma ColumnTexts(d: Dialect, i: nat)
    requires !Empty(d, i, false, NAME)
    ensures var names := ColumnText(d, i, ["name", "age"], [NAME, MISSING]);
            names == if Empty(d, i, false, MISSING) then (if d.Pg? then "\"name\"" else "`name`")
                     else (if d.Pg? then "\"name\", \"age\"" else "`name`, `age`")
  {
    hide Empty;
    PlainQuoted(d);
    hide Quoted;
    assert ["name", "age"][1..] == ["age"] && [NAME, MISSING][1..] == [MISSING];
    assert ColumnText(d, i, ["age"], [MISSING]) == if Empty(d, i, false, MISSING) then "" else Quoted(d, "age") by {
      assert ["age"][1..] == [] && [MISSING][1..] == [];
    }
    assert "\"name\"" + ", " + "\"age\"" == "\"name\", \"age\"" && "`name`" + ", " + "`age`" == "`name`, `age`";
  }

  lemma PlainQuoted(d: Dialect)
    ensures Quoted(d, "name") == if d.Pg? then "\"name\"" else "`name`"
    ensures Quoted(d, "age") == if d.Pg? then "\"age\"" else "`age`"
  {
    NoQuoteIn("name");
    NoQuoteIn("age");
    hide *;
    QuotedPlain(d, "name");
    QuotedPlain(d, "age");
    NameInQuotes();
    AgeInQuotes();
  }

  lemma NoQuoteIn(name: string)
    requires name == "name" || name == "age"
    ensures '"' !in name && '`' !in name
  {
  }

  lemma NameInQuotes()
    ensures ['"'] + "name" + ['"'] == "\"name\"" && ['`'] + "name" + ['`'] == "`name`"
  {
  }

  lemma AgeInQuotes()
    ensures ['"'] + "age" + ['"'] == "\"age\"" && ['`'] + "age" + ['`'] == "`age`"
  {
  }

  lemma QuotedPlain(d: Dialect, name: string)
    requires '"' !in name && '`' !in name
    ensures Quoted(d, name) == if d.Pg? then ['"'] + name + ['"'] else ['`'] + name + ['`']
  {
    PlainDoubled(name, if d.Pg? then '"' else '`');
  }

  /** A name without quotes in it is written as it is. */
  lemma {:induction false} PlainDoubled(name: string, quote: char)
    requires quote !in name
    ensures Doubled(name, quote) == name
  {
    if name != "" {
      PlainDoubled(name[1..], quote);
      assert name == [name[0]] + name[1..];
    }
  }

  lemma TwoValues(d: Dialect, i: nat)
    requires !Empty(d, i, false, NAME)
    ensures !Empty(d, i, false, CommaList([NAME, MISSING]))
    ensures SqlText(d, i, 0, CommaList([NAME, MISSING]))
         == if Empty(d, i, false, MISSING) then Marker(d, 1) else Marker(d, 1) + ", " + SqlText(d, i, 1, MISSING)
  {
    hide *;
    Binds();
    TupleOfTwo(d, i);
    LeafText(d, i, 0, "", "", NAME.sqlType, NAME.value);
    BindIsItself(NAME);
    AfterIs(d, i);
    PairOfElements(d, i, 0, NAME, MISSING);
  }

  lemma PairOfElements(d: Dialect, i: nat, n: nat, first: Node, second: Node)
    requires !Empty(d, i, false, first) && (Empty(d, i, false, CommaList([second])) <==> Empty(d, i, false, second))
    requires Empty(d, i, false, CommaList([]))
    ensures SqlText(d, i, n, CommaList([first, second]))
         == if Empty(d, i, false, second) then SqlText(d, i, n, first)
            else SqlText(d, i, n, first) + ", " + SqlText(d, i, After(d, i, n, first), second)
  {
    hide *;
    var one: seq<Node> := [second];
    assert [first, second] == [first] + one && one == [second] + [];
    var m := After(d, i, n, first);
    TupleText(d, i, n, first, one);
    TupleText(d, i, m, second, []);
  }

  lemma TupleOfTwo(d: Dialect, i: nat)
    requires !Empty(d, i, false, NAME)
    ensures !Empty(d, i, false, CommaList([NAME, MISSING]))
    ensures Empty(d, i, false, CommaList([MISSING])) <==> Empty(d, i, false, MISSING)
    ensures Empty(d, i, false, CommaList([]))
  {
    var two, one := CommaList([NAME, MISSING]), CommaList([MISSING]);
    assert two.children[0] == NAME && one.children[0] == MISSING;
  }

  lemma MissingText()
    ensures SqlText(Pg, 0, 1, MISSING) == "DEFAULT"
  {
    var impl := Group([Uncacheable, Sql("DEFAULT")]);
    var impls := [impl, Group([])];
    assert MISSING == Dispatch(impls) && impls[0] == impl && [Uncacheable, Sql("DEFAULT")] == [Uncacheable] + ([Sql("DEFAULT")] + []);
    hide *;
    Binds();
    AfterIs(Pg, 0);
    LeafText(Pg, 0, 1, "DEFAULT", "", NAME.sqlType, NAME.value);
    DispatchText(Pg, 0, 1, impls);
    GroupText(Pg, 0, 1, Uncacheable, [Sql("DEFAULT")] + []);
    GroupText(Pg, 0, 1, Sql("DEFAULT"), []);
    assert "" + ("DEFAULT" + "") == "DEFAULT";
  }

  /** An update with an empty list of assignments is refused in every pass. */
  lemma EmptyUpdateRefused(d: Dialect)
    ensures DirectStatement([d], 0, Update(Sql("users"), CommaList([]), Sql(""), Sql(""))) == Statement(Failed, Failed, Failed)
    ensures ForwardedStatement([d], 0, Update(Sql("users"), CommaList([]), Sql(""), Sql(""))) == Statement(Failed, Failed, Failed)
  {
    var query := Update(Sql("users"), CommaList([]), Sql(""), Sql(""));
    assert NothingToUpdate(d, 0, false, query) && NothingToUpdate(d, 0, true, query);
    assert CompleteQuery([d], query);
    hide *;
    Refused();
    DirectIs([d], 0, query);
    ForwardedIs([d], 0, query);
  }

  lemma Refused()
    ensures REFUSED == Statement(Failed, Failed, Failed)
  {
  }

  /** A NULL has the declared type's metadata and no bytes, directly and through the enums. */
  lemma NullInFull(d: Dialect, base: BaseType)
    ensures var query := Fragment(BindParam(SqlType.Nullable(base), NoneValue));
            && DirectStatement([d], 0, query).binds == Done([Bind(MetadataOf(d, base), None)])
            && ForwardedStatement([d], 0, query).binds == Done([Bind(MetadataOf(d, base), None)])
  {
    OneBind(d, BindParam(SqlType.Nullable(base), NoneValue));
  }

  /** Directly a value has the declared type's metadata; through the enums strings are texts, bytes are binaries
      and any other value has the type it was written in. */
  lemma ValueInFull(d: Dialect, declared: BaseType, written: BaseType, text: string, bytes: seq<int>, rust: string, payload: int)
    ensures var s, b, v := TextLeaf(text), BytesLeaf(bytes), SizedLeaf(written, rust, payload);
            forall leaf :: leaf in {s, b, v} ==>
              var query := Fragment(BindParam(NotNull(declared), LeafValue(leaf, {})));
              var base := if leaf == s then BaseType.Text else if leaf == b then BaseType.Binary else written;
              && DirectStatement([d], 0, query).binds == Done([Bind(MetadataOf(d, declared), Some(Encoded(d, leaf)))])
              && ForwardedStatement([d], 0, query).binds == Done([Bind(MetadataOf(d, base), Some(Encoded(d, leaf)))])
  {
    OneBind(d, BindParam(NotNull(declared), LeafValue(TextLeaf(text), {})));
    OneBind(d, BindParam(NotNull(declared), LeafValue(BytesLeaf(bytes), {})));
    OneBind(d, BindParam(NotNull(declared), LeafValue(SizedLeaf(written, rust, payload), {})));
    hide DirectStatement, ForwardedStatement, MetadataOf;
  }
}
