/** What each pass makes of a query's pieces: its text, its binds, and whether it may be cached. */
module QueryText {
  import opened Prelude
  import opened QueryPass
  import opened MultiConnection
  import opened MultiBinds
  import opened MultiTrace

  // ----- text, binds and verdict of a trace

  function BindsOf(trace: seq<Piece>): seq<Seen> {
    if trace == [] then []
    else (if trace[0].Marked? then [trace[0].bind] else []) + BindsOf(trace[1..])
  }

  /** A name between quotes, with the quotes in it doubled. */
  function Quoted(d: Dialect, name: string): string {
    var quote := if d.Pg? then '"' else '`';
    [quote] + Doubled(name, quote) + [quote]
  }

  /** The marker of the `n`-th bind. */
  function Marker(d: Dialect, n: nat): string {
    if d.Pg? then "$" + Decimal(n) else "?"
  }

  /** The text of one piece after `n` binds. */
  function PieceText(d: Dialect, n: nat, piece: Piece): string {
    match piece
    case Wrote(text) => text
    case Named(name) => Quoted(d, name)
    case Marked(_) => Marker(d, n + 1)
    case Unsafe => ""
  }

  function TextOf(d: Dialect, n: nat, trace: seq<Piece>): string
    decreases |trace|
  {
    if trace == [] then ""
    else PieceText(d, n, trace[0]) + TextOf(d, if trace[0].Marked? then n + 1 else n, trace[1..])
  }

  predicate Cacheable(trace: seq<Piece>) { forall k :: 0 <= k < |trace| ==> !trace[k].Unsafe? }

  function Head(piece: Piece): seq<Seen> { if piece.Marked? then [piece.bind] else [] }

  lemma TextFront(d: Dialect, n: nat, piece: Piece, rest: seq<Piece>)
    ensures TextOf(d, n, [piece] + rest) == PieceText(d, n, piece) + TextOf(d, n + |Head(piece)|, rest)
    ensures BindsOf([piece] + rest) == Head(piece) + BindsOf(rest)
  {
    var trace := [piece] + rest;
    assert trace[0] == piece && trace[1..] == rest;
  }

  lemma NoText(d: Dialect, n: nat)
    ensures TextOf(d, n, []) == "" && BindsOf([]) == []
  {
  }

  lemma {:induction false} TextAppend(d: Dialect, n: nat, front: seq<Piece>, back: seq<Piece>)
    ensures BindsOf(front + back) == BindsOf(front) + BindsOf(back)
    ensures TextOf(d, n, front + back) == TextOf(d, n, front) + TextOf(d, n + |BindsOf(front)|, back)
    decreases |front|
  {
    hide TextOf, BindsOf, PieceText, Head;
    NoText(d, n);
    if front == [] {
      assert front + back == back;
    } else {
      var piece, rest := front[0], front[1..];
      assert front == [piece] + rest && front + back == [piece] + (rest + back);
      var next := n + |Head(piece)|;
      TextFront(d, n, piece, rest);
      TextFront(d, n, piece, rest + back);
      TextAppend(d, next, rest, back);
      Associative(PieceText(d, n, piece), TextOf(d, next, rest), TextOf(d, next + |BindsOf(rest)|, back));
      Associative(Head(piece), BindsOf(rest), BindsOf(back));
    }
  }

  lemma Associative<T>(a: seq<T>, b: seq<T>, c: seq<T>)
    ensures a + (b + c) == (a + b) + c
  {
  }

  lemma FlagsAppend(front: seq<Piece>, back: seq<Piece>)
    ensures Cacheable(front + back) <==> Cacheable(front) && Cacheable(back)
    ensures Silent(front + back) <==> Silent(front) && Silent(back)
  {
    var both := front + back;
    assert forall k :: 0 <= k < |front| ==> both[k] == front[k];
    assert forall k :: 0 <= k < |back| ==> both[|front| + k] == back[k];
  }

  lemma OneText(d: Dialect, n: nat, piece: Piece)
    ensures TextOf(d, n, [piece]) == PieceText(d, n, piece)
    ensures BindsOf([piece]) == if piece.Marked? then [piece.bind] else []
  {
    assert [piece][1..] == [];
    assert PieceText(d, n, piece) + "" == PieceText(d, n, piece);
  }

  // ----- the passes

  predicate Numbered(n: nat, builder: Builder) { builder.dialect.Pg? ==> builder.bindIdx == n }

  /** The text pass appends the text. */
  lemma {:induction false} SqlAfter(multi: bool, n: nat, trace: seq<Piece>, pass: Pass)
    requires pass.ToSql? && Numbered(n, pass.builder.inner)
    ensures var b, d := pass.builder.inner, pass.builder.inner.dialect;
            PushTrace(d, multi, trace, pass) ==
              Done(ToSql(pass.builder.(inner := Builder(d, b.sql + TextOf(d, n, trace), if d.Pg? then n + |BindsOf(trace)| else b.bindIdx))))
    decreases |trace|
  {
    var d, sql := pass.builder.inner.dialect, pass.builder.inner.sql;
    hide TextOf, BindsOf, PieceText, Head, PushPiece;
    NoText(d, n);
    if trace == [] {
      assert sql + "" == sql;
    } else {
      var piece, rest := trace[0], trace[1..];
      assert trace == [piece] + rest;
      TextFront(d, n, piece, rest);
      PieceAfter(multi, n, piece, pass);
      var next := n + |Head(piece)|;
      SqlAfter(multi, next, rest, PushPiece(d, multi, piece, pass).value);
      Associative(sql, PieceText(d, n, piece), TextOf(d, next, rest));
    }
  }

  lemma PieceAfter(multi: bool, n: nat, piece: Piece, pass: Pass)
    requires pass.ToSql? && Numbered(n, pass.builder.inner)
    ensures var b, d := pass.builder.inner, pass.builder.inner.dialect;
            PushPiece(d, multi, piece, pass) ==
              Done(ToSql(pass.builder.(inner := Builder(d, b.sql + PieceText(d, n, piece), if d.Pg? then n + |Head(piece)| else b.bindIdx))))
  {
    assert pass.builder.inner.sql + "" == pass.builder.inner.sql;
  }

  /** The cache pass is cleared exactly by an unsafe mark. */
  lemma {:induction false} CacheAfter(d: Dialect, multi: bool, trace: seq<Piece>, safe: bool)
    ensures PushTrace(d, multi, trace, SafeToCache(safe)) == Done(SafeToCache(safe && Cacheable(trace)))
  {
    if trace != [] {
      var next := safe && !trace[0].Unsafe?;
      assert PushPiece(d, multi, trace[0], SafeToCache(safe)) == Done(SafeToCache(next));
      CacheAfter(d, multi, trace[1..], next);
      assert forall k :: 1 <= k < |trace| ==> trace[k] == trace[1..][k - 1];
    }
  }

  function Collected(pass: Pass, binds: Outcome<seq<Bind>>): Outcome<Pass>
    requires pass.CollectBinds?
  {
    match binds
    case Done(binds) => Done(pass.(collector := pass.collector.(inner := pass.collector.inner.(binds := binds))))
    case Failed => Failed
    case Panicked => Panicked
  }

  /** The bind pass pushes the binds in order. */
  lemma {:induction false} CollectAfter(d: Dialect, multi: bool, trace: seq<Piece>, pass: Pass)
    requires pass.CollectBinds?
    ensures PushTrace(d, multi, trace, pass) == Collected(pass, PushEach(d, multi, BindsOf(trace), pass.collector.inner.binds))
  {
    if trace != [] {
      var pushed, rest := PushPiece(d, multi, trace[0], pass), BindsOf(trace[1..]);
      if trace[0].Marked? {
        CollectedFront(d, multi, trace[0].bind, rest, pass);
      } else {
        assert [] + rest == rest;
      }
      if pushed.Done? { CollectAfter(d, multi, trace[1..], pushed.value); }
    }
  }

  lemma CollectedFront(d: Dialect, multi: bool, bind: Seen, rest: seq<Seen>, pass: Pass)
    requires pass.CollectBinds?
    ensures var pushed := PushPiece(d, multi, Marked(bind), pass);
            && (pushed.Done? ==> pushed.value.CollectBinds?)
            && Collected(pass, PushEach(d, multi, [bind] + rest, pass.collector.inner.binds))
               == if pushed.Done? then Collected(pushed.value, PushEach(d, multi, rest, pushed.value.collector.inner.binds)) else pushed
  {
    assert ([bind] + rest)[1..] == rest;
  }

  /** The debug pass lists the values in order. */
  lemma {:induction false} DebugAfter(d: Dialect, multi: bool, trace: seq<Piece>, seen: seq<Value>)
    ensures PushTrace(d, multi, trace, DebugBinds(seen)) == Done(DebugBinds(seen + ValuesOf(BindsOf(trace))))
  {
    hide BindsOf, Head, ValuesOf, PushPiece;
    NoText(d, 0);
    if trace == [] {
      assert seen + ValuesOf([]) == seen;
    } else {
      var piece, rest := trace[0], trace[1..];
      assert trace == [piece] + rest;
      TextFront(d, 0, piece, rest);
      DebugPiece(d, multi, piece, seen, BindsOf(rest));
      DebugAfter(d, multi, rest, seen + ValuesOf(Head(piece)));
    }
  }

  lemma DebugPiece(d: Dialect, multi: bool, piece: Piece, seen: seq<Value>, rest: seq<Seen>)
    ensures PushPiece(d, multi, piece, DebugBinds(seen)) == Done(DebugBinds(seen + ValuesOf(Head(piece))))
    ensures seen + ValuesOf(Head(piece) + rest) == (seen + ValuesOf(Head(piece))) + ValuesOf(rest)
  {
    if piece.Marked? {
      assert Head(piece)[1..] == [] && (Head(piece) + rest)[1..] == rest;
      assert ValuesOf(Head(piece)) == [piece.bind.value];
      Associative(seen, [piece.bind.value], ValuesOf(rest));
    } else {
      assert [] + rest == rest && seen + [] == seen;
      assert ValuesOf([]) == [];
    }
  }

  // ----- a query's own text and binds

  /** The text of a fragment after `n` binds, as the backend itself writes it. */
  function SqlText(d: Dialect, i: nat, n: nat, node: Node): string {
    TextOf(d, n, Trace(d, i, false, node))
  }

  /** Its binds, in order. */
  function Listing(d: Dialect, i: nat, node: Node): seq<Seen> {
    BindsOf(Trace(d, i, false, node))
  }

  // ----- reading emptiness and cacheability off the query

  /** The fragment emits nothing. */
  predicate Empty(d: Dialect, i: nat, multi: bool, node: Node)
    decreases node
  {
    match node
    case Sql(_) => false
    case Identifier(_) => false
    case BindParam(_, _) => false
    case Uncacheable => true
    case Group(children) => forall k :: 0 <= k < |children| ==> Empty(d, i, multi, children[k])
    case CommaList(children) => forall k :: 0 <= k < |children| ==> Empty(d, i, multi, children[k])
    case Select(_, _, _, _, _, _, _, _, _) => false
    case BoxedLimitOffset(limit, offset) =>
      && (limit.Some? ==> Empty(d, i, multi, limit.value)) && (offset.Some? ==> Empty(d, i, multi, offset.value))
      && (limit.Some? || offset.None? || multi || d.Pg?)
    case Values(_, _) => false
    case Dispatch(impls) => i < |impls| ==> Empty(d, i, false, impls[i])
  }

  /** A walk for the backend comes upon something that must not be cached. Elements of a tuple that emit nothing
      are not walked, and no values are where all of them emit nothing. */
  predicate Uncached(d: Dialect, i: nat, multi: bool, node: Node)
    decreases node
  {
    match node
    case Uncacheable => true
    case Group(children) => exists k :: 0 <= k < |children| && Uncached(d, i, multi, children[k])
    case CommaList(children) => exists k :: 0 <= k < |children| && !Empty(d, i, multi, children[k]) && Uncached(d, i, multi, children[k])
    case Select(distinct, select, from, filter, groupBy, having, order, limitOffset, locking) =>
      || Uncached(d, i, multi, distinct) || Uncached(d, i, multi, select) || Uncached(d, i, multi, from)
      || Uncached(d, i, multi, filter) || Uncached(d, i, multi, groupBy) || Uncached(d, i, multi, having)
      || Uncached(d, i, multi, order) || Uncached(d, i, multi, limitOffset) || Uncached(d, i, multi, locking)
    case BoxedLimitOffset(limit, offset) =>
      (limit.Some? && Uncached(d, i, multi, limit.value)) || (offset.Some? && Uncached(d, i, multi, offset.value))
    case Values(_, values) => exists k :: 0 <= k < |values| && !Empty(d, i, multi, values[k]) && Uncached(d, i, multi, values[k])
    case Dispatch(impls) => i < |impls| && Uncached(d, i, false, impls[i])
    case _ => false
  }

  predicate Reads(empty: bool, uncached: bool, trace: seq<Piece>) {
    (Silent(trace) <==> empty) && (Cacheable(trace) <==> !uncached)
  }

  lemma {:induction false} TraceReads(d: Dialect, i: nat, multi: bool, node: Node)
    ensures Reads(Empty(d, i, multi, node), Uncached(d, i, multi, node), Trace(d, i, multi, node))
    decreases node, 1, 0
  {
    hide Silent, Cacheable;
    match node
    case Group(children) => AllRead(d, i, multi, node, children);
    case CommaList(children) => ListReads(d, i, multi, children, false);
    case Select(_, _, _, _, _, _, _, _, _) => SelectReads(d, i, multi, node);
    case BoxedLimitOffset(_, _) => BoxedReads(d, i, multi, node);
    case Values(columns, values) => ValuesRead(d, i, multi, columns, values);
    case Dispatch(impls) =>
      if i < |impls| { TraceReads(d, i, false, impls[i]); }
      DispatchReads(d, i, multi, impls);
    case _ => LeafReads(d, i, multi, node);
  }

  lemma LeafReads(d: Dialect, i: nat, multi: bool, node: Node)
    requires node.Sql? || node.Identifier? || node.BindParam? || node.Uncacheable?
    ensures Reads(Empty(d, i, multi, node), Uncached(d, i, multi, node), Trace(d, i, multi, node))
  {
    var piece := Trace(d, i, multi, node)[0];
    assert piece.Unsafe? <==> node.Uncacheable?;
  }

  lemma DispatchReads(d: Dialect, i: nat, multi: bool, impls: seq<Node>)
    requires i < |impls| ==> Reads(Empty(d, i, false, impls[i]), Uncached(d, i, false, impls[i]), Trace(d, i, false, impls[i]))
    ensures Reads(Empty(d, i, multi, Dispatch(impls)), Uncached(d, i, multi, Dispatch(impls)), Trace(d, i, multi, Dispatch(impls)))
  {
    if i < |impls| { SameUnderDispatch(Trace(d, i, false, impls[i])); }
  }

  lemma SameUnderDispatch(trace: seq<Piece>)
    ensures Silent(Dispatched(trace)) <==> Silent(trace)
    ensures Cacheable(Dispatched(trace)) <==> Cacheable(trace)
  {
    assert forall k :: 0 <= k < |trace| ==> (Dispatched(trace)[k].Unsafe? <==> trace[k].Unsafe?);
  }

  lemma {:induction false} SelectReads(d: Dialect, i: nat, multi: bool, node: Node)
    requires node.Select?
    ensures Reads(false, Uncached(d, i, multi, node), Trace(d, i, multi, node))
    decreases node, 0, |AnsiSelectOrder(node)| + 1
  {
    var order := AnsiSelectOrder(node);
    var clauses := TraceAll(d, i, multi, node, order);
    AllRead(d, i, multi, node, order);
    FlagsAppend([Wrote("SELECT ")], clauses);
    assert Trace(d, i, multi, node) == [Wrote("SELECT ")] + clauses && [Wrote("SELECT ")][0] == Wrote("SELECT ");
    SelectUncached(d, i, multi, node);
  }

  /** What holds of some clause of a select statement holds at some place of the clause list. */
  lemma SomeClause(node: Node, p: Node -> bool)
    requires node.Select?
    ensures (exists k :: 0 <= k < |AnsiSelectOrder(node)| && p(AnsiSelectOrder(node)[k])) <==>
              || p(node.distinct) || p(node.select) || p(node.from) || p(node.filter) || p(node.groupBy) || p(node.having)
              || p(node.order) || p(node.limitOffset) || p(node.locking)
  {
    var order := AnsiSelectOrder(node);
    assert order[0] == node.distinct && order[1] == node.select && order[2] == node.from;
    assert order[3] == node.filter && order[4] == node.groupBy && order[5] == node.having;
    assert order[6] == node.order && order[7] == node.limitOffset && order[8] == node.locking;
  }

  lemma SelectUncached(d: Dialect, i: nat, multi: bool, node: Node)
    requires node.Select?
    ensures Uncached(d, i, multi, node) <==> exists k :: 0 <= k < |AnsiSelectOrder(node)| && Uncached(d, i, multi, AnsiSelectOrder(node)[k])
  {
    var p := (clause: Node) => Uncached(d, i, multi, clause);
    SomeClause(node, p);
    assert forall k :: 0 <= k < |AnsiSelectOrder(node)| ==> p(AnsiSelectOrder(node)[k]) == Uncached(d, i, multi, AnsiSelectOrder(node)[k]);
  }

  lemma {:induction false} BoxedReads(d: Dialect, i: nat, multi: bool, node: Node)
    requires node.BoxedLimitOffset?
    ensures Reads(Empty(d, i, multi, node), Uncached(d, i, multi, node), Trace(d, i, multi, node))
    decreases node, 0, 0
  {
    var limit, offset := node.limit, node.offset;
    var pad := if !multi && !d.Pg? && limit.None? && offset.Some? then [Wrote(LimitForBareOffset(d))] else [];
    var front := if limit.Some? then Trace(d, i, multi, limit.value) else [];
    var back := if offset.Some? then Trace(d, i, multi, offset.value) else [];
    assert pad != [] ==> pad[0] == Wrote(LimitForBareOffset(d));
    if limit.Some? { TraceReads(d, i, multi, limit.value); }
    if offset.Some? { TraceReads(d, i, multi, offset.value); }
    FlagsAppend(pad, front);
    FlagsAppend(pad + front, back);
    assert Trace(d, i, multi, node) == pad + front + back;
  }

  lemma {:induction false} AllRead(d: Dialect, i: nat, multi: bool, parent: Node, nodes: seq<Node>)
    requires forall k :: 0 <= k < |nodes| ==> nodes[k] < parent
    ensures Reads(forall k :: 0 <= k < |nodes| ==> Empty(d, i, multi, nodes[k]), exists k :: 0 <= k < |nodes| && Uncached(d, i, multi, nodes[k]),
                  TraceAll(d, i, multi, parent, nodes))
    decreases parent, 0, |nodes|
  {
    hide Trace, Empty, Uncached;
    if nodes != [] {
      TraceReads(d, i, multi, nodes[0]);
      AllRead(d, i, multi, parent, nodes[1..]);
      FlagsAppend(Trace(d, i, multi, nodes[0]), TraceAll(d, i, multi, parent, nodes[1..]));
      assert forall k :: 1 <= k < |nodes| ==> nodes[k] == nodes[1..][k - 1];
    }
  }

  lemma {:induction false} ListReads(d: Dialect, i: nat, multi: bool, nodes: seq<Node>, due: bool)
    ensures Reads(forall k :: 0 <= k < |nodes| ==> Empty(d, i, multi, nodes[k]),
                  exists k :: 0 <= k < |nodes| && !Empty(d, i, multi, nodes[k]) && Uncached(d, i, multi, nodes[k]),
                  TraceList(d, i, multi, nodes, due))
    decreases nodes, 0, 0
  {
    hide Trace, Empty, Uncached;
    if nodes != [] {
      var first := Trace(d, i, multi, nodes[0]);
      TraceReads(d, i, multi, nodes[0]);
      ListReads(d, i, multi, nodes[1..], due);
      ListReads(d, i, multi, nodes[1..], true);
      FlagsAppend(Comma(due), first);
      FlagsAppend(Comma(due) + first, TraceList(d, i, multi, nodes[1..], true));
      assert forall k :: 1 <= k < |nodes| ==> nodes[k] == nodes[1..][k - 1];
    }
  }

  lemma {:induction false} ValuesRead(d: Dialect, i: nat, multi: bool, columns: seq<string>, values: seq<Node>)
    ensures Reads(false, exists k :: 0 <= k < |values| && !Empty(d, i, multi, values[k]) && Uncached(d, i, multi, values[k]),
                  Trace(d, i, multi, Values(columns, values)))
    decreases values, 1, 0
  {
    hide Empty, Uncached;
    ListReads(d, i, multi, values, false);
    var names, list := TraceColumns(d, i, multi, columns, values, false), TraceList(d, i, multi, values, false);
    if Silent(list) {
      assert forall k :: 0 <= k < |values| ==> Empty(d, i, multi, values[k]);
      assert Trace(d, i, multi, Values(columns, values))[0] == Wrote(DefaultRow(d));
    } else {
      ColumnsCacheable(d, i, multi, columns, values, false);
  var open, middle, close := [Wrote("(")], [Wrote(") VALUES (")], [Wrote(")")];
      FlagsAppend(open, names);
      FlagsAppend(list, close);
      FlagsAppend(middle, list + close);
      FlagsAppend(open + names, middle + (list + close));
      assert open[0] == Wrote("(") && open + names + (middle + (list + close)) == Trace(d, i, multi, Values(columns, values));
    }
  }

  lemma {:induction false} ColumnsCacheable(d: Dialect, i: nat, multi: bool, columns: seq<string>, values: seq<Node>, due: bool)
    ensures Cacheable(TraceColumns(d, i, multi, columns, values, due)) && BindsOf(TraceColumns(d, i, multi, columns, values, due)) == []
    decreases values
  {
    hide Trace;
    if columns != [] && values != [] {
      ColumnsCacheable(d, i, multi, columns[1..], values[1..], due);
      ColumnsCacheable(d, i, multi, columns[1..], values[1..], true);
      var head, rest := Comma(due) + [Named(columns[0])], TraceColumns(d, i, multi, columns[1..], values[1..], true);
      FlagsAppend(head, rest);
      TextAppend(d, 0, head, rest);
      TextAppend(d, 0, Comma(due), [Named(columns[0])]);
      OneText(d, 0, Wrote(", "));
      OneText(d, 0, Named(columns[0]));
    }
  }

  /** What emits nothing has no binds. */
  lemma {:induction false} SilentHasNoBinds(d: Dialect, n: nat, trace: seq<Piece>)
    requires Silent(trace)
    ensures BindsOf(trace) == [] && TextOf(d, n, trace) == ""
  {
    if trace != [] {
      assert trace[0].Unsafe?;
      assert forall k :: 0 <= k < |trace| - 1 ==> trace[1..][k] == trace[k + 1];
      SilentHasNoBinds(d, n, trace[1..]);
    }
  }
}
