/** The pieces that a backend is given through the enums beside those it is given directly: the same, unless an
    offset stands without a limit; then the same binds and less text. */
module MultiForwarding {
  import opened Prelude
  import opened QueryPass
  import opened MultiConnection
  import opened MultiBinds
  import opened MultiTrace
  import opened QueryText

  /** An offset without limit on a backend that needs one. */
  predicate BareOffset(d: Dialect, node: Node) {
    match node
    case Group(children) => exists k :: 0 <= k < |children| && BareOffset(d, children[k])
    case CommaList(children) => exists k :: 0 <= k < |children| && BareOffset(d, children[k])
    case Select(distinct, select, from, filter, groupBy, having, order, limitOffset, locking) =>
      || BareOffset(d, distinct) || BareOffset(d, select) || BareOffset(d, from)
      || BareOffset(d, filter) || BareOffset(d, groupBy) || BareOffset(d, having)
      || BareOffset(d, order) || BareOffset(d, limitOffset) || BareOffset(d, locking)
    case BoxedLimitOffset(limit, offset) =>
      || (!d.Pg? && limit.None? && offset.Some?)
      || (limit.Some? && BareOffset(d, limit.value)) || (offset.Some? && BareOffset(d, offset.value))
    case Values(_, values) => exists k :: 0 <= k < |values| && BareOffset(d, values[k])
    case _ => false
  }

  // ----- how much text

  /** How much text a piece has, a marker counting as one character. */
  function PieceWeight(d: Dialect, piece: Piece): nat {
    match piece
    case Wrote(text) => |text|
    case Named(name) => |Quoted(d, name)|
    case Marked(_) => 1
    case Unsafe => 0
  }

  function Weight(d: Dialect, trace: seq<Piece>): nat {
    if trace == [] then 0 else PieceWeight(d, trace[0]) + Weight(d, trace[1..])
  }

  lemma {:induction false} WeightAppend(d: Dialect, front: seq<Piece>, back: seq<Piece>)
    ensures Weight(d, front + back) == Weight(d, front) + Weight(d, back)
  {
    if front == [] {
      assert front + back == back;
    } else {
      assert (front + back)[1..] == front[1..] + back;
      WeightAppend(d, front[1..], back);
    }
  }

  lemma {:induction false} WeightIsLength(d: Dialect, n: nat, trace: seq<Piece>)
    requires !d.Pg?
    ensures |TextOf(d, n, trace)| == Weight(d, trace)
    decreases |trace|
  {
    if trace != [] { WeightIsLength(d, if trace[0].Marked? then n + 1 else n, trace[1..]); }
  }

  // ----- beside each other

  /** Through the enums no bind is lost, nothing is emitted that the backend does not emit too and, with a bare
      offset, something is missing. */
  predicate Behind(d: Dialect, bare: bool, same: bool, multi: seq<Piece>, own: seq<Piece>) {
    && BindsOf(multi) == BindsOf(own)
    && Weight(d, multi) + (if bare then 1 else 0) <= Weight(d, own)
    && (Silent(own) ==> Silent(multi) && !bare)
    && (same ==> multi == own)
  }

  lemma BehindAppend(d: Dialect, bare: bool, same: bool, multi: seq<Piece>, own: seq<Piece>,
                     bare': bool, same': bool, multi': seq<Piece>, own': seq<Piece>)
    requires Behind(d, bare, same, multi, own) && Behind(d, bare', same', multi', own')
    ensures Behind(d, bare || bare', same && same', multi + multi', own + own')
  {
    TextAppend(d, 0, multi, multi');
    TextAppend(d, 0, own, own');
    FlagsAppend(multi, multi');
    FlagsAppend(own, own');
    WeightAppend(d, multi, multi');
    WeightAppend(d, own, own');
  }

  lemma BehindSelf(d: Dialect, trace: seq<Piece>)
    ensures Behind(d, false, true, trace, trace)
  {
  }

  predicate TraceBehind(d: Dialect, i: nat, node: Node) {
    Behind(d, BareOffset(d, node), !BareOffset(d, node), Trace(d, i, true, node), Trace(d, i, false, node))
  }

  /** For every query: the pieces given through the enums are the backend's own if and only if no offset is bare;
      the binds are always the same. */
  lemma {:induction false} ComparesTraces(variants: Variants, d: Dialect, i: nat, node: Node)
    requires Complete(variants, node)
    ensures TraceBehind(d, i, node)
    decreases node, 1, 0
  {
    match node
    case Group(children) => ComparesAll(variants, d, i, node, children);
    case CommaList(children) => ComparesList(variants, d, i, children, false, false);
    case Select(_, _, _, _, _, _, _, _, _) => ComparesSelect(variants, d, i, node);
    case BoxedLimitOffset(_, _) => ComparesBoxed(variants, d, i, node);
    case Values(columns, values) => ComparesValues(variants, d, i, columns, values);
    case _ => BehindSelf(d, Trace(d, i, false, node));
  }

  lemma {:induction false} ComparesSelect(variants: Variants, d: Dialect, i: nat, node: Node)
    requires node.Select? && Complete(variants, node)
    ensures TraceBehind(d, i, node)
    decreases node, 0, |AnsiSelectOrder(node)| + 1
  {
    var order := AnsiSelectOrder(node);
    SelectClauses(variants, node);
    SelectBare(d, node);
    ComparesAll(variants, d, i, node, order);
    BehindSelf(d, [Wrote("SELECT ")]);
    hide Behind, BareOffset;
    BehindAppend(d, false, true, [Wrote("SELECT ")], [Wrote("SELECT ")],
                 BareOffset(d, node), !BareOffset(d, node), TraceAll(d, i, true, node, order), TraceAll(d, i, false, node, order));
  }

  lemma SelectBare(d: Dialect, node: Node)
    requires node.Select?
    ensures BareOffset(d, node) <==> exists k :: 0 <= k < |AnsiSelectOrder(node)| && BareOffset(d, AnsiSelectOrder(node)[k])
  {
    var p := (clause: Node) => BareOffset(d, clause);
    SomeClause(node, p);
    assert forall k :: 0 <= k < |AnsiSelectOrder(node)| ==> p(AnsiSelectOrder(node)[k]) == BareOffset(d, AnsiSelectOrder(node)[k]);
  }

  lemma {:induction false} ComparesBoxed(variants: Variants, d: Dialect, i: nat, node: Node)
    requires node.BoxedLimitOffset? && Complete(variants, node)
    ensures TraceBehind(d, i, node)
    decreases node, 0, 0
  {
    var limit, offset := node.limit, node.offset;
    var pads := !d.Pg? && limit.None? && offset.Some?;
    var pad: seq<Piece> := if pads then [Wrote(LimitForBareOffset(d))] else [];
    var front, ownFront := if limit.Some? then Trace(d, i, true, limit.value) else [], if limit.Some? then Trace(d, i, false, limit.value) else [];
    var back, ownBack := if offset.Some? then Trace(d, i, true, offset.value) else [], if offset.Some? then Trace(d, i, false, offset.value) else [];
    if limit.Some? { ComparesTraces(variants, d, i, limit.value); }
    if offset.Some? { ComparesTraces(variants, d, i, offset.value); }
    var bareFront, bareBack := limit.Some? && BareOffset(d, limit.value), offset.Some? && BareOffset(d, offset.value);
    assert Behind(d, pads, !pads, [], pad) by {
      if pads { assert pad[0] == Wrote(LimitForBareOffset(d)) && pad[1..] == []; }
    }
    hide Behind;
    BehindAppend(d, pads, !pads, [], pad, bareFront, !bareFront, front, ownFront);
    BehindAppend(d, pads || bareFront, !(pads || bareFront), [] + front, pad + ownFront, bareBack, !bareBack, back, ownBack);
  }

  lemma {:induction false} ComparesAll(variants: Variants, d: Dialect, i: nat, parent: Node, nodes: seq<Node>)
    requires forall k :: 0 <= k < |nodes| ==> nodes[k] < parent && Complete(variants, nodes[k])
    ensures var bare := exists k :: 0 <= k < |nodes| && BareOffset(d, nodes[k]);
            Behind(d, bare, !bare, TraceAll(d, i, true, parent, nodes), TraceAll(d, i, false, parent, nodes))
    decreases parent, 0, |nodes|
  {
    hide Trace, BareOffset, Complete;
    if nodes != [] {
      ComparesTraces(variants, d, i, nodes[0]);
      ComparesAll(variants, d, i, parent, nodes[1..]);
      var rest := exists k :: 0 <= k < |nodes[1..]| && BareOffset(d, nodes[1..][k]);
      assert forall k :: 1 <= k < |nodes| ==> nodes[k] == nodes[1..][k - 1];
      assert (exists k :: 0 <= k < |nodes| && BareOffset(d, nodes[k])) <==> BareOffset(d, nodes[0]) || rest;
      hide Behind;
      BehindAppend(d, BareOffset(d, nodes[0]), !BareOffset(d, nodes[0]), Trace(d, i, true, nodes[0]), Trace(d, i, false, nodes[0]),
                   rest, !rest, TraceAll(d, i, true, parent, nodes[1..]), TraceAll(d, i, false, parent, nodes[1..]));
    }
  }

  lemma CommaBehind(d: Dialect, due: bool, ownDue: bool)
    requires due ==> ownDue
    ensures BindsOf(Comma(due)) == BindsOf(Comma(ownDue)) == []
    ensures Weight(d, Comma(due)) <= Weight(d, Comma(ownDue))
  {
    assert [Wrote(", ")][1..] == [];
  }

  lemma {:induction false} ComparesList(variants: Variants, d: Dialect, i: nat, nodes: seq<Node>, due: bool, ownDue: bool)
    requires forall k :: 0 <= k < |nodes| ==> Complete(variants, nodes[k])
    requires due ==> ownDue
    ensures var bare := exists k :: 0 <= k < |nodes| && BareOffset(d, nodes[k]);
            Behind(d, bare, !bare && due == ownDue, TraceList(d, i, true, nodes, due), TraceList(d, i, false, nodes, ownDue))
    decreases nodes, 0, 0
  {
    hide Trace, BareOffset, Complete;
    if nodes != [] {
      var rest := exists k :: 0 <= k < |nodes[1..]| && BareOffset(d, nodes[1..][k]);
      assert forall k :: 1 <= k < |nodes| ==> nodes[k] == nodes[1..][k - 1];
      assert (exists k :: 0 <= k < |nodes| && BareOffset(d, nodes[k])) <==> BareOffset(d, nodes[0]) || rest;
      var first, own := Trace(d, i, true, nodes[0]), Trace(d, i, false, nodes[0]);
      ComparesElement(variants, d, i, nodes[0], due, ownDue);
      var next, ownNext := due || !Silent(first), ownDue || !Silent(own);
      ComparesList(variants, d, i, nodes[1..], next, ownNext);
      BehindAppend(d, BareOffset(d, nodes[0]), !BareOffset(d, nodes[0]) && due == ownDue,
                   Listed(first, due), Listed(own, ownDue),
                   rest, !rest && next == ownNext,
                   TraceList(d, i, true, nodes[1..], next), TraceList(d, i, false, nodes[1..], ownNext));
      EmptyFront(TraceList(d, i, true, nodes[1..], next));
      EmptyFront(TraceList(d, i, false, nodes[1..], ownNext));
    }
  }

  lemma EmptyFront(trace: seq<Piece>)
    ensures [] + trace == trace
  {
  }

  /** What a tuple makes of an element. */
  function Listed(trace: seq<Piece>, due: bool): seq<Piece> {
    if Silent(trace) then [] else Comma(due) + trace
  }

  lemma {:induction false} ComparesElement(variants: Variants, d: Dialect, i: nat, node: Node, due: bool, ownDue: bool)
    requires Complete(variants, node) && (due ==> ownDue)
    ensures var multi, own := Trace(d, i, true, node), Trace(d, i, false, node);
            && Behind(d, BareOffset(d, node), !BareOffset(d, node) && due == ownDue, Listed(multi, due), Listed(own, ownDue))
            && (Silent(own) ==> Silent(multi)) && (!BareOffset(d, node) ==> multi == own)
    decreases node, 3, 0
  {
    hide Trace, BareOffset, Complete;
    ComparesTraces(variants, d, i, node);
    ListedBehind(d, BareOffset(d, node), Trace(d, i, true, node), Trace(d, i, false, node), due, ownDue);
  }

  lemma ListedBehind(d: Dialect, bare: bool, multi: seq<Piece>, own: seq<Piece>, due: bool, ownDue: bool)
    requires Behind(d, bare, !bare, multi, own) && (due ==> ownDue)
    ensures Behind(d, bare, !bare && due == ownDue, Listed(multi, due), Listed(own, ownDue))
  {
    ListedParts(d, multi, due);
    ListedParts(d, own, ownDue);
    hide Weight, BindsOf, Silent, Listed;
    assert !bare && due == ownDue ==> Listed(multi, due) == Listed(own, ownDue);
  }

  lemma ListedParts(d: Dialect, trace: seq<Piece>, due: bool)
    ensures BindsOf(Listed(trace, due)) == BindsOf(trace)
    ensures Weight(d, Listed(trace, due)) == if Silent(trace) then 0 else Weight(d, trace) + if due then 2 else 0
    ensures Silent(Listed(trace, due)) <==> Silent(trace)
  {
    if Silent(trace) {
      SilentHasNoBinds(d, 0, trace);
    } else {
      TextAppend(d, 0, Comma(due), trace);
      WeightAppend(d, Comma(due), trace);
      FlagsAppend(Comma(due), trace);
      assert [Wrote(", ")][1..] == [];
    }
  }

  /** Sending a row of defaults instead of a list with a padded offset in it loses text as well. */
  lemma {:induction false} ComparesValues(variants: Variants, d: Dialect, i: nat, columns: seq<string>, values: seq<Node>)
    requires |columns| == |values| && forall k :: 0 <= k < |values| ==> Complete(variants, values[k])
    ensures TraceBehind(d, i, Values(columns, values))
    decreases values, 1, 0
  {
    hide BareOffset, Complete, TraceList, TraceColumns;
    var bare := exists k :: 0 <= k < |values| && BareOffset(d, values[k]);
    assert BareOffset(d, Values(columns, values)) <==> bare by { BareValues(d, columns, values); }
    var names, list := TraceColumns(d, i, true, columns, values, false), TraceList(d, i, true, values, false);
    var ownNames, ownList := TraceColumns(d, i, false, columns, values, false), TraceList(d, i, false, values, false);
    ComparesList(variants, d, i, values, false, false);
    ComparesColumns(variants, d, i, columns, values, false, false);
    ColumnsListed(d, i, columns, values, false, false);
    ColumnsCacheable(d, i, true, columns, values, false);
    ColumnsCacheable(d, i, false, columns, values, false);
    InsertBehind(d, bare, names, list, ownNames, ownList);
  }

  lemma InsertBehind(d: Dialect, bare: bool, names: seq<Piece>, list: seq<Piece>, ownNames: seq<Piece>, ownList: seq<Piece>)
    requires Behind(d, bare, !bare, list, ownList) && BindsOf(names) == [] && BindsOf(ownNames) == []
    requires Weight(d, names) <= Weight(d, ownNames) && (!bare ==> names == ownNames)
    requires !Silent(ownList) ==> Weight(d, ownNames) >= 2
    ensures Behind(d, bare, !bare, InsertPieces(d, names, list), InsertPieces(d, ownNames, ownList))
  {
    InsertParts(d, names, list);
    InsertParts(d, ownNames, ownList);
    if Silent(list) { SilentHasNoBinds(d, 0, list); }
    hide Weight, BindsOf, Silent, InsertPieces;
    assert !bare ==> InsertPieces(d, names, list) == InsertPieces(d, ownNames, ownList);
  }

  lemma BareValues(d: Dialect, columns: seq<string>, values: seq<Node>)
    ensures BareOffset(d, Values(columns, values)) <==> exists k :: 0 <= k < |values| && BareOffset(d, values[k])
  {
  }

  lemma InsertParts(d: Dialect, names: seq<Piece>, list: seq<Piece>)
    requires BindsOf(names) == []
    ensures var trace := InsertPieces(d, names, list);
            && !Silent(trace)
            && (if Silent(list) then Weight(d, trace) <= 14 && BindsOf(trace) == []
                else Weight(d, trace) == 12 + Weight(d, names) + Weight(d, list) && BindsOf(trace) == BindsOf(list))
  {
    InsertIs(d, names, list);
    NoPieces(d);
    hide *;
    if Silent(list) {
      WroteParts(d, DefaultRow(d), []);
      ShortDefault(d);
    } else {
      var close: seq<Piece> := [Wrote(")")];
      var tail := list + close;
      var middle := [Wrote(") VALUES (")] + tail;
      var rest := names + middle;
      WroteParts(d, ")", []);
      WeightAppend(d, list, close);
      TextAppend(d, 0, list, close);
      WroteParts(d, ") VALUES (", tail);
      WeightAppend(d, names, middle);
      TextAppend(d, 0, names, middle);
      WroteParts(d, "(", rest);
      assert [] + BindsOf(middle) == BindsOf(middle) && BindsOf(list) + [] == BindsOf(list);
    }
  }

  lemma InsertIs(d: Dialect, names: seq<Piece>, list: seq<Piece>)
    ensures var close := [Wrote(")")];
            InsertPieces(d, names, list)
            == if Silent(list) then [Wrote(DefaultRow(d))] + [] else [Wrote("(")] + (names + ([Wrote(") VALUES (")] + (list + close)))
    ensures [Wrote(")")] == [Wrote(")")] + []
  {
    var open, middle, tail := [Wrote("(")], [Wrote(") VALUES (")], list + [Wrote(")")];
    assert open + names + (middle + tail) == open + (names + (middle + tail));
  }

  lemma ShortDefault(d: Dialect)
    ensures |DefaultRow(d)| <= 14
  {
  }

  lemma NoPieces(d: Dialect)
    ensures Weight(d, []) == 0 && BindsOf([]) == []
  {
  }

  lemma WroteParts(d: Dialect, text: string, rest: seq<Piece>)
    ensures var trace := [Wrote(text)] + rest;
            && !Silent(trace) && Weight(d, trace) == |text| + Weight(d, rest) && BindsOf(trace) == BindsOf(rest)
  {
    var trace := [Wrote(text)] + rest;
    assert trace[0] == Wrote(text) && trace[1..] == rest;
  }

  lemma {:induction false} ComparesColumns(variants: Variants, d: Dialect, i: nat, columns: seq<string>, values: seq<Node>,
                                           due: bool, ownDue: bool)
    requires (due ==> ownDue) && forall k :: 0 <= k < |values| ==> Complete(variants, values[k])
    ensures var multi, own := TraceColumns(d, i, true, columns, values, due), TraceColumns(d, i, false, columns, values, ownDue);
            && Weight(d, multi) <= Weight(d, own)
            && ((forall k :: 0 <= k < |values| ==> !BareOffset(d, values[k])) && due == ownDue ==> multi == own)
    decreases values, 0, 0
  {
    hide Trace, BareOffset, Complete;
    if columns != [] && values != [] {
      var first, own := Trace(d, i, true, values[0]), Trace(d, i, false, values[0]);
      ComparesTraces(variants, d, i, values[0]);
      ComparesColumns(variants, d, i, columns[1..], values[1..], due || !Silent(first), ownDue || !Silent(own));
      CommaBehind(d, due, ownDue);
      HeadWeight(d, i, true, columns, values, due);
      HeadWeight(d, i, false, columns, values, ownDue);
      assert forall k :: 0 <= k < |values| - 1 ==> values[1..][k] == values[k + 1];
    }
  }

  lemma HeadWeight(d: Dialect, i: nat, multi: bool, columns: seq<string>, values: seq<Node>, due: bool)
    requires columns != [] && values != []
    ensures var silent := Silent(Trace(d, i, multi, values[0]));
            Weight(d, TraceColumns(d, i, multi, columns, values, due))
            == (if silent then 0 else Weight(d, Comma(due)) + |Quoted(d, columns[0])|)
               + Weight(d, TraceColumns(d, i, multi, columns[1..], values[1..], due || !silent))
  {
    hide Trace;
    var name := [Named(columns[0])];
    assert name[1..] == [];
    WeightAppend(d, Comma(due), name);
    WeightAppend(d, Comma(due) + name, TraceColumns(d, i, multi, columns[1..], values[1..], true));
  }

  /** A tuple that emits something has a column to list. */
  lemma {:induction false} ColumnsListed(d: Dialect, i: nat, columns: seq<string>, values: seq<Node>, due: bool, due': bool)
    requires |columns| == |values|
    ensures !Silent(TraceList(d, i, false, values, due)) ==> Weight(d, TraceColumns(d, i, false, columns, values, due')) >= 2
    decreases values
  {
    hide Trace;
    if values != [] {
      HeadWeight(d, i, false, columns, values, due');
      ColumnsListed(d, i, columns[1..], values[1..], due, due');
    }
  }

  // ----- what follows for each pass

  /** A walk through the enums of a query without a bare offset is the backend's own walk, unless binds are collected. */
  lemma WalkSimulates(variants: Variants, i: nat, node: Node, pass: Pass)
    requires Matches(variants, Native(i), pass) && Complete(variants, node)
    requires !pass.CollectBinds? && !BareOffset(variants[i], node)
    ensures Walk(variants, Multi(i), node, Embed(i, pass)) == EmbedOutcome(i, Walk(variants, Native(i), node, pass))
  {
    hide Walk, Trace, BareOffset, Complete;
    var trace := Trace(variants[i], i, false, node);
    WalkPushesTrace(variants, Multi(i), node, Embed(i, pass));
    WalkPushesTrace(variants, Native(i), node, pass);
    ComparesTraces(variants, variants[i], i, node);
    PushesAlike(i, variants[i], trace, pass);
  }

  lemma {:induction false} PushesAlike(i: nat, d: Dialect, trace: seq<Piece>, pass: Pass)
    requires !pass.CollectBinds?
    ensures PushTrace(d, true, trace, Embed(i, pass)) == EmbedOutcome(i, PushTrace(d, false, trace, pass))
  {
    if trace != [] {
      var pushed := PushPiece(d, false, trace[0], pass);
      assert PushPiece(d, true, trace[0], Embed(i, pass)) == EmbedOutcome(i, pushed);
      PushesAlike(i, d, trace[1..], pushed.value);
    }
  }

  /** A fragment that is empty for the backend is empty through the enums; with a bare offset it is never empty
      for the backend. */
  lemma EmptyBehind(variants: Variants, d: Dialect, i: nat, node: Node)
    requires Complete(variants, node)
    ensures Empty(d, i, false, node) ==> Empty(d, i, true, node) && !BareOffset(d, node)
    ensures Empty(d, i, true, node) && !BareOffset(d, node) ==> Empty(d, i, false, node)
  {
    hide Trace, BareOffset, Complete, Empty;
    ComparesTraces(variants, d, i, node);
    TraceReads(d, i, true, node);
    TraceReads(d, i, false, node);
  }
}
