/** What a query consists of for one backend: the pieces that a walk pushes, in order. They can be read off the
    query without walking it, and every pass over it, direct or through the enums, pushes exactly these. */
module MultiTrace {
  import opened Prelude
  import opened QueryPass
  import opened MultiConnection
  import opened MultiBinds

  // ----- the trace

  datatype Piece = Wrote(text: string) | Named(name: string) | Marked(bind: Seen) | Unsafe

  /** Nothing is emitted; an unsafe mark alone is not noticed. */
  predicate Silent(trace: seq<Piece>) { forall k :: 0 <= k < |trace| ==> trace[k].Unsafe? }

  /** The pieces that variant `i` of dialect `d` is given, through the enums or not. */
  function Trace(d: Dialect, i: nat, multi: bool, node: Node): seq<Piece>
    decreases node, 1, 0
  {
    match node
    case Sql(text) => [Wrote(text)]
    case Identifier(name) => [Named(name)]
    case BindParam(sqlType, value) => [Marked(Seen(false, sqlType, value))]
    case Uncacheable => [Unsafe]
    case Group(children) => TraceAll(d, i, multi, node, children)
    case CommaList(children) => TraceList(d, i, multi, children, false)
    case Select(_, _, _, _, _, _, _, _, _) => [Wrote("SELECT ")] + TraceAll(d, i, multi, node, AnsiSelectOrder(node))
    case BoxedLimitOffset(limit, offset) =>
      (if !multi && !d.Pg? && limit.None? && offset.Some? then [Wrote(LimitForBareOffset(d))] else [])
      + (if limit.Some? then Trace(d, i, multi, limit.value) else [])
      + (if offset.Some? then Trace(d, i, multi, offset.value) else [])
    case Values(columns, values) =>
      InsertPieces(d, TraceColumns(d, i, multi, columns, values, false), TraceList(d, i, multi, values, false))
    case Dispatch(impls) => if i < |impls| then Dispatched(Trace(d, i, false, impls[i])) else []
  }

  /** The VALUES clause around the pieces of its columns and values. */
  function InsertPieces(d: Dialect, names: seq<Piece>, list: seq<Piece>): seq<Piece> {
    if Silent(list) then [Wrote(DefaultRow(d))]
    else [Wrote("(")] + names + ([Wrote(") VALUES (")] + (list + [Wrote(")")]))
  }

  function TraceAll(d: Dialect, i: nat, multi: bool, parent: Node, nodes: seq<Node>): seq<Piece>
    requires forall k :: 0 <= k < |nodes| ==> nodes[k] < parent
    decreases parent, 0, |nodes|
  {
    if nodes == [] then [] else Trace(d, i, multi, nodes[0]) + TraceAll(d, i, multi, parent, nodes[1..])
  }

  function Comma(due: bool): seq<Piece> { if due then [Wrote(", ")] else [] }

  /** The elements of a tuple that emit something, with commas between them. */
  function TraceList(d: Dialect, i: nat, multi: bool, nodes: seq<Node>, due: bool): seq<Piece>
    decreases nodes, 0, 0
  {
    if nodes == [] then []
    else
      var first := Trace(d, i, multi, nodes[0]);
      if Silent(first) then TraceList(d, i, multi, nodes[1..], due)
      else Comma(due) + first + TraceList(d, i, multi, nodes[1..], true)
  }

  /** The columns of those elements. */
  function TraceColumns(d: Dialect, i: nat, multi: bool, columns: seq<string>, values: seq<Node>, due: bool): seq<Piece>
    decreases values, 0, 0
  {
    if columns == [] || values == [] then []
    else if Silent(Trace(d, i, multi, values[0])) then TraceColumns(d, i, multi, columns[1..], values[1..], due)
    else Comma(due) + [Named(columns[0])] + TraceColumns(d, i, multi, columns[1..], values[1..], true)
  }

  /** The same pieces, coming from a backend's own impl. */
  function Dispatched(trace: seq<Piece>): (r: seq<Piece>)
    ensures |r| == |trace|
    ensures forall k :: 0 <= k < |r| ==>
              r[k] == match trace[k] case Marked(bind) => Marked(bind.(dispatched := true)) case piece => piece
  {
    if trace == [] then []
    else [match trace[0] case Marked(bind) => Marked(bind.(dispatched := true)) case piece => piece] + Dispatched(trace[1..])
  }

  // ----- pushing it

  function PushPiece(d: Dialect, multi: bool, piece: Piece, pass: Pass): Outcome<Pass> {
    match piece
    case Wrote(text) => Done(PushSql(pass, text))
    case Named(name) => Done(PushIdentifier(pass, name))
    case Unsafe => Done(UnsafeToCache(pass))
    case Marked(bind) =>
      match pass
      case ToSql(b) => Done(ToSql(b.(inner := b.inner.PushBindParam())))
      case CollectBinds(c, lookup) =>
        var binds :- PushSeen(d, multi, bind, c.inner.binds);
        Done(CollectBinds(c.(inner := c.inner.(binds := binds)), lookup))
      case SafeToCache(_) => Done(pass)
      case DebugBinds(seen) => Done(DebugBinds(seen + [bind.value]))
      case IsNoop(_) => Done(IsNoop(false))
  }

  function PushTrace(d: Dialect, multi: bool, trace: seq<Piece>, pass: Pass): Outcome<Pass> {
    if trace == [] then Done(pass)
    else
      var pushed :- PushPiece(d, multi, trace[0], pass);
      PushTrace(d, multi, trace[1..], pushed)
  }

  lemma {:induction false} PushAppend(d: Dialect, multi: bool, front: seq<Piece>, back: seq<Piece>, pass: Pass)
    ensures var pushed := PushTrace(d, multi, front, pass);
            PushTrace(d, multi, front + back, pass) == if pushed.Done? then PushTrace(d, multi, back, pushed.value) else pushed
  {
    if front == [] {
      assert front + back == back;
    } else {
      assert (front + back)[1..] == front[1..] + back;
      var pushed := PushPiece(d, multi, front[0], pass);
      if pushed.Done? { PushAppend(d, multi, front[1..], back, pushed.value); }
    }
  }

  lemma PushOne(d: Dialect, multi: bool, piece: Piece, pass: Pass)
    ensures PushTrace(d, multi, [piece], pass) == PushPiece(d, multi, piece, pass)
  {
    assert [piece][1..] == [];
  }

  // ----- variants

  /** Backend, query builder, bind collector and lookup all belong to variant `db.i`. */
  predicate Matches(variants: Variants, db: Db, pass: Pass) {
    && db.i < |variants|
    && match pass
       case ToSql(b) =>
         b.inner.dialect == variants[db.i] && if db.Native? then b.NativeBuilder? else b.MultiBuilder? && b.variant == db.i
       case CollectBinds(c, lookup) =>
         && c.inner.dialect == variants[db.i] && lookup.inner == LookupOf(variants[db.i])
         && if db.Native? then c.NativeCollector? && lookup.NativeLookup?
            else c.MultiCollector? && c.variant == db.i && lookup.DynLookup?
       case _ => true
  }

  predicate SameKind(p: Pass, q: Pass) {
    && (p.ToSql? <==> q.ToSql?) && (p.CollectBinds? <==> q.CollectBinds?) && (p.SafeToCache? <==> q.SafeToCache?)
    && (p.DebugBinds? <==> q.DebugBinds?) && (p.IsNoop? <==> q.IsNoop?)
  }

  /** Every dispatched fragment has an impl for every variant: the derive emits one match arm each. */
  predicate Complete(variants: Variants, node: Node) {
    match node
    case Group(children) => forall k :: 0 <= k < |children| ==> Complete(variants, children[k])
    case CommaList(children) => forall k :: 0 <= k < |children| ==> Complete(variants, children[k])
    case Select(distinct, select, from, filter, groupBy, having, order, limitOffset, locking) =>
      && Complete(variants, distinct) && Complete(variants, select) && Complete(variants, from)
      && Complete(variants, filter) && Complete(variants, groupBy) && Complete(variants, having)
      && Complete(variants, order) && Complete(variants, limitOffset) && Complete(variants, locking)
    case BoxedLimitOffset(limit, offset) =>
      (limit.Some? ==> Complete(variants, limit.value)) && (offset.Some? ==> Complete(variants, offset.value))
    case Values(columns, values) => |columns| == |values| && forall k :: 0 <= k < |values| ==> Complete(variants, values[k])
    case Dispatch(impls) => |impls| == |variants| && forall k :: 0 <= k < |impls| ==> Complete(variants, impls[k])
    case _ => true
  }

  predicate CompleteQuery(variants: Variants, query: Query) {
    match query
    case Fragment(node) => Complete(variants, node)
    case Update(from, assignments, filter, returning) =>
      Complete(variants, from) && Complete(variants, assignments) && Complete(variants, filter) && Complete(variants, returning)
  }

  /** Both impls of a select statement walk the same clauses in the same order. */
  lemma SelectClauses(variants: Variants, node: Node)
    requires node.Select? && Complete(variants, node)
    ensures MultiSelectOrder(node) == AnsiSelectOrder(node)
    ensures forall k :: 0 <= k < |AnsiSelectOrder(node)| ==> Complete(variants, AnsiSelectOrder(node)[k])
  {
  }

  /** Only collecting a bind can fail, only through the enums can it panic, and otherwise the pass still
      belongs to its variant. */
  predicate Kept(variants: Variants, db: Db, before: Pass, after: Outcome<Pass>) {
    match after
    case Done(pass) => Matches(variants, db, pass) && SameKind(before, pass)
    case Failed => before.CollectBinds?
    case Panicked => before.CollectBinds? && db.Multi?
  }

  lemma {:induction false} PushKeepsMatch(variants: Variants, db: Db, trace: seq<Piece>, pass: Pass)
    requires Matches(variants, db, pass)
    ensures Kept(variants, db, pass, PushTrace(variants[db.i], db.Multi?, trace, pass))
  {
    if trace != [] {
      var pushed := PushPiece(variants[db.i], db.Multi?, trace[0], pass);
      assert Kept(variants, db, pass, pushed);
      if pushed.Done? { PushKeepsMatch(variants, db, trace[1..], pushed.value); }
    }
  }

  function EmbedOutcome(i: nat, r: Outcome<Pass>): Outcome<Pass> {
    match r
    case Done(p) => Done(Embed(i, p))
    case Failed => Failed
    case Panicked => Panicked
  }

  /** Pieces of a backend's own impl are pushed as the backend pushes them, whichever way they are reached. */
  lemma {:induction false} PushDispatched(i: nat, d: Dialect, multi: bool, trace: seq<Piece>, pass: Pass)
    ensures PushTrace(d, multi, Dispatched(trace), pass) == PushTrace(d, false, trace, pass)
    ensures EmbedOutcome(i, PushTrace(d, false, trace, pass)) == PushTrace(d, false, trace, Embed(i, pass))
  {
    if trace != [] {
      assert Dispatched(trace)[1..] == Dispatched(trace[1..]);
      var pushed := PushPiece(d, false, trace[0], pass);
      assert EmbedOutcome(i, pushed) == PushPiece(d, false, trace[0], Embed(i, pass));
      assert PushPiece(d, multi, Dispatched(trace)[0], pass) == pushed;
      if pushed.Done? { PushDispatched(i, d, multi, trace[1..], pushed.value); }
    }
  }

  /** A flag stays set when nothing is emitted. */
  lemma {:induction false} NoopAfter(d: Dialect, multi: bool, trace: seq<Piece>, flag: bool)
    ensures PushTrace(d, multi, trace, IsNoop(flag)) == Done(IsNoop(flag && Silent(trace)))
  {
    if trace != [] {
      var next := flag && trace[0].Unsafe?;
      assert PushPiece(d, multi, trace[0], IsNoop(flag)) == Done(IsNoop(next));
      NoopAfter(d, multi, trace[1..], next);
      assert Silent(trace) <==> trace[0].Unsafe? && Silent(trace[1..]) by {
        assert forall k :: 1 <= k < |trace| ==> trace[k] == trace[1..][k - 1];
      }
    }
  }

  // ----- every walk pushes the trace

  predicate Walks(variants: Variants, db: Db, trace: seq<Piece>, pass: Pass, walked: Outcome<Pass>) {
    db.i < |variants| && walked == PushTrace(variants[db.i], db.Multi?, trace, pass)
  }

  /** Any pass over any query, for a backend or through the enums, pushes what can be read off the query. */
  lemma {:induction false} WalkPushesTrace(variants: Variants, db: Db, node: Node, pass: Pass)
    requires Matches(variants, db, pass) && Complete(variants, node)
    ensures Walks(variants, db, Trace(variants[db.i], db.i, db.Multi?, node), pass, Walk(variants, db, node, pass))
    decreases node, 1, 0
  {
    match node
    case Sql(text) => PushOne(variants[db.i], db.Multi?, Wrote(text), pass);
    case Identifier(name) => PushOne(variants[db.i], db.Multi?, Named(name), pass);
    case BindParam(sqlType, value) => BindPushesTrace(variants, db, sqlType, value, pass);
    case Uncacheable => PushOne(variants[db.i], db.Multi?, Unsafe, pass);
    case Group(children) => AllPushTrace(variants, db, node, children, pass);
    case CommaList(children) => ListPushesTrace(variants, db, children, false, pass);
    case Select(_, _, _, _, _, _, _, _, _) =>
      SelectClauses(variants, node);
      PushAppend(variants[db.i], db.Multi?, [Wrote("SELECT ")], TraceAll(variants[db.i], db.i, db.Multi?, node, AnsiSelectOrder(node)), pass);
      PushOne(variants[db.i], db.Multi?, Wrote("SELECT "), pass);
      AllPushTrace(variants, db, node, AnsiSelectOrder(node), PushSql(pass, "SELECT "));
    case BoxedLimitOffset(_, _) => BoxedPushesTrace(variants, db, node, pass);
    case Values(columns, values) => ValuesPushTrace(variants, db, columns, values, pass);
    case Dispatch(impls) => DispatchPushesTrace(variants, db, impls, pass);
  }

  /** Pushing one bind goes wrong through the enums when its `ToSql` impl has set no value. */
  lemma BindPushesTrace(variants: Variants, db: Db, sqlType: SqlType, value: Value, pass: Pass)
    requires Matches(variants, db, pass)
    ensures Walks(variants, db, [Marked(Seen(false, sqlType, value))], pass, PushBindParam(variants, db, sqlType, value, pass))
  {
    PushOne(variants[db.i], db.Multi?, Marked(Seen(false, sqlType, value)), pass);
    if pass.CollectBinds? {
      var metadata := LookupSqlType(variants, sqlType.base, pass.lookup);
      assert metadata[db.i] == Some(MetadataOf(variants[db.i], sqlType.base));
    }
  }

  lemma {:induction false} DispatchPushesTrace(variants: Variants, db: Db, impls: seq<Node>, pass: Pass)
    requires Matches(variants, db, pass) && Complete(variants, Dispatch(impls))
    ensures Walks(variants, db, Dispatched(Trace(variants[db.i], db.i, false, impls[db.i])), pass, Walk(variants, db, Dispatch(impls), pass))
    decreases impls, 2, 0
  {
    hide Trace;
    var d := variants[db.i];
    var trace, native := Trace(d, db.i, false, impls[db.i]), if db.Native? then pass else CastDatabase(variants, db.i, pass).value;
    WalkPushesTrace(variants, Native(db.i), impls[db.i], native);
    PushDispatched(db.i, d, db.Multi?, trace, pass);
    PushDispatched(db.i, d, false, trace, native);
    assert db.Multi? ==> Embed(db.i, native) == pass;
  }

  lemma {:induction false} BoxedPushesTrace(variants: Variants, db: Db, node: Node, pass: Pass)
    requires node.BoxedLimitOffset? && Matches(variants, db, pass) && Complete(variants, node)
    ensures Walks(variants, db, Trace(variants[db.i], db.i, db.Multi?, node), pass, Walk(variants, db, node, pass))
    decreases node, 0, 0
  {
    var limit, offset, d := node.limit, node.offset, variants[db.i];
    var front := if limit.Some? then Trace(d, db.i, db.Multi?, limit.value) else [];
    var back := if offset.Some? then Trace(d, db.i, db.Multi?, offset.value) else [];
    if db.Native? && !d.Pg? && limit.None? && offset.Some? {
      var text := LimitForBareOffset(d);
      PushAppend(d, false, [Wrote(text)], back, pass);
      PushOne(d, false, Wrote(text), pass);
      assert Trace(d, db.i, false, node) == [Wrote(text)] + back;
      WalkPushesTrace(variants, db, offset.value, PushSql(pass, text));
    } else {
      assert Trace(d, db.i, db.Multi?, node) == front + back;
      PushAppend(d, db.Multi?, front, back, pass);
      if limit.Some? {
        WalkPushesTrace(variants, db, limit.value, pass);
        PushKeepsMatch(variants, db, front, pass);
      }
      var walked := WalkOption(variants, db, limit, pass);
      if walked.Done? && offset.Some? { WalkPushesTrace(variants, db, offset.value, walked.value); }
    }
  }

  lemma {:induction false} AllPushTrace(variants: Variants, db: Db, parent: Node, nodes: seq<Node>, pass: Pass)
    requires Matches(variants, db, pass)
    requires forall k :: 0 <= k < |nodes| ==> nodes[k] < parent && Complete(variants, nodes[k])
    ensures Walks(variants, db, TraceAll(variants[db.i], db.i, db.Multi?, parent, nodes), pass, WalkAll(variants, db, parent, nodes, pass))
    decreases parent, 0, |nodes|
  {
    hide Walk, Trace, Complete;
    if nodes != [] {
      var d := variants[db.i];
      var first := Trace(d, db.i, db.Multi?, nodes[0]);
      WalkPushesTrace(variants, db, nodes[0], pass);
      PushKeepsMatch(variants, db, first, pass);
      PushAppend(d, db.Multi?, first, TraceAll(d, db.i, db.Multi?, parent, nodes[1..]), pass);
      var walked := Walk(variants, db, nodes[0], pass);
      if walked.Done? { AllPushTrace(variants, db, parent, nodes[1..], walked.value); }
    }
  }

  lemma {:induction false} ListPushesTrace(variants: Variants, db: Db, nodes: seq<Node>, due: bool, pass: Pass)
    requires Matches(variants, db, pass) && forall k :: 0 <= k < |nodes| ==> Complete(variants, nodes[k])
    ensures Walks(variants, db, TraceList(variants[db.i], db.i, db.Multi?, nodes, due), pass, WalkList(variants, db, nodes, due, pass))
    decreases nodes, 0, 0
  {
    hide Walk, Trace, Complete;
    if nodes != [] {
      var d := variants[db.i];
      ElementPushesTrace(variants, db, nodes[0], due, pass);
      var first := Trace(d, db.i, db.Multi?, nodes[0]);
      var step := WalkElement(variants, db, nodes[0], due, pass);
      if !Silent(first) {
        PushKeepsMatch(variants, db, Comma(due) + first, pass);
        PushAppend(d, db.Multi?, Comma(due) + first, TraceList(d, db.i, db.Multi?, nodes[1..], true), pass);
      }
      if step.Done? { ListPushesTrace(variants, db, nodes[1..], step.value.0, step.value.1); }
    }
  }

  function StateOf(step: Outcome<(bool, Pass)>): Outcome<Pass> {
    match step
    case Done(s) => Done(s.1)
    case Failed => Failed
    case Panicked => Panicked
  }

  lemma {:induction false} ElementPushesTrace(variants: Variants, db: Db, node: Node, due: bool, pass: Pass)
    requires Matches(variants, db, pass) && Complete(variants, node)
    ensures var trace, step := Trace(variants[db.i], db.i, db.Multi?, node), WalkElement(variants, db, node, due, pass);
            && Walk(variants, db, node, IsNoop(true)) == Done(IsNoop(Silent(trace)))
            && (if Silent(trace) then step == Done((due, pass))
                else Walks(variants, db, Comma(due) + trace, pass, StateOf(step)) && (step.Done? ==> step.value.0))
    decreases node, 3, 0
  {
    hide Walk, Trace, Complete, Silent;
    var d := variants[db.i];
    var trace := Trace(d, db.i, db.Multi?, node);
    WalkPushesTrace(variants, db, node, IsNoop(true));
    NoopAfter(d, db.Multi?, trace, true);
    CommaPushes(d, db.Multi?, due, pass);
    WalkPushesTrace(variants, db, node, WithComma(due, pass));
    PushAppend(d, db.Multi?, Comma(due), trace, pass);
  }

  lemma CommaPushes(d: Dialect, multi: bool, due: bool, pass: Pass)
    ensures PushTrace(d, multi, Comma(due), pass) == Done(WithComma(due, pass))
  {
    PushOne(d, multi, Wrote(", "), pass);
  }

  lemma {:induction false} ValuesPushTrace(variants: Variants, db: Db, columns: seq<string>, values: seq<Node>, pass: Pass)
    requires Matches(variants, db, pass) && forall k :: 0 <= k < |values| ==> Complete(variants, values[k])
    ensures Walks(variants, db, Trace(variants[db.i], db.i, db.Multi?, Values(columns, values)), pass,
                  WalkValues(variants, db, columns, values, pass))
    decreases values, 1, 0
  {
    hide Walk, Complete;
    var d, multi := variants[db.i], db.Multi?;
    var list := TraceList(d, db.i, multi, values, false);
    ListPushesTrace(variants, db, values, false, IsNoop(true));
    NoopAfter(d, multi, list, true);
    if Silent(list) {
      PushOne(d, multi, Wrote(DefaultRow(d)), pass);
    } else {
      var open, names := [Wrote("(")], TraceColumns(d, db.i, multi, columns, values, false);
      ColumnsPushTrace(variants, db, columns, values, false, PushSql(pass, "("));
      PushOne(d, multi, Wrote("("), pass);
      PushAppend(d, multi, open, names, pass);
      ValuesRest(variants, db, columns, values, pass);
    }
  }

  lemma {:induction false} ValuesRest(variants: Variants, db: Db, columns: seq<string>, values: seq<Node>, pass: Pass)
    requires Matches(variants, db, pass) && forall k :: 0 <= k < |values| ==> Complete(variants, values[k])
    ensures var d, multi := variants[db.i], db.Multi?;
            var head := [Wrote("(")] + TraceColumns(d, db.i, multi, columns, values, false);
            var list := TraceList(d, db.i, multi, values, false);
            var named := PushTrace(d, multi, head, pass);
            && named.Done?
            && var walked := WalkList(variants, db, values, false, PushSql(named.value, ") VALUES ("));
               PushTrace(d, multi, head + ([Wrote(") VALUES (")] + (list + [Wrote(")")])), pass)
               == if walked.Done? then Done(PushSql(walked.value, ")")) else walked
    decreases values, 0, 1
  {
    hide Walk, Complete, Trace;
    var d, multi := variants[db.i], db.Multi?;
    var head := [Wrote("(")] + TraceColumns(d, db.i, multi, columns, values, false);
    var list := TraceList(d, db.i, multi, values, false);
    var tail := [Wrote(") VALUES (")] + (list + [Wrote(")")]);
    ColumnsPushTrace(variants, db, columns, values, false, PushSql(pass, "("));
    PushOne(d, multi, Wrote("("), pass);
    PushAppend(d, multi, [Wrote("(")], TraceColumns(d, db.i, multi, columns, values, false), pass);
    PushKeepsMatch(variants, db, head, pass);
    PushAppend(d, multi, head, tail, pass);
    var named := PushTrace(d, multi, head, pass).value;
    PushOne(d, multi, Wrote(") VALUES ("), named);
    PushAppend(d, multi, [Wrote(") VALUES (")], list + [Wrote(")")], named);
    var entered := PushSql(named, ") VALUES (");
    ListPushesTrace(variants, db, values, false, entered);
    PushAppend(d, multi, list, [Wrote(")")], entered);
    var walked := WalkList(variants, db, values, false, entered);
    if walked.Done? { PushOne(d, multi, Wrote(")"), walked.value); }
  }

  lemma {:induction false} ColumnsPushTrace(variants: Variants, db: Db, columns: seq<string>, values: seq<Node>, due: bool, pass: Pass)
    requires Matches(variants, db, pass) && forall k :: 0 <= k < |values| ==> Complete(variants, values[k])
    ensures var walked := WalkColumns(variants, db, columns, values, due, pass);
            walked.Done? && Walks(variants, db, TraceColumns(variants[db.i], db.i, db.Multi?, columns, values, due), pass, walked)
    decreases values, 0, 0
  {
    hide Walk, Trace, Complete;
    if columns != [] && values != [] {
      var d, multi := variants[db.i], db.Multi?;
      var first := Trace(d, db.i, multi, values[0]);
      WalkPushesTrace(variants, db, values[0], IsNoop(true));
      NoopAfter(d, multi, first, true);
      if Silent(first) {
        ColumnsPushTrace(variants, db, columns[1..], values[1..], due, pass);
      } else {
        var next := PushIdentifier(WithComma(due, pass), columns[0]);
        PushOne(d, multi, Wrote(", "), pass);
        PushOne(d, multi, Named(columns[0]), WithComma(due, pass));
        PushAppend(d, multi, Comma(due), [Named(columns[0])], pass);
        PushAppend(d, multi, Comma(due) + [Named(columns[0])], TraceColumns(d, db.i, multi, columns[1..], values[1..], true), pass);
        ColumnsPushTrace(variants, db, columns[1..], values[1..], true, next);
      }
    }
  }

  /** Every walk of every query keeps backend, builder, collector and lookup on one variant. */
  lemma WalkKeepsMatch(variants: Variants, db: Db, node: Node, pass: Pass)
    requires Matches(variants, db, pass) && Complete(variants, node)
    ensures Kept(variants, db, pass, Walk(variants, db, node, pass))
  {
    hide Walk, Trace;
    WalkPushesTrace(variants, db, node, pass);
    PushKeepsMatch(variants, db, Trace(variants[db.i], db.i, db.Multi?, node), pass);
  }

  lemma ListKeepsMatch(variants: Variants, db: Db, nodes: seq<Node>, due: bool, pass: Pass)
    requires Matches(variants, db, pass) && forall k :: 0 <= k < |nodes| ==> Complete(variants, nodes[k])
    ensures Kept(variants, db, pass, WalkList(variants, db, nodes, due, pass))
  {
    hide WalkList, TraceList;
    ListPushesTrace(variants, db, nodes, due, pass);
    PushKeepsMatch(variants, db, TraceList(variants[db.i], db.i, db.Multi?, nodes, due), pass);
  }

  lemma ElementKeepsMatch(variants: Variants, db: Db, node: Node, due: bool, pass: Pass)
    requires Matches(variants, db, pass) && Complete(variants, node)
    ensures Kept(variants, db, pass, StateOf(WalkElement(variants, db, node, due, pass)))
  {
    hide Walk, Trace;
    ElementPushesTrace(variants, db, node, due, pass);
    PushKeepsMatch(variants, db, Comma(due) + Trace(variants[db.i], db.i, db.Multi?, node), pass);
  }

  lemma ColumnsKeepMatch(variants: Variants, db: Db, columns: seq<string>, values: seq<Node>, due: bool, pass: Pass)
    requires Matches(variants, db, pass) && forall k :: 0 <= k < |values| ==> Complete(variants, values[k])
    ensures var walked := WalkColumns(variants, db, columns, values, due, pass); walked.Done? && Kept(variants, db, pass, walked)
  {
    hide WalkColumns, TraceColumns;
    ColumnsPushTrace(variants, db, columns, values, due, pass);
    PushKeepsMatch(variants, db, TraceColumns(variants[db.i], db.i, db.Multi?, columns, values, due), pass);
  }

  lemma BodyComplete(variants: Variants, query: Query)
    requires CompleteQuery(variants, query)
    ensures Complete(variants, Body(query))
  {
  }
}
