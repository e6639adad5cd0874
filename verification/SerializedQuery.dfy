/** Executing a query through a `MultiConnection`: `SerializedQuery::walk_ast` and `handle_inner_pass` of
    diesel_derives/src/multiconnection.rs, and what they keep of a query. */
module SerializedQuery {
  import opened Prelude
  import opened QueryPass
  import opened MultiConnection
  import opened MultiBinds
  import opened MultiTrace
  import opened QueryText
  import opened MultiForwarding
  import opened AstPasses

  // ----- one statement

  /** What a connection asks a query for: its text, whether to cache it, and its binds. */
  datatype Statement = Statement(sql: Outcome<string>, safeToCache: Outcome<bool>, binds: Outcome<seq<Bind>>)

  function EmptyBuilder(d: Dialect): Builder { Builder(d, "", 0) }

  function EmptyCollector(d: Dialect): Collector { Collector(d, []) }

  function SqlOf(r: Outcome<Pass>): Outcome<string> {
    match r
    case Done(p) => if p.ToSql? then Done(p.builder.inner.sql) else Panicked
    case Failed => Failed
    case Panicked => Panicked
  }

  function SafeOf(r: Outcome<Pass>): Outcome<bool> {
    match r
    case Done(p) => if p.SafeToCache? then Done(p.safe) else Panicked
    case Failed => Failed
    case Panicked => Panicked
  }

  function BindsIn(r: Outcome<Pass>): Outcome<seq<Bind>> {
    match r
    case Done(p) => if p.CollectBinds? then Done(p.collector.inner.binds) else Panicked
    case Failed => Failed
    case Panicked => Panicked
  }

  function SqlStart(d: Dialect): Pass { ToSql(NativeBuilder(EmptyBuilder(d))) }

  function BindsStart(d: Dialect): Pass { CollectBinds(NativeCollector(EmptyCollector(d)), NativeLookup(LookupOf(d))) }

  /** The statement that variant `i`'s own connection makes of the query. */
  function DirectStatement(variants: Variants, i: nat, query: Query): Statement
    requires i < |variants|
  {
    var d := variants[i];
    Statement(SqlOf(WalkQuery(variants, Native(i), query, SqlStart(d))),
              SafeOf(WalkQuery(variants, Native(i), query, SafeToCache(true))),
              BindsIn(WalkQuery(variants, Native(i), query, BindsStart(d))))
  }

  /** `handle_inner_pass`: collects the binds into a fresh collector of the right variant and then puts
      that one in the place of the outer collector. */
  function HandleInnerPass(variants: Variants, i: nat, query: Query, pass: Pass): Outcome<Pass>
    requires i < |variants| && pass.CollectBinds?
  {
    var start := CollectBinds(MultiCollector(i, EmptyCollector(variants[i])), DynLookup(pass.lookup.inner));
    var r :- WalkQuery(variants, Multi(i), query, start);
    if r.CollectBinds? && r.collector.MultiCollector? && r.collector.variant == i
    then Done(pass.(collector := pass.collector.(inner := r.collector.inner)))
    else Done(pass)
  }

  /** `SerializedQuery::walk_ast` for a query wrapped for variant `i`. */
  function SerializedWalk(variants: Variants, i: nat, query: Query, pass: Pass): Outcome<Pass>
    requires i < |variants|
  {
    var built :- WalkQuery(variants, Multi(i), query, ToSql(MultiBuilder(i, EmptyBuilder(variants[i]))));
    var sql :- SqlOf(Done(built));
    var p1 := PushSql(pass, sql);
    var checked :- WalkQuery(variants, Multi(i), query, SafeToCache(true));
    var safe :- SafeOf(Done(checked));
    var p2 := if safe then p1 else UnsafeToCache(p1);
    match p2
    case CollectBinds(_, _) => HandleInnerPass(variants, i, query, p2)
    case DebugBinds(seen) => WalkQuery(variants, Multi(i), query, p2)
    case _ => Done(p2)
  }

  /** The statement that variant `i`'s connection makes of the wrapped query in `execute_returning_count` and `load`. */
  function ForwardedStatement(variants: Variants, i: nat, query: Query): Statement
    requires i < |variants|
  {
    var d := variants[i];
    Statement(SqlOf(SerializedWalk(variants, i, query, SqlStart(d))),
              SafeOf(SerializedWalk(variants, i, query, SafeToCache(true))),
              BindsIn(SerializedWalk(variants, i, query, BindsStart(d))))
  }

  // ----- the wrapper as it runs

  /** `walk_ast` of the wrapper: it serializes the query into a duplicated builder, pushes the finished text,
      forwards the cache verdict, and lets the bind passes reach the wrapped query. */
  method SerializedWalkAst(variants: Variants, i: nat, query: Query, builder: MultiQueryBuilder, pass: AstPass)
    returns (ok: bool)
    requires Matches(variants, Native(i), pass.Value()) && CompleteQuery(variants, query)
    requires builder.variant == i && builder.inner.dialect == variants[i]
    requires !SerializedWalk(variants, i, query, pass.Value()).Panicked?
    modifies pass.Target()
    ensures Ended(ok, SerializedWalk(variants, i, query, old(pass.Value())), pass.Value())
  {
    hide WalkQuery, CompleteQuery;
    ghost var start := pass.Value();
    var sql, safe;
    ok, sql := FinishedSql(variants, i, query, builder);
    if !ok { return; }
    assert pass.Value() == start;
    pass.PushSqlText(sql);
    ok, safe := SafeToCachePrepared(variants, i, query);
    if !ok { return; }
    if !safe { pass.MarkUnsafe(); }
    match pass {
      case NativeBinds(bc, lookup) => ok := RunInnerPass(variants, i, query, bc, lookup);
      case DebugInto(list) => ok := WalkStatement(variants, Multi(i), query, pass);
      case _ =>
    }
  }

  /** `to_sql` into a duplicate of the builder, which stays as it is. */
  method FinishedSql(variants: Variants, i: nat, query: Query, builder: MultiQueryBuilder) returns (ok: bool, sql: string)
    requires CompleteQuery(variants, query) && i < |variants|
    requires builder.variant == i && builder.inner.dialect == variants[i]
    ensures var built := SqlOf(WalkQuery(variants, Multi(i), query, ToSql(MultiBuilder(i, EmptyBuilder(variants[i])))));
            if ok then built == Done(sql) else built.Failed?
    ensures ok ==> sql == TextOf(variants[i], 0, Trace(variants[i], i, true, Body(query)))
    ensures ok <==> !NothingToUpdate(variants[i], i, true, query)
  {
    hide WalkQuery, CompleteQuery, Trace, TextOf, NothingToUpdate, Body;
    SqlAfter(true, 0, Trace(variants[i], i, true, Body(query)), ToSql(MultiBuilder(i, EmptyBuilder(variants[i]))));
    assert "" + TextOf(variants[i], 0, Trace(variants[i], i, true, Body(query))) == TextOf(variants[i], 0, Trace(variants[i], i, true, Body(query)));
    QueryPushesTrace(variants, Multi(i), query, ToSql(MultiBuilder(i, EmptyBuilder(variants[i]))));
    var own := builder.Duplicate();
    ok := WalkStatement(variants, Multi(i), query, MultiSql(own));
    sql := own.Finish();
  }

  /** `is_safe_to_cache_prepared`. */
  method SafeToCachePrepared(variants: Variants, i: nat, query: Query) returns (ok: bool, safe: bool)
    requires CompleteQuery(variants, query) && i < |variants|
    ensures var checked := WalkQuery(variants, Multi(i), query, SafeToCache(true));
            if ok then checked == Done(SafeToCache(safe)) else checked.Failed?
    ensures ok ==> (safe <==> !Uncached(variants[i], i, true, Body(query)))
  {
    hide WalkQuery, CompleteQuery, Trace, Uncached, NothingToUpdate, Body;
    CacheAfter(variants[i], true, Trace(variants[i], i, true, Body(query)), true);
    TraceReads(variants[i], i, true, Body(query));
    QueryPushesTrace(variants, Multi(i), query, SafeToCache(true));
    var flag := new Flag(true);
    ok := WalkStatement(variants, Multi(i), query, CacheFlag(flag));
    safe := flag.value;
  }

  /** `handle_inner_pass`. */
  method RunInnerPass(variants: Variants, i: nat, query: Query, outer: BindCollector, lookup: AnyLookup) returns (ok: bool)
    requires Matches(variants, Native(i), CollectBinds(NativeCollector(outer.Value()), lookup)) && CompleteQuery(variants, query)
    requires !HandleInnerPass(variants, i, query, CollectBinds(NativeCollector(outer.Value()), lookup)).Panicked?
    modifies outer
    ensures Ended(ok, HandleInnerPass(variants, i, query, CollectBinds(NativeCollector(old(outer.Value())), lookup)),
                  CollectBinds(NativeCollector(outer.Value()), lookup))
    ensures !ok ==> outer.binds == old(outer.binds)
  {
    hide WalkQuery, CompleteQuery;
    var inner := new BindCollector(variants[i]);
    var collector := new MultiBindCollector(i, inner);
    QueryPushesTrace(variants, Multi(i), query, CollectBinds(MultiCollector(i, EmptyCollector(variants[i])), DynLookup(lookup.inner)));
    ok := WalkStatement(variants, Multi(i), query, MultiBinds(collector, DynLookup(lookup.inner)));
    if ok { outer.binds := inner.binds; }
  }

  // ----- statements

  /** The assignments of an update emit nothing, for the backend or through the enums. */
  predicate NothingToUpdate(d: Dialect, i: nat, multi: bool, query: Query) {
    query.Update? && Empty(d, i, multi, query.assignments)
  }

  /** An update fails in every pass exactly when there is nothing to update; any other statement is walked as its
      body, piece by piece. The backend finds nothing to update only where the enums do too, and the enums alone
      only with a bare offset. */
  lemma QueryPushesTrace(variants: Variants, db: Db, query: Query, pass: Pass)
    requires Matches(variants, db, pass) && CompleteQuery(variants, query)
    ensures var d, walked := variants[db.i], WalkQuery(variants, db, query, pass);
            && (if NothingToUpdate(d, db.i, db.Multi?, query) then walked.Failed?
                else Walks(variants, db, Trace(d, db.i, db.Multi?, Body(query)), pass, walked) && Kept(variants, db, pass, walked))
            && (NothingToUpdate(d, db.i, false, query) ==> NothingToUpdate(d, db.i, true, query))
            && (NothingToUpdate(d, db.i, true, query) ==> NothingToUpdate(d, db.i, false, query) || BareOffset(d, Body(query)))
  {
    hide Walk, Trace, Complete, BareOffset, Empty, Body;
    var d := variants[db.i];
    BodyComplete(variants, query);
    WalkPushesTrace(variants, db, Body(query), pass);
    PushKeepsMatch(variants, db, Trace(d, db.i, db.Multi?, Body(query)), pass);
    if query.Update? {
      WalkPushesTrace(variants, db, query.assignments, IsNoop(true));
      NoopAfter(d, db.Multi?, Trace(d, db.i, db.Multi?, query.assignments), true);
      TraceReads(d, db.i, db.Multi?, query.assignments);
      EmptyBehind(variants, d, db.i, query.assignments);
      if BareOffset(d, query.assignments) { BareAssignments(d, query); }
    } else {
      FragmentBody(query);
    }
  }

  lemma FragmentBody(query: Query)
    requires query.Fragment?
    ensures Body(query) == query.node
  {
  }

  lemma BareAssignments(d: Dialect, query: Query)
    requires query.Update? && BareOffset(d, query.assignments)
    ensures BareOffset(d, Body(query))
  {
    assert Body(query).children[4] == query.assignments;
  }

  /** The statement that a backend makes of some pieces. */
  function StatementOf(d: Dialect, multi: bool, trace: seq<Piece>): Statement {
    Statement(Done(TextOf(d, 0, trace)), Done(Cacheable(trace)), PushEach(d, multi, BindsOf(trace), []))
  }

  const REFUSED := Statement(Failed, Failed, Failed)

  /** The statement made of a query directly: its text, its verdict and its binds, read off the query. */
  lemma DirectIs(variants: Variants, i: nat, query: Query)
    requires i < |variants| && CompleteQuery(variants, query)
    ensures var d := variants[i];
            DirectStatement(variants, i, query)
            == if NothingToUpdate(d, i, false, query) then REFUSED else StatementOf(d, false, Trace(d, i, false, Body(query)))
  {
    hide WalkQuery, CompleteQuery, Trace, NothingToUpdate, TextOf, Body;
    var d := variants[i];
    var trace := Trace(d, i, false, Body(query));
    QueryPushesTrace(variants, Native(i), query, SqlStart(d));
    QueryPushesTrace(variants, Native(i), query, SafeToCache(true));
    QueryPushesTrace(variants, Native(i), query, BindsStart(d));
    SqlAfter(false, 0, trace, SqlStart(d));
    CacheAfter(d, false, trace, true);
    CollectAfter(d, false, trace, BindsStart(d));
    assert "" + TextOf(d, 0, trace) == TextOf(d, 0, trace);
  }

  /** The statement made of the wrapped query. */
  lemma ForwardedIs(variants: Variants, i: nat, query: Query)
    requires i < |variants| && CompleteQuery(variants, query)
    ensures var d := variants[i];
            ForwardedStatement(variants, i, query)
            == if NothingToUpdate(d, i, true, query) then REFUSED else StatementOf(d, true, Trace(d, i, true, Body(query)))
  {
    hide WalkQuery, CompleteQuery, Trace, NothingToUpdate, TextOf, Body;
    var d := variants[i];
    var trace := Trace(d, i, true, Body(query));
    WrapperParts(variants, i, query, SqlStart(d));
    WrapperParts(variants, i, query, SafeToCache(true));
    WrapperParts(variants, i, query, BindsStart(d));
    if !NothingToUpdate(d, i, true, query) {
      CollectsInner(variants, i, query, BindsStart(d));
    }
    assert "" + TextOf(d, 0, trace) == TextOf(d, 0, trace);
  }

  // ----- the wrapper

  /** What the wrapper does in each pass: it pushes the text, clears a flag that the query clears, and lets the
      bind passes reach the query. */
  lemma WrapperParts(variants: Variants, i: nat, query: Query, pass: Pass)
    requires Matches(variants, Native(i), pass) && CompleteQuery(variants, query)
    ensures var d, walked := variants[i], SerializedWalk(variants, i, query, pass);
            var trace := Trace(d, i, true, Body(query));
            if NothingToUpdate(d, i, true, query) then walked.Failed?
            else match pass
                 case CollectBinds(_, _) => walked == HandleInnerPass(variants, i, query, pass)
                 case DebugBinds(seen) => walked == Done(DebugBinds(seen + ValuesOf(BindsOf(trace))))
                 case SafeToCache(safe) => walked == Done(SafeToCache(safe && Cacheable(trace)))
                 case _ => walked == Done(PushSql(pass, TextOf(d, 0, trace)))
  {
    hide WalkQuery, CompleteQuery, Trace, NothingToUpdate, TextOf, Body;
    var d := variants[i];
    var trace, start := Trace(d, i, true, Body(query)), ToSql(MultiBuilder(i, EmptyBuilder(d)));
    QueryPushesTrace(variants, Multi(i), query, start);
    QueryPushesTrace(variants, Multi(i), query, SafeToCache(true));
    SqlAfter(true, 0, trace, start);
    CacheAfter(d, true, trace, true);
    assert "" + TextOf(d, 0, trace) == TextOf(d, 0, trace);
    if pass.DebugBinds? {
      QueryPushesTrace(variants, Multi(i), query, pass);
      DebugAfter(d, true, trace, pass.seen);
    }
  }

  /** The binds that replace the outer ones. */
  lemma CollectsInner(variants: Variants, i: nat, query: Query, pass: Pass)
    requires Matches(variants, Native(i), pass) && CompleteQuery(variants, query) && pass.CollectBinds?
    requires !NothingToUpdate(variants[i], i, true, query)
    ensures HandleInnerPass(variants, i, query, pass)
         == Collected(pass, PushEach(variants[i], true, BindsOf(Trace(variants[i], i, true, Body(query))), []))
  {
    hide WalkQuery, CompleteQuery, Trace, NothingToUpdate, Body;
    var d := variants[i];
    var start := CollectBinds(MultiCollector(i, EmptyCollector(d)), DynLookup(LookupOf(d)));
    QueryPushesTrace(variants, Multi(i), query, start);
    CollectAfter(d, true, Trace(d, i, true, Body(query)), start);
  }

  /** The binds are the same through the enums, with a bare offset or without. */
  lemma SameListing(variants: Variants, i: nat, query: Query)
    requires i < |variants| && CompleteQuery(variants, query)
    ensures var d, body := variants[i], Body(query);
            && BindsOf(Trace(d, i, true, body)) == Listing(d, i, body)
            && (!BareOffset(d, body) ==> Trace(d, i, true, body) == Trace(d, i, false, body))
            && (BareOffset(d, body) ==> !d.Pg? && |TextOf(d, 0, Trace(d, i, true, body))| < |TextOf(d, 0, Trace(d, i, false, body))|)
  {
    hide CompleteQuery, Complete, Trace, BareOffset, Body;
    var d, body := variants[i], Body(query);
    BodyComplete(variants, query);
    ComparesTraces(variants, d, i, body);
    if BareOffset(d, body) {
      BareNeedsPadding(d, body);
      WeightIsLength(d, 0, Trace(d, i, true, body));
      WeightIsLength(d, 0, Trace(d, i, false, body));
    }
  }

  lemma {:induction false} BareNeedsPadding(d: Dialect, node: Node)
    requires BareOffset(d, node)
    ensures !d.Pg?
    decreases node
  {
    match node
    case Group(children) =>
      var k :| 0 <= k < |children| && BareOffset(d, children[k]);
      BareNeedsPadding(d, children[k]);
    case CommaList(children) =>
      var k :| 0 <= k < |children| && BareOffset(d, children[k]);
      BareNeedsPadding(d, children[k]);
    case Select(distinct, select, from, filter, groupBy, having, order, limitOffset, locking) =>
      if BareOffset(d, distinct) { BareNeedsPadding(d, distinct); }
      else if BareOffset(d, select) { BareNeedsPadding(d, select); }
      else if BareOffset(d, from) { BareNeedsPadding(d, from); }
      else if BareOffset(d, filter) { BareNeedsPadding(d, filter); }
      else if BareOffset(d, groupBy) { BareNeedsPadding(d, groupBy); }
      else if BareOffset(d, having) { BareNeedsPadding(d, having); }
      else if BareOffset(d, order) { BareNeedsPadding(d, order); }
      else if BareOffset(d, limitOffset) { BareNeedsPadding(d, limitOffset); }
      else { BareNeedsPadding(d, locking); }
    case BoxedLimitOffset(limit, offset) =>
      if limit.Some? && BareOffset(d, limit.value) { BareNeedsPadding(d, limit.value); }
      if offset.Some? && BareOffset(d, offset.value) { BareNeedsPadding(d, offset.value); }
    case Values(_, values) =>
      var k :| 0 <= k < |values| && BareOffset(d, values[k]);
      BareNeedsPadding(d, values[k]);
    case _ =>
  }

  // ----- safety

  /** Whatever a connection asks of a wrapped query, the pass it lent out still belongs to it, and an error means
      that a bind cannot be serialized or that there is nothing to update. */
  lemma WrapperKeepsMatch(variants: Variants, i: nat, query: Query, pass: Pass)
    requires Matches(variants, Native(i), pass) && CompleteQuery(variants, query)
    ensures var walked := SerializedWalk(variants, i, query, pass);
            && (walked.Done? ==> Matches(variants, Native(i), walked.value) && SameKind(pass, walked.value))
            && (walked.Failed? ==> pass.CollectBinds? || NothingToUpdate(variants[i], i, true, query))
  {
    hide WalkQuery, CompleteQuery, Trace, NothingToUpdate, TextOf, Body, SerializedWalk, HandleInnerPass;
    WrapperParts(variants, i, query, pass);
    if pass.CollectBinds? && !NothingToUpdate(variants[i], i, true, query) { CollectsInner(variants, i, query, pass); }
  }

  /** One thing only can panic: collecting binds of which one was never set, before any that cannot be serialized. */
  lemma WrapperPanicsIff(variants: Variants, i: nat, query: Query, pass: Pass)
    requires Matches(variants, Native(i), pass) && CompleteQuery(variants, query)
    ensures SerializedWalk(variants, i, query, pass).Panicked? <==>
              && pass.CollectBinds? && !NothingToUpdate(variants[i], i, true, query)
              && ReachesUnset(variants[i], Listing(variants[i], i, Body(query)))
  {
    hide WalkQuery, CompleteQuery, Trace, NothingToUpdate, TextOf, Body, SerializedWalk, HandleInnerPass, BareOffset, ReachesUnset, Accepted;
    WrapperParts(variants, i, query, pass);
    SameListing(variants, i, query);
    if pass.CollectBinds? && !NothingToUpdate(variants[i], i, true, query) {
      CollectsInner(variants, i, query, pass);
      CollectsEach(variants[i], true, Listing(variants[i], i, Body(query)), []);
    }
  }

  // ----- exactness

  /** The chosen backend receives its own text exactly when no limit had to be put before an offset, or there
      is nothing to update and both refuse. */
  lemma SqlForwardedIff(variants: Variants, i: nat, query: Query)
    requires i < |variants| && CompleteQuery(variants, query)
    ensures ForwardedStatement(variants, i, query).sql == DirectStatement(variants, i, query).sql
            <==> NothingToUpdate(variants[i], i, false, query) || !BareOffset(variants[i], Body(query))
  {
    hide CompleteQuery, Trace, NothingToUpdate, TextOf, Body, BareOffset, DirectStatement, ForwardedStatement;
    DirectIs(variants, i, query);
    ForwardedIs(variants, i, query);
    SameListing(variants, i, query);
    QueryPushesTrace(variants, Native(i), query, SafeToCache(true));
  }

  /** What each backend collects for a query it is given directly. */
  lemma DirectBindsListed(variants: Variants, i: nat, query: Query)
    requires i < |variants| && CompleteQuery(variants, query) && !NothingToUpdate(variants[i], i, false, query)
    ensures var d := variants[i]; var binds := Listing(d, i, Body(query));
            DirectStatement(variants, i, query).binds
            == if Accepted(d, binds) < |binds| then Failed else Done(BoundEach(d, false, binds))
  {
    hide CompleteQuery, Trace, NothingToUpdate, TextOf, Body, DirectStatement;
    var d := variants[i];
    DirectIs(variants, i, query);
    CollectsEach(d, false, Listing(d, i, Body(query)), []);
    assert [] + BoundEach(d, false, Listing(d, i, Body(query))) == BoundEach(d, false, Listing(d, i, Body(query)));
  }

  /** What it collects for the wrapped query. */
  lemma ForwardedBindsListed(variants: Variants, i: nat, query: Query)
    requires i < |variants| && CompleteQuery(variants, query) && !NothingToUpdate(variants[i], i, true, query)
    ensures var d := variants[i]; var binds := Listing(d, i, Body(query));
            ForwardedStatement(variants, i, query).binds
            == if ReachesUnset(d, binds) then Panicked
               else if Accepted(d, binds) < |binds| then Failed else Done(BoundEach(d, true, binds))
  {
    hide CompleteQuery, Trace, NothingToUpdate, TextOf, Body, ForwardedStatement, BareOffset;
    var d := variants[i];
    ForwardedIs(variants, i, query);
    SameListing(variants, i, query);
    CollectsEach(d, true, Listing(d, i, Body(query)), []);
    assert [] + BoundEach(d, true, Listing(d, i, Body(query))) == BoundEach(d, true, Listing(d, i, Body(query)));
  }

  /** Whether the binds are the chosen backend's own can be read off the query: both refuse to update nothing,
      or a changeset that looks empty through the enums only meets a bind the backend refuses anyway, or no
      value that was never set is reached and, unless one is refused, the backend stores every value's type
      as it stores the declared one. A bare offset outside a changeset makes no difference. */
  predicate BindsForward(d: Dialect, i: nat, query: Query) {
    var binds := Listing(d, i, Body(query));
    || NothingToUpdate(d, i, false, query)
    || (if NothingToUpdate(d, i, true, query) then Accepted(d, binds) < |binds| else SameBinds(d, binds))
  }

  lemma BindsForwardedIff(variants: Variants, i: nat, query: Query)
    requires i < |variants| && CompleteQuery(variants, query)
    ensures ForwardedStatement(variants, i, query).binds == DirectStatement(variants, i, query).binds
            <==> BindsForward(variants[i], i, query)
  {
    hide CompleteQuery, Trace, NothingToUpdate, TextOf, Body, BareOffset, DirectStatement, ForwardedStatement, SameBinds, Accepted;
    var d := variants[i];
    DirectIs(variants, i, query);
    ForwardedIs(variants, i, query);
    SameListing(variants, i, query);
    QueryPushesTrace(variants, Native(i), query, SafeToCache(true));
    SameBindsIff(d, Listing(d, i, Body(query)), []);
    CollectsEach(d, false, Listing(d, i, Body(query)), []);
  }

  /** Text, cache verdict and binds all reach the chosen backend unchanged exactly when both refuse to update
      nothing, or no offset stands without a limit on a backend that needs one and the binds are its own. */
  lemma StatementForwardedIff(variants: Variants, i: nat, query: Query)
    requires i < |variants| && CompleteQuery(variants, query)
    ensures ForwardedStatement(variants, i, query) == DirectStatement(variants, i, query)
            <==> || NothingToUpdate(variants[i], i, false, query)
                 || (!BareOffset(variants[i], Body(query)) && SameBinds(variants[i], Listing(variants[i], i, Body(query))))
  {
    hide CompleteQuery, Trace, NothingToUpdate, TextOf, Body, BareOffset, DirectStatement, ForwardedStatement, SameBinds, Accepted;
    DirectIs(variants, i, query);
    ForwardedIs(variants, i, query);
    SameListing(variants, i, query);
    QueryPushesTrace(variants, Native(i), query, SafeToCache(true));
    BindsForwardedIff(variants, i, query);
    SqlForwardedIff(variants, i, query);
  }

  /** The debug listing of the binds is the backend's own, with every value in order, exactly when both find
      something to update or neither does. */
  lemma DebugBindsForwardedIff(variants: Variants, i: nat, query: Query, seen: seq<Value>)
    requires i < |variants| && CompleteQuery(variants, query)
    ensures SerializedWalk(variants, i, query, DebugBinds(seen)) == WalkQuery(variants, Native(i), query, DebugBinds(seen))
            <==> (NothingToUpdate(variants[i], i, true, query) <==> NothingToUpdate(variants[i], i, false, query))
    ensures !NothingToUpdate(variants[i], i, true, query) ==>
              SerializedWalk(variants, i, query, DebugBinds(seen))
              == Done(DebugBinds(seen + ValuesOf(Listing(variants[i], i, Body(query)))))
  {
    hide WalkQuery, CompleteQuery, Trace, NothingToUpdate, TextOf, Body, BareOffset, SerializedWalk;
    var pass, d := DebugBinds(seen), variants[i];
    WrapperParts(variants, i, query, pass);
    SameListing(variants, i, query);
    QueryPushesTrace(variants, Native(i), query, pass);
    DebugAfter(d, false, Trace(d, i, false, Body(query)), seen);
  }

  // ----- queries that are not forwarded as they are

  /** SQLite is sent an offset without the limit it needs. */
  lemma LimitLost()
    ensures var query := Fragment(BoxedLimitOffset(None, Some(Sql(" OFFSET 1"))));
            && CompleteQuery([Sqlite], query)
            && DirectStatement([Sqlite], 0, query).sql == Done(" LIMIT -1  OFFSET 1")
            && ForwardedStatement([Sqlite], 0, query).sql == Done(" OFFSET 1")
  {
    LimitTraces();
    hide *;
    var query := Fragment(BoxedLimitOffset(None, Some(Sql(" OFFSET 1"))));
    LimitQuery(query);
    DirectIs([Sqlite], 0, query);
    ForwardedIs([Sqlite], 0, query);
    Made(Sqlite, false, Trace(Sqlite, 0, false, query.node));
    Made(Sqlite, true, Trace(Sqlite, 0, true, query.node));
    OneText(Sqlite, 0, Wrote(" OFFSET 1"));
    TextFront(Sqlite, 0, Wrote(" LIMIT -1 "), [Wrote(" OFFSET 1")]);
    TextPieces();
    assert " LIMIT -1 " + " OFFSET 1" == " LIMIT -1  OFFSET 1";
  }

  lemma LimitQuery(query: Query)
    requires query == Fragment(BoxedLimitOffset(None, Some(Sql(" OFFSET 1"))))
    ensures CompleteQuery([Sqlite], query) && Body(query) == query.node
    ensures !NothingToUpdate(Sqlite, 0, false, query) && !NothingToUpdate(Sqlite, 0, true, query)
  {
  }

  lemma LimitTraces()
    ensures var node := BoxedLimitOffset(None, Some(Sql(" OFFSET 1")));
            && Trace(Sqlite, 0, true, node) == [Wrote(" OFFSET 1")]
            && Trace(Sqlite, 0, false, node) == [Wrote(" LIMIT -1 ")] + [Wrote(" OFFSET 1")]
  {
    assert Trace(Sqlite, 0, true, Sql(" OFFSET 1")) == [Wrote(" OFFSET 1")] == Trace(Sqlite, 0, false, Sql(" OFFSET 1"));
  }

  lemma TextPieces()
    ensures PieceText(Sqlite, 0, Wrote(" LIMIT -1 ")) == " LIMIT -1 " && PieceText(Sqlite, 0, Wrote(" OFFSET 1")) == " OFFSET 1"
    ensures |Head(Wrote(" LIMIT -1 "))| == 0
  {
  }

  lemma Made(d: Dialect, multi: bool, trace: seq<Piece>)
    ensures StatementOf(d, multi, trace).sql == Done(TextOf(d, 0, trace))
  {
  }

  /** A timestamp whose `ToSql` impl ends in text. */
  const TEXT_TIMESTAMP := BindParam(NotNull(BaseType.Timestamp), LeafValue(TextLeaf("now"), {}))

  /** PostgreSQL is sent such a timestamp with the oid of text. */
  lemma BindTypeLost()
    ensures var query := Fragment(TEXT_TIMESTAMP); var written := Some(Encoded(Pg, TextLeaf("now")));
            && CompleteQuery([Pg], query)
            && DirectStatement([Pg], 0, query).binds == Done([Bind(PgMetadata(Oids(1114, 1115)), written)])
            && ForwardedStatement([Pg], 0, query).binds == Done([Bind(PgMetadata(Oids(25, 1009)), written)])
  {
    OneBind(Pg, TEXT_TIMESTAMP);
  }

  /** SQLite stores timestamps as text and gets the very same bind. */
  lemma SqliteTimestampForwarded()
    ensures var query := Fragment(TEXT_TIMESTAMP);
            && CompleteQuery([Sqlite], query)
            && DirectStatement([Sqlite], 0, query).binds
               == Done([Bind(SqliteMetadata(SqliteType.Text), Some(Encoded(Sqlite, TextLeaf("now"))))])
               == ForwardedStatement([Sqlite], 0, query).binds
  {
    OneBind(Sqlite, TEXT_TIMESTAMP);
  }

  /** A value that is said to be written and is not: a backend binds an empty output, the enums panic. */
  lemma UnsetValuePanics()
    ensures var query := Fragment(BindParam(NotNull(BaseType.Integer), UnsetValue));
            && CompleteQuery([Sqlite], query)
            && DirectStatement([Sqlite], 0, query).binds == Done([Bind(SqliteMetadata(SqliteType.Integer), None)])
            && ForwardedStatement([Sqlite], 0, query).binds == Panicked
  {
    OneBind(Sqlite, BindParam(NotNull(BaseType.Integer), UnsetValue));
  }

  /** A query that is one bind, for one backend. */
  lemma OneBind(d: Dialect, node: Node)
    requires node.BindParam? && !(node.value.LeafValue? && d in node.value.failsOn)
    ensures var bind := Seen(false, node.sqlType, node.value);
            && DirectStatement([d], 0, Fragment(node)).binds == Done([Bound(d, false, bind)])
            && ForwardedStatement([d], 0, Fragment(node)).binds == if Unset(bind) then Panicked else Done([Bound(d, true, bind)])
  {
    var binds := [Seen(false, node.sqlType, node.value)];
    OneText(d, 0, Marked(binds[0]));
    assert Listing(d, 0, node) == binds && binds[1..] == [];
    assert Accepted(d, binds) == 1;
    assert ReachesUnset(d, binds) <==> Unset(binds[0]);
    var variants, query := [d], Fragment(node);
    assert variants[0] == d && Body(query) == node;
    assert BoundEach(d, false, binds) == [Bound(d, false, binds[0])] && BoundEach(d, true, binds) == [Bound(d, true, binds[0])];
    hide Listing, BoundEach, Bound, Accepted, ReachesUnset, DirectStatement, ForwardedStatement;
    DirectBindsListed(variants, 0, query);
    ForwardedBindsListed(variants, 0, query);
  }
}
