/** Forwarding a query to one of several backends: the code that `#[derive(MultiConnection)]`
    generates in diesel_derives/src/multiconnection.rs. */
module MultiConnection {
  import opened Prelude
  import opened QueryPass

  /** The enum the derive is applied to: one backend per variant. */
  type Variants = seq<Dialect>

  // ----- type metadata

  /** `MultiConnectionHelper::from_any`: the downcast succeeds when the lookup is of the backend's type. */
  predicate FromAny(d: Dialect, lookup: AnyLookup) { lookup.inner == LookupOf(d) }

  /** One optional entry per variant, filled when the lookup can be downcast for it. */
  type MultiTypeMetadata = seq<Option<Metadata>>

  function LookupSqlType(variants: Variants, base: BaseType, lookup: AnyLookup): (ret: MultiTypeMetadata)
    ensures |ret| == |variants|
    ensures forall k :: 0 <= k < |ret| ==>
              ret[k] == if FromAny(variants[k], lookup) then Some(MetadataOf(variants[k], base)) else None
  {
    if variants == [] then []
    else [if FromAny(variants[0], lookup) then Some(MetadataOf(variants[0], base)) else None]
         + LookupSqlType(variants[1..], base, lookup)
  }

  method ComputeLookupSqlType(variants: Variants, base: BaseType, lookup: AnyLookup) returns (ret: MultiTypeMetadata)
    ensures ret == LookupSqlType(variants, base, lookup)
  {
    ret := seq(|variants|, _ => None);
    for k := 0 to |variants|
      invariant |ret| == |variants|
      invariant forall j :: 0 <= j < k ==>
                  ret[j] == if FromAny(variants[j], lookup) then Some(MetadataOf(variants[j], base)) else None
      invariant forall j :: k <= j < |ret| ==> ret[j] == None
    {
      if FromAny(variants[k], lookup) {
        ret := ret[k := Some(MetadataOf(variants[k], base))];
      }
    }
  }

  // ----- bind values

  datatype BindKind = SizedKind(rust: string, leaf: Leaf) | StrKind(leaf: Leaf) | BytesKind(leaf: Leaf) | NullKind

  datatype Pusher = SizedPusher(base: BaseType, rust: string) | StrPusher | BytesPusher

  /** A value together with the function that knows how to push it. */
  datatype BindValue = BindValue(kind: BindKind, pusher: Pusher)

  /** The three `From` impls: text, bytes, and everything of a sized type. */
  function BindValueFrom(leaf: Leaf): BindValue {
    match leaf
    case TextLeaf(_) => BindValue(StrKind(leaf), StrPusher)
    case BytesLeaf(_) => BindValue(BytesKind(leaf), BytesPusher)
    case SizedLeaf(base, rust, _) => BindValue(SizedKind(rust, leaf), SizedPusher(base, rust))
  }

  /** `PushBoundValueToCollectorDB::push_bound_value` of the three pushers. */
  function RunPusher(pusher: Pusher, kind: BindKind, failsOn: set<Dialect>, collector: Collector): Outcome<Collector> {
    match pusher
    case SizedPusher(base, rust) =>
      (match kind
       case SizedKind(rust', leaf) => if rust' == rust then collector.PushBound(base, LeafValue(leaf, failsOn)) else Panicked
       case NullKind => collector.PushBound(base, NoneValue)
       case _ => Panicked)
    case StrPusher => if kind.StrKind? then collector.PushBound(BaseType.Text, LeafValue(kind.leaf, failsOn)) else Panicked
    case BytesPusher => if kind.BytesKind? then collector.PushBound(BaseType.Binary, LeafValue(kind.leaf, failsOn)) else Panicked
  }

  /** `MultiBindCollector::push_null_value`: the entry of the collector's own variant has to be there. */
  function PushNullValue(collector: AnyCollector, metadata: MultiTypeMetadata): Outcome<AnyCollector> {
    match collector
    case MultiCollector(k, inner) =>
      if k < |metadata| && metadata[k].Some? then Done(MultiCollector(k, inner.PushNull(metadata[k].value))) else Panicked
    case NativeCollector(_) => Panicked
  }

  /** `MultiBindCollector::push_bound_value`. A value that was never set fails its `expect`. */
  function MultiPushBoundValue(variants: Variants, collector: AnyCollector, lookup: AnyLookup, base: BaseType, value: Value)
    : Outcome<AnyCollector>
  {
    match value
    case NoneValue => PushNullValue(collector, LookupSqlType(variants, base, lookup))
    case LeafValue(leaf, failsOn) =>
      (match collector
       case MultiCollector(k, inner) =>
         if k < |variants| && FromAny(variants[k], lookup) then
           var bind := BindValueFrom(leaf);
           var pushed :- RunPusher(bind.pusher, bind.kind, failsOn, inner);
           Done(MultiCollector(k, pushed))
         else Panicked
       case NativeCollector(_) => Panicked)
    case UnsetValue => Panicked
  }

  // ----- fragments

  /** Which backend type a fragment is walked for: variant `i`'s own, or `MultiBackend` holding variant `i`. */
  datatype Db = Native(i: nat) | Multi(i: nat)

  datatype Node =
    | Sql(text: string)
    | Identifier(name: string)
    | BindParam(sqlType: SqlType, value: Value)
    | Uncacheable
    | Group(children: seq<Node>)
    | CommaList(children: seq<Node>)
    | Select(distinct: Node, select: Node, from: Node, filter: Node, groupBy: Node, having: Node,
             order: Node, limitOffset: Node, locking: Node)
    | BoxedLimitOffset(limit: Option<Node>, offset: Option<Node>)
    | Values(columns: seq<string>, values: seq<Node>)
    | Dispatch(impls: seq<Node>)

  function PushBindParam(variants: Variants, db: Db, sqlType: SqlType, value: Value, pass: Pass): Outcome<Pass> {
    match pass
    case ToSql(b) => Done(ToSql(b.(inner := b.inner.PushBindParam())))
    case CollectBinds(c, lookup) =>
      if db.Native? then
        var inner :- c.inner.PushBound(sqlType.base, value);
        Done(CollectBinds(c.(inner := inner), lookup))
      else
        var c' :- MultiPushBoundValue(variants, c, lookup, sqlType.base, value);
        Done(CollectBinds(c', lookup))
    case DebugBinds(seen) => Done(DebugBinds(seen + [value]))
    case IsNoop(_) => Done(IsNoop(false))
    case SafeToCache(_) => Done(pass)
  }

  /** `AstPassHelper::cast_database` with the accessors of variant `i`, which are `unreachable!()` for the others. */
  function CastDatabase(variants: Variants, i: nat, pass: Pass): Outcome<Pass> {
    match pass
    case ToSql(b) =>
      if b.MultiBuilder? && b.variant == i then Done(ToSql(NativeBuilder(b.inner))) else Panicked
    case CollectBinds(c, lookup) =>
      if c.MultiCollector? && c.variant == i && i < |variants| && FromAny(variants[i], lookup)
      then Done(CollectBinds(NativeCollector(c.inner), NativeLookup(lookup.inner)))
      else Panicked
    case _ => Done(pass)
  }

  /** The same borrowed state seen again through the enums. */
  function Embed(i: nat, pass: Pass): Pass {
    match pass
    case ToSql(b) => ToSql(MultiBuilder(i, b.inner))
    case CollectBinds(c, lookup) => CollectBinds(MultiCollector(i, c.inner), DynLookup(lookup.inner))
    case _ => pass
  }

  /** What MySQL and SQLite put in front of an offset that has no limit. */
  function LimitForBareOffset(d: Dialect): string {
    match d
    case Pg => ""
    case Mysql => " LIMIT 18446744073709551615 "
    case Sqlite => " LIMIT -1 "
  }

  /** How a backend inserts a row of defaults. */
  function DefaultRow(d: Dialect): string {
    if d.Mysql? then "() VALUES ()" else "DEFAULT VALUES"
  }

  /** The clauses of a select statement in the order of the `MultiBackend` impl. */
  function MultiSelectOrder(node: Node): (clauses: seq<Node>)
    requires node.Select?
    ensures forall k :: 0 <= k < |clauses| ==> clauses[k] < node
  {
    [node.distinct, node.select, node.from, node.filter, node.groupBy, node.having, node.order, node.limitOffset, node.locking]
  }

  /** The clauses in the order of the ANSI impl that PostgreSQL, MySQL and SQLite use. */
  function AnsiSelectOrder(node: Node): (clauses: seq<Node>)
    requires node.Select?
    ensures forall k :: 0 <= k < |clauses| ==> clauses[k] < node
  {
    [node.distinct, node.select, node.from, node.filter, node.groupBy, node.having, node.order, node.limitOffset, node.locking]
  }

  /** `walk_ast`. Generic fragments are the same code for every backend. A select statement has its own
      impl for `MultiBackend`, a boxed limit and offset one per backend, and `Dispatch` stands for the
      fragments whose `MultiBackend` impl is `walk_variant_ast`. */
  function Walk(variants: Variants, db: Db, node: Node, pass: Pass): Outcome<Pass>
    decreases node, 1, 0
  {
    match node
    case Sql(text) => Done(PushSql(pass, text))
    case Identifier(name) => Done(PushIdentifier(pass, name))
    case BindParam(sqlType, value) => PushBindParam(variants, db, sqlType, value, pass)
    case Uncacheable => Done(UnsafeToCache(pass))
    case Group(children) => WalkAll(variants, db, node, children, pass)
    case CommaList(children) => WalkList(variants, db, children, false, pass)
    case Select(_, _, _, _, _, _, _, _, _) =>
      WalkAll(variants, db, node, if db.Multi? then MultiSelectOrder(node) else AnsiSelectOrder(node), PushSql(pass, "SELECT "))
    case BoxedLimitOffset(limit, offset) =>
      if db.Native? && db.i < |variants| && !variants[db.i].Pg? && limit.None? && offset.Some? then
        Walk(variants, db, offset.value, PushSql(pass, LimitForBareOffset(variants[db.i])))
      else
        var p1 :- WalkOption(variants, db, limit, pass);
        WalkOption(variants, db, offset, p1)
    case Values(columns, values) => WalkValues(variants, db, columns, values, pass)
    case Dispatch(impls) =>
      if db.i >= |impls| then Panicked
      else if db.Native? then Walk(variants, db, impls[db.i], pass)
      else
        var native :- CastDatabase(variants, db.i, pass);
        var walked :- Walk(variants, Native(db.i), impls[db.i], native);
        Done(Embed(db.i, walked))
  }

  function WalkOption(variants: Variants, db: Db, node: Option<Node>, pass: Pass): Outcome<Pass>
    decreases node, 2, 0
  {
    if node.None? then Done(pass) else Walk(variants, db, node.value, pass)
  }

  function WalkAll(variants: Variants, db: Db, parent: Node, nodes: seq<Node>, pass: Pass): Outcome<Pass>
    requires forall k :: 0 <= k < |nodes| ==> nodes[k] < parent
    decreases parent, 0, |nodes|
  {
    if nodes == [] then Done(pass)
    else
      var p1 :- Walk(variants, db, nodes[0], pass);
      WalkAll(variants, db, parent, nodes[1..], p1)
  }

  function WithComma(needsComma: bool, pass: Pass): Pass {
    if needsComma then PushSql(pass, ", ") else pass
  }

  /** What becomes of one element of a tuple, given its `is_noop` walk and its walk after a comma if one is due:
      skipped when it emits nothing. */
  function ElementStep(noop: Outcome<Pass>, walked: Outcome<Pass>, needsComma: bool, pass: Pass): Outcome<(bool, Pass)> {
    var n :- noop;
    if n.IsNoop? && n.noop then Done((needsComma, pass))
    else
      var w :- walked;
      Done((true, w))
  }

  function WalkElement(variants: Variants, db: Db, node: Node, needsComma: bool, pass: Pass): Outcome<(bool, Pass)>
    decreases node, 3, 0
  {
    ElementStep(Walk(variants, db, node, IsNoop(true)), Walk(variants, db, node, WithComma(needsComma, pass)), needsComma, pass)
  }

  /** The tuple impl: fragments that emit something, separated by commas. */
  function WalkList(variants: Variants, db: Db, nodes: seq<Node>, needsComma: bool, pass: Pass): Outcome<Pass>
    decreases nodes, 0, 0
  {
    if nodes == [] then Done(pass)
    else
      var step :- WalkElement(variants, db, nodes[0], needsComma, pass);
      WalkList(variants, db, nodes[1..], step.0, step.1)
  }

  /** `ValuesClause::walk_ast` of a tuple of columns and values: a row of defaults when the tuple emits nothing. */
  function WalkValues(variants: Variants, db: Db, columns: seq<string>, values: seq<Node>, pass: Pass): Outcome<Pass>
    decreases values, 1, 0
  {
    if db.i >= |variants| then Panicked
    else
      var tested :- WalkList(variants, db, values, false, IsNoop(true));
      if tested == IsNoop(true) then Done(PushSql(pass, DefaultRow(variants[db.i])))
      else
        var p1 :- WalkColumns(variants, db, columns, values, false, PushSql(pass, "("));
        var p2 :- WalkList(variants, db, values, false, PushSql(p1, ") VALUES ("));
        Done(PushSql(p2, ")"))
  }

  /** `column_names` of a tuple: the columns of the values that emit something. */
  function WalkColumns(variants: Variants, db: Db, columns: seq<string>, values: seq<Node>, needsComma: bool, pass: Pass): Outcome<Pass>
    decreases values, 0, 0
  {
    if columns == [] || values == [] then Done(pass)
    else
      var tested :- Walk(variants, db, values[0], IsNoop(true));
      if tested == IsNoop(true) then WalkColumns(variants, db, columns[1..], values[1..], needsComma, pass)
      else WalkColumns(variants, db, columns[1..], values[1..], true, PushIdentifier(WithComma(needsComma, pass), columns[0]))
  }

  // ----- statements

  /** A query as a connection is given it: any fragment, or an update, which refuses to change nothing. */
  datatype Query =
    | Fragment(node: Node)
    | Update(from: Node, assignments: Node, filter: Node, returning: Node)

  /** What is walked once the assignments are known to emit something. */
  function Body(query: Query): Node {
    match query
    case Fragment(node) => node
    case Update(from, assignments, filter, returning) =>
      Group([Uncacheable, Sql("UPDATE "), from, Sql(" SET "), assignments, filter, returning])
  }

  /** `walk_ast` of the statement: an update with nothing to change is an error in every pass. */
  function WalkQuery(variants: Variants, db: Db, query: Query, pass: Pass): Outcome<Pass> {
    if query.Update? then
      var tested :- Walk(variants, db, query.assignments, IsNoop(true));
      if tested == IsNoop(true) then Failed else Walk(variants, db, Body(query), pass)
    else Walk(variants, db, query.node, pass)
  }
}
