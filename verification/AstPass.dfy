/** The passes as they run: builders and collectors that are updated in place, the enums that
    `#[derive(MultiConnection)]` puts around them, and the walk that pushes into them. */
module AstPasses {
  import opened Prelude
  import opened QueryPass
  import opened MultiConnection
  import opened MultiBinds
  import opened MultiTrace

  // ----- a backend's own builder and collector

  class QueryBuilder {
    const dialect: Dialect
    var sql: string
    var bindIdx: nat

    ghost function Value(): Builder
      reads this
    {
      Builder(dialect, sql, bindIdx)
    }

    constructor (dialect: Dialect)
      ensures Value() == Builder(dialect, "", 0)
    {
      this.dialect := dialect;
      sql, bindIdx := "", 0;
    }

    method PushSql(text: string)
      modifies this`sql
      ensures sql == old(sql) + text
    {
      sql := sql + text;
    }

    /** Quotes of the name are doubled between the quotes around it. */
    method PushIdentifier(name: string)
      modifies this`sql
      ensures Value() == old(Value()).PushIdentifier(name)
    {
      var quote := if dialect.Pg? then '"' else '`';
      ghost var before := sql;
      PushSql([quote]);
      PushSql(Doubled(name, quote));
      PushSql([quote]);
      assert sql == before + ([quote] + Doubled(name, quote) + [quote]);
    }

    method PushBindParam()
      modifies this`sql, this`bindIdx
      ensures Value() == old(Value()).PushBindParam()
    {
      if dialect.Pg? {
        bindIdx := bindIdx + 1;
        PushSql("$" + Decimal(bindIdx));
      } else {
        PushSql("?");
      }
    }
  }

  class BindCollector {
    const dialect: Dialect
    var binds: seq<Bind>

    ghost function Value(): Collector
      reads this
    {
      Collector(dialect, binds)
    }

    constructor (dialect: Dialect)
      ensures Value() == Collector(dialect, [])
    {
      this.dialect := dialect;
      binds := [];
    }

    /** Serializes first: nothing is pushed when that fails. */
    method PushBoundValue(base: BaseType, value: Value) returns (ok: bool)
      modifies this
      ensures ok ==> Done(Value()) == old(Value()).PushBound(base, value)
      ensures !ok ==> old(Value()).PushBound(base, value).Failed? && binds == old(binds)
    {
      ok := true;
      match value {
        case NoneValue => PushNullValue(MetadataOf(dialect, base));
        case LeafValue(leaf, failsOn) =>
          if dialect in failsOn {
            ok := false;
          } else {
            binds := binds + [Bind(MetadataOf(dialect, base), Some(Encoded(dialect, leaf)))];
          }
        case UnsetValue => binds := binds + [Bind(MetadataOf(dialect, base), EmptyOutput(dialect))];
      }
    }

    method PushNullValue(metadata: Metadata)
      modifies this
      ensures binds == old(binds) + [Bind(metadata, None)]
    {
      binds := binds + [Bind(metadata, None)];
    }
  }

  // ----- the generated enums

  /** A variant's name with the backend's builder in it. */
  class MultiQueryBuilder {
    const variant: nat
    const inner: QueryBuilder

    constructor (variant: nat, inner: QueryBuilder)
      ensures this.variant == variant && this.inner == inner
    {
      this.variant := variant;
      this.inner := inner;
    }

    /** `duplicate`: an empty builder of the same variant. */
    method Duplicate() returns (copy: MultiQueryBuilder)
      ensures fresh(copy) && fresh(copy.inner) && copy.variant == variant
      ensures copy.inner.Value() == Builder(inner.dialect, "", 0)
    {
      var own := new QueryBuilder(inner.dialect);
      copy := new MultiQueryBuilder(variant, own);
    }

    method PushSql(text: string)
      modifies inner`sql
      ensures inner.sql == old(inner.sql) + text
    {
      inner.PushSql(text);
    }

    method PushIdentifier(name: string)
      modifies inner`sql
      ensures inner.Value() == old(inner.Value()).PushIdentifier(name)
    {
      inner.PushIdentifier(name);
    }

    method PushBindParam()
      modifies inner`sql, inner`bindIdx
      ensures inner.Value() == old(inner.Value()).PushBindParam()
    {
      inner.PushBindParam();
    }

    method Finish() returns (sql: string)
      ensures sql == inner.sql
    {
      sql := inner.sql;
    }
  }

  class MultiBindCollector {
    const variant: nat
    const inner: BindCollector

    constructor (variant: nat, inner: BindCollector)
      ensures this.variant == variant && this.inner == inner
    {
      this.variant := variant;
      this.inner := inner;
    }

    /** `push_bound_value`: nulls go through the metadata record, everything else through its own pusher.
        A collector that belongs to the backend never gets into an unreachable arm. */
    method PushBoundValue(variants: Variants, lookup: AnyLookup, base: BaseType, value: Value) returns (ok: bool)
      requires Matches(variants, Multi(variant), CollectBinds(MultiCollector(variant, inner.Value()), lookup))
      requires !value.UnsetValue?
      modifies inner
      ensures var pushed := MultiPushBoundValue(variants, MultiCollector(variant, old(inner.Value())), lookup, base, value);
              if ok then pushed == Done(MultiCollector(variant, inner.Value())) else pushed.Failed? && inner.binds == old(inner.binds)
    {
      ok := true;
      match value {
        case NoneValue =>
          var metadata := ComputeLookupSqlType(variants, base, lookup);
          match metadata[variant] {
            case Some(m) => inner.PushNullValue(m);
            case None => assert false;
          }
        case LeafValue(leaf, failsOn) =>
          var bind := BindValueFrom(leaf);
          ok := RunPusherOn(bind.pusher, bind.kind, failsOn, inner);
      }
    }
  }

  /** The pushers, each for the kind of value it is paired with. */
  method RunPusherOn(pusher: Pusher, kind: BindKind, failsOn: set<Dialect>, collector: BindCollector) returns (ok: bool)
    requires !RunPusher(pusher, kind, failsOn, collector.Value()).Panicked?
    modifies collector
    ensures ok ==> Done(collector.Value()) == RunPusher(pusher, kind, failsOn, old(collector.Value()))
    ensures !ok ==> RunPusher(pusher, kind, failsOn, old(collector.Value())).Failed? && collector.binds == old(collector.binds)
  {
    match pusher {
      case SizedPusher(base, rust) =>
        match kind {
          case SizedKind(_, leaf) => ok := collector.PushBoundValue(base, LeafValue(leaf, failsOn));
          case NullKind => ok := collector.PushBoundValue(base, NoneValue);
          case _ => assert false;
        }
      case StrPusher => ok := collector.PushBoundValue(BaseType.Text, LeafValue(kind.leaf, failsOn));
      case BytesPusher => ok := collector.PushBoundValue(BaseType.Binary, LeafValue(kind.leaf, failsOn));
    }
  }

  // ----- passes

  class Flag {
    var value: bool

    constructor (value: bool)
      ensures this.value == value
    {
      this.value := value;
    }
  }

  class DebugList {
    var seen: seq<Value>

    constructor ()
      ensures seen == []
    {
      seen := [];
    }
  }

  /** `AstPass`: what it carries is borrowed, and pushing updates it there. */
  datatype AstPass =
    | NativeSql(qb: QueryBuilder)
    | MultiSql(mqb: MultiQueryBuilder)
    | NativeBinds(bc: BindCollector, lookup: AnyLookup)
    | MultiBinds(mbc: MultiBindCollector, lookup: AnyLookup)
    | CacheFlag(flag: Flag)
    | DebugInto(list: DebugList)
    | NoopFlag(flag: Flag)
  {
    /** The one object that pushing may change. */
    ghost function Target(): object {
      match this
      case NativeSql(qb) => qb
      case MultiSql(mqb) => mqb.inner
      case NativeBinds(bc, _) => bc
      case MultiBinds(mbc, _) => mbc.inner
      case CacheFlag(flag) => flag
      case DebugInto(list) => list
      case NoopFlag(flag) => flag
    }

    ghost function Value(): Pass
      reads Target()
    {
      match this
      case NativeSql(qb) => ToSql(NativeBuilder(qb.Value()))
      case MultiSql(mqb) => ToSql(MultiBuilder(mqb.variant, mqb.inner.Value()))
      case NativeBinds(bc, lookup) => CollectBinds(NativeCollector(bc.Value()), lookup)
      case MultiBinds(mbc, lookup) => CollectBinds(MultiCollector(mbc.variant, mbc.inner.Value()), lookup)
      case CacheFlag(flag) => SafeToCache(flag.value)
      case DebugInto(list) => DebugBinds(list.seen)
      case NoopFlag(flag) => IsNoop(flag.value)
    }

    method PushSqlText(text: string)
      modifies Target()
      ensures Value() == PushSql(old(Value()), text)
    {
      match this {
        case NativeSql(qb) => qb.PushSql(text);
        case MultiSql(mqb) => mqb.PushSql(text);
        case NoopFlag(flag) => flag.value := false;
        case _ =>
      }
    }

    method PushName(name: string)
      modifies Target()
      ensures Value() == PushIdentifier(old(Value()), name)
    {
      match this {
        case NativeSql(qb) => qb.PushIdentifier(name);
        case MultiSql(mqb) => mqb.PushIdentifier(name);
        case NoopFlag(flag) => flag.value := false;
        case _ =>
      }
    }

    method MarkUnsafe()
      modifies Target()
      ensures Value() == UnsafeToCache(old(Value()))
    {
      if CacheFlag? { flag.value := false; }
    }

    method PushBind(variants: Variants, db: Db, sqlType: SqlType, value: Value) returns (ok: bool)
      requires Matches(variants, db, Value()) && !(MultiBinds? && value.UnsetValue?)
      modifies Target()
      ensures ok ==> Done(Value()) == PushBindParam(variants, db, sqlType, value, old(Value()))
      ensures !ok ==> PushBindParam(variants, db, sqlType, value, old(Value())).Failed? && Value() == old(Value())
    {
      ok := true;
      match this {
        case NativeSql(qb) => qb.PushBindParam();
        case MultiSql(mqb) => mqb.PushBindParam();
        case NativeBinds(bc, _) => ok := bc.PushBoundValue(sqlType.base, value);
        case MultiBinds(mbc, lookup) => ok := mbc.PushBoundValue(variants, lookup, sqlType.base, value);
        case CacheFlag(_) =>
        case DebugInto(list) => list.seen := list.seen + [value];
        case NoopFlag(flag) => flag.value := false;
      }
    }

    ghost function Inner(): AstPass {
      match this
      case MultiSql(mqb) => NativeSql(mqb.inner)
      case MultiBinds(mbc, lookup) => NativeBinds(mbc.inner, NativeLookup(lookup.inner))
      case _ => this
    }

    /** `cast_database`: the same borrowed state without the enums. */
    method Cast(variants: Variants, i: nat) returns (native: AstPass)
      requires Matches(variants, Multi(i), Value())
      ensures native == Inner() && native.Target() == Target()
      ensures Done(native.Value()) == CastDatabase(variants, i, Value())
      ensures Matches(variants, Native(i), native.Value())
    {
      match this {
        case MultiSql(mqb) => native := NativeSql(mqb.inner);
        case MultiBinds(mbc, lookup) => native := NativeBinds(mbc.inner, NativeLookup(lookup.inner));
        case _ => native := this;
      }
    }
  }

  // ----- the walk

  /** A walk that returned without an error left the state that the specification computes. */
  ghost predicate Ended(ok: bool, walked: Outcome<Pass>, state: Pass) {
    if ok then walked == Done(state) else walked.Failed?
  }

  /** `walk_ast`, fragment by fragment, where no `expect` fails. */
  method WalkAst(variants: Variants, db: Db, node: Node, pass: AstPass) returns (ok: bool)
    requires Matches(variants, db, pass.Value()) && Complete(variants, node)
    requires !Walk(variants, db, node, pass.Value()).Panicked?
    modifies pass.Target()
    ensures Ended(ok, Walk(variants, db, node, old(pass.Value())), pass.Value())
    ensures ok ==> Matches(variants, db, pass.Value())
    decreases node, 1, 0
  {
    WalkKeepsMatch(variants, db, node, pass.Value());
    match node {
      case Group(children) => ok := WalkEach(variants, db, node, children, pass);
      case CommaList(children) => ok := WalkTuple(variants, db, children, pass);
      case Select(_, _, _, _, _, _, _, _, _) => ok := WalkSelect(variants, db, node, pass);
      case BoxedLimitOffset(_, _) => ok := WalkBoxed(variants, db, node, pass);
      case Values(columns, values) => ok := WalkInsert(variants, db, columns, values, pass);
      case Dispatch(impls) => ok := WalkVariant(variants, db, impls, pass);
      case _ => ok := WalkLeaf(variants, db, node, pass);
    }
  }

  method WalkLeaf(variants: Variants, db: Db, node: Node, pass: AstPass) returns (ok: bool)
    requires node.Sql? || node.Identifier? || node.BindParam? || node.Uncacheable?
    requires Matches(variants, db, pass.Value()) && !Walk(variants, db, node, pass.Value()).Panicked?
    modifies pass.Target()
    ensures Ended(ok, Walk(variants, db, node, old(pass.Value())), pass.Value())
  {
    ok := true;
    match node {
      case Sql(text) => pass.PushSqlText(text);
      case Identifier(name) => pass.PushName(name);
      case BindParam(sqlType, value) => ok := pass.PushBind(variants, db, sqlType, value);
      case Uncacheable => pass.MarkUnsafe();
    }
  }

  method WalkSelect(variants: Variants, db: Db, node: Node, pass: AstPass) returns (ok: bool)
    requires node.Select? && Complete(variants, node)
    requires Matches(variants, db, pass.Value()) && !Walk(variants, db, node, pass.Value()).Panicked?
    modifies pass.Target()
    ensures Ended(ok, Walk(variants, db, node, old(pass.Value())), pass.Value())
    decreases node, 0, 1
  {
    SelectClauses(variants, node);
    pass.PushSqlText("SELECT ");
    ok := WalkEach(variants, db, node, if db.Multi? then MultiSelectOrder(node) else AnsiSelectOrder(node), pass);
  }

  method WalkEach(variants: Variants, db: Db, parent: Node, nodes: seq<Node>, pass: AstPass) returns (ok: bool)
    requires forall k :: 0 <= k < |nodes| ==> nodes[k] < parent && Complete(variants, nodes[k])
    requires Matches(variants, db, pass.Value()) && !WalkAll(variants, db, parent, nodes, pass.Value()).Panicked?
    modifies pass.Target()
    ensures Ended(ok, WalkAll(variants, db, parent, nodes, old(pass.Value())), pass.Value())
    decreases parent, 0, 0
  {
    hide Walk, Complete;
    ghost var whole := WalkAll(variants, db, parent, nodes, pass.Value());
    assert nodes[0..] == nodes;
    for k := 0 to |nodes|
      invariant Matches(variants, db, pass.Value())
      invariant whole == WalkAll(variants, db, parent, nodes[k..], pass.Value())
    {
      assert nodes[k..][0] == nodes[k] && nodes[k..][1..] == nodes[k + 1..];
      ok := WalkAst(variants, db, nodes[k], pass);
      if !ok { return; }
    }
    assert nodes[|nodes|..] == [];
    ok := true;
  }

  /** `is_noop`: the walk of a fresh flag. */
  method EmitsNothing(variants: Variants, db: Db, node: Node) returns (noop: bool)
    requires db.i < |variants| && Complete(variants, node)
    ensures Walk(variants, db, node, IsNoop(true)) == Done(IsNoop(noop))
    decreases node, 2, 0
  {
    var flag := new Flag(true);
    WalkKeepsMatch(variants, db, node, IsNoop(true));
    var ok := WalkAst(variants, db, node, NoopFlag(flag));
    noop := flag.value;
  }

  method WalkTuple(variants: Variants, db: Db, nodes: seq<Node>, pass: AstPass) returns (ok: bool)
    requires forall k :: 0 <= k < |nodes| ==> Complete(variants, nodes[k])
    requires Matches(variants, db, pass.Value()) && !WalkList(variants, db, nodes, false, pass.Value()).Panicked?
    modifies pass.Target()
    ensures Ended(ok, WalkList(variants, db, nodes, false, old(pass.Value())), pass.Value())
    decreases nodes, 0, 0
  {
    hide Walk, Complete;
    var needsComma := false;
    ghost var whole := WalkList(variants, db, nodes, false, pass.Value());
    assert nodes[0..] == nodes;
    for k := 0 to |nodes|
      invariant Matches(variants, db, pass.Value())
      invariant whole == WalkList(variants, db, nodes[k..], needsComma, pass.Value())
    {
      assert nodes[k..][0] == nodes[k] && nodes[k..][1..] == nodes[k + 1..];
      ElementKeepsMatch(variants, db, nodes[k], needsComma, pass.Value());
      ghost var before := pass.Value();
      var noop := EmitsNothing(variants, db, nodes[k]);
      assert pass.Value() == before;
      if !noop {
        if needsComma { pass.PushSqlText(", "); }
        assert pass.Value() == WithComma(needsComma, before);
        ok := WalkAst(variants, db, nodes[k], pass);
        if !ok { return; }
        needsComma := true;
      }
    }
    assert nodes[|nodes|..] == [];
    ok := true;
  }

  /** The VALUES clause of an insert. */
  method WalkInsert(variants: Variants, db: Db, columns: seq<string>, values: seq<Node>, pass: AstPass) returns (ok: bool)
    requires |columns| == |values| && forall k :: 0 <= k < |values| ==> Complete(variants, values[k])
    requires Matches(variants, db, pass.Value()) && !WalkValues(variants, db, columns, values, pass.Value()).Panicked?
    modifies pass.Target()
    ensures Ended(ok, WalkValues(variants, db, columns, values, old(pass.Value())), pass.Value())
    decreases values, 1, 0
  {
    hide Walk, Complete;
    ghost var start := pass.Value();
    ListKeepsMatch(variants, db, values, false, IsNoop(true));
    var flag := new Flag(true);
    ok := WalkTuple(variants, db, values, NoopFlag(flag));
    assert pass.Value() == start;
    if flag.value {
      pass.PushSqlText(DefaultRow(variants[db.i]));
    } else {
      pass.PushSqlText("(");
      ColumnsKeepMatch(variants, db, columns, values, false, pass.Value());
      PushColumns(variants, db, columns, values, pass);
      pass.PushSqlText(") VALUES (");
      ok := WalkTuple(variants, db, values, pass);
      if ok { pass.PushSqlText(")"); }
    }
  }

  /** `column_names` of a tuple. */
  method PushColumns(variants: Variants, db: Db, columns: seq<string>, values: seq<Node>, pass: AstPass)
    requires |columns| == |values| && forall k :: 0 <= k < |values| ==> Complete(variants, values[k])
    requires Matches(variants, db, pass.Value())
    modifies pass.Target()
    ensures WalkColumns(variants, db, columns, values, false, old(pass.Value())) == Done(pass.Value())
    decreases values, 0, 0
  {
    hide Walk, Complete;
    var needsComma := false;
    ghost var whole := WalkColumns(variants, db, columns, values, false, pass.Value());
    assert values[0..] == values && columns[0..] == columns;
    for k := 0 to |values|
      invariant Matches(variants, db, pass.Value())
      invariant whole == WalkColumns(variants, db, columns[k..], values[k..], needsComma, pass.Value())
    {
      assert values[k..][0] == values[k] && values[k..][1..] == values[k + 1..];
      assert columns[k..][0] == columns[k] && columns[k..][1..] == columns[k + 1..];
      ghost var before := pass.Value();
      var noop := EmitsNothing(variants, db, values[k]);
      assert pass.Value() == before;
      if !noop {
        if needsComma { pass.PushSqlText(", "); }
        assert pass.Value() == WithComma(needsComma, before);
        pass.PushName(columns[k]);
        needsComma := true;
      }
    }
    assert values[|values|..] == [];
  }

  method WalkBoxed(variants: Variants, db: Db, node: Node, pass: AstPass) returns (ok: bool)
    requires node.BoxedLimitOffset? && Complete(variants, node)
    requires Matches(variants, db, pass.Value()) && !Walk(variants, db, node, pass.Value()).Panicked?
    modifies pass.Target()
    ensures Ended(ok, Walk(variants, db, node, old(pass.Value())), pass.Value())
    decreases node, 0, 0
  {
    ok := true;
    if db.Native? && !variants[db.i].Pg? && node.limit.None? && node.offset.Some? {
      pass.PushSqlText(LimitForBareOffset(variants[db.i]));
      ok := WalkAst(variants, db, node.offset.value, pass);
    } else {
      if node.limit.Some? { ok := WalkAst(variants, db, node.limit.value, pass); }
      if ok && node.offset.Some? { ok := WalkAst(variants, db, node.offset.value, pass); }
    }
  }

  /** `walk_variant_ast`: the backend's own impl on the state behind the enums. */
  method WalkVariant(variants: Variants, db: Db, impls: seq<Node>, pass: AstPass) returns (ok: bool)
    requires Complete(variants, Dispatch(impls)) && Matches(variants, db, pass.Value())
    requires !Walk(variants, db, Dispatch(impls), pass.Value()).Panicked?
    modifies pass.Target()
    ensures Ended(ok, Walk(variants, db, Dispatch(impls), old(pass.Value())), pass.Value())
    decreases impls, 2, 0
  {
    var native := pass;
    if db.Multi? {
      native := pass.Cast(variants, db.i);
    }
    WalkKeepsMatch(variants, db, Dispatch(impls), pass.Value());
    ok := WalkAst(variants, Native(db.i), impls[db.i], native);
  }

  /** `walk_ast` of a statement. */
  method WalkStatement(variants: Variants, db: Db, query: Query, pass: AstPass) returns (ok: bool)
    requires Matches(variants, db, pass.Value()) && CompleteQuery(variants, query)
    requires !WalkQuery(variants, db, query, pass.Value()).Panicked?
    modifies pass.Target()
    ensures Ended(ok, WalkQuery(variants, db, query, old(pass.Value())), pass.Value())
  {
    hide Walk, Complete;
    ghost var start := pass.Value();
    if query.Update? {
      var noop := EmitsNothing(variants, db, query.assignments);
      assert pass.Value() == start;
      if noop { return false; }
    }
    BodyComplete(variants, query);
    ok := WalkAst(variants, db, Body(query), pass);
  }
}
