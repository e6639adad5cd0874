/** Walking a query for one backend: the passes of diesel/src/query_builder/ast_pass.rs over the query
    builders and bind collectors of PostgreSQL, MySQL and SQLite. */
module QueryPass {
  import opened Prelude

  datatype Dialect = Pg | Mysql | Sqlite

  /** The result of a call that can return an error or run into `unreachable!()` or a failed `expect`. */
  datatype Outcome<+T> = Done(value: T) | Failed | Panicked {
    predicate IsFailure() { !Done? }

    function PropagateFailure<U>(): Outcome<U>
      requires !Done?
    {
      if Failed? then Failed else Panicked
    }

    function Extract(): T
      requires Done?
    {
      value
    }
  }

  // ----- values

  datatype MysqlType =
    | Tiny | UnsignedTiny | Short | UnsignedShort | Long | UnsignedLong | LongLong | UnsignedLongLong | Float | Double
    | Numeric | Time | Date | DateTime | Timestamp | String | Blob | Bit | Set | Enum

  datatype SqliteType = Binary | Text | Float | Double | SmallInt | Integer | Long

  /** What a PostgreSQL type is known by: its oids, or the failure to look them up by name. */
  datatype PgType = Oids(oid: nat, arrayOid: nat) | LookupFailed(name: string)

  /** The types that `MultiBackend` has metadata for, and the user's own, which say how each backend stores them. */
  datatype BaseType =
    | SmallInt | Integer | BigInt | Double | Float | Text | Binary | Date | Time | Timestamp | Bool | Numeric
    | UserType(name: string, pg: PgType, mysql: MysqlType, sqlite: SqliteType)

  datatype Metadata = PgMetadata(pg: PgType) | MysqlMetadata(mysql: MysqlType) | SqliteMetadata(sqlite: SqliteType)

  function PgTypeOf(base: BaseType): PgType {
    match base
    case SmallInt => Oids(21, 1005)
    case Integer => Oids(23, 1007)
    case BigInt => Oids(20, 1016)
    case Double => Oids(701, 1022)
    case Float => Oids(700, 1021)
    case Text => Oids(25, 1009)
    case Binary => Oids(17, 1001)
    case Date => Oids(1082, 1182)
    case Time => Oids(1083, 1183)
    case Timestamp => Oids(1114, 1115)
    case Bool => Oids(16, 1000)
    case Numeric => Oids(1700, 1231)
    case UserType(_, pg, _, _) => pg
  }

  function MysqlTypeOf(base: BaseType): MysqlType {
    match base
    case SmallInt => MysqlType.Short
    case Integer => MysqlType.Long
    case BigInt => MysqlType.LongLong
    case Double => MysqlType.Double
    case Float => MysqlType.Float
    case Text => MysqlType.String
    case Binary => MysqlType.Blob
    case Date => MysqlType.Date
    case Time => MysqlType.Time
    case Timestamp => MysqlType.Timestamp
    case Bool => MysqlType.Tiny
    case Numeric => MysqlType.Numeric
    case UserType(_, _, mysql, _) => mysql
  }

  /** SQLite has one type for text, dates and times, one for integers and booleans, and one for doubles and numerics. */
  function SqliteTypeOf(base: BaseType): SqliteType {
    match base
    case SmallInt => SqliteType.SmallInt
    case Integer => SqliteType.Integer
    case BigInt => SqliteType.Long
    case Double => SqliteType.Double
    case Float => SqliteType.Float
    case Text => SqliteType.Text
    case Binary => SqliteType.Binary
    case Date => SqliteType.Text
    case Time => SqliteType.Text
    case Timestamp => SqliteType.Text
    case Bool => SqliteType.Integer
    case Numeric => SqliteType.Double
    case UserType(_, _, _, sqlite) => sqlite
  }

  function MetadataOf(d: Dialect, base: BaseType): Metadata {
    match d
    case Pg => PgMetadata(PgTypeOf(base))
    case Mysql => MysqlMetadata(MysqlTypeOf(base))
    case Sqlite => SqliteMetadata(SqliteTypeOf(base))
  }

  /** The oids of PostgreSQL's system catalogue, for a type and for its arrays, and the storage types of the others. */
  lemma StorageTypes()
    ensures MetadataOf(Pg, BaseType.Bool) == PgMetadata(Oids(16, 1000)) && MetadataOf(Pg, BaseType.Binary) == PgMetadata(Oids(17, 1001))
    ensures MetadataOf(Pg, BaseType.BigInt) == PgMetadata(Oids(20, 1016)) && MetadataOf(Pg, BaseType.SmallInt) == PgMetadata(Oids(21, 1005))
    ensures MetadataOf(Pg, BaseType.Integer) == PgMetadata(Oids(23, 1007)) && MetadataOf(Pg, BaseType.Text) == PgMetadata(Oids(25, 1009))
    ensures MetadataOf(Pg, BaseType.Float) == PgMetadata(Oids(700, 1021)) && MetadataOf(Pg, BaseType.Double) == PgMetadata(Oids(701, 1022))
    ensures MetadataOf(Pg, BaseType.Date) == PgMetadata(Oids(1082, 1182)) && MetadataOf(Pg, BaseType.Time) == PgMetadata(Oids(1083, 1183))
    ensures MetadataOf(Pg, BaseType.Timestamp) == PgMetadata(Oids(1114, 1115)) && MetadataOf(Pg, BaseType.Numeric) == PgMetadata(Oids(1700, 1231))
    ensures MetadataOf(Mysql, BaseType.Bool).mysql.Tiny? && MetadataOf(Mysql, BaseType.SmallInt).mysql.Short?
    ensures MetadataOf(Mysql, BaseType.Integer).mysql.Long? && MetadataOf(Mysql, BaseType.BigInt).mysql.LongLong?
    ensures MetadataOf(Mysql, BaseType.Float).mysql.Float? && MetadataOf(Mysql, BaseType.Double).mysql.Double?
    ensures MetadataOf(Mysql, BaseType.Numeric).mysql.Numeric? && MetadataOf(Mysql, BaseType.Text).mysql.String?
    ensures MetadataOf(Mysql, BaseType.Binary).mysql.Blob? && MetadataOf(Mysql, BaseType.Date).mysql.Date?
    ensures MetadataOf(Mysql, BaseType.Time).mysql.Time? && MetadataOf(Mysql, BaseType.Timestamp).mysql.Timestamp?
    ensures MetadataOf(Sqlite, BaseType.SmallInt).sqlite.SmallInt? && MetadataOf(Sqlite, BaseType.Integer).sqlite.Integer?
    ensures MetadataOf(Sqlite, BaseType.BigInt).sqlite.Long? && MetadataOf(Sqlite, BaseType.Float).sqlite.Float?
    ensures MetadataOf(Sqlite, BaseType.Double).sqlite.Double? && MetadataOf(Sqlite, BaseType.Text).sqlite.Text?
    ensures MetadataOf(Sqlite, BaseType.Binary).sqlite.Binary?
  {
  }

  /** PostgreSQL and MySQL tell all provided types apart, SQLite only those it stores differently. */
  lemma ProvidedTypesToldApart(d: Dialect, a: BaseType, b: BaseType)
    requires !a.UserType? && !b.UserType?
    ensures MetadataOf(d, a) == MetadataOf(d, b) <==>
              || a == b
              || (d.Sqlite? && {a, b} <= {BaseType.Text, BaseType.Date, BaseType.Time, BaseType.Timestamp})
              || (d.Sqlite? && {a, b} <= {BaseType.Integer, BaseType.Bool})
              || (d.Sqlite? && {a, b} <= {BaseType.Double, BaseType.Numeric})
  {
  }

  datatype SqlType = NotNull(base: BaseType) | Nullable(base: BaseType)

  /** What a chain of `ToSql` impls ends in: a string, bytes, or a sized value of some Rust type. */
  datatype Leaf = TextLeaf(text: string) | BytesLeaf(bytes: seq<int>) | SizedLeaf(base: BaseType, rust: string, payload: int)

  /** A bound value: an absent one, one that is written as a leaf, which some backends may refuse to serialize,
      or one whose `ToSql` impl claims to have written something and has not. */
  datatype Value = NoneValue | LeafValue(leaf: Leaf, failsOn: set<Dialect>) | UnsetValue

  function LeafBase(leaf: Leaf): BaseType {
    match leaf
    case TextLeaf(_) => BaseType.Text
    case BytesLeaf(_) => BaseType.Binary
    case SizedLeaf(base, _, _) => base
  }

  datatype Encoded = Encoded(dialect: Dialect, leaf: Leaf)

  datatype Bind = Bind(metadata: Metadata, bytes: Option<Encoded>)

  /** What a backend looks type metadata up in: the connection itself, or `()`. */
  datatype Lookup = PgConnectionLookup | UnitLookup

  function LookupOf(d: Dialect): Lookup {
    if d.Pg? then PgConnectionLookup else UnitLookup
  }

  // ----- the backends' own builders and collectors

  function Decimal(n: nat): string {
    if n < 10 then ["0123456789"[n]] else Decimal(n / 10) + ["0123456789"[n % 10]]
  }

  function Doubled(s: string, quote: char): string {
    if s == "" then ""
    else (if s[0] == quote then [quote, quote] else [s[0]]) + Doubled(s[1..], quote)
  }

  /** What an output holds before anything is written to it: no bytes, or SQLite's NULL. */
  function EmptyOutput(d: Dialect): Option<Encoded> {
    if d.Sqlite? then None else Some(Encoded(d, BytesLeaf([])))
  }

  datatype Builder = Builder(dialect: Dialect, sql: string, bindIdx: nat) {
    function PushSql(text: string): Builder { this.(sql := sql + text) }

    function PushIdentifier(name: string): Builder {
      var quote := if dialect.Pg? then '"' else '`';
      this.(sql := sql + ([quote] + Doubled(name, quote) + [quote]))
    }

    function PushBindParam(): Builder {
      if dialect.Pg? then this.(bindIdx := bindIdx + 1, sql := sql + ("$" + Decimal(bindIdx + 1)))
      else this.(sql := sql + "?")
    }
  }

  datatype Collector = Collector(dialect: Dialect, binds: seq<Bind>) {
    function PushBound(base: BaseType, value: Value): Outcome<Collector> {
      match value
      case NoneValue => Done(PushNull(MetadataOf(dialect, base)))
      case LeafValue(leaf, failsOn) =>
        if dialect in failsOn then Failed
        else Done(this.(binds := binds + [Bind(MetadataOf(dialect, base), Some(Encoded(dialect, leaf)))]))
      case UnsetValue =>
        Done(this.(binds := binds + [Bind(MetadataOf(dialect, base), EmptyOutput(dialect))]))
    }

    function PushNull(metadata: Metadata): Collector {
      this.(binds := binds + [Bind(metadata, None)])
    }
  }

  // ----- the enums that `#[derive(MultiConnection)]` generates around them

  /** A builder handed to a fragment: a backend's own one, or variant `variant` of `MultiQueryBuilder`. */
  datatype AnyBuilder = NativeBuilder(inner: Builder) | MultiBuilder(variant: nat, inner: Builder)

  datatype AnyCollector = NativeCollector(inner: Collector) | MultiCollector(variant: nat, inner: Collector)

  /** A backend's own lookup, or one behind `dyn Any`. */
  datatype AnyLookup = NativeLookup(inner: Lookup) | DynLookup(inner: Lookup)

  datatype Pass =
    | ToSql(builder: AnyBuilder)
    | CollectBinds(collector: AnyCollector, lookup: AnyLookup)
    | SafeToCache(safe: bool)
    | DebugBinds(seen: seq<Value>)
    | IsNoop(noop: bool)

  function PushSql(pass: Pass, text: string): Pass {
    match pass
    case ToSql(b) => ToSql(b.(inner := b.inner.PushSql(text)))
    case IsNoop(_) => IsNoop(false)
    case _ => pass
  }

  function PushIdentifier(pass: Pass, name: string): Pass {
    match pass
    case ToSql(b) => ToSql(b.(inner := b.inner.PushIdentifier(name)))
    case IsNoop(_) => IsNoop(false)
    case _ => pass
  }

  function UnsafeToCache(pass: Pass): Pass {
    if pass.SafeToCache? then SafeToCache(false) else pass
  }
}
