/** Positional command line options: the multi-schema branches of `Config::set_filter` and
    `Config::update_config` in diesel_cli/src/config.rs. */
module CliScopes {
  import opened Prelude

  datatype Opt =
    | SchemaKey | TableName | OnlyTables | ExceptTables
    | Schema | WithDocs | WithDocsConfig | AllowTables | ColumnSorting | PatchFile | ImportTypes
    | GenerateTypes | ExceptTypes | TypeDerives | BigintKey

  /** One occurrence of an option as the argument parser reports it; a flag carries "true" or "false". */
  datatype Arg = Arg(index: nat, opt: Opt, value: string)

  type Indexed = seq<(nat, string)>

  /** The parser hands out growing indices. */
  predicate Ascending(argv: seq<Arg>) {
    forall i, j :: 0 <= i < j < |argv| ==> argv[i].index < argv[j].index
  }

  // ----- configuration

  datatype Docs = DatabaseCommentsOrGenerated | OnlyDatabaseComments | NoDocComments

  datatype SameQuery = FkRelatedTables | AllTables | NoTables

  datatype Sorting = OrdinalPosition | ByName

  datatype Filtering = OnlyMatching(patterns: seq<string>) | ExceptMatching(patterns: seq<string>) | NoFilter

  datatype PrintSchema = PrintSchema(
    schema: Option<string>, filter: Filtering, withDocs: Docs, allowTables: SameQuery, columnSorting: Sorting,
    patchFile: Option<string>, importTypes: Option<seq<string>>, generateTypes: Option<bool>,
    typeDerives: Option<seq<string>>, bigintKey: Option<bool>)

  datatype Error = NoSchemaKeyFound(key: string) | UnsupportedFeature(value: string) | InvalidRegex(pattern: string) | WrongArgumentType

  type Configs = map<string, PrintSchema>

  function ParseDocs(value: string): Result<Docs, Error> {
    if value == "database-comments-fallback-to-auto-generated-doc-comment" then Ok(DatabaseCommentsOrGenerated)
    else if value == "only-database-comments" then Ok(OnlyDatabaseComments)
    else if value == "no-doc-comments" then Ok(NoDocComments)
    else Err(UnsupportedFeature(value))
  }

  function ParseAllowTables(value: string): Result<SameQuery, Error> {
    if value == "fk_related_tables" then Ok(FkRelatedTables)
    else if value == "all_tables" then Ok(AllTables)
    else if value == "none" then Ok(NoTables)
    else Err(UnsupportedFeature(value))
  }

  function ParseSorting(value: string): Result<Sorting, Error> {
    if value == "ordinal_position" then Ok(OrdinalPosition)
    else if value == "name" then Ok(ByName)
    else Err(UnsupportedFeature(value))
  }

  // ----- the reference: one scan from left to right

  /** The values given for an option in a stretch of the command line. */
  function Values(args: seq<Arg>, opt: Opt): seq<string> {
    if args == [] then []
    else if args[0].opt == opt then [args[0].value] + Values(args[1..], opt)
    else Values(args[1..], opt)
  }

  function First(values: seq<string>): Option<string> {
    if values == [] then None else Some(values[0])
  }

  /** A flag is on in a segment when its first occurrence there says so. */
  predicate IsOn(values: seq<string>) { values != [] && values[0] == "true" }

  /** The options seen since the last schema key, and that key. */
  datatype Segment = Segment(key: string, args: seq<Arg>)

  type Apply = (PrintSchema, seq<Arg>) -> Result<PrintSchema, Error>

  function CloseSegment(apply: Apply, current: Option<Segment>, configs: Configs): Result<Configs, Error> {
    match current
    case None => Ok(configs)
    case Some(Segment(key, args)) =>
      if key !in configs then Err(NoSchemaKeyFound(key))
      else
        var updated :- apply(configs[key], args);
        Ok(configs[key := updated])
  }

  /** Reads the command line once: a schema key closes the running segment and starts the next one, any
      other option belongs to the running segment, and options before the first key belong to none. */
  function Scan(apply: Apply, args: seq<Arg>, current: Option<Segment>, configs: Configs): Result<Configs, Error> {
    if args == [] then CloseSegment(apply, current, configs)
    else if args[0].opt == SchemaKey then
      var closed :- CloseSegment(apply, current, configs);
      Scan(apply, args[1..], Some(Segment(args[0].value, [])), closed)
    else
      var grown := if current.None? then None else Some(current.value.(args := current.value.args + [args[0]]));
      Scan(apply, args[1..], grown, configs)
  }

  function DocsFor(config: PrintSchema, args: seq<Arg>): Result<Docs, Error> {
    if Values(args, WithDocsConfig) != [] then ParseDocs(Values(args, WithDocsConfig)[0])
    else Ok(if IsOn(Values(args, WithDocs)) then DatabaseCommentsOrGenerated else config.withDocs)
  }

  function AllowFor(config: PrintSchema, args: seq<Arg>): Result<SameQuery, Error> {
    if Values(args, AllowTables) != [] then ParseAllowTables(Values(args, AllowTables)[0]) else Ok(config.allowTables)
  }

  function SortingFor(config: PrintSchema, args: seq<Arg>): Result<Sorting, Error> {
    if Values(args, ColumnSorting) != [] then ParseSorting(Values(args, ColumnSorting)[0]) else Ok(config.columnSorting)
  }

  /** What one segment means for the options that are not filters: the first scalar wins, lists
      accumulate, an explicit documentation mode beats the flag. */
  function ApplyOptions(config: PrintSchema, args: seq<Arg>): Result<PrintSchema, Error> {
    var docs :- DocsFor(config, args);
    var allow :- AllowFor(config, args);
    var sorting :- SortingFor(config, args);
    Ok(PrintSchema(
      if Values(args, Schema) != [] then First(Values(args, Schema)) else config.schema,
      config.filter, docs, allow, sorting,
      if Values(args, PatchFile) != [] then First(Values(args, PatchFile)) else config.patchFile,
      if Values(args, ImportTypes) != [] then Some(Values(args, ImportTypes)) else config.importTypes,
      if IsOn(Values(args, GenerateTypes)) then Some(false) else config.generateTypes,
      if Values(args, TypeDerives) != [] then Some(Values(args, TypeDerives)) else config.typeDerives,
      if Values(args, BigintKey) != [] then Some(Values(args, BigintKey)[0] == "true") else config.bigintKey))
  }

  function FirstInvalid(valid: string -> bool, patterns: seq<string>): Option<string> {
    if patterns == [] then None
    else if !valid(patterns[0]) then Some(patterns[0])
    else FirstInvalid(valid, patterns[1..])
  }

  /** What one segment means for the table filter; `valid` says which patterns compile. */
  function ApplyFilter(valid: string -> bool, config: PrintSchema, args: seq<Arg>): Result<PrintSchema, Error> {
    var patterns := Values(args, TableName);
    var invalid := FirstInvalid(valid, patterns);
    if invalid.Some? then Err(InvalidRegex(invalid.value))
    else if patterns == [] then Ok(config)
    else if IsOn(Values(args, ExceptTables)) then Ok(config.(filter := ExceptMatching(patterns)))
    else if IsOn(Values(args, OnlyTables)) then Ok(config.(filter := OnlyMatching(patterns)))
    else Ok(config)
  }

  function FilterWith(valid: string -> bool): Apply {
    (config, args) => ApplyFilter(valid, config, args)
  }

  // ----- the code: ordered maps from index to value, and range queries

  /** `get_values_with_indices`: the ordered map from index to value, by ascending index. */
  function ValuesWithIndices(argv: seq<Arg>, opt: Opt): Indexed {
    if argv == [] then []
    else if argv[0].opt == opt then [(argv[0].index, argv[0].value)] + ValuesWithIndices(argv[1..], opt)
    else ValuesWithIndices(argv[1..], opt)
  }

  /** A range of indices: from `start` included to `end` excluded, or to the end of the line. */
  datatype Boundary = Boundary(start: nat, end: Option<nat>)

  predicate Within(index: nat, boundary: Boundary) {
    boundary.start <= index && (boundary.end.Some? ==> index < boundary.end.value)
  }

  /** `range(boundary)` followed by taking the values. */
  function Range(entries: Indexed, boundary: Boundary): seq<string> {
    if entries == [] then []
    else if Within(entries[0].0, boundary) then [entries[0].1] + Range(entries[1..], boundary)
    else Range(entries[1..], boundary)
  }

  function Zip<A, B>(a: seq<A>, b: seq<B>): (r: seq<(A, B)>)
    ensures |r| == if |a| <= |b| then |a| else |b|
    ensures forall i :: 0 <= i < |r| ==> r[i] == (a[i], b[i])
  {
    if a == [] || b == [] then [] else [(a[0], b[0])] + Zip(a[1..], b[1..])
  }

  function Keys(entries: Indexed): (keys: seq<nat>)
    ensures |keys| == |entries| && forall i :: 0 <= i < |keys| ==> keys[i] == entries[i].0
  {
    if entries == [] then [] else [entries[0].0] + Keys(entries[1..])
  }

  function MapValues(entries: Indexed): (values: seq<string>)
    ensures |values| == |entries| && forall i :: 0 <= i < |values| ==> values[i] == entries[i].1
  {
    if entries == [] then [] else [entries[0].1] + MapValues(entries[1..])
  }

  function Ends(keys: seq<nat>): (ends: seq<Option<nat>>)
    ensures |ends| == |keys| && forall i :: 0 <= i < |ends| ==> ends[i] == Some(keys[i])
  {
    if keys == [] then [] else [Some(keys[0])] + Ends(keys[1..])
  }

  function Boundaries(bounds: seq<(nat, Option<nat>)>): (r: seq<Boundary>)
    ensures |r| == |bounds| && forall i :: 0 <= i < |r| ==> r[i] == Boundary(bounds[i].0, bounds[i].1)
  {
    if bounds == [] then [] else [Boundary(bounds[0].0, bounds[0].1)] + Boundaries(bounds[1..])
  }

  /** Each selected key with its scope: the key indices zipped with themselves, shifted by one and
      closed by an open end. */
  function Scopes(selected: Indexed): seq<(string, Boundary)> {
    var keys := Keys(selected);
    Zip(MapValues(selected), Boundaries(Zip(keys, Ends(if keys == [] then [] else keys[1..]) + [None])))
  }

  // ----- where a scope begins and ends on the command line

  /** The number of arguments before the next schema key. */
  function KeyFree(args: seq<Arg>): (n: nat)
    ensures n <= |args| && (n < |args| ==> args[n].opt == SchemaKey)
    ensures forall i :: 0 <= i < n ==> args[i].opt != SchemaKey
  {
    if args == [] || args[0].opt == SchemaKey then 0 else 1 + KeyFree(args[1..])
  }

  /** `pos` is the position of the `i`-th schema key, or the end of the line after the last one. */
  ghost predicate AtKey(argv: seq<Arg>, i: nat, pos: nat) {
    && pos <= |argv| && (pos < |argv| ==> argv[pos].opt == SchemaKey)
    && i <= |ValuesWithIndices(argv, SchemaKey)|
    && ValuesWithIndices(argv[pos..], SchemaKey) == ValuesWithIndices(argv, SchemaKey)[i..]
  }

  /** The arguments that follow the key at `pos` up to the next key. */
  function SegmentAt(argv: seq<Arg>, pos: nat): seq<Arg>
    requires pos < |argv|
  {
    argv[pos + 1..pos + 1 + KeyFree(argv[pos + 1..])]
  }

  lemma ConcatAssociative<T>(a: seq<T>, b: seq<T>, c: seq<T>)
    ensures (a + b) + c == a + (b + c)
  {
  }

  lemma {:induction false} EntriesAppend(a: seq<Arg>, b: seq<Arg>, opt: Opt)
    ensures ValuesWithIndices(a + b, opt) == ValuesWithIndices(a, opt) + ValuesWithIndices(b, opt)
  {
    if a == [] {
      assert a + b == b;
    } else {
      EntriesAppend(a[1..], b, opt);
      assert (a + b)[1..] == a[1..] + b;
      ConcatAssociative([(a[0].index, a[0].value)], ValuesWithIndices(a[1..], opt), ValuesWithIndices(b, opt));
    }
  }

  lemma {:induction false} RangeAppend(a: Indexed, b: Indexed, boundary: Boundary)
    ensures Range(a + b, boundary) == Range(a, boundary) + Range(b, boundary)
  {
    if a == [] {
      assert a + b == b;
    } else {
      RangeAppend(a[1..], b, boundary);
      assert (a + b)[1..] == a[1..] + b;
      ConcatAssociative([a[0].1], Range(a[1..], boundary), Range(b, boundary));
    }
  }

  lemma {:induction false} RangeUniform(args: seq<Arg>, opt: Opt, boundary: Boundary, inside: bool)
    requires forall i :: 0 <= i < |args| ==> Within(args[i].index, boundary) == inside
    ensures Range(ValuesWithIndices(args, opt), boundary) == if inside then Values(args, opt) else []
  {
    if args != [] {
      RangeUniform(args[1..], opt, boundary, inside);
      if args[0].opt == opt {
        var rest := ValuesWithIndices(args[1..], opt);
        assert ([(args[0].index, args[0].value)] + rest)[1..] == rest;
      }
    }
  }

  /** A range query between the indices of two positions gives the values written between them. */
  lemma RangeIsStretch(argv: seq<Arg>, opt: Opt, a: nat, b: nat, boundary: Boundary)
    requires Ascending(argv) && a < b <= |argv|
    requires boundary == Boundary(argv[a].index, if b < |argv| then Some(argv[b].index) else None)
    ensures Range(ValuesWithIndices(argv, opt), boundary) == Values(argv[a..b], opt)
  {
    hide ValuesWithIndices, Values, Range;
    var before, inside, after := argv[..a], argv[a..b], argv[b..];
    assert argv == before + (inside + after);
    EntriesAppend(before, inside + after, opt);
    EntriesAppend(inside, after, opt);
    RangeAppend(ValuesWithIndices(before, opt), ValuesWithIndices(inside + after, opt), boundary);
    RangeAppend(ValuesWithIndices(inside, opt), ValuesWithIndices(after, opt), boundary);
    RangeUniform(before, opt, boundary, false);
    RangeUniform(inside, opt, boundary, true);
    RangeUniform(after, opt, boundary, false);
  }

  lemma {:induction false} KeyFreeHasNoKeys(args: seq<Arg>)
    requires forall i :: 0 <= i < |args| ==> args[i].opt != SchemaKey
    ensures ValuesWithIndices(args, SchemaKey) == []
  {
    if args != [] { KeyFreeHasNoKeys(args[1..]); }
  }

  lemma SkipToKey(argv: seq<Arg>, i: nat, from: nat) returns (pos: nat)
    requires from <= |argv| && i <= |ValuesWithIndices(argv, SchemaKey)|
    requires ValuesWithIndices(argv[from..], SchemaKey) == ValuesWithIndices(argv, SchemaKey)[i..]
    ensures pos == from + KeyFree(argv[from..])
    ensures AtKey(argv, i, pos)
  {
    pos := from + KeyFree(argv[from..]);
    var skipped := argv[from..pos];
    assert argv[from..] == skipped + argv[pos..];
    EntriesAppend(skipped, argv[pos..], SchemaKey);
    assert forall j :: 0 <= j < |skipped| ==> skipped[j] == argv[from..][j];
    KeyFreeHasNoKeys(skipped);
  }

  // ----- the scan, segment by segment

  lemma {:induction false} ScanSkips(apply: Apply, args: seq<Arg>, current: Option<Segment>, configs: Configs)
    ensures var n := KeyFree(args);
            Scan(apply, args, current, configs)
            == Scan(apply, args[n..], if current.None? then None else Some(current.value.(args := current.value.args + args[..n])), configs)
  {
    var n := KeyFree(args);
    if n == 0 {
      assert args[0..] == args;
      assert current.Some? ==> current.value.args + args[..0] == current.value.args;
    } else {
      var grown := if current.None? then None else Some(current.value.(args := current.value.args + [args[0]]));
      ScanSkips(apply, args[1..], grown, configs);
      assert args[1..][n - 1..] == args[n..];
      assert current.Some? ==> current.value.args + [args[0]] + args[1..][..n - 1] == current.value.args + args[..n];
    }
  }

  /** At a key, the scan closes that key's segment and goes on at the next key. */
  lemma ScanSegment(apply: Apply, argv: seq<Arg>, pos: nat, configs: Configs)
    requires pos < |argv| && argv[pos].opt == SchemaKey
    ensures var closed := CloseSegment(apply, Some(Segment(argv[pos].value, SegmentAt(argv, pos))), configs);
            Scan(apply, argv[pos..], None, configs)
            == if closed.Err? then Err(closed.error)
               else Scan(apply, argv[pos + 1 + KeyFree(argv[pos + 1..])..], None, closed.value)
  {
    var rest := argv[pos + 1..];
    var n := KeyFree(rest);
    var segment := Some(Segment(argv[pos].value, SegmentAt(argv, pos)));
    assert argv[pos..][1..] == rest;
    assert Scan(apply, argv[pos..], None, configs) == Scan(apply, rest, Some(Segment(argv[pos].value, [])), configs);
    ScanSkips(apply, rest, Some(Segment(argv[pos].value, [])), configs);
    assert [] + rest[..n] == SegmentAt(argv, pos);
    assert rest[n..] == argv[pos + 1 + n..];
  }

  /** The `i`-th entry of the ordered map is that of the key at `pos`. */
  lemma EntryAtKey(argv: seq<Arg>, i: nat, pos: nat)
    requires AtKey(argv, i, pos)
    ensures var selected := ValuesWithIndices(argv, SchemaKey);
            if pos < |argv|
            then i < |selected| && selected[i] == (argv[pos].index, argv[pos].value)
                 && ValuesWithIndices(argv[pos + 1..], SchemaKey) == selected[i + 1..]
            else i == |selected|
  {
  }

  lemma NextKey(argv: seq<Arg>, i: nat, pos: nat) returns (next: nat)
    requires AtKey(argv, i, pos) && pos < |argv|
    ensures next == pos + 1 + KeyFree(argv[pos + 1..]) && AtKey(argv, i + 1, next)
  {
    EntryAtKey(argv, i, pos);
    next := SkipToKey(argv, i + 1, pos + 1);
  }

  /** Range queries from a key to the next give what its segment holds. */
  lemma RangeIsSegment(argv: seq<Arg>, opt: Opt, pos: nat, boundary: Boundary)
    requires Ascending(argv) && pos < |argv| && argv[pos].opt != opt
    requires var next := pos + 1 + KeyFree(argv[pos + 1..]);
             boundary == Boundary(argv[pos].index, if next < |argv| then Some(argv[next].index) else None)
    ensures Range(ValuesWithIndices(argv, opt), boundary) == Values(SegmentAt(argv, pos), opt)
  {
    var next := pos + 1 + KeyFree(argv[pos + 1..]);
    RangeIsStretch(argv, opt, pos, next, boundary);
    assert argv[pos..next][1..] == SegmentAt(argv, pos);
  }

  ghost predicate RangesGive(argv: seq<Arg>, boundary: Boundary, args: seq<Arg>) {
    forall opt :: opt != SchemaKey ==> Range(ValuesWithIndices(argv, opt), boundary) == Values(args, opt)
  }

  /** The `i`-th scope is that of the key at `pos`, and range queries in it give what its segment holds. */
  lemma ScopeOfKey(argv: seq<Arg>, i: nat, pos: nat) returns (next: nat)
    requires Ascending(argv) && AtKey(argv, i, pos) && pos < |argv|
    ensures i < |Scopes(ValuesWithIndices(argv, SchemaKey))|
    ensures next == pos + 1 + KeyFree(argv[pos + 1..]) && AtKey(argv, i + 1, next) && next <= |argv|
    ensures var scope := Scopes(ValuesWithIndices(argv, SchemaKey))[i];
            scope.0 == argv[pos].value && RangesGive(argv, scope.1, SegmentAt(argv, pos))
  {
    next := NextKey(argv, i, pos);
    EntryAtKey(argv, i, pos);
    EntryAtKey(argv, i + 1, next);
    hide ValuesWithIndices, Values, Range, KeyFree, AtKey;
    var boundary := Boundary(argv[pos].index, if next < |argv| then Some(argv[next].index) else None);
    assert Scopes(ValuesWithIndices(argv, SchemaKey))[i] == (argv[pos].value, boundary);
    forall opt | opt != SchemaKey
      ensures Range(ValuesWithIndices(argv, opt), boundary) == Values(SegmentAt(argv, pos), opt)
    {
      RangeIsSegment(argv, opt, pos, boundary);
    }
  }

  lemma ScopesEnd(argv: seq<Arg>, i: nat, pos: nat)
    requires AtKey(argv, i, pos)
    ensures i == |Scopes(ValuesWithIndices(argv, SchemaKey))| <==> pos == |argv|
    ensures pos <= |argv| && (pos < |argv| ==> argv[pos].opt == SchemaKey)
  {
  }

  /** Everything before the first key is skipped. */
  lemma ScanStart(apply: Apply, argv: seq<Arg>, configs: Configs) returns (pos: nat)
    ensures AtKey(argv, 0, pos) && pos <= |argv|
    ensures Scan(apply, argv, None, configs) == Scan(apply, argv[pos..], None, configs)
  {
    assert argv[0..] == argv;
    pos := SkipToKey(argv, 0, 0);
    ScanSkips(apply, argv, None, configs);
  }

  lemma ScanEnd(apply: Apply, configs: Configs)
    ensures Scan(apply, [], None, configs) == Ok(configs)
  {
  }

  // ----- the two passes

  method SetFilter(argv: seq<Arg>, configs0: Configs, valid: string -> bool) returns (r: Result<Configs, Error>)
    requires Ascending(argv)
    ensures r == Scan(FilterWith(valid), argv, None, configs0)
  {
    hide Scan, ValuesWithIndices, Values, Range, Scopes, KeyFree, AtKey;
    ghost var apply := FilterWith(valid);
    var selected := ValuesWithIndices(argv, SchemaKey);
    var tableNames := ValuesWithIndices(argv, TableName);
    var onlyTables := ValuesWithIndices(argv, OnlyTables);
    var exceptTables := ValuesWithIndices(argv, ExceptTables);
    var configs := configs0;
    var scopes := Scopes(selected);
    ghost var pos: nat := ScanStart(apply, argv, configs0);
    for i := 0 to |scopes|
      invariant pos <= |argv| && AtKey(argv, i, pos)
      invariant Scan(apply, argv, None, configs0) == Scan(apply, argv[pos..], None, configs)
    {
      ScopesEnd(argv, i, pos);
      ScanSegment(apply, argv, pos, configs);
      ghost var args := SegmentAt(argv, pos);
      pos := ScopeOfKey(argv, i, pos);
      var key, boundary := scopes[i].0, scopes[i].1;
      if key !in configs {
        return Err(NoSchemaKeyFound(key));
      }
      var printSchema := configs[key];
      var patterns := Range(tableNames, boundary);
      var invalid := FirstInvalid(valid, patterns);
      if invalid.Some? {
        return Err(InvalidRegex(invalid.value));
      }
      if patterns != [] {
        if IsOn(Range(exceptTables, boundary)) {
          printSchema := printSchema.(filter := ExceptMatching(patterns));
        } else if IsOn(Range(onlyTables, boundary)) {
          printSchema := printSchema.(filter := OnlyMatching(patterns));
        }
      }
      configs := configs[key := printSchema];
    }
    ScopesEnd(argv, |scopes|, pos);
    assert argv[pos..] == [];
    ScanEnd(apply, configs);
    r := Ok(configs);
  }

  /** What `update_config` promises. The list of excepted custom types is declared as strings but read
      back as regular expressions, which the argument parser refuses. */
  function Updated(argv: seq<Arg>, configs: Configs): Result<Configs, Error> {
    if Values(argv, SchemaKey) == [] then Ok(configs)
    else if Values(argv, ExceptTypes) != [] then Err(WrongArgumentType)
    else Scan(ApplyOptions, argv, None, configs)
  }

  /** One excepted type after a schema key is refused, where without it the line would be accepted. */
  lemma ExceptTypesRefused(configs: Configs)
    requires "a" in configs
    ensures var key, except := Arg(1, SchemaKey, "a"), Arg(2, ExceptTypes, "Mood");
            && Updated([key, except], configs) == Err(WrongArgumentType)
            && Updated([key], configs).Ok?
  {
    var key, except := Arg(1, SchemaKey, "a"), Arg(2, ExceptTypes, "Mood");
    var line, rest := [key, except], [except];
    assert line[1..] == rest && rest[1..] == [] && [key][1..] == [];
    assert Values(rest, ExceptTypes) == ["Mood"];
    assert Values(line, ExceptTypes) == Values(rest, ExceptTypes);
    assert forall opt :: Values([], opt) == [];
    assert Scan(ApplyOptions, [key], None, configs) == Scan(ApplyOptions, [], Some(Segment("a", [])), configs);
    hide Values, Scan;
    assert ApplyOptions(configs["a"], []).Ok?;
  }

  method UpdateConfig(argv: seq<Arg>, configs0: Configs) returns (r: Result<Configs, Error>)
    requires Ascending(argv)
    ensures r == Updated(argv, configs0)
  {
    hide Scan, ValuesWithIndices, Values, Range, Scopes, KeyFree, AtKey, ApplyOptions;
    EntriesMatchValues(argv, SchemaKey);
    EntriesMatchValues(argv, ExceptTypes);
    var selected := ValuesWithIndices(argv, SchemaKey);
    if selected == [] {
      return Ok(configs0);
    }
    if ValuesWithIndices(argv, ExceptTypes) != [] {
      return Err(WrongArgumentType);
    }
    var configs := configs0;
    var scopes := Scopes(selected);
    ghost var pos: nat := ScanStart(ApplyOptions, argv, configs0);
    for i := 0 to |scopes|
      invariant pos <= |argv| && AtKey(argv, i, pos)
      invariant Scan(ApplyOptions, argv, None, configs0) == Scan(ApplyOptions, argv[pos..], None, configs)
    {
      ScopesEnd(argv, i, pos);
      ScanSegment(ApplyOptions, argv, pos, configs);
      ghost var args := SegmentAt(argv, pos);
      pos := ScopeOfKey(argv, i, pos);
      var key, boundary := scopes[i].0, scopes[i].1;
      if key !in configs {
        return Err(NoSchemaKeyFound(key));
      }
      var updated := UpdateScope(argv, boundary, configs[key], args);
      if updated.Err? {
        return Err(updated.error);
      }
      configs := configs[key := updated.value];
    }
    ScopesEnd(argv, |scopes|, pos);
    assert argv[pos..] == [];
    ScanEnd(ApplyOptions, configs);
    r := Ok(configs);
  }

  /** The loop body of `update_config`: one range query per option, each overwriting its field. */
  method UpdateScope(argv: seq<Arg>, boundary: Boundary, config: PrintSchema, ghost args: seq<Arg>)
    returns (r: Result<PrintSchema, Error>)
    requires RangesGive(argv, boundary, args)
    ensures r == ApplyOptions(config, args)
  {
    hide ValuesWithIndices, Values, Range, RangesGive;
    r := UpdateParsed(argv, boundary, config, args);
    if r.Ok? {
      var updated := UpdatePlain(argv, boundary, r.value, args);
      r := Ok(updated);
    }
  }

  method UpdateParsed(argv: seq<Arg>, boundary: Boundary, config: PrintSchema, ghost args: seq<Arg>)
    returns (r: Result<PrintSchema, Error>)
    requires RangesGive(argv, boundary, args)
    ensures var docs, allow, sorting := DocsFor(config, args), AllowFor(config, args), SortingFor(config, args);
            r == if docs.Err? then Err(docs.error) else if allow.Err? then Err(allow.error)
                 else if sorting.Err? then Err(sorting.error)
                 else Ok(config.(schema := if Values(args, Schema) != [] then First(Values(args, Schema)) else config.schema,
                                 withDocs := docs.value, allowTables := allow.value, columnSorting := sorting.value))
  {
    hide ValuesWithIndices, Values, Range, ParseDocs, ParseAllowTables, ParseSorting;
    var printSchema := config;
    var schema := First(Range(ValuesWithIndices(argv, Schema), boundary));
    if schema.Some? {
      printSchema := printSchema.(schema := schema);
    }
    if IsOn(Range(ValuesWithIndices(argv, WithDocs), boundary)) {
      printSchema := printSchema.(withDocs := DatabaseCommentsOrGenerated);
    }
    var docConfig := First(Range(ValuesWithIndices(argv, WithDocsConfig), boundary));
    if docConfig.Some? {
      var docs := ParseDocs(docConfig.value);
      if docs.Err? { return Err(docs.error); }
      printSchema := printSchema.(withDocs := docs.value);
    }
    var allowConfig := First(Range(ValuesWithIndices(argv, AllowTables), boundary));
    if allowConfig.Some? {
      var allow := ParseAllowTables(allowConfig.value);
      if allow.Err? { return Err(allow.error); }
      printSchema := printSchema.(allowTables := allow.value);
    }
    var sortingConfig := First(Range(ValuesWithIndices(argv, ColumnSorting), boundary));
    if sortingConfig.Some? {
      var sorting := ParseSorting(sortingConfig.value);
      if sorting.Err? { return Err(sorting.error); }
      printSchema := printSchema.(columnSorting := sorting.value);
    }
    r := Ok(printSchema);
  }

  method UpdatePlain(argv: seq<Arg>, boundary: Boundary, config: PrintSchema, ghost args: seq<Arg>)
    returns (printSchema: PrintSchema)
    requires RangesGive(argv, boundary, args)
    ensures printSchema == config.(
              patchFile := if Values(args, PatchFile) != [] then First(Values(args, PatchFile)) else config.patchFile,
              importTypes := if Values(args, ImportTypes) != [] then Some(Values(args, ImportTypes)) else config.importTypes,
              generateTypes := if IsOn(Values(args, GenerateTypes)) then Some(false) else config.generateTypes,
              typeDerives := if Values(args, TypeDerives) != [] then Some(Values(args, TypeDerives)) else config.typeDerives,
              bigintKey := if Values(args, BigintKey) != [] then Some(Values(args, BigintKey)[0] == "true") else config.bigintKey)
  {
    hide ValuesWithIndices, Values, Range;
    printSchema := config;
    var patchFile := First(Range(ValuesWithIndices(argv, PatchFile), boundary));
    if patchFile.Some? {
      printSchema := printSchema.(patchFile := patchFile);
    }
    var importTypes := Range(ValuesWithIndices(argv, ImportTypes), boundary);
    if importTypes != [] {
      printSchema := printSchema.(importTypes := Some(importTypes));
    }
    if IsOn(Range(ValuesWithIndices(argv, GenerateTypes), boundary)) {
      printSchema := printSchema.(generateTypes := Some(false));
    }
    var typeDerives := Range(ValuesWithIndices(argv, TypeDerives), boundary);
    if typeDerives != [] {
      printSchema := printSchema.(typeDerives := Some(typeDerives));
    }
    var bigintKey := First(Range(ValuesWithIndices(argv, BigintKey), boundary));
    if bigintKey.Some? {
      printSchema := printSchema.(bigintKey := Some(bigintKey.value == "true"));
    }
  }

  lemma {:induction false} EntriesMatchValues(argv: seq<Arg>, opt: Opt)
    ensures MapValues(ValuesWithIndices(argv, opt)) == Values(argv, opt)
  {
    if argv != [] {
      EntriesMatchValues(argv[1..], opt);
      var rest := ValuesWithIndices(argv[1..], opt);
      assert ([(argv[0].index, argv[0].value)] + rest)[1..] == rest;
    }
  }

  // ----- the scopes partition the line

  predicate InScope(scopes: seq<(string, Boundary)>, k: int, index: nat) {
    0 <= k < |scopes| && Within(index, scopes[k].1)
  }

  lemma {:induction false} EntriesAscend(argv: seq<Arg>, opt: Opt)
    requires Ascending(argv)
    ensures var e := ValuesWithIndices(argv, opt);
            && (forall i, j :: 0 <= i < j < |e| ==> e[i].0 < e[j].0)
            && (e != [] ==> argv != [] && forall i :: 0 <= i < |e| ==> argv[0].index <= e[i].0)
  {
    if argv != [] {
      EntriesAscend(argv[1..], opt);
    }
  }

  /** Every index from the first schema key on lies in exactly one scope, that of the last key not above
      it; indices before the first key lie in none; and no range is empty or reversed. */
  lemma ScopesPartition(argv: seq<Arg>, index: nat, k: int)
    requires Ascending(argv)
    ensures var selected := ValuesWithIndices(argv, SchemaKey); var scopes := Scopes(selected);
            && |scopes| == |selected|
            && (InScope(scopes, k, index) <==>
                0 <= k < |selected| && selected[k].0 <= index && forall j :: k < j < |selected| ==> index < selected[j].0)
            && (0 <= k < |scopes| && scopes[k].1.end.Some? ==> scopes[k].1.start < scopes[k].1.end.value)
  {
    hide Scopes, ValuesWithIndices, InScope;
    EntriesAscend(argv, SchemaKey);
    ScopesAre(ValuesWithIndices(argv, SchemaKey));
    AscendingPartition(ValuesWithIndices(argv, SchemaKey), Scopes(ValuesWithIndices(argv, SchemaKey)), index, k);
  }

  /** Each scope begins at its key and ends before the next one. */
  ghost predicate BetweenKeys(selected: Indexed, scopes: seq<(string, Boundary)>) {
    && |scopes| == |selected|
    && forall k :: 0 <= k < |scopes| ==>
         scopes[k].1 == Boundary(selected[k].0, if k + 1 < |selected| then Some(selected[k + 1].0) else None)
  }

  lemma ScopesAre(selected: Indexed)
    ensures BetweenKeys(selected, Scopes(selected))
  {
    var keys := Keys(selected);
    var ends := Ends(if keys == [] then [] else keys[1..]) + [None];
    var bounds := Zip(keys, ends);
    assert forall k :: 0 <= k < |keys| ==> ends[k] == if k + 1 < |keys| then Some(keys[k + 1]) else None;
    assert |Boundaries(bounds)| == |selected|;
    assert Scopes(selected) == Zip(MapValues(selected), Boundaries(bounds));
  }

  lemma AscendingPartition(selected: Indexed, scopes: seq<(string, Boundary)>, index: nat, k: int)
    requires BetweenKeys(selected, scopes) && forall i, j :: 0 <= i < j < |selected| ==> selected[i].0 < selected[j].0
    ensures InScope(scopes, k, index) <==>
              0 <= k < |selected| && selected[k].0 <= index && forall j :: k < j < |selected| ==> index < selected[j].0
    ensures 0 <= k < |scopes| && scopes[k].1.end.Some? ==> scopes[k].1.start < scopes[k].1.end.value
  {
    if 0 <= k < |selected| {
      assert scopes[k].1 == Boundary(selected[k].0, if k + 1 < |selected| then Some(selected[k + 1].0) else None);
      assert k + 1 < |selected| ==> selected[k].0 < selected[k + 1].0;
      assert k + 1 < |selected| && index < selected[k + 1].0 ==> forall j :: k + 1 < j < |selected| ==> index < selected[j].0;
    }
  }

  lemma {:induction false} SomeScope(argv: seq<Arg>, index: nat, k: nat) returns (scope: int)
    requires Ascending(argv)
    requires k < |ValuesWithIndices(argv, SchemaKey)| && ValuesWithIndices(argv, SchemaKey)[k].0 <= index
    ensures InScope(Scopes(ValuesWithIndices(argv, SchemaKey)), scope, index)
    ensures forall other :: InScope(Scopes(ValuesWithIndices(argv, SchemaKey)), other, index) ==> other == scope
    decreases |ValuesWithIndices(argv, SchemaKey)| - k
  {
    var selected := ValuesWithIndices(argv, SchemaKey);
    EntriesAscend(argv, SchemaKey);
    if k + 1 < |selected| && selected[k + 1].0 <= index {
      scope := SomeScope(argv, index, k + 1);
    } else {
      scope := k;
      ScopesPartition(argv, index, k);
      forall other | InScope(Scopes(selected), other, index)
        ensures other == scope
      {
        ScopesPartition(argv, index, other);
      }
    }
  }

  // ----- what stays as it was

  ghost predicate KeepsUnselected(configs: Configs, after: Result<Configs, Error>, key: string) {
    after.Ok? ==> after.value.Keys == configs.Keys && (key in configs ==> after.value[key] == configs[key])
  }

  /** No configuration appears or disappears, and the configuration of a key that is not selected is untouched. */
  lemma {:induction false} UnselectedUnchanged(apply: Apply, argv: seq<Arg>, current: Option<Segment>, configs: Configs, key: string)
    requires key !in Values(argv, SchemaKey) && (current.Some? ==> current.value.key != key)
    ensures KeepsUnselected(configs, Scan(apply, argv, current, configs), key)
  {
    if argv == [] {
    } else if argv[0].opt == SchemaKey {
      var closed := CloseSegment(apply, current, configs);
      if closed.Ok? {
        UnselectedUnchanged(apply, argv[1..], Some(Segment(argv[0].value, [])), closed.value, key);
      }
    } else {
      var grown := if current.None? then None else Some(current.value.(args := current.value.args + [argv[0]]));
      UnselectedUnchanged(apply, argv[1..], grown, configs, key);
    }
  }

  /** Selecting an unknown key is always reported. */
  lemma {:induction false} UnknownKeyReported(apply: Apply, argv: seq<Arg>, current: Option<Segment>, configs: Configs, key: string)
    requires key !in configs
    requires key in Values(argv, SchemaKey) || (current.Some? && current.value.key == key)
    ensures Scan(apply, argv, current, configs).Err?
  {
    if argv == [] {
    } else if argv[0].opt == SchemaKey {
      var closed := CloseSegment(apply, current, configs);
      if closed.Ok? {
        UnknownKeyReported(apply, argv[1..], Some(Segment(argv[0].value, [])), closed.value, key);
      }
    } else {
      var grown := if current.None? then None else Some(current.value.(args := current.value.args + [argv[0]]));
      UnknownKeyReported(apply, argv[1..], grown, configs, key);
    }
  }
}
