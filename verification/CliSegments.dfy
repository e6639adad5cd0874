/** What the segment of a schema key on the command line does to that key's configuration, argument by argument:
    the meaning of `Config::set_filter` and `Config::update_config` of diesel_cli/src/config.rs. */
module CliSegments {
  import opened Prelude
  import opened CliScopes

  // ----- arguments of a segment

  predicate Given(segment: seq<Arg>, opt: Opt) {
    exists k :: 0 <= k < |segment| && segment[k].opt == opt
  }

  /** The first argument of an option is `k`. */
  predicate FirstAt(segment: seq<Arg>, opt: Opt, k: int) {
    0 <= k < |segment| && segment[k].opt == opt && forall j :: 0 <= j < k ==> segment[j].opt != opt
  }

  /** The first argument of an option is `value`. */
  ghost predicate FirstIs(segment: seq<Arg>, opt: Opt, value: string) {
    exists k :: FirstAt(segment, opt, k) && segment[k].value == value
  }

  /** `at` are the positions of an option's arguments, and `values` what is there. */
  ghost predicate ListedAt(segment: seq<Arg>, opt: Opt, at: seq<nat>, values: seq<string>) {
    && |at| == |values|
    && (forall j :: 0 <= j < |at| ==> at[j] < |segment| && segment[at[j]].opt == opt && segment[at[j]].value == values[j])
    && (forall j, k :: 0 <= j < k < |at| ==> at[j] < at[k])
    && (forall k :: 0 <= k < |segment| && segment[k].opt == opt ==> k in at)
  }

  ghost predicate AllAre(segment: seq<Arg>, opt: Opt, values: seq<string>) {
    exists at :: ListedAt(segment, opt, at, values)
  }

  lemma {:induction false} ValuesListed(segment: seq<Arg>, opt: Opt) returns (at: seq<nat>)
    ensures ListedAt(segment, opt, at, Values(segment, opt))
  {
    if segment == [] {
      at := [];
    } else {
      var rest := ValuesListed(segment[1..], opt);
      at := ListedFront(segment, opt, rest, Values(segment[1..], opt));
    }
  }

  lemma ListedFront(segment: seq<Arg>, opt: Opt, rest: seq<nat>, values: seq<string>) returns (at: seq<nat>)
    requires segment != [] && ListedAt(segment[1..], opt, rest, values)
    ensures ListedAt(segment, opt, at, if segment[0].opt == opt then [segment[0].value] + values else values)
  {
    at := Later(rest);
    LaterListed(segment, opt, rest, values);
    if segment[0].opt == opt {
      ZeroFirst(segment, opt, at, values);
      at := [0] + at;
    }
  }

  /** `at` are the positions after the first one. */
  ghost predicate ListedLater(segment: seq<Arg>, opt: Opt, at: seq<nat>, values: seq<string>) {
    && |at| == |values|
    && (forall j :: 0 <= j < |at| ==> 0 < at[j] < |segment| && segment[at[j]].opt == opt && segment[at[j]].value == values[j])
    && (forall j, k :: 0 <= j < k < |at| ==> at[j] < at[k])
    && (forall k :: 1 <= k < |segment| && segment[k].opt == opt ==> k in at)
  }

  lemma ZeroFirst(segment: seq<Arg>, opt: Opt, later: seq<nat>, values: seq<string>)
    requires segment != [] && segment[0].opt == opt && ListedLater(segment, opt, later, values)
    ensures ListedAt(segment, opt, [0] + later, [segment[0].value] + values)
  {
    var at, all := [0] + later, [segment[0].value] + values;
    forall j | 0 <= j < |at|
      ensures at[j] < |segment| && segment[at[j]].opt == opt && segment[at[j]].value == all[j]
    {
      assert j > 0 ==> at[j] == later[j - 1] && all[j] == values[j - 1];
    }
    forall j, k | 0 <= j < k < |at|
      ensures at[j] < at[k]
    {
      assert at[k] == later[k - 1] && (j > 0 ==> at[j] == later[j - 1]);
    }
    assert forall k :: k in at <==> k == 0 || k in later;
  }

  lemma LaterListed(segment: seq<Arg>, opt: Opt, rest: seq<nat>, values: seq<string>)
    requires segment != [] && ListedAt(segment[1..], opt, rest, values)
    ensures ListedLater(segment, opt, Later(rest), values)
  {
    var later := Later(rest);
    forall k | 1 <= k < |segment| && segment[k].opt == opt
      ensures k in later
    {
      assert segment[1..][k - 1] == segment[k];
      var j :| 0 <= j < |rest| && rest[j] == k - 1;
      assert later[j] == k;
    }
    forall j | 0 <= j < |later|
      ensures 0 < later[j] < |segment| && segment[later[j]].opt == opt && segment[later[j]].value == values[j]
    {
      assert segment[1..][rest[j]] == segment[later[j]];
    }
  }

  function Later(at: seq<nat>): (r: seq<nat>)
    ensures |r| == |at| && forall j :: 0 <= j < |r| ==> r[j] == at[j] + 1
  {
    if at == [] then [] else [at[0] + 1] + Later(at[1..])
  }

  /** The values of an option are its arguments in order, and the first of them is its first argument. */
  lemma {:induction false} ValuesAre(segment: seq<Arg>, opt: Opt)
    ensures AllAre(segment, opt, Values(segment, opt))
    ensures Given(segment, opt) <==> Values(segment, opt) != []
    ensures Values(segment, opt) != [] ==> FirstIs(segment, opt, Values(segment, opt)[0])
    ensures forall value :: FirstIs(segment, opt, value) ==> Values(segment, opt) != [] && value == Values(segment, opt)[0]
    ensures forall value :: value in Values(segment, opt) <==> exists k :: 0 <= k < |segment| && segment[k] == Arg(segment[k].index, opt, value)
  {
    var values := Values(segment, opt);
    var at := ValuesListed(segment, opt);
    if values != [] {
      assert forall k :: 0 <= k < |at| ==> at[0] <= at[k];
      assert FirstAt(segment, opt, at[0]);
      forall value | FirstIs(segment, opt, value)
        ensures value == values[0]
      {
        var k :| FirstAt(segment, opt, k) && segment[k].value == value;
        assert k == at[0];
      }
    }
    forall value
      ensures value in values <==> exists k :: 0 <= k < |segment| && segment[k] == Arg(segment[k].index, opt, value)
    {
      if value in values {
        var j :| 0 <= j < |values| && values[j] == value;
        assert segment[at[j]] == Arg(segment[at[j]].index, opt, value);
      }
      if k :| 0 <= k < |segment| && segment[k] == Arg(segment[k].index, opt, value) {
        var j :| 0 <= j < |at| && at[j] == k;
        assert values[j] == value;
      }
    }
  }

  // ----- the last segment of a key

  /** The line is `before`, then `key` with its segment, then `after`, in which the key does not occur again. */
  ghost predicate LastSegment(line: seq<Arg>, before: seq<Arg>, key: Arg, segment: seq<Arg>, after: seq<Arg>) {
    && line == before + ([key] + segment + after)
    && key.opt == SchemaKey && (forall k :: 0 <= k < |segment| ==> segment[k].opt != SchemaKey)
    && (after != [] ==> after[0].opt == SchemaKey)
    && (forall k :: 0 <= k < |after| && after[k].opt == SchemaKey ==> after[k].value != key.value)
  }

  lemma {:induction false} ScanSplit(apply: Apply, before: seq<Arg>, rest: seq<Arg>, current: Option<Segment>, configs: Configs)
    requires rest != [] && rest[0].opt == SchemaKey
    ensures var first := Scan(apply, before, current, configs);
            Scan(apply, before + rest, current, configs) == if first.Err? then first else Scan(apply, rest, None, first.value)
  {
    if before == [] {
      assert before + rest == rest;
    } else {
      assert (before + rest)[1..] == before[1..] + rest;
      if before[0].opt == SchemaKey {
        var closed := CloseSegment(apply, current, configs);
        if closed.Ok? { ScanSplit(apply, before[1..], rest, Some(Segment(before[0].value, [])), closed.value); }
      } else {
        var grown := if current.None? then None else Some(current.value.(args := current.value.args + [before[0]]));
        ScanSplit(apply, before[1..], rest, grown, configs);
      }
    }
  }

  lemma {:induction false} KeyFreeIs(segment: seq<Arg>, after: seq<Arg>)
    requires forall k :: 0 <= k < |segment| ==> segment[k].opt != SchemaKey
    requires after != [] ==> after[0].opt == SchemaKey
    ensures KeyFree(segment + after) == |segment|
  {
    if segment == [] {
      assert segment + after == after;
    } else {
      assert (segment + after)[1..] == segment[1..] + after;
      KeyFreeIs(segment[1..], after);
    }
  }

  /** The last segment of a key decides: what the line before it left is changed by that segment, and by nothing
      after it. */
  lemma LastSegmentDecides(apply: Apply, line: seq<Arg>, before: seq<Arg>, key: Arg, segment: seq<Arg>, after: seq<Arg>,
                           configs: Configs, result: Configs) returns (middle: Configs)
    requires LastSegment(line, before, key, segment, after) && Scan(apply, line, None, configs) == Ok(result)
    ensures Scan(apply, before, None, configs) == Ok(middle)
    ensures key.value in middle && key.value in result && apply(middle[key.value], segment) == Ok(result[key.value])
  {
    var rest := [key] + segment + after;
    ScanSplit(apply, before, rest, None, configs);
    middle := Scan(apply, before, None, configs).value;
    assert rest[0] == key && rest[1..] == segment + after && rest[0..] == rest;
    KeyFreeIs(segment, after);
    ScanSegment(apply, rest, 0, middle);
    assert SegmentAt(rest, 0) == segment && rest[1 + |segment|..] == after;
    var closed := CloseSegment(apply, Some(Segment(key.value, segment)), middle);
    ValuesAre(after, SchemaKey);
    UnselectedUnchanged(apply, after, None, closed.value, key.value);
  }

  // ----- filters

  /** `Filtering::should_ignore_table`; `matches` says which names a pattern matches. */
  predicate ShouldIgnore(matches: (string, string) -> bool, filter: Filtering, table: string) {
    match filter
    case OnlyMatching(patterns) => !AnyMatches(matches, patterns, table)
    case ExceptMatching(patterns) => AnyMatches(matches, patterns, table)
    case NoFilter => false
  }

  predicate AnyMatches(matches: (string, string) -> bool, patterns: seq<string>, table: string) {
    exists k :: 0 <= k < |patterns| && matches(patterns[k], table)
  }

  /** A pattern given in the segment matches the table. */
  predicate Named(matches: (string, string) -> bool, segment: seq<Arg>, table: string) {
    exists k :: 0 <= k < |segment| && segment[k].opt == TableName && matches(segment[k].value, table)
  }

  lemma PatternsMatch(matches: (string, string) -> bool, segment: seq<Arg>, table: string)
    ensures AnyMatches(matches, Values(segment, TableName), table) <==> Named(matches, segment, table)
  {
    var patterns := Values(segment, TableName);
    var at := ValuesListed(segment, TableName);
    hide Values;
    if AnyMatches(matches, patterns, table) {
      var k :| 0 <= k < |patterns| && matches(patterns[k], table);
      assert segment[at[k]].opt == TableName && matches(segment[at[k]].value, table);
    }
    if Named(matches, segment, table) {
      var k :| 0 <= k < |segment| && segment[k].opt == TableName && matches(segment[k].value, table);
      assert k in at;
      var j :| 0 <= j < |at| && at[j] == k;
      assert patterns[j] == segment[k].value;
    }
  }

  lemma {:induction false} NoneInvalid(valid: string -> bool, patterns: seq<string>)
    ensures FirstInvalid(valid, patterns).None? <==> forall k :: 0 <= k < |patterns| ==> valid(patterns[k])
  {
    if patterns != [] {
      NoneInvalid(valid, patterns[1..]);
      assert forall k :: 1 <= k < |patterns| ==> patterns[k] == patterns[1..][k - 1];
    }
  }

  /** Which tables the last segment of a key lets through: with `--except-tables` those that none of its patterns
      matches, otherwise with `--only-tables` those that one of them matches, and without patterns or without
      either flag those that were let through before. Nothing else is changed, and all patterns compile. */
  lemma FilterDecided(valid: string -> bool, matches: (string, string) -> bool, line: seq<Arg>, before: seq<Arg>, key: Arg,
                      segment: seq<Arg>, after: seq<Arg>, configs: Configs, result: Configs, table: string) returns (middle: Configs)
    requires LastSegment(line, before, key, segment, after) && Scan(FilterWith(valid), line, None, configs) == Ok(result)
    ensures Scan(FilterWith(valid), before, None, configs) == Ok(middle) && key.value in middle && key.value in result
    ensures ShouldIgnore(matches, result[key.value].filter, table) <==>
              if Given(segment, TableName) && FirstIs(segment, ExceptTables, "true") then Named(matches, segment, table)
              else if Given(segment, TableName) && FirstIs(segment, OnlyTables, "true") then !Named(matches, segment, table)
              else ShouldIgnore(matches, middle[key.value].filter, table)
    ensures result[key.value] == middle[key.value].(filter := result[key.value].filter)
    ensures forall k :: 0 <= k < |segment| && segment[k].opt == TableName ==> valid(segment[k].value)
  {
    middle := LastSegmentDecides(FilterWith(valid), line, before, key, segment, after, configs, result);
    ValuesAre(segment, TableName);
    ValuesAre(segment, ExceptTables);
    ValuesAre(segment, OnlyTables);
    PatternsMatch(matches, segment, table);
    NoneInvalid(valid, Values(segment, TableName));
    hide Values, Scan, ShouldIgnore, Named, FirstIs, Given, AllAre;
    forall k | 0 <= k < |segment| && segment[k].opt == TableName
      ensures valid(segment[k].value)
    {
      assert segment[k] == Arg(segment[k].index, TableName, segment[k].value);
    }
    FilterMeans(valid, matches, middle[key.value], segment, table);
  }

  lemma FilterMeans(valid: string -> bool, matches: (string, string) -> bool, config: PrintSchema, segment: seq<Arg>, table: string)
    requires ApplyFilter(valid, config, segment).Ok?
    ensures var patterns, after := Values(segment, TableName), ApplyFilter(valid, config, segment).value;
            && after == config.(filter := after.filter)
            && (ShouldIgnore(matches, after.filter, table) <==>
                  if patterns != [] && IsOn(Values(segment, ExceptTables)) then AnyMatches(matches, patterns, table)
                  else if patterns != [] && IsOn(Values(segment, OnlyTables)) then !AnyMatches(matches, patterns, table)
                  else ShouldIgnore(matches, config.filter, table))
  {
  }

  /** `--schema-key a --table-name users --only-tables` leaves the users and ignores everything else. */
  lemma OnlyUsers(valid: string -> bool, matches: (string, string) -> bool, configs: Configs, result: Configs, table: string)
    requires Scan(FilterWith(valid), [Arg(1, SchemaKey, "a"), Arg(2, TableName, "users"), Arg(3, OnlyTables, "true")], None, configs) == Ok(result)
    ensures "a" in result && (ShouldIgnore(matches, result["a"].filter, table) <==> !matches("users", table))
  {
    var key, segment := Arg(1, SchemaKey, "a"), [Arg(2, TableName, "users"), Arg(3, OnlyTables, "true")];
    var line := [Arg(1, SchemaKey, "a"), Arg(2, TableName, "users"), Arg(3, OnlyTables, "true")];
    assert line == [] + ([key] + segment + []);
    var middle := FilterDecided(valid, matches, line, [], key, segment, [], configs, result, table);
    assert segment[0].opt == TableName && segment[0].value == "users" && segment[1].opt == OnlyTables;
    assert Given(segment, TableName) && FirstAt(segment, OnlyTables, 1) && !Given(segment, ExceptTables);
    assert Named(matches, segment, table) <==> matches("users", table);
  }

  // ----- the other options

  ghost predicate ListOption(segment: seq<Arg>, opt: Opt, before: Option<seq<string>>, after: Option<seq<string>>) {
    if Given(segment, opt) then after.Some? && AllAre(segment, opt, after.value) else after == before
  }

  ghost predicate ScalarOption(segment: seq<Arg>, opt: Opt, before: Option<string>, after: Option<string>) {
    if Given(segment, opt) then after.Some? && FirstIs(segment, opt, after.value) else after == before
  }

  ghost predicate PlainOptions(segment: seq<Arg>, was: PrintSchema, now: PrintSchema) {
    && now.filter == was.filter
    && ScalarOption(segment, Schema, was.schema, now.schema)
    && ScalarOption(segment, PatchFile, was.patchFile, now.patchFile)
    && ListOption(segment, ImportTypes, was.importTypes, now.importTypes)
    && ListOption(segment, TypeDerives, was.typeDerives, now.typeDerives)
    && now.generateTypes == (if FirstIs(segment, GenerateTypes, "true") then Some(false) else was.generateTypes)
    && now.bigintKey == (if Given(segment, BigintKey) then Some(FirstIs(segment, BigintKey, "true")) else was.bigintKey)
  }

  ghost predicate DocsOption(segment: seq<Arg>, was: Docs, now: Docs) {
    if FirstIs(segment, WithDocsConfig, "database-comments-fallback-to-auto-generated-doc-comment") then now.DatabaseCommentsOrGenerated?
    else if FirstIs(segment, WithDocsConfig, "only-database-comments") then now.OnlyDatabaseComments?
    else if FirstIs(segment, WithDocsConfig, "no-doc-comments") then now.NoDocComments?
    else !Given(segment, WithDocsConfig)
         && if FirstIs(segment, WithDocs, "true") then now.DatabaseCommentsOrGenerated? else now == was
  }

  ghost predicate AllowOption(segment: seq<Arg>, was: SameQuery, now: SameQuery) {
    if FirstIs(segment, AllowTables, "fk_related_tables") then now.FkRelatedTables?
    else if FirstIs(segment, AllowTables, "all_tables") then now.AllTables?
    else if FirstIs(segment, AllowTables, "none") then now.NoTables?
    else !Given(segment, AllowTables) && now == was
  }

  ghost predicate SortingOption(segment: seq<Arg>, was: Sorting, now: Sorting) {
    if FirstIs(segment, ColumnSorting, "ordinal_position") then now.OrdinalPosition?
    else if FirstIs(segment, ColumnSorting, "name") then now.ByName?
    else !Given(segment, ColumnSorting) && now == was
  }

  /** What each argument of a key's last segment does, with the words of the command line; no other word is accepted. */
  lemma OptionsDecided(line: seq<Arg>, before: seq<Arg>, key: Arg, segment: seq<Arg>, after: seq<Arg>, configs: Configs, result: Configs)
    returns (middle: Configs)
    requires LastSegment(line, before, key, segment, after) && Scan(ApplyOptions, line, None, configs) == Ok(result)
    ensures Scan(ApplyOptions, before, None, configs) == Ok(middle) && key.value in middle && key.value in result
    ensures PlainOptions(segment, middle[key.value], result[key.value])
    ensures DocsOption(segment, middle[key.value].withDocs, result[key.value].withDocs)
    ensures AllowOption(segment, middle[key.value].allowTables, result[key.value].allowTables)
    ensures SortingOption(segment, middle[key.value].columnSorting, result[key.value].columnSorting)
  {
    middle := LastSegmentDecides(ApplyOptions, line, before, key, segment, after, configs, result);
    hide *;
    var was := middle[key.value];
    Applied(was, segment, result[key.value]);
    PlainMeans(was, segment, result[key.value]);
    DocsMean(was, segment);
    AllowMeans(was, segment);
    SortingMeans(was, segment);
  }

  lemma Applied(was: PrintSchema, segment: seq<Arg>, now: PrintSchema)
    requires ApplyOptions(was, segment) == Ok(now)
    ensures DocsFor(was, segment) == Ok(now.withDocs)
    ensures AllowFor(was, segment) == Ok(now.allowTables)
    ensures SortingFor(was, segment) == Ok(now.columnSorting)
  {
  }

  lemma PlainMeans(was: PrintSchema, segment: seq<Arg>, now: PrintSchema)
    requires ApplyOptions(was, segment) == Ok(now)
    ensures PlainOptions(segment, was, now)
  {
    ScalarMeans(segment, Schema);
    ScalarMeans(segment, PatchFile);
    ScalarMeans(segment, ImportTypes);
    ScalarMeans(segment, TypeDerives);
    ScalarMeans(segment, BigintKey);
    FlagMeans(segment, GenerateTypes, "true");
    FlagMeans(segment, BigintKey, "true");
    hide Values, FirstIs, Given, AllAre, DocsFor, AllowFor, SortingFor;
  }

  lemma DocsMean(was: PrintSchema, segment: seq<Arg>)
    requires DocsFor(was, segment).Ok?
    ensures DocsOption(segment, was.withDocs, DocsFor(was, segment).value)
  {
    ScalarMeans(segment, WithDocsConfig);
    FlagMeans(segment, WithDocsConfig, "database-comments-fallback-to-auto-generated-doc-comment");
    FlagMeans(segment, WithDocsConfig, "only-database-comments");
    FlagMeans(segment, WithDocsConfig, "no-doc-comments");
    FlagMeans(segment, WithDocs, "true");
    hide Values, FirstIs, Given, AllAre;
  }

  lemma AllowMeans(was: PrintSchema, segment: seq<Arg>)
    requires AllowFor(was, segment).Ok?
    ensures AllowOption(segment, was.allowTables, AllowFor(was, segment).value)
  {
    ScalarMeans(segment, AllowTables);
    FlagMeans(segment, AllowTables, "fk_related_tables");
    FlagMeans(segment, AllowTables, "all_tables");
    FlagMeans(segment, AllowTables, "none");
    hide Values, FirstIs, Given, AllAre;
  }

  lemma SortingMeans(was: PrintSchema, segment: seq<Arg>)
    requires SortingFor(was, segment).Ok?
    ensures SortingOption(segment, was.columnSorting, SortingFor(was, segment).value)
  {
    ScalarMeans(segment, ColumnSorting);
    FlagMeans(segment, ColumnSorting, "ordinal_position");
    FlagMeans(segment, ColumnSorting, "name");
    hide Values, FirstIs, Given, AllAre;
  }

  lemma ScalarMeans(segment: seq<Arg>, opt: Opt)
    ensures AllAre(segment, opt, Values(segment, opt))
    ensures Given(segment, opt) <==> Values(segment, opt) != []
    ensures Values(segment, opt) != [] ==> FirstIs(segment, opt, Values(segment, opt)[0])
  {
    ValuesAre(segment, opt);
  }

  lemma FlagMeans(segment: seq<Arg>, opt: Opt, word: string)
    ensures FirstIs(segment, opt, word) <==> Values(segment, opt) != [] && Values(segment, opt)[0] == word
  {
    ValuesAre(segment, opt);
  }
}
