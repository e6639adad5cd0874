# Diesel: a verified model of its algorithms

Diesel is an object-relational mapper and query builder for Rust. Most of it is type-level code; this
project models the parts of it that compute something, and proves what they are for.

| files | what they model |
|---|---|
| `ForeignKeyGroups.dfy`, `GroupPrinting.dfy`, `PadAdapter.dfy` | the schema printer: grouping tables by foreign keys, printing the groups, the streaming indenter |
| `CustomTypes.dfy` | the schema printer for PostgreSQL: custom types overridden, defined once, imported where used |
| `RelativePath.dfy` | the relative path that the command line tool stores |
| `CliScopes.dfy`, `CliSegments.dfy` | command line options whose meaning depends on the preceding `--schema-key` |
| `QueryPass.dfy`, `MultiConnection.dfy`, `MultiBinds.dfy`, `MultiTrace.dfy`, `QueryText.dfy`, `MultiForwarding.dfy`, `AstPass.dfy`, `SerializedQuery.dfy`, `StatementText.dfy` | `#[derive(MultiConnection)]`: one query forwarded to one of several backends |
| `PartialRow.dfy` | windows on database rows |
| `DerivedRecords.dfy`, `RecordMeaning.dfy` | `#[derive(Insertable)]` and `#[derive(AsChangeset)]`, down to the row that ends up in the table |
| `Naming.dfy` | table and foreign key names inferred from type names |
| `Prelude.dfy`, `Ordering.dfy` | results and options; lexicographic orders and sorting |

Code that changes state in place is modelled by methods and classes (the worklist, the indenter, the path
loop, the printers, the two configuration passes, the query builder and the bind collector, the derive
loops, the name conversion). Each is proved against a specification, and the specification is what the
lemmas are about. For queries the specification is `Walk` in `MultiConnection.dfy`, and `WalkAst` in
`AstPass.dfy` is the walk that pushes into builders and collectors. The clause order of a select statement is
transcribed twice there, from the impl for `MultiBackend` and from the ANSI impl; the two lists are the same.
What a walk pushes can be read off the query (`Trace` in `MultiTrace.dfy`); text, binds, cache verdict and
emptiness follow from it, and `StatementText.dfy` says what they are, clause by clause and on whole statements.

## Where the code falls short of a plain reading

Each of these is proved as an exact condition, and shown on a concrete input.

- `BoxedLimitOffsetClause` for `MultiBackend` does not dispatch to the chosen backend, so an offset without a
  limit reaches MySQL and SQLite without the `LIMIT` that their own implementations write. The forwarded text
  is the backend's own text exactly when that does not occur (`SqlForwardedIff`, on the input of `LimitLost`).
- The bind collector pushes a value under the type its innermost `ToSql` ends in, not the declared one. The
  binds are the backend's own exactly when it knows both types by the same metadata (`BindsForwardedIff`;
  `BindTypeLost` is an input on PostgreSQL, and `SqliteTimestampForwarded` the same input on SQLite, where it
  does no harm). A `ToSql` impl that claims to have written a value and has not makes the collector panic,
  and nothing else does (`WrapperPanicsIff`, on the input of `UnsetValuePanics`).
- `PartialRow` looks a name up in the whole inner row, so a field to the left of the window hides a field of
  the same name inside it (`NameLookupIff`). Its additions are unchecked; `SubIsSlice` and `ReadsSlice` say when
  an overflow check stops, `WrappingIsSliceIff` and `WrappingChainIff` when windows that wrapped around are still
  the right ones. The inputs are `HiddenName` and `WrappedWindowEscapes`.
- A relative path leads to its target exactly when both paths start at the same place, or the target names a
  drive, or the target is rooted and the current path has no drive (`RelativeResolvesIff`). A current path that
  keeps its leading `.` is treated as if the `.` were a name (`DottedCurrentIff`). The inputs are `DriveKept` and
  `DottedCurrentMisses`.
- Custom types are deduplicated by Rust name alone, so two types of one name share a definition
  (`DefinitionsFaithfulIff`, on the input of `SecondSchemaLost`).
- `camel_to_snake` can be undone exactly on names that start with no lower-case letter and have no underscore in
  front of a lower-case letter (`SnakeRoundTripIff`). Every other name collides with a readable one
  (`ReadableBehind`, on the inputs of `NamesCollide`).
- `--except-custom-type-definitions` is declared as a list of strings and read back as a list of regular
  expressions, so giving it together with a schema key always ends in the argument parser's type error
  (`UpdateConfig`, on the input of `ExceptTypesRefused`).

## Model

| member | source | states |
|---|---|---|
| ForeignKeyGroups.ForeignKeyTableGroups | diesel_cli/src/print_schema.rs:636-695 | returns a grouping: strictly sorted list of strictly sorted groups, each of them the connected component of some table, every table in one of them |
| ForeignKeyGroups.Search | diesel_cli/src/print_schema.rs:655-679 | one depth-first search, with the shared `visited` set closed under foreign keys, collects exactly the component of its root without repetition, adds exactly that to `visited`, leaves it closed, and terminates |
| ForeignKeyGroups.VisitAll | diesel_cli/src/print_schema.rs:664-678 | visiting related tables keeps the search state; names visited minus names pending does not change, which is why every pop makes progress |
| ForeignKeyGroups.SearchDone | diesel_cli/src/print_schema.rs:648-686 | when nothing is pending, what was collected is the component of the root, disjoint from earlier searches, and `visited` is closed again |
| ForeignKeyGroups.ConnectedEquivalence | diesel_cli/src/print_schema.rs:632-635 | being joined by an undirected path of foreign keys is reflexive, symmetric and transitive |
| ForeignKeyGroups.TableOrder | diesel_cli/src/infer_schema_internals/table_data.rs:9-14 | the derived order of table names is total, antisymmetric and transitive |
| ForeignKeyGroups.GroupOrder | diesel_cli/src/print_schema.rs:689-692 | so is the lexicographic order of groups, so that sorting has one answer |
| Ordering.StringLeIff | diesel_cli/src/infer_schema_internals/table_data.rs:9-14 | strings are in order when equal, when the first is a proper prefix, or when it has the smaller character where they first differ |
| ForeignKeyGroups.TableLeIff | diesel_cli/src/infer_schema_internals/table_data.rs:9-14 | tables are in order by SQL name, then by Rust name, then by schema, of which an absent one comes first |
| ForeignKeyGroups.GroupsInOrder | diesel_cli/src/print_schema.rs:681-692 | tables of a group stand in that order, and groups in the order of their first tables |
| ForeignKeyGroups.BlogGroups | diesel_cli/src/print_schema.rs:636-695 | an input: posts that refer to users, and tags, in any order of tables, are two groups, posts before users |
| ForeignKeyGroups.SameGroupIffConnected | diesel_cli/src/print_schema.rs:636-695 | two names share a group if and only if an undirected path of foreign keys joins them |
| ForeignKeyGroups.GroupsDisjoint | diesel_cli/src/print_schema.rs:648-692 | two groups that share a name are the same group |
| ForeignKeyGroups.GroupsCoverReached | diesel_cli/src/print_schema.rs:648-686 | the groups hold exactly the names that some given table is connected to |
| ForeignKeyGroups.GroupsCoverTables | diesel_cli/src/print_schema.rs:648-686 | when every foreign key joins given tables, the groups hold exactly the given tables |
| ForeignKeyGroups.GroupingUnique | diesel_cli/src/print_schema.rs:671-694 | the answer is determined by the set of tables and the undirected graph: any two answers are the same list of lists |
| ForeignKeyGroups.GroupingPermuted | diesel_cli/src/print_schema.rs:671-694 | permuting the tables or the constraints does not change the answer |
| GroupPrinting.PrintTableGroups | diesel_cli/src/print_schema.rs:593-626 | the groups chosen by each configuration, and the text appended for those with at least two tables: nothing, or a blank line and one macro call each |
| GroupPrinting.PrintGroup | diesel_cli/src/print_schema.rs:617-625 | the text of one macro call, whose names go through a fresh indenter in separate writes |
| GroupPrinting.InvocationLayout | diesel_cli/src/print_schema.rs:617-625 | for names without newlines that text is the opening line and one line with all names, indented by four |
| GroupPrinting.PrintedTogetherIffConnected | diesel_cli/src/print_schema.rs:593-626 | two different listed tables are printed in one group if and only if foreign keys connect them |
| GroupPrinting.PrintedOnce | diesel_cli/src/print_schema.rs:609-613 | no table is printed in two groups |
| GroupPrinting.ForeignKeyPrintedOnce | diesel_cli/src/print_schema.rs:593-626 | a foreign key between two different listed tables has both of them in exactly one printed group, and neither in any other |
| GroupPrinting.BlogInFull | diesel_cli/src/print_schema.rs:609-626 | the text printed for that input |
| Indentation.PadAdapter.WriteStr | diesel_cli/src/print_schema.rs:913-940 | appends the character-wise indentation of the text and ends in the state of its last character |
| Indentation.PadAdapter.constructor | diesel_cli/src/print_schema.rs:904-911 | a new indenter is not at a line start |
| Indentation.ChunkingInvisible | diesel_cli/src/print_schema.rs:913-940 | any way of cutting a text into writes gives the output and the state of one write |
| Indentation.IndentsEachLine | diesel_cli/src/print_schema.rs:915-936 | line by line: every line after the first is padded unless it is empty, the first one only at a line start |
| Indentation.UnindentRecovers | diesel_cli/src/print_schema.rs:913-940 | removing four spaces after each newline that they follow gives back every text |
| Indentation.NestedAdapters | diesel_cli/src/print_schema.rs:913-940 | an indenter writing through an indenter in the same state pads once by both pads, blank lines stay blank |
| Indentation.NestedFreshAdapter | diesel_cli/src/print_schema.rs:904-940 | a fresh indenter inside one that is at a line start differs from that only in the outer pad of the first line |
| Indentation.IndentedInFull | diesel_cli/src/print_schema.rs:913-940 | an input: four lines of which one is blank |
| RelativePath.ConvertAbsolutePathToRelative | diesel_cli/src/main.rs:236-273 | the result of the loop and of collecting it into a path buffer, for any two component lists; for canonical paths with a common start a shortest way to the target |
| RelativePath.CollectComponents | diesel_cli/src/main.rs:242-271 | the lock-step loop over two iterators pushes the components that a recursion over the parts past the common prefix gives, in all five arms |
| RelativePath.RelativeShape | diesel_cli/src/main.rs:236-273 | for canonical paths with a common start: one `..` for each component of the current path past the longest common prefix, then the rest of the target |
| RelativePath.RelativeResolvesIff | diesel_cli/src/main.rs:236-273 | for any two canonical paths, following the result from the current path leads to the target if and only if they start at the same place, or the target has a drive, or it is rooted and the current path has no drive |
| RelativePath.DriveKept | diesel_cli/src/main.rs:236-273 | an input: from `C:\b` the answer for `\a` leads to `C:\a` |
| RelativePath.RelativeIsShortest | diesel_cli/src/main.rs:236-273 | for canonical paths with a common start the result leads to the target, and no other sequence of `..`, `.` and named steps from the current path to the target is shorter |
| RelativePath.DottedCurrentIff | diesel_cli/src/main.rs:258-261 | with a current path that begins with `.` the result leads to the target if and only if the target is not empty and the current path has no further name or begins with the target's |
| RelativePath.DottedCurrentMisses | diesel_cli/src/main.rs:258-261 | an input: from `./b` the answer for `a` is `a/..`, which leads back to `./b` |
| MultiConnection.ComputeLookupSqlType | diesel_derives/src/multiconnection.rs:1568-1602 | the loop over the variants fills the metadata record that the specification describes |
| MultiConnection.LookupSqlType | diesel_derives/src/multiconnection.rs:1595-1601 | an entry is filled exactly for the variants the lookup can be downcast to, with what that backend knows the SQL type by |
| QueryPass.ProvidedTypesToldApart | diesel/src/sql_types/mod.rs:41-379 | of the types every backend provides, PostgreSQL and MySQL tell all apart; SQLite stores text, dates, times and timestamps as one type, integers and booleans as one, doubles and numerics as one |
| QueryPass.StorageTypes | diesel/src/sql_types/mod.rs:41-379 | the oids, for a type and its arrays, and the storage types of the provided types |
| MultiTrace.WalkKeepsMatch | diesel_derives/src/multiconnection.rs:1538-1616 | every walk of every query keeps backend, builder, collector and lookup on one variant; only collecting binds can fail, and only collecting them through the enums can panic |
| MultiForwarding.WalkSimulates | diesel_derives/src/multiconnection.rs:1093-1098 | except when binds are collected, walking any query without a bare offset through the enums is walking the backend's own state |
| MultiForwarding.ComparesTraces | diesel_derives/src/multiconnection.rs:1368-1386 | through the enums a query is made of the backend's own pieces if no offset is bare; with one, binds are the same, text is missing, and what is empty for the backend is empty through the enums |
| MultiForwarding.EmptyBehind | diesel_derives/src/multiconnection.rs:1368-1386 | a fragment that is empty for the backend is empty through the enums and has no bare offset; without a bare offset the converse holds |
| MultiTrace.WalkPushesTrace | diesel/src/query_builder/ast_pass.rs:208-290 | any pass over any query, for a backend or through the enums, pushes exactly the pieces that can be read off the query, in order |
| MultiTrace.ElementPushesTrace | diesel/src/type_impls/tuples.rs:104-119 | a tuple skips an element if and only if it consists of nothing but unsafe marks, and otherwise pushes a due comma and the element |
| MultiTrace.ValuesPushTrace | diesel/src/query_builder/insert_statement/mod.rs:458-477 | the VALUES clause pushes a row of defaults when all its values are skipped, and columns and values otherwise |
| QueryText.SqlAfter | diesel/src/query_builder/ast_pass.rs:238-264 | the text pass appends the text of the pieces, with markers numbered on from those before |
| QueryText.CacheAfter | diesel/src/query_builder/ast_pass.rs:208-212 | the cache pass ends safe if and only if it started safe and no piece is an unsafe mark; binds, names and text leave it alone |
| QueryText.CollectAfter | diesel/src/query_builder/ast_pass.rs:264-280 | the bind pass pushes the binds among the pieces, in order |
| QueryText.DebugAfter | diesel/src/query_builder/ast_pass.rs:264-280 | the debug pass lists their values, in order |
| QueryText.TraceReads | diesel/src/query_builder/ast_pass.rs:97-107 | that a fragment emits nothing, and that it must not be cached, can be read off its tree: an unsafe mark is reached, through the variant's own impl, and not in an element that a tuple skips |
| MultiBinds.CollectsEach | diesel_derives/src/multiconnection.rs:987-1036 | collecting binds is a panic at a value that was never set or an error at one the backend refuses, whichever comes first, and otherwise every bind in order behind those already there |
| MultiBinds.SameBindsIff | diesel_derives/src/multiconnection.rs:987-1027 | collecting a list of binds through the enums is collecting it directly if and only if no value that was never set is reached and, unless one is refused, the backend knows the type each value is written in by what it knows the declared one by |
| AstPasses.WalkAst | diesel/src/query_builder/ast_pass.rs:208-290 | walking a query by pushing into the borrowed builder, collector, list or flag leaves there exactly what the specification of the walk computes, fails only when that does, and changes nothing else |
| AstPasses.WalkTuple | diesel/src/type_impls/tuples.rs:104-119 | the loop over a tuple asks each element with a fresh flag whether it emits anything, and pushes commas and elements as specified |
| AstPasses.WalkInsert | diesel/src/query_builder/insert_statement/mod.rs:458-477 | the VALUES clause pushes a row of defaults, or columns and values, as specified |
| AstPasses.PushColumns | diesel/src/type_impls/tuples.rs:206-219 | the loop pushes the names of the columns whose values emit something |
| AstPasses.WalkVariant | diesel_derives/src/multiconnection.rs:1538-1616 | the backend's own impl runs on the builder or collector inside the enums, and what it pushes is seen through them |
| AstPasses.WalkStatement | diesel/src/query_builder/update_statement/mod.rs:198-211 | a statement is walked as specified; an update whose assignments emit nothing is an error before anything is pushed |
| AstPasses.AstPass.Cast | diesel_derives/src/multiconnection.rs:1538-1558 | casting hands out the very object behind the enum of the right variant; with matching variants no unreachable accessor is reached |
| AstPasses.MultiQueryBuilder.Duplicate | diesel_derives/src/multiconnection.rs:1257-1263 | a duplicate is a fresh empty builder of the same variant around a fresh builder of the same backend |
| AstPasses.MultiBindCollector.PushBoundValue | diesel_derives/src/multiconnection.rs:987-1036 | pushes into the inner collector what the specification says, leaves it alone when serialization fails, and never reaches an unreachable arm |
| AstPasses.RunPusherOn | diesel_derives/src/multiconnection.rs:847-917 | each pusher, given the kind it is paired with, pushes into the collector as specified |
| SerializedQuery.SerializedWalkAst | diesel_derives/src/multiconnection.rs:298-326 | the wrapper, pushing step by step into a duplicated builder and the pass it was lent, leaves there what its specification computes, fails only when that fails, and changes nothing else |
| SerializedQuery.FinishedSql | diesel_derives/src/multiconnection.rs:311-313 | the text finished from the duplicate is that of the walk of the query from an empty builder; the builder it duplicates stays as it is |
| SerializedQuery.SafeToCachePrepared | diesel_derives/src/multiconnection.rs:314-316 | the verdict is safe if and only if the query reaches no unsafe mark |
| SerializedQuery.RunInnerPass | diesel_derives/src/multiconnection.rs:192-212 | the binds collected into a fresh collector replace those of the outer one, which stays as it is when a bind cannot be serialized |
| SerializedQuery.QueryPushesTrace | diesel/src/query_builder/update_statement/mod.rs:198-211 | an update fails in every pass exactly when its assignments emit nothing; a backend finds them empty only where the enums do, and the enums alone only with a bare offset |
| SerializedQuery.WrapperKeepsMatch | diesel_derives/src/multiconnection.rs:79-110 | whatever a connection asks of a wrapped query (text, cacheability, binds, debug binds, emptiness), the lent pass stays the backend's; an error means a bind that cannot be serialized or an update of nothing |
| SerializedQuery.WrapperPanicsIff | diesel_derives/src/multiconnection.rs:770-1036 | an `unreachable!()` or failing `expect` is reached if and only if binds are collected and one of them was never set, before any that the backend refuses |
| SerializedQuery.SqlForwardedIff | diesel_derives/src/multiconnection.rs:298-326 | for any select, insert, update or other statement the chosen backend gets exactly its own SQL text if and only if no offset stands without a limit on a backend that needs one, or both refuse to update nothing |
| SerializedQuery.BindsForwardedIff | diesel_derives/src/multiconnection.rs:192-212 | the chosen backend gets exactly its own ordered binds, nulls and errors included, if and only if a condition on the query's own list of binds holds: none reached that was never set and, unless one is refused, metadata of written and declared types equal |
| SerializedQuery.DirectBindsListed | diesel/src/query_builder/bind_collector.rs:119-141 | a backend given the query directly collects the query's binds in order, each with the metadata of its declared type, or fails if it refuses one |
| SerializedQuery.ForwardedBindsListed | diesel_derives/src/multiconnection.rs:192-212 | given the wrapped query it collects the same binds in order, each with the metadata of the type it is written in |
| StatementText.UpdateStatement | diesel/src/query_builder/update_statement/mod.rs:198-211 | an update that changes something is `UPDATE `, the table, ` SET `, the assignments, the filter and the RETURNING clause, with their binds in this order, and is never cached |
| StatementText.UpdateInFull | diesel/src/query_builder/update_statement/mod.rs:198-211 | an input: an update of one row with its SQL text and its two binds on PostgreSQL |
| StatementText.EmptyUpdateRefused | diesel/src/query_builder/update_statement/mod.rs:198-211 | an update without assignments is an error for text, verdict and binds, directly and through the enums |
| StatementText.SelectText | diesel/src/query_builder/select_statement/mod.rs:284-299 | a select statement is `SELECT ` and its nine clauses in this order, with binds numbered through |
| StatementText.ValuesText | diesel/src/query_builder/insert_statement/mod.rs:458-477 | the columns and the values that are not empty, in parentheses, or the dialect's own row of defaults |
| StatementText.TupleText | diesel/src/type_impls/tuples.rs:104-119 | the elements that are not empty, with commas between them |
| StatementText.BoxedText | diesel/src/mysql/query_builder/limit_offset.rs:36-64 | limit and offset in this order, with the limit that MySQL and SQLite need where the query has none |
| StatementText.DispatchText | diesel_derives/src/multiconnection.rs:1538-1558 | a dispatched fragment is written as the variant's own impl writes it |
| StatementText.GroupText | diesel/src/query_builder/ast_pass.rs:163-200 | fragments in a row are written in a row, and their binds numbered on |
| StatementText.QuotedReadsBack | diesel/src/pg/query_builder/mod.rs:37-42 | a quoted name is enclosed in the dialect's quotes and reads back as the name, whatever quotes it contains |
| StatementText.MarkerReadsBack | diesel/src/pg/query_builder/mod.rs:44-53 | the marker of the n-th bind is a dollar sign and the decimal digits of n on PostgreSQL, and a question mark elsewhere |
| StatementText.CachedInFull | diesel/src/query_builder/ast_pass.rs:264-280 | an input: a query with a bind, its text on each backend, and that it may be cached |
| StatementText.UncachedInFull | diesel/src/query_builder/ast_pass.rs:208-212 | inputs: the same bind behind an unsafe mark must not be cached; behind one that a tuple skips it may |
| StatementText.InsertInFull | diesel/src/insertable.rs:146-240 | an input: a missing value is DEFAULT on PostgreSQL and uncached, and left out on SQLite and cached |
| StatementText.NullInFull | diesel_derives/src/multiconnection.rs:1004-1017 | a NULL of any type has the declared type's metadata and no bytes, directly and through the enums |
| StatementText.ValueInFull | diesel_derives/src/multiconnection.rs:943-985 | through the enums strings are texts, bytes are binaries, and any other value has the type it was written in |
| SerializedQuery.LimitLost | diesel_derives/src/multiconnection.rs:1368-1386 | an input: SQLite gets ` OFFSET 1` where it would itself write ` LIMIT -1  OFFSET 1` |
| SerializedQuery.BindTypeLost | diesel_derives/src/multiconnection.rs:943-1025 | an input: a timestamp written as text reaches PostgreSQL with the oid of text |
| SerializedQuery.SqliteTimestampForwarded | diesel_derives/src/multiconnection.rs:943-1025 | the same input reaches SQLite unchanged, which stores timestamps as text |
| SerializedQuery.UnsetValuePanics | diesel_derives/src/multiconnection.rs:788-805 | an input: a value that is said to be written and is not is an empty bind for the backend and a panic through the enums |
| SerializedQuery.StatementForwardedIff | diesel_derives/src/multiconnection.rs:192-326 | SQL text, cache verdict and ordered binds all equal the backend's own if and only if both refuse to update nothing, or no offset stands without a limit on a backend that needs one and the condition on the binds holds |
| SerializedQuery.DebugBindsForwardedIff | diesel_derives/src/multiconnection.rs:320-323 | the debug listing of binds is the backend's own if and only if both or neither find something to update; it then holds every value in order |
| CliScopes.SetFilter | diesel_cli/src/config.rs:76-143 | range queries over the zipped scopes give, for every command line, what one scan from left to right gives: current key, patterns of its segment, exclusion before selection, first invalid pattern or unknown key as error |
| CliScopes.UpdateConfig | diesel_cli/src/config.rs:146-317 | the same for the other options: the first scalar of a segment wins, lists accumulate, an explicit documentation mode beats the flag, repeated keys are applied in turn, errors in order |
| CliScopes.ExceptTypesRefused | diesel_cli/src/config.rs:174-178 | an input: a schema key and one excepted custom type end in the type error, and the key alone does not |
| CliScopes.UpdateScope | diesel_cli/src/config.rs:198-316 | one scope's range queries overwrite its configuration as its segment alone says |
| CliScopes.RangeIsStretch | diesel_cli/src/config.rs:82-134 | a range query between the indices of two arguments gives the values written between them |
| CliScopes.ScopeOfKey | diesel_cli/src/config.rs:82-95 | the i-th zipped scope belongs to the i-th schema key of the line, and every range query in it gives its segment's values |
| CliScopes.ScanSegment | diesel_cli/src/config.rs:96-134 | the scan at a key closes that key's segment and goes on at the next key |
| CliScopes.ScopesPartition | diesel_cli/src/config.rs:82-95 | an index lies in a scope if and only if its key is the last one not above it; no range is empty or reversed, so no range query can panic |
| CliScopes.SomeScope | diesel_cli/src/config.rs:180-197 | every index from the first key on lies in exactly one scope |
| CliScopes.UnselectedUnchanged | diesel_cli/src/config.rs:180-197 | configurations of keys that are not selected stay as they are, and none appears or disappears |
| CliScopes.UnknownKeyReported | diesel_cli/src/config.rs:96-104 | selecting a key without configuration is always an error, wherever it stands |
| CliSegments.LastSegmentDecides | diesel_cli/src/config.rs:82-104 | the last segment of a key changes what the line before it left, and nothing after it does |
| CliSegments.FilterDecided | diesel_cli/src/config.rs:96-134 | which tables a key's last segment lets through: with `--except-tables` those that none of its patterns matches, otherwise with `--only-tables` those that one matches, and those let through before without patterns or without either flag; nothing else changes and all patterns compile |
| CliSegments.OnlyUsers | diesel_cli/src/config.rs:586-596 | an input: `--schema-key a --table-name users --only-tables` ignores every table that the pattern does not match |
| CliSegments.OptionsDecided | diesel_cli/src/config.rs:198-316 | what each other argument of a key's last segment does, with the words of the command line: first scalars, whole lists in order, flags, and no other word accepted |
| CliSegments.ValuesAre | diesel_cli/src/config.rs:23-38 | the values of an option in a segment are its arguments in order, the first of them its first argument |
| PartialRows.NewIsSlice | diesel/src/row.rs:205-216 | creating a window gives the clamped slice of the row, and its end lies within the row |
| PartialRows.ReadsSlice | diesel/src/row.rs:234-283 | the field count is the slice's length, and position i gives element i of the slice exactly when there is one |
| PartialRows.SubIsSlice | diesel/src/row.rs:247-254 | narrowing a window gives the clamped slice of its slice, and goes through exactly when both sums are indices |
| PartialRows.WrappingIsSliceIff | diesel/src/row.rs:247-254 | without overflow checks, the exact condition under which a window that wraps around still shows that slice |
| PartialRows.WrappedWindowEscapes | diesel/src/row.rs:247-254 | an input: a start that wraps around shows the field left of the window |
| PartialRows.WrappingReadsSlice | diesel/src/row.rs:240-283 | reading by position is right for every index even where the addition wraps around |
| PartialRows.WrappingChainIff | diesel/src/row.rs:247-254 | without overflow checks a chain shows the right slice at every step if and only if every step meets that condition, and then reads it; in any case no window ends past the row |
| PartialRows.ChainIsSlices | diesel/src/row.rs:247-254 | any chain of windows, with ranges out of bounds or reversed, is the chain of clamped slices; exact condition for no overflow |
| PartialRows.WindowsAreSlices | diesel/src/row.rs:205-283 | the same from the creation of the first window to field count and reads; the range end never passes the row's field count |
| PartialRows.RowIdxByName | diesel/src/pg/connection/row.rs:63-67 | a name is found at its first occurrence, or nowhere |
| PartialRows.NameLookupIff | diesel/src/row.rs:257-269 | looking a name up in a window gives what the slice itself would if and only if the slice does not have it or no earlier field of the whole row does |
| PartialRows.HiddenName | diesel/src/row.rs:257-269 | an input: of two columns named `id` the second is in the window and is not found |
| DerivedRecords.DeriveIntoSingleTable | diesel_derives/src/insertable.rs:26-204 | one expression per used field in order, for its column, meaning what is intended whatever the struct's value; a tuple for borrowed structs exactly when no used field is serialized as another type; success or the first bad field's error |
| DerivedRecords.InsertSays | diesel_derives/src/insertable.rs:244-326 | each field expression evaluates, for every well-typed value, to the intended insertion |
| DerivedRecords.DeriveAsChangeset | diesel_derives/src/as_changeset.rs:11-171 | the same for updates without primary keys and skipped fields; a struct of primary keys only is refused, and only such a struct |
| DerivedRecords.UpdateSays | diesel_derives/src/as_changeset.rs:203-260 | each field expression evaluates, for every well-typed value, to the intended update |
| DerivedRecords.ErrorsAre | diesel_derives/src/as_changeset.rs:48-80 | a bad field is reported for its attribute before it is reported for its missing column name |
| RecordMeaning.Values | diesel/src/insertable.rs:343-356 | each assignment becomes an insertable value of the same column and meaning; an absent one a default |
| RecordMeaning.ColumnNames | diesel/src/type_impls/tuples.rs:206-219 | lists the columns of the values the dialect writes, in order |
| RecordMeaning.ValueList | diesel/src/insertable.rs:183-240 | writes `DEFAULT` or the value of each, in the same order |
| RecordMeaning.ValuesClause | diesel/src/query_builder/insert_statement/mod.rs:458-477 | the i-th value belongs to the i-th listed column; with nothing to list, all columns get their defaults |
| RecordMeaning.InsertsMeantRow | diesel/src/insertable.rs:146-240 | in either dialect the statement inserts the row that the values mean: stored values in their columns, defaults everywhere else |
| RecordMeaning.MeantRowUnique | diesel/src/insertable.rs:134-158 | the values and the table's defaults determine that row |
| RecordMeaning.DialectsInsertSameRow | diesel/src/insertable.rs:146-240 | writing `DEFAULT` and leaving the column out insert the same row, for any record with distinct columns and any defaults |
| RecordMeaning.DerivedInsertRow | diesel_derives/src/insertable.rs:26-204 | a derived record inserted in either dialect gives each used field's column what the struct intends and every other column its default |
| RecordMeaning.InsertStores | diesel_derives/src/insertable.rs:244-326 | for every used field, in either dialect: `None` gives the default where it is treated so and NULL otherwise, `Some(None)` NULL, and `Some` of a value the value; with `serialize_as` the same for the converted value |
| RecordMeaning.InsertLeavesDefault | diesel_derives/src/insertable.rs:43-46 | a column gets its default unless a field is named for it that is not skipped |
| RecordMeaning.IsoListsAll | diesel/src/insertable.rs:146-197 | with a DEFAULT keyword every column is listed in order, and DEFAULT stands for what is missing |
| RecordMeaning.SqliteListsPresent | diesel/src/insertable.rs:210-240 | without one DEFAULT is never written, the columns of missing values are left out and the others stay in order |
| RecordMeaning.Assignments | diesel/src/query_builder/update_statement/changeset.rs:32-67 | the assignments that are present, in order |
| RecordMeaning.UpdateEach | diesel/src/query_builder/update_statement/changeset.rs:53-67 | with distinct columns each present assignment is stored, and all other columns stay |
| RecordMeaning.DerivedUpdateRow | diesel_derives/src/as_changeset.rs:11-171 | a derived changeset changes exactly the columns of updated fields that have something to store; skipped fields, primary keys and all other columns keep what the row had |
| RecordMeaning.UpdateStores | diesel_derives/src/as_changeset.rs:203-260 | for every updated field: `None` leaves the column alone in an optional field that is not treated as null and sets NULL in any other, `Some(None)` sets NULL, and `Some` of a value sets it; with `serialize_as` the same for the converted value |
| RecordMeaning.UpdateLeavesAlone | diesel_derives/src/as_changeset.rs:48-58 | a column is left alone unless a field is named for it that is neither skipped nor a primary key |
| CustomTypes.TypesToGenerate | diesel_cli/src/print_schema.rs:374-390 | the defined names are strictly increasing and exactly the overridden names, each with a type that some column has |
| CustomTypes.Dedup | diesel_cli/src/print_schema.rs:390-390 | deduplication by name of a sorted list keeps every name once, in strict order, and invents no type |
| CustomTypes.RelationOverrides | diesel_cli/src/print_schema.rs:197-233 | one entry per column, filled unless the type is provided by Diesel or excepted |
| CustomTypes.Imports | diesel_cli/src/print_schema.rs:723-749 | the loop writes the user's imports, then Diesel's types if none came before the first custom type, then each overridden name at its first occurrence |
| CustomTypes.ImportsExact | diesel_cli/src/print_schema.rs:723-749 | a table imports exactly its overridden names, each once, and Diesel's own types exactly when the user imports nothing and there is a custom type, then first |
| CustomTypes.DefinedIffImported | diesel_cli/src/print_schema.rs:374-390 | a name is defined in `sql_types` if and only if some table imports it |
| CustomTypes.DefinitionsInOrder | diesel_cli/src/print_schema.rs:386-390 | definitions stand in the order of their names |
| CustomTypes.ImportsInOrder | diesel_cli/src/print_schema.rs:723-749 | first the user's imports, then Diesel's own types where due, then the custom types |
| CustomTypes.FirstSeenInOrder | diesel_cli/src/print_schema.rs:733-748 | a custom type is imported where its name occurs first, after those that occur earlier |
| CustomTypes.ImportsInFull | diesel_cli/src/print_schema.rs:723-749 | an input: columns of types B, A and B again |
| CustomTypes.ColumnsResolve | diesel_cli/src/print_schema.rs:831-835 | every column prints its own type, which Diesel provides, a rule excepts, or its table imports; and no provided or excepted name is imported |
| CustomTypes.DefinitionsFaithfulIff | diesel_cli/src/print_schema.rs:386-390 | every overridden type has its own definition if and only if no two of them share a name |
| CustomTypes.SecondSchemaLost | diesel_cli/src/print_schema.rs:386-390 | an input: of two types `Mood` in two schemas only one is defined |
| Naming.CamelToSnake | diesel_derives/src/util.rs:174-189 | the loop computes the conversion that the lemmas below are about |
| Naming.SnakeRoundTripIff | diesel_derives/src/util.rs:174-189 | reading underscores before lower-case letters back gives the name if and only if it starts with no lower-case letter and has no underscore before a lower-case letter |
| Naming.InferredNamesDistinct | diesel_derives/src/model.rs:197-201 | readable names that infer the same table or the same foreign key are the same name |
| Naming.TypeNamesDistinct | diesel_derives/src/associations.rs:121-124 | different type names (upper-case first, no underscore) infer different tables and different foreign keys |
| Naming.UnreadableNamesCollide | diesel_derives/src/util.rs:174-189 | every name with an underscore before a lower-case letter collides with another name |
| Naming.ReadableBehind | diesel_derives/src/util.rs:174-189 | behind every name there is exactly one readable name that infers the same table and foreign key, and it is the name itself if and only if that is readable |
| Naming.NamesCollide | diesel_derives/src/model.rs:197-201 | inputs: `foo` and `Foo`, `Foo_bar` and `FooBar` |
| Naming.FooBarInFull | diesel_derives/src/associations.rs:121-124 | an input: the table and the foreign key inferred from `FooBar` |

## Left out

- Connections, async runtimes, connection pools, processes, files and patches, and the parsing of command line, TOML and token streams: their outcomes are inputs here.
- The transaction manager, the statement cache, join rendering, and reading results back through `MultiRow`, `MultiCursor` and `from_sql`.
- The flags `skip_from` and `in_subselect` of a pass, `push_bind_param_value_only` and `push_bind_collector_data`, which no forwarded fragment of the model uses.
- WalkAst: fragments that branch on emptiness are tuples, the VALUES clause of an insert and an update as a whole statement; `ON CONFLICT` actions, which also do, are not among the queries that forwarding is proved for.
- StatementForwardedIff: the wrapper is taken as the whole statement, as `execute_returning_count` and `load` use it; inside another query its bind markers would be numbered from one and `handle_inner_pass` would replace the binds collected before it.
- Errors other than a bind that cannot be serialized and an update of nothing; each backend's collector is a list of metadata and bytes, although SQLite keeps values instead of bytes.
- The 32-bit width of PostgreSQL's bind counter.
- LookupSqlType: looking up a user's PostgreSQL type in the database is not modelled; the result is part of the type, and the same for every lookup of one query.
- ScopesPartition: that indices grow along the line is the argument parser's promise and is assumed, as is the false value it reports at the end for an absent flag.
- The single-schema branches of `set_filter` and `update_config`; `include-views`, `experimental_infer_nullable_for_views` and `pg-domains-as-custom-types`, which the multi-schema branch applies to every selected key or ignores.
- SetFilter: which patterns compile as regular expressions is a parameter, and so is, in the custom type model, which names a pattern excepts.
- Ordered maps are sequences of entries by ascending key, and sorting is a function with proved order and contents; the order that an unstable sort gives to equal keys is that of a stable one.
- The custom type printers of MySQL, which sorts without deduplicating, and SQLite; derive lists and documentation comments of the definitions.
- RelativeIsShortest: paths are component lists; canonicalizing on the file system is an input, and paths with inner `..` have no promised result.
- PartialRow on targets whose indices are not 64 bits wide.
- ValuesClause: parentheses and commas, batch inserts, `ON CONFLICT`, and the cacheability of the statement.
- DerivedUpdateRow: the row is what the assignments do to it, also where all are absent and the update statement (`Update` in `MultiConnection.dfy`) is an error; assignments are plain columns.
- DeriveIntoSingleTable: fields with `#[diesel(embed)]`, generic bounds, the generated types and the text of errors.
- CamelToSnake: names outside ASCII, whose case mapping is the standard library's.
