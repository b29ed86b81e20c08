# Verification of the yang libraries

A Dafny model of the parts of the yang workspace whose correctness is not visible from any single
function, and proofs of what they promise. Each part follows the shape of its source: buffers and
documents that are changed in place are classes, loops are loops with invariants, algorithms on slices
work on arrays, protocols between tasks are state machines over their atomic steps, and each of them is
proved against a definition that is written independently of it.

| part | files |
|---|---|
| identifiers and quoting | `Identifiers.dfy` |
| the SQL condition renderer | `Conditions.dfy`, `SqlReader.dfy`, `SqlLexing.dfy`, `SqlParsing.dfy`, `SqlPlaceholders.dfy`, `SqlMeaning.dfy` |
| map validators | `Geometry.dfy`, `Sorting.dfy`, `Reachability.dfy`, `Connectivity.dfy`, `Overlap.dfy`, `Spacing.dfy` |
| deterministic randomness | `Fnv.dfy`, `Shuffle.dfy` |
| chunked generation | `Chunked.dfy`, `ChunkContents.dfy` |
| shutdown deadline, closing of resources | `Shutdown.dfy`, `ShutdownOutcomes.dfy`, `ToolsClose.dfy` |
| layered configuration | `ConfigDocument.dfy`, `ConfigValues.dfy`, `ConfigSources.dfy` |
| multipart forms | `Multipart.dfy` |
| names of generated methods, parameters and arguments | `Names.dfy`, `PathParams.dfy`, `SnakeCase.dfy`, `PathMatches.dfy`, `Domains.dfy`, `EndpointNames.dfy` |
| request identifiers | `RequestId.dfy` |
| shared: sequences, UTF-8, letter case and space, numerals | `Wrappers.dfy`, `Text.dfy`, `Numerals.dfy` |

`dafny verify dfyconfig.toml` checks the whole project.

## What is proved

**The condition renderer is a compiler, and it is correct.** `Writer` appends to one buffer and one
parameter list as it walks a condition tree. A lexer and a recursive-descent parser that know nothing of
the renderer read the text back, with the precedence of AND over OR and with the AND of BETWEEN, and give
exactly the tree with groups of one member removed (`RoundTrip`). Under the three-valued logic of section
8.12 of ISO/IEC 9075:1992 the text therefore has the truth value of the tree on every row of every database
(`TextMeansCondition`). The placeholders in the text are those after the offset, in order, one for each
parameter, through any nesting (`TextNumbered`) and from one condition to the next (`SuccessiveNumbered`);
no value can change the text (`TextHidesValues`). A tree is refused exactly if some condition in it, looked at
by itself, has a bad name, no values or no members (`AcceptedExactly`).

**Three validations of identifiers are one.** The byte loop that runs at build time accepts exactly what
the parsers accept, on the UTF-8 encoding of any string; quoting by splitting equals quoting by parsing and
can be undone.

**Each map check says exactly what it is for.** Breadth-first searches return exactly the reachable set;
the sort-and-sweep check with its early exit returns the list of the check of all pairs, in its order;
spacing checked room by room is spacing of all pairs; doorways are connected exactly when the first one
reaches all, and on every grid that the constructor makes the check asks exactly that, so all doorways of
every terrain in a generated result are joined. What is checked is stated in terms of points: two boxes overlap
exactly if they share one, the distance is the least number of unit steps, a zone holds the points of its box.

**Randomness.** FNV-1a (section 2 of draft-eastlake-fnv) with a fixed input is a bijection on states, so
labels that differ in one byte never share a child stream. The shuffle turns draws into permutations
one-to-one and onto, and there are n! sequences of draws; each choice of k positions in order is sampled
by exactly (n - k)! of them.

**Chunks.** A run under budgets gives prefixes of the run without them, passes the final checks whenever
that run does, and is marked partial exactly when a room was skipped. A request gives the result for all
chunks restricted to the rooms requested, or runs out of time. What a room holds is stated in terms of its
generators alone: the repaired terrain of its strategy with exactly the points that no zone forbids, in their
order, or the repaired default carve and no points where the strategy fails; and which error is met first.

**Protocols.** For any number of tasks, any interleaving and any cancellation at an await: the shutdown
deadline is written once and all callers see the same one: what the clock showed at one step inside a call of
`begin`, before any call was answered, plus the budget. A phase runs to it minus its reserve; no wakeup
is lost, nothing deadlocks, a `begin` starts the budget after a bounded number of steps, every task needs at
most seven more after that, and when no task can step all have finished. Closing moves only forward, closes
the cache before MySQL, each once if no call is interrupted, takes at most seven steps of a call, and a call
that has returned means that everything is closed.

**Configuration.** Each kind of value is read from exactly the texts that stand for it. An edit is visible at its path and nowhere else, a failed one changes nothing, edits of
disjoint paths commute; so secrets win over the environment and the environment over the file, above the
fields only tables appear, and the order of the bindings does not matter.

**Multipart.** A finished form reads back as exactly its parts if and only if no content, taken with the
line break before it, holds the delimiter (section 5.1.1 of RFC 2046, section 4 of RFC 7578).

**Names and identifiers.** The search for a method name stops within (suffixes) x (names in use) turns; all
names of a domain differ, and so do those of several domains as long as none of them, with its underscore,
begins another. Putting the names back into a formatted path restores the path, no local in it is a reserved
word, and it is known exactly when the arguments of a method differ. The five passes that make a snake form are one pass
that puts an underscore before each inner capital and in each gap; the name of an endpoint is its domain, the
words of its path and its verb, whatever versions and parameters stand between them. Parsing a request identifier is the
inverse of printing it up to letter case, hyphens, leading zeros and one plus sign, and identifiers of one
process repeat only after 2^64 calls.

### Where code and documentation differ

- `crates/yang-base/src/action/request_id.rs:102` expects identifiers to grow from call to call. A later
  identifier is greater exactly when the clock moved on, or stood still and the 64-bit counter did not wrap
  between the two calls (`GrowsWithTheClock`, for any number of calls); `ClockGoesBack` and `CounterWraps`
  are inputs for which it is not. Uniqueness among 2^64 calls does not depend on the clock.
- `crates/yang-base/src/action/request_id.rs:57` says that texts with anything but hexadecimal digits are
  rejected. One leading plus sign is accepted before up to 31 digits (`PlusSignAccepted`; `+2a` is 42), and
  hyphens may stand anywhere (`ParseIsInverseOfDisplay` states what is accepted).
- `crates/yang-feishu/src/multipart.rs:59-101` accepts contents that hold the delimiter.
  `FormReadsBack` states exactly when that destroys the form; `DisguisedIsLost` is, for every boundary,
  a form that is finished without an error and does not read back. With a random boundary this does not
  happen by accident.
- `scripts/generate_openapi_endpoints.py:137-141` is there to make identifiers of parameters. No result is
  reserved, but a parameter that begins with a digit stays one that does, and is then no identifier
  (`LocalsAreLegal`, `DigitLocal`).
- The table of reserved arguments misses three arguments of generated methods
  (`scripts/generate_openapi_endpoints.py:176-184`): `bearer_token`, `app_access_token` and `content_type`.
  A parameter of such a name makes two arguments of one name (`ArgumentsDistinct`, `ContentTypeTwice`).
- `scripts/generate_openapi_endpoints.py:344` puts all methods on one type and counts on the prefix of their
  domain, but the names in use are forgotten from one domain to the next (line 303). The prefix separates two
  domains exactly if neither, with its underscore, begins the other (`ApartExactly`); `a` and `a_b` are two
  that it does not separate (`DomainsCollide`). No two of the domains under `crates/yang-feishu/src/api` are
  of that kind.

## Model

| member | source | states |
|---|---|---|
| Identifiers.ValidateLiteral | crates/yang-db/src/reference.rs:136-165 | the byte loop accepts exactly the strings the parser of identifiers (or of qualified identifiers) accepts |
| Identifiers.LiteralBytesAgree | crates/yang-db/src/sql_types.rs:14-48 | the grammar read on UTF-8 bytes and the grammar read on characters accept the same strings, qualified and unqualified |
| Identifiers.SplittingAgrees | crates/yang-db/src/reference.rs:76-111 | for every accepted name, quoting each part of a split at dots gives what the parser renders |
| Identifiers.QuotingReadsBack | crates/yang-db/src/sql_types.rs:51-76 | the quoted form of an accepted name reads back to that name |
| Conditions.Writer.PushParam | crates/yang-db/src/dialect.rs:50-63 | the value goes to the end of the parameters, and the placeholder for the offset plus the new count to the end of the text |
| Conditions.Writer.WriteBetween | crates/yang-db/src/dialect.rs:245-252 | both bounds become parameters, low before high, with consecutive placeholders |
| Conditions.Writer.WriteList | crates/yang-db/src/dialect.rs:219-224 | the loop over IN values appends all of them in order, with one placeholder each |
| Conditions.Writer.WriteIn | crates/yang-db/src/dialect.rs:211-244 | an empty list is an error, else the text and parameters of IN or NOT IN are appended |
| Conditions.Writer.WriteCondition | crates/yang-db/src/dialect.rs:167-358 | succeeds exactly on accepted trees, and then appends the text and the parameters of the tree after what was there |
| Conditions.Writer.WriteNext | crates/yang-db/src/dialect.rs:325-330 | one turn of the loop extends the text of a list by a separator and a member |
| Conditions.Writer.WriteAll | crates/yang-db/src/dialect.rs:347-353 | the loop over members gives the text and parameters of the whole list, or fails at the first bad member |
| Conditions.Writer.WriteSubquery | crates/yang-db/src/dialect.rs:361-382 | a subquery validates field and table and renders its conditions joined by AND |
| Conditions.RenderCondition | crates/yang-db/src/dialect.rs:147-164 | rendering fails exactly if some condition of the tree, subqueries included, is faulty by itself, and then gives neither text nor parameters |
| Conditions.AcceptedExactly | crates/yang-db/src/dialect.rs:167-358 | a tree is accepted exactly if no condition in it names a bad field or table or has an empty list or group; operators, connectives and negations never matter |
| Conditions.EitherText | crates/yang-db/src/mysql/condition.rs:787-797 | two equalities joined by OR are rendered, with backticks and question marks in one dialect, with double quotes and numbers in the other |
| Conditions.ListExtended | crates/yang-db/src/dialect.rs:325-330 | a longer list is accepted exactly when its last member is, and its parameters come last |
| Conditions.AllExtended | crates/yang-db/src/dialect.rs:325-330 | the text of a list grows at its end by a separator and a member numbered after the parameters before it |
| SqlLexing.LexCondition | crates/yang-db/src/dialect.rs:167-358 | rendered text splits into exactly the tokens the renderer meant, whatever legal text follows |
| SqlLexing.LexSubquery | crates/yang-db/src/dialect.rs:361-382 | the same of subqueries |
| SqlLexing.LexName | crates/yang-db/src/sql_types.rs:51-76 | a quoted name cannot run into its neighbours: it lexes to its parts |
| SqlParsing.FactorReads | crates/yang-db/src/dialect.rs:167-358 | every accepted condition reads back as itself up to groups of one, and its parameters are consumed exactly, whatever follows |
| SqlParsing.GroupReads | crates/yang-db/src/dialect.rs:311-356 | a parenthesised group of two or more members reads back with its connective and all members |
| SqlParsing.BetweenReads | crates/yang-db/src/dialect.rs:245-252 | the AND inside BETWEEN is not taken for a connective |
| SqlParsing.InReads | crates/yang-db/src/dialect.rs:211-244 | an IN list reads back with all its values in order |
| SqlParsing.ConjunctsRead | crates/yang-db/src/dialect.rs:372-380 | conditions joined by AND read back as that list |
| SqlParsing.SubqueryReads | crates/yang-db/src/dialect.rs:361-382 | a subquery reads back with its table, field and conditions |
| SqlParsing.RoundTrip | crates/yang-db/src/dialect.rs:147-382 | a reader of text and parameters recovers the tree with groups of one member removed, in both dialects and after any offset |
| SqlPlaceholders.TokensNumbered | crates/yang-db/src/dialect.rs:50-63 | through any nesting a tree uses the placeholders after the offset in order, one for each parameter |
| SqlPlaceholders.TextNumbered | crates/yang-db/src/dialect.rs:143-164 | the same of the rendered text, as the reader sees it |
| SqlPlaceholders.SuccessiveNumbered | crates/yang-db/src/postgres/query_builder.rs:136-142 | conditions rendered one after the other with advancing offsets number all placeholders without gaps |
| SqlPlaceholders.OffsetIgnored | crates/yang-db/src/mysql/condition.rs:322-327 | where placeholders carry no number, rendering with offset 0 is rendering with any offset |
| SqlPlaceholders.Statement.AppendCondition | crates/yang-db/src/postgres/query_builder.rs:136-142 | a condition is added with the offset of the parameters so far; on an error statement and parameters stay as they were |
| SqlPlaceholders.Statement.AppendAll | crates/yang-db/src/postgres/query_builder.rs:283-288 | conditions written one by one give the text and parameters of the list |
| SqlPlaceholders.Statement.BuildWhere | crates/yang-db/src/postgres/query_builder.rs:269-293 | the clause written condition by condition is the clause of one AND group of them |
| SqlMeaning.NormalizeKeepsMeaning | crates/yang-db/src/dialect.rs:311-356 | removing groups of one member changes the truth value on no row of any database |
| SqlMeaning.TextMeansCondition | crates/yang-db/src/dialect.rs:141-164 | the text, evaluated with its parameters in three-valued logic, has the truth value of the tree |
| SqlMeaning.TextHidesValues | crates/yang-db/src/dialect.rs:166-173 | trees that differ only in values have the same text and as many parameters |
| Reachability.BuildAdjacency | crates/yang-pcg/src/validation.rs:72-86 | the adjacency lists hold exactly the undirected edges |
| Reachability.LinkedExactly | crates/yang-pcg/src/validation.rs:76-86 | two rooms are linked exactly if they are the two ends of an edge, whichever is named first |
| Reachability.JoinedBack | crates/yang-pcg/src/validation.rs:76-86 | whatever can be reached can be reached back |
| Reachability.Search | crates/yang-pcg/src/validation.rs:88-103 | the queue search returns exactly the ids joined to the start by a path of edges |
| Reachability.VisitAll | crates/yang-pcg/src/validation.rs:96-102 | one turn of the search keeps the visited set reachable and closed up to the queue, and grows it or shortens the queue |
| Reachability.ValidateReachability | crates/yang-pcg/src/validation.rs:54-127 | succeeds exactly when a Start room exists and reaches every node; else lists exactly the unreachable ids, ordered and without repetitions |
| Connectivity.CollectDoorways | crates/yang-pcg/src/validation.rs:255-265 | finds exactly the doorways of a grid whose sides fit a signed 32-bit number, row by row |
| Connectivity.BfsWalkable | crates/yang-pcg/src/validation.rs:268-311 | returns exactly the tiles reached through adjacent walkable tiles |
| Connectivity.VisitSides | crates/yang-pcg/src/validation.rs:276-307 | visiting the four neighbours keeps the search closed up to its queue |
| Connectivity.OneDoorwayIsEnough | crates/yang-pcg/src/validation.rs:226-232 | if the first doorway reaches all doorways, all pairs are joined |
| Connectivity.UnreachableDoorways | crates/yang-pcg/src/validation.rs:218-232 | in a grid that the constructor makes, none are reported exactly when all doorways are joined; those reported are the ones the first does not reach |
| Connectivity.ValidateTerrainConnectivity | crates/yang-pcg/src/validation.rs:216-252 | for grids that the constructor makes, succeeds exactly when in every terrain all doorways are joined; else names the first terrain that fails and the doorways lost there |
| Connectivity.NewGrid | crates/yang-pcg/src/model/terrain.rs:62-70 | a grid is made exactly if it has a cell and at most 1024 x 1024 of them, with the sides asked for and the given tile everywhere |
| Connectivity.BuiltIsNarrow | crates/yang-pcg/src/model/terrain.rs:62-80 | a grid passes the check of imported grids exactly when the constructor could have made it, and then the cast of its sides changes nothing |
| Connectivity.RowsReadBack | crates/yang-pcg/src/model/terrain.rs:83-96 | a grid whose data are rows one after the other gives the tile of the column in the row, and none outside |
| Connectivity.MovesExactly | crates/yang-pcg/src/validation.rs:275-320 | a move of the search goes one unit along one axis, to a tile inside that is neither empty, wall nor obstacle |
| Overlap.IntersectsExactly | crates/yang-pcg/src/model/geometry.rs:85-90 | boxes with positive sides intersect exactly if some point lies in both of them, the far sides excluded |
| Overlap.Indexed | crates/yang-pcg/src/validation.rs:145-150 | keeps exactly the rooms with bounds, with their indices |
| Overlap.SweepNext | crates/yang-pcg/src/validation.rs:158-169 | comparing one more pair keeps the list complete and free of repetitions |
| Overlap.SweepRow | crates/yang-pcg/src/validation.rs:156-171 | one turn of the sweep adds exactly the overlaps of its room with later ones |
| Overlap.ValidateNoOverlap | crates/yang-pcg/src/validation.rs:144-198 | reports exactly the list of the check of all pairs, in its order |
| Overlap.AllConflictsMembers | crates/yang-pcg/src/validation.rs:129-143 | the check of all pairs lists each pair of overlapping bounded rooms once, in ascending order |
| Overlap.NoConflicts | crates/yang-pcg/src/validation.rs:173-175 | nothing is reported exactly when no two bounded rooms overlap |
| Spacing.GroupByRoom | crates/yang-pcg/src/validation.rs:403-410 | each room that has points gets its points, in their order |
| Spacing.DistanceExactly | crates/yang-pcg/src/validation.rs:354-357 | the distance of two points is the least number of unit steps from one to the other |
| Spacing.DefaultSpacing | crates/yang-pcg/src/validation.rs:393-429 | with the default spacing points are spaced exactly if no two of a room are in one place or side by side |
| Spacing.InZoneExactly | crates/yang-pcg/src/validation.rs:359-362 | a zone holds exactly the points less than its width and its height after its first corner |
| Spacing.CheckRoom | crates/yang-pcg/src/validation.rs:415-428 | reports each pair of points of a room that is too close, in order |
| Spacing.GroupingKeepsPairs | crates/yang-pcg/src/validation.rs:403-410 | a room's points are spaced exactly when they are as points of the whole list |
| Spacing.EveryRoomSpaced | crates/yang-pcg/src/validation.rs:412-429 | the room-by-room check reports nothing exactly when no two points of one room in the list are too close |
| Spacing.ActiveZones | crates/yang-pcg/src/validation.rs:431-438 | keeps exactly the zones that exclude spawns, in the order of the constraints |
| Spacing.NothingExcluded | crates/yang-pcg/src/validation.rs:440-453 | nothing is reported exactly when no point lies in an excluding zone |
| Spacing.ValidateSpawnSpacing | crates/yang-pcg/src/validation.rs:393-509 | both lists are empty exactly when all points are spaced and allowed; the pairs too close are listed room by room in the order of the rooms, the excluded points point by point and zone by zone |
| Fnv.Fnv1a64 | crates/yang-pcg/src/rng.rs:100-109 | the loop computes the hash of its input |
| Fnv.Fnv1a64Chain | crates/yang-pcg/src/rng.rs:113-126 | the chained hash is the hash of the concatenation |
| Fnv.PublishedHash | crates/yang-pcg/src/rng.rs:100-109 | the text `a` has the published hash, which fixes the offset basis, and the prime is the published one |
| Fnv.XorBits | crates/yang-pcg/src/rng.rs:105-106 | each bit of the exclusive or is set exactly if it is set in one of the two |
| Fnv.LittleEndianSums | crates/yang-pcg/src/rng.rs:239-243 | the eight bytes of a seed, weighted by the powers of 256 from the first on, sum to it |
| Fnv.FoldBijective | crates/yang-pcg/src/rng.rs:104-107 | for a fixed input the hash update has an inverse on 64-bit states |
| Fnv.SuffixCancels | crates/yang-pcg/src/rng.rs:121-124 | a common suffix neither hides nor creates a collision |
| Fnv.OneByteMatters | crates/yang-pcg/src/rng.rs:100-109 | inputs of the same length that differ in one byte have different hashes, from any state |
| Fnv.LabelsSeparate | crates/yang-pcg/src/rng.rs:239-243 | labels of one length that differ in one byte give a parent different child seeds |
| Fnv.ParentsSeparate | crates/yang-pcg/src/rng.rs:239-243 | parents whose seeds differ in one byte have different children under every label |
| Fnv.CommonEnding | crates/yang-pcg/src/rng.rs:239-243 | labels with a common ending collide exactly when they collide without it |
| Shuffle.ShuffleArray | crates/yang-pcg/src/rng.rs:418-424 | the loop leaves in the slice the arrangement that its draws stand for, each draw at most its position |
| Shuffle.ShuffleRearranges | crates/yang-pcg/src/rng.rs:400-402 | a shuffle loses and adds nothing |
| Shuffle.DrawsDetermined | crates/yang-pcg/src/rng.rs:402 | different draws give different arrangements of distinct elements |
| Shuffle.DrawsFor | crates/yang-pcg/src/rng.rs:402 | every arrangement arises from some draws |
| Shuffle.EachPermutationOnce | crates/yang-pcg/src/rng.rs:402 | each arrangement of distinct elements arises from exactly one sequence of draws |
| Shuffle.DrawCount | crates/yang-pcg/src/rng.rs:420-421 | for n elements there are n! sequences of draws |
| Shuffle.Sample | crates/yang-pcg/src/rng.rs:447-462 | n elements from n distinct positions if n is less than the length, else a shuffle of all |
| Shuffle.ShuffledPositions | crates/yang-pcg/src/rng.rs:454-455 | shuffled indices are distinct positions |
| Shuffle.EverySampleArises | crates/yang-pcg/src/rng.rs:426-435 | every choice of distinct positions in any order can be sampled |
| Shuffle.EachSampleEquallyOften | crates/yang-pcg/src/rng.rs:426-462 | every choice of k distinct positions in any order comes from exactly (n - k)! of the n! sequences of draws |
| Chunked.FillChunkDetails | crates/yang-pcg/src/chunked.rs:137-282 | the outcome of the loop under budgets, with its errors in the order they are met |
| Chunked.FillRooms | crates/yang-pcg/src/chunked.rs:176-281 | the loop stops at the first index at which a budget is exceeded, at the first failing room, or at the end |
| Chunked.RunChecks | crates/yang-pcg/src/chunked.rs:265-273 | the final checks fail first on connectivity, then on spacing or excluded zones, and on nothing else |
| Chunked.FilledIsConnected | crates/yang-pcg/src/chunked.rs:265-273 | with grids from the constructor, a chunk fails for its doorways exactly when some are not joined, and in a filled chunk any two doorways of a terrain are joined |
| Chunked.BudgetsKeepPrefixes | crates/yang-pcg/src/chunked.rs:184-263 | if the unbudgeted run succeeds then every budgeted one does, with prefixes of its lists, and is partial exactly when a room was skipped |
| Chunked.IterationBudgetIsExact | crates/yang-pcg/src/chunked.rs:193-199 | without a time budget exactly the first n rooms are filled; the 32-bit comparison of the index never matters |
| Chunked.NothingInExcludedZones | crates/yang-pcg/src/chunked.rs:237-242 | filtered points never lie in an excluding zone |
| Chunked.GenerateChunk | crates/yang-pcg/src/chunked.rs:295-493 | the outcome for the rooms of the requested chunks: budget errors, the first failing room, the checks, or the result |
| Chunked.GenerateRooms | crates/yang-pcg/src/chunked.rs:373-461 | the loop fails closed at the first exceeded budget or failing room, else fills every room |
| Chunked.NeverTruncated | crates/yang-pcg/src/chunked.rs:374-391 | a result covers every room asked for, and never more than the iteration budget |
| Chunked.GeneratedIsConnected | crates/yang-pcg/src/chunked.rs:295-493 | the same of every terrain in a result for requested chunks |
| Chunked.RequestRestricts | crates/yang-pcg/src/chunked.rs:329-365 | if all chunks succeed, a request gives that result restricted to its rooms, unless its time budget runs out |
| Chunked.RequestIsASet | crates/yang-pcg/src/chunked.rs:328-337 | neither order nor repetition of requested ids matters |
| Chunked.RoomAlone | crates/yang-pcg/src/chunked.rs:352-358 | a room is filled alike whichever rooms are filled with it, if generators read only its own anchors |
| Chunked.FewerPass | crates/yang-pcg/src/backend/topdown/mod.rs:93-99 | the checks of a chunk result hold of any part of a result they hold of |
| ChunkContents.RoomExactly | crates/yang-pcg/src/chunked.rs:201-263 | a room has the repaired terrain of its strategy with exactly the generated points that no zone forbids, in order; if the strategy fails, the repaired default carve and no points; if both fail, nothing |
| ChunkContents.ChunkHolds | crates/yang-pcg/src/chunked.rs:137-282 | the rooms that the first chunk of this id names, in the order of the plan and up to the first index at which a budget is used up, each with that content under the labels of the chunk; or the first error met; partial exactly if a room is left |
| ChunkContents.UnknownExactly | crates/yang-pcg/src/chunked.rs:141-149 | an id that no chunk has is an error |
| ChunkContents.ReachedStops | crates/yang-pcg/src/chunked.rs:184-199 | the loop stops at the first index at which the clock or the count is at its budget or past it |
| ChunkContents.RequestHolds | crates/yang-pcg/src/chunked.rs:295-493 | the rooms that the requested chunks name, their anchors and the corridors that touch one, each room with that content under the labels of the floor; or the first of the errors met, room by room and then check by check |
| Shutdown.StepKeepsInv | crates/yang-runtime/src/shutdown.rs:99-154 | every step of any task keeps the protocol's invariant: lock, window, owed notification and waiters agree |
| Shutdown.RunKeepsInv | crates/yang-runtime/src/shutdown.rs:99-154 | the invariant holds in every state of every run |
| Shutdown.WindowWrittenOnce | crates/yang-runtime/src/shutdown.rs:99-111 | once written the window never changes, and the clock never goes back |
| Shutdown.OneDeadlineForAll | crates/yang-runtime/src/shutdown.rs:99-129 | every caller of begin or wait_started that returns gets the same deadline, the start plus the budget |
| Shutdown.PhaseDeadline | crates/yang-runtime/src/shutdown.rs:149-168 | a phase runs to the shared deadline minus the smaller of reserve and budget, never before the start nor past the deadline |
| Shutdown.NoLostWakeup | crates/yang-runtime/src/shutdown.rs:121-129 | once the start is announced every waiter has been woken |
| Shutdown.NoDeadlock | crates/yang-runtime/src/shutdown.rs:99-154 | after the start, while a task is unfinished, some task can take a step |
| Shutdown.QuietMeansFinished | crates/yang-runtime/src/shutdown.rs:99-154 | after the start, when no task can take a step every task has finished |
| Shutdown.StepsBounded | crates/yang-runtime/src/shutdown.rs:121-154 | after the start a task takes at most seven more steps of its own, however tasks interleave |
| Shutdown.AdvancesBounded | crates/yang-runtime/src/shutdown.rs:121-154 | after the start, a stretch of the run in which tasks only take steps is at most seven times as long as there are tasks |
| ShutdownOutcomes.StartIsNow | crates/yang-runtime/src/shutdown.rs:99-111 | the window is set by a task inside `begin`, from what the clock shows in that step |
| ShutdownOutcomes.DeadlineCountsFromBegin | crates/yang-runtime/src/shutdown.rs:99-129 | every deadline returned is the clock at one step of a call of `begin` plus the budget; the call had come before it, and no call had been answered |
| ShutdownOutcomes.CallEnds | crates/yang-runtime/src/shutdown.rs:99-168 | a call that has ended and was not dropped: `begin` and `wait_started` with that deadline, a phase with its reserve taken off, all of the budget if the reserve is larger |
| ShutdownOutcomes.BeginIsNotStuck | crates/yang-runtime/src/shutdown.rs:99-118 | while a call of `begin` is not through, some task can take a step |
| ShutdownOutcomes.StartComes | crates/yang-runtime/src/shutdown.rs:99-154 | before the start, a stretch in which tasks only take steps is at most five times as long as there are tasks |
| ShutdownOutcomes.BeginCanStart | crates/yang-runtime/src/shutdown.rs:99-111 | after any run a new call of `begin` can start the budget, at any later instant |
| ToolsClose.RunKeepsInv | crates/yang-base/src/tools.rs:240-257 | lock, state and the log of closed resources agree in every state of every run |
| ToolsClose.StateMovesForward | crates/yang-base/src/tools.rs:97-103 | the state only moves from Running to Closing to Closed, and nothing is closed after that |
| ToolsClose.ReturnedMeansClosed | crates/yang-base/src/tools.rs:237-257 | a call that has returned means that the state is Closed and every configured resource has been closed |
| ToolsClose.ClosedAtMostOnce | crates/yang-base/src/tools.rs:247-256 | whatever is cancelled, MySQL is closed once at most, right after the cache by the same call, and the cache once more than there were interruptions at most |
| ToolsClose.ClosedExactlyOnce | crates/yang-base/src/tools.rs:237-257 | without interruptions each configured resource is closed exactly once, the cache first, by one call |
| ToolsClose.NoDeadlock | crates/yang-base/src/tools.rs:241 | while a call is unfinished some call can take a step, also after cancellations |
| ToolsClose.CallMovesOn | crates/yang-base/src/tools.rs:240-257 | a call takes at most seven steps and never comes back to a place it has left |
| ToolsClose.QuietMeansReturned | crates/yang-base/src/tools.rs:240-257 | when no call can take a step each has returned or was dropped, and if one has returned everything is closed |
| ToolsClose.CloseCanFinish | crates/yang-base/src/tools.rs:240-257 | after any run, cancellations included, the tools can still be closed |
| ConfigDocument.FailedWalkChangesNothing | crates/yang-runtime/src/config.rs:466-487 | creating tables is never followed by failure, so a failed walk leaves the document as it was |
| ConfigDocument.WalkThenUpdate | crates/yang-runtime/src/config.rs:452-464 | walking to the section and updating the table found there is one edit of the path |
| ConfigDocument.Document.SectionTable | crates/yang-runtime/src/config.rs:466-487 | the loop over the segments, with its early returns, leaves the document and the outcome of the recursive walk: its table found, missed or another value met |
| ConfigDocument.StepDown | crates/yang-runtime/src/config.rs:472-482 | one turn of that loop, into an entry or a table created for it, changes neither the final document nor the outcome of the walk |
| ConfigDocument.Document.SetValue | crates/yang-runtime/src/config.rs:452-457 | succeeds exactly when the edit is possible and then performs it; a failure leaves the document exactly as it was |
| ConfigDocument.Document.RemoveValue | crates/yang-runtime/src/config.rs:459-464 | the same of a removal |
| ConfigDocument.EditTakesEffect | crates/yang-runtime/src/config.rs:452-464 | a written value reads back at its path and below; a removed one is gone |
| ConfigDocument.EditKeepsOthers | crates/yang-runtime/src/config.rs:452-464 | paths that do not meet the edited one lead where they led before |
| ConfigDocument.EditOnTheWay | crates/yang-runtime/src/config.rs:476-481 | setting makes every step on the way a table, removing makes and unmakes none |
| ConfigDocument.EditFailsAtNonTable | crates/yang-runtime/src/config.rs:473-486 | an edit fails exactly when a value on its way is there and is not a table |
| ConfigDocument.EditsCommute | crates/yang-runtime/src/config.rs:452-464 | edits of disjoint paths commute, also in whether they fail |
| ConfigDocument.TargetIsDotted | crates/yang-runtime/src/config.rs:466-472 | the path of a binding is its section, taken apart at every dot, and the field at the end |
| ConfigValues.ParseNonNegative | crates/yang-runtime/src/config.rs:431-437 | an accepted number fits a signed 64-bit integer and is not negative |
| ConfigValues.IntegerReadsBack | crates/yang-runtime/src/config.rs:431-437 | every such number reads back from its decimal form, whatever space is around it |
| ConfigValues.ListReadsBack | crates/yang-runtime/src/config.rs:409-425 | items without commas and outer space, joined by commas, read back |
| ConfigValues.ListIsStable | crates/yang-runtime/src/config.rs:409-425 | the items of a parsed list, joined by commas, parse as the same list |
| ConfigValues.ResolveExactly | crates/yang-runtime/src/config.rs:376-429 | for each kind, exactly the texts that stand for a value resolve to it: a text for itself, flags, numbers and lists as below, floats and JSON as their parsers say |
| ConfigValues.FlagExactly | crates/yang-runtime/src/config.rs:399-408 | `true` and `false`, with any space around them, stand for these flags, and nothing else is a flag |
| ConfigValues.NumberExactly | crates/yang-runtime/src/config.rs:431-437 | a text is read as n exactly if it is the decimal form of n, with space around it, leading zeros, a plus sign, or a minus sign before zero |
| ConfigValues.NoneExactly | crates/yang-runtime/src/config.rs:391-395 | an optional number is removed exactly by space alone and by `none` in any letter case |
| ConfigValues.ListExactly | crates/yang-runtime/src/config.rs:409-425 | a text is read as a list exactly if it is the items, none of them empty, with any space around each, joined by commas |
| ConfigSources.Loader.ApplyEnvironment | crates/yang-runtime/src/config.rs:259-278 | the bindings are applied in turn; fails at the first that does not parse or is blocked |
| ConfigSources.Loader.ApplySecrets | crates/yang-runtime/src/config.rs:280-291 | the same of secret files, which only set values |
| ConfigSources.Loader.ParseWithSources | crates/yang-runtime/src/config.rs:183-210 | from the text of the file: the environment over the parsed file, then the secrets over both, then the conversion; a text that does not parse and a file that is not a table are refused |
| ConfigSources.LayerOutcome | crates/yang-runtime/src/config.rs:259-291 | after a layer a bound field holds what its source says, else what it held |
| ConfigSources.Precedence | crates/yang-runtime/src/config.rs:183-210 | at and below each field: the secret if present, else what the environment says or its absence, else the file's value |
| ConfigSources.FieldFromEnvironment | crates/yang-runtime/src/config.rs:183-210 | a field whose variable is set and that no secret sets holds the value its text stands for, at and below its path |
| ConfigSources.LoadedFromEnvironment | crates/yang-runtime/src/config.rs:183-210 | the same of the document that is handed to the conversion |
| ConfigSources.FieldFromSecret | crates/yang-runtime/src/config.rs:183-210 | a field with a secret holds the value that its text stands for, whatever the environment says |
| ConfigSources.FieldFromFile | crates/yang-runtime/src/config.rs:183-210 | a field that neither sets holds what the file says |
| ConfigSources.LayeredSucceeds | crates/yang-runtime/src/config.rs:183-291 | the layers succeed exactly if the file is a table, every text stands for a value, and no value that is no table is in the way of a set field |
| ConfigSources.AboveTheFields | crates/yang-runtime/src/config.rs:466-487 | in one layer: above the fields nothing is lost and the only new things are tables that hold a set field |
| ConfigSources.LayeredAboveTheFields | crates/yang-runtime/src/config.rs:183-210 | the same of the whole document, for fields set by the environment or by secrets |
| ConfigSources.OrderIrrelevant | crates/yang-runtime/src/config.rs:259-291 | the order of bindings with disjoint paths matters neither to the document nor to success |
| Multipart.Form.Text | crates/yang-feishu/src/multipart.rs:59-68 | accepts exactly open forms, valid names and valid values, and adds one part; a refusal changes nothing |
| Multipart.Form.File | crates/yang-feishu/src/multipart.rs:71-91 | the same of files, with any bytes |
| Multipart.Form.Finish | crates/yang-feishu/src/multipart.rs:94-101 | closes the form and returns the content type that names its boundary and the printed parts with the closing delimiter |
| Multipart.ValueBytes | crates/yang-feishu/src/multipart.rs:123-133 | a value is taken exactly if its UTF-8 bytes encode no control character |
| Multipart.TokenExactly | crates/yang-feishu/src/multipart.rs:109-121 | a name is taken exactly if it is not empty and has in addition neither quotes nor backslashes |
| Multipart.PieceReads | crates/yang-feishu/src/multipart.rs:59-91 | the headers and content of an accepted part read back as its name, file name, type and bytes |
| Multipart.PieceIsClean | crates/yang-feishu/src/multipart.rs:110-133 | what the checks admit lets no delimiter hide in the headers |
| Multipart.DelimitedSplits | crates/yang-feishu/src/multipart.rs:59-91 | a body whose contents hide no delimiter splits into exactly its parts, also when a content ends in CR or LF |
| Multipart.FormReadsBack | crates/yang-feishu/src/multipart.rs:59-101 | a finished form reads back as exactly its parts, in order, if and only if no content taken with the line break before it holds the delimiter |
| Multipart.DisguisedAccepted | crates/yang-feishu/src/multipart.rs:59-68 | for every boundary there is an accepted text field whose value hides the delimiter |
| Multipart.DisguisedIsLost | crates/yang-feishu/src/multipart.rs:59-101 | the form with that field is finished without an error and does not read back |
| Multipart.NoDashesIsClean | crates/yang-feishu/src/multipart.rs:64-89 | contents without `--boundary` hold no delimiter |
| Multipart.SameBodySameParts | crates/yang-feishu/src/multipart.rs:94-101 | two such forms with the same boundary and body have the same parts |
| Names.SearchBound | scripts/generate_openapi_endpoints.py:326-330 | at most (suffixes) x (names in use) candidates in a row are blocked |
| Names.FindName | scripts/generate_openapi_endpoints.py:326-330 | finds the first candidate that no suffix turns into a used name, within that bound |
| Names.CandidateExactly | scripts/generate_openapi_endpoints.py:325-329 | the candidates are the name and then the name with an underscore and 1, 2, 3, ... in decimal |
| Names.VariantsExactly | scripts/generate_openapi_endpoints.py:123-134 | each kind of token has its suffix, and the public one is there exactly if there is none of the three |
| Names.NameMethods | scripts/generate_openapi_endpoints.py:320-335 | all names emitted for a domain are distinct, and each endpoint has the first name that was free |
| Domains.BaseIsPrefixed | scripts/generate_openapi_endpoints.py:100-120 | a base name begins with its domain and an underscore, whatever the path and the verb |
| EndpointNames.NameFromPath | scripts/generate_openapi_endpoints.py:100-120 | the name is the domain, the segments after it in snake case and in order, and the verb; the last word gives way exactly to a verb that is it or its end after an underscore; with neither words nor verb the name ends in `call` |
| EndpointNames.NameFromWords | scripts/generate_openapi_endpoints.py:100-120 | words and a verb in snake case stand in the name as they are |
| EndpointNames.SkippedAnywhere | scripts/generate_openapi_endpoints.py:109-115 | a version, a parameter or a segment without letters and digits changes nothing, wherever it is put after the domain |
| EndpointNames.FirstKeepsItsName | scripts/generate_openapi_endpoints.py:320-335 | the first endpoint of a domain is emitted under the name that the catalogue gives it, or else under that of its path |
| Domains.Generate | scripts/generate_openapi_endpoints.py:295-339 | each domain gets the names of its endpoints with no regard to the others; if no domain, with its underscore, begins another, all names of the client differ |
| Domains.ApartDomains | scripts/generate_openapi_endpoints.py:302-330 | two domains neither of which, with its underscore, begins the other share no name, numbered and suffixed ones included |
| Domains.ApartExactly | scripts/generate_openapi_endpoints.py:302-330 | for no other two domains is that so: they have catalogues that give both the same name |
| Domains.DomainsCollide | scripts/generate_openapi_endpoints.py:100-120 | the domains `a` and `a_b`, with an endpoint each, emit one name twice |
| PathParams.SnakeIsSnake | scripts/generate_openapi_endpoints.py:41-45 | a snake form is empty or lower-case words of letters and digits with single underscores between them |
| PathParams.SnakeSame | scripts/generate_openapi_endpoints.py:41-45 | such words are left as they are |
| SnakeCase.SnakeInOnePass | scripts/generate_openapi_endpoints.py:41-45 | the five passes give the letters and digits in lower case, with an underscore before each but the first that is a capital or comes after something else |
| SnakeCase.CamelSplits | scripts/generate_openapi_endpoints.py:41-45 | words in camel case, with a capital first or not, become the words joined by underscores |
| PathParams.SanitizedIsLocal | scripts/generate_openapi_endpoints.py:137-141 | a sanitised parameter is not empty and has only lower-case letters, digits and underscores: it can stand between braces |
| PathParams.SanitizedIsUnreserved | scripts/generate_openapi_endpoints.py:137-141 | a sanitised parameter is neither a keyword nor a reserved argument, and it begins with a digit exactly when the parameter does, underscores aside |
| PathMatches.LocalOfCamel | scripts/generate_openapi_endpoints.py:137-141 | a parameter in camel case becomes its words joined by underscores, after `path_` exactly if that is reserved |
| PathParams.FindLocal | scripts/generate_openapi_endpoints.py:152-157 | finds the first candidate not in use, after at most as many as there are names in use |
| PathMatches.LocalCandidateExactly | scripts/generate_openapi_endpoints.py:150-155 | the candidates are the local and then the local with an underscore and 2, 3, 4, ... in decimal |
| PathParams.ParsePath | scripts/generate_openapi_endpoints.py:144-162 | takes exactly the parameters of the path in order, gives them distinct locals, each the first that was free, and a format that restores a path without braces |
| PathMatches.MatchesExactly | scripts/generate_openapi_endpoints.py:144-162 | the parameters are, in order, what follows each colon of the path as far as it is a name |
| PathParams.LocalsAreLegal | scripts/generate_openapi_endpoints.py:137-162 | no local of a path is reserved, numbered ones included, and a local is a legal identifier exactly when its parameter does not begin with a digit |
| PathParams.DigitLocal | scripts/generate_openapi_endpoints.py:137-141 | the parameter `1` becomes a local that is not an identifier |
| PathParams.Restores | scripts/generate_openapi_endpoints.py:144-162 | putting `:name` back for each `{local}` restores the path |
| PathParams.ListedArgsAreSafe | scripts/generate_openapi_endpoints.py:175-187 | the arguments of a generated method differ exactly when no local of its path is its token or its content type; `query` and `body` are never taken |
| PathParams.ArgumentsDistinct | scripts/generate_openapi_endpoints.py:137-187 | that is so exactly when no parameter of the path becomes that token or `content_type`, whatever numbers are added |
| PathParams.ArgumentTwice | scripts/generate_openapi_endpoints.py:175-187 | a path with just such a parameter, at its end, gives the method two arguments of one name |
| PathParams.ContentTypeTwice | scripts/generate_openapi_endpoints.py:175-187 | for instance an upload to `/x/:content_type` |
| RequestId.ParseIsInverseOfDisplay | crates/yang-base/src/action/request_id.rs:62-84 | a text parses as a number exactly when what is left of it is, but for case and leading zeros, the printed number |
| RequestId.PrintedParses | crates/yang-base/src/action/request_id.rs:62-84 | every nonzero identifier survives print then parse under any letter case and placing of hyphens |
| RequestId.SpaceIgnored | crates/yang-base/src/action/request_id.rs:62-84 | space around a text changes nothing |
| RequestId.PlusSignAccepted | crates/yang-base/src/action/request_id.rs:62-84 | a plus sign before up to 31 digits changes nothing, before 32 it is one character too many |
| RequestId.PlusFortyTwo | crates/yang-base/src/action/request_id.rs:62-84 | `+2a` parses as 42 |
| RequestId.HexReadsBack | crates/yang-base/src/action/request_id.rs:80-85 | fixed-width hexadecimal digits determine the number |
| RequestId.Generator.Generate | crates/yang-base/src/action/request_id.rs:32-37 | returns the clock over the counter, adds one to the counter modulo 2^64, and keeps the history of calls |
| RequestId.IdParts | crates/yang-base/src/action/request_id.rs:32-37 | the upper half of an identifier is the clock, zero before 1970, the lower half the number of the call modulo 2^64 |
| RequestId.EqualExactlyAfterACircle | crates/yang-base/src/action/request_id.rs:32-37 | two identifiers of one process are equal exactly when the clock agrees and the counter has gone full circle |
| RequestId.IdsDistinct | crates/yang-base/src/action/request_id.rs:7-12 | up to 2^64 calls give distinct identifiers whatever the clock does |
| RequestId.GrowsWithTheClock | crates/yang-base/src/action/request_id.rs:98-104 | of two identifiers issued by a process the later is the greater exactly when the clock moved on, or stood still and the counter did not wrap; among the first 2^64, exactly when the clock did not go back |
| RequestId.ClockGoesBack | crates/yang-base/src/action/request_id.rs:98-104 | a clock that goes back by a millisecond makes the later identifier the smaller |
| RequestId.CounterWraps | crates/yang-base/src/action/request_id.rs:32-37 | with a standing clock the identifier of call 2^64 is smaller than the one before it |

## Left out

- Conditions: the six value comparisons are one constructor with an operator, each condition and its NOT form one constructor with a flag, and AND and OR groups one constructor with a connective; their branches in the source are the same text but for the operator.
- Conditions: a fragment of a server expression is one of the two texts that `crates/yang-db/src/reference.rs:361-366` produces; other fragments cannot be constructed.
- SqlMeaning: column types, collations and the pattern language of LIKE are given by the database, not modelled.
- JOIN, GROUP BY, HAVING, ORDER BY, upserts and the rest of the query builders: text assembly without nesting.
- Spacing, Connectivity and Overlap: coordinates are unbounded integers; the source widens before it subtracts, and its tile arithmetic is checked.
- Reports of the validators: which items are listed and in what order is modelled, the wording of messages is not.
- validate_result and validate_request: counts and field comparisons without an algorithm.
- The PCG64 generator and floating-point sampling: a draw is any number in range; which draws are likely is not modelled, only how many sequences of draws give each outcome.
- Chunked: terrain strategies, repair, spawn generation and topology are given functions of what they are shown and of the label of their random stream; layout and the list of chunks are given.
- Chunked.RequestRestricts: the terrains and points of a room are taken to name that room, and generators to read only the anchors of their own room.
- Chunked: time is any reading of the clock at each check; metadata of a result is not modelled.
- Shutdown: a phase is followed up to its effective deadline, not through the future it runs; logging and metrics are not modelled.
- Shutdown.StepsBounded: bounds the steps of a task; that the scheduler eventually lets it take them is not modelled.
- ToolsClose: a resource whose closing was cancelled counts as not closed by that call.
- The builder of the tools and the accessors of single resources: facts read off one branch.
- ConfigDocument: tables are values that are replaced along the path; references into the document are not modelled.
- ConfigValues: the parsers of floating-point numbers, of JSON and of TOML are given functions, and so is the final conversion to a typed configuration.
- Collecting the environment and reading secret files: input and output around the model.
- Multipart.Form.constructor: the random identifier is a parameter of the right form.
- Names.NameMethods and Domains.Generate: domains, their order and the order of their endpoints are given; merging of catalogues and rendering of method bodies are not modelled.
- Domains.IsVersion: digits are those of ASCII.
- PathParams: the table of keywords is taken as it stands; whether it holds every word of the language is not modelled.
- Connectivity: setting tiles in a grid is not modelled, since it changes neither its sides nor the number of its tiles; strategies and repairs are taken to make grids with the constructor.
- RequestId.Generator.Generate: calls from several threads are modelled as a sequence, since each is one atomic addition.
- HTTP, Redis, MySQL and Feishu clients, cryptography, procedural macros and metrics.
