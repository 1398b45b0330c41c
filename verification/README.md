# mcpobs verification

A Dafny model of the telemetry pipeline: the Kafka consumers that store and archive spans, the rollups
and trace reads that must agree with a simple specification, the SDK's buffers and token refresh, and the
gateway's quota, stamp, migration and redaction logic. `dafny verify dfyconfig.toml` checks all of it.

Each part pairs a specification on values (states, events, one step function, runs as folds over event
lists) with the code in its own form. Where the source updates objects or loops, there is a class or a
method with the same fields and branches whose contract equates its effect with the specified step, and
the theorems are about every run of that step function. Failures of brokers, stores and networks, crashes
and restarts, clock readings and random draws are inputs of a run, so a theorem over all event lists
covers all of them. Lemmas whose names end in `Reads` or `Means` say in the source's own columns, names, numbers
and texts what the functions under the theorems compute.

| files | what they model |
|---|---|
| `DedupToken`, `NormalizerSpec`, `NormalizerSafety`, `NormalizerViews`, `ReplayBeside`, `NormalizerLoop`, `NormalizerProcess` | the normalizer: at-least-once delivery, insert under a token, commit after insert, latest-version view, bug-fix replays, alone and beside the live consumer |
| `Framing`, `ArchiveKey`, `Otlp`, `ArchiverSpec`, `ArchiverSafety`, `ArchiverRetry`, `ArchiverLoop`, `ArchiverProcess` | the raw archiver: per-tenant objects, names, framing, retries |
| `Polling` | what a poll returns, for both consumers |
| `RollupSpec`, `RollupTheorems`, `RollupCells`, `RollupDays`, `LatestWindow`, `RollupProcess` | the minute rollup against the one-shot aggregate, the staged recompute and the windowed read against the latest versions |
| `TraceTree`, `TraceOrder`, `SelfTime`, `Pagination` | trace ordering, self time, keyset pages |
| `FilterSql`, `FilterMeaning`, `FilterViews`, `FilterVersions`, `FilterRequest` | the filter-to-SQL compiler with an evaluator for what it emits |
| `SamplingSpec`, `SamplingTheorems`, `SamplingProcess` | tail sampling |
| `HeldBuffer`, `JsExporter`, `PyExporter`, `PyOrder`, `SessionTokens` | the two session-aware exporters against one reference buffer and against each other; token refresh and backoff |
| `QuotaStore`, `Quota`, `Stamp`, `SqlComments`, `Migrations`, `Payload` | gateway and operations logic |
| `Basics`, `Strings`, `Text` | shared functions on numbers and strings |

Where the code does less than its documentation says, the model follows the code and states exactly when
the promise holds:

- A bug-fix replay is documented to correct stored rows; it does unless a batch repeats a token already
  used, before it or by the live normalizer beside it (`ReplayExact`, `ReplayBesideExact`,
  `SwallowedReplay`); and the live normalizer can lose rows to the replay (`LiveBesideExact`,
  `LiveSwallowed`).
- "A retry overwrites" in the archive holds within one hour and for the same batch bounds, over all
  attempts since the last commit (`RetryOverwrites`, `RetryOfSameWindow`, `ShutdownFlushLeavesCopy`,
  `RestartLeavesCopy`).
- A staged recompute is documented to rebuild the rollup from the latest versions; it works day by day, so
  a span that a replay moved over midnight counts on both days (`RebuildExact`, `MovedSpanCountsTwice`).
- A windowed read shows a superseded version of a span whose latest one is before the window
  (`WindowViewExact`, `MovedOutShowsOld`).
- Parents come before children exactly when everything with a parent hangs below the root
  (`ParentsAboveExactly`, `ChildAboveParent`), and a span with an empty id adopts others (`NoAdoptionExactly`,
  `EmptyIdAdoptsRoots`).
- Attribute conditions read superseded versions, and can find a trace by a value no span shows any more
  (`SameTracesExactly`, `OldValueStillSelects`).
- A cursor for a trace with an empty id is issued and then refused (`CursorRoundTrip`, `WholeListOnce`).
- `max_duration_ms=0` is dropped (`ZeroIsDropped`, `ZeroSelectsEverything`).
- The Python `force_flush` empties the buffer before it knows a session exists, posts what it took even
  after newer spans, and does not use the endpoint its session names (`NothingUnaccountedExactly`,
  `FlushedTooEarlyLoses`, `MatchesTypeScriptExactly`, `PostedInOrderExactly`, `FlushEndpointExactly`,
  `FlushOvertakenExample`).
- Replacing a delegate that `shutdown` has already shut down shuts it down again
  (`ReplacedDelegatesShutDownOnce`, `ShutDownTwice`).
- Re-stamping a request that carries the soft-quota flag moves the flag (`RestampExactly`); with an empty
  tenant one reader says `unknown` and the other `local` (`ReadersAgreeExactly`).
- The SQL comment scanner tracks quotes within a line only (`LineCutExact`, `StripRemovesComments`,
  `MultiLineLiteralCut`).

## Model

| member | source | states |
|---|---|---|
| DedupToken.TrackAllBounds | normalizer/consumer.py:56-63 | after any tracking, each partition's range is exactly the least and greatest offset tracked for it, and untracked partitions are absent |
| DedupToken.TrackingOrderIrrelevant | normalizer/consumer.py:56-80 | the ranges behind a token depend on which offsets were tracked, not on order or repetition |
| DedupToken.TokenInjective | normalizer/consumer.py:77-80 | for one topic, equal tokens name equal partition ranges |
| DedupToken.TokenReads | normalizer/consumer.py:77-80 | the token as written: topic, then ascending partitions, each with its least and its greatest offset |
| NormalizerSafety.RunKeeps | normalizer/consumer.py:150-289 | over every run of deliver, flush (with any failure) and restart in which no flush commits missing rows under a token used before the run, the whole protocol invariant holds: window, rows, dead letters, honest tokens, sound table |
| NormalizerSafety.NothingBelowCommittedIsLost | normalizer/consumer.py:194-289 | every message below a committed offset has all its rows in the table and all its rejects dead-lettered, and the table holds nothing that is not the log's output |
| NormalizerSafety.OpenBatchIsUncommittedWindow | normalizer/consumer.py:35-86 | until a flush raises, the open batch's bounds per partition are exactly [committed, position - 1], and its rows are exactly that window's rows as a multiset |
| NormalizerSafety.EqualTokensEqualRows | normalizer/consumer.py:77-80 | batches of any two runs over one log and one normalizer that carry equal tokens carry equal row multisets, so a deduplicated retry drops nothing new |
| NormalizerSafety.SpansAccountedFor | normalizer/consumer.py:214-225 | every decoded span becomes exactly one row or one dead letter |
| NormalizerSpec.RowReads | normalizer/normalize.py:130-138 | a row carries the tenant and project its resource names, local where it names none, the span's ids, and where the message was |
| NormalizerViews.RunShowsOutput | query/repository.py:53-90 | once everything is committed, the latest-version view is the log's output, however the run crashed and re-batched |
| NormalizerViews.CompleteRunsAgree | query/repository.py:53-90 | two complete runs, crashing or not, show readers the same latest version of every span |
| NormalizerViews.SinglePassCompletes | normalizer/consumer.py:150-191 | the crash-free single pass is such a complete run |
| NormalizerViews.ViewIsAFunction | query/repository.py:53-90 | the view has one row per span if and only if the log never carries one span twice |
| NormalizerViews.ReplayShowsNewOutput | scripts/replay.py:34-46 | a complete replay at a larger version none of whose committing flushes is swallowed shows the new output for every span it produces and leaves all other spans as they were |
| NormalizerViews.ReplayReplacesEverything | scripts/replay.py:34-46 | after such a replay the whole view is the new output if and only if the new normalizer still produces every span stored before |
| NormalizerViews.ReplayExact | normalizer/consumer.py:77-80 | a complete replay at a larger version, however it crashed, shows all its output if and only if no flush committed rows the table lacked under a token used before; the token names neither group nor version |
| NormalizerViews.CrashFreeSwallows | normalizer/consumer.py:77-80 | without crashes a batch is swallowed if and only if it has rows and its token was used before the replay |
| NormalizerViews.SwallowedReplay | normalizer/consumer.py:77-80 | concrete failing replay: the same one-message batch under two versions; its offset is committed and the table is unchanged |
| ReplayBeside.RunBothKeeps | scripts/replay.py:3-11 | for two normalizers on one store, over every interleaving with crashes on both sides, each keeps its protocol invariant while none of its own commits is swallowed |
| ReplayBeside.OwnStoredExactly | scripts/replay.py:3-11 | every message one of them has committed has all its rows in the table if and only if none of its commits was swallowed by a token from elsewhere |
| ReplayBeside.ReplayBesideExact | scripts/replay.py:3-11 | such a complete replay shows all its output if and only if none of its commits was swallowed, by tokens from before it or taken by the live normalizer meanwhile |
| ReplayBeside.ReplayBesideShows | scripts/replay.py:3-11 | it then shows its output for every span it produces, and for every other span what was stored before it or inserted by the live normalizer since |
| ReplayBeside.LiveBesideExact | scripts/replay.py:3-11 | seen from the live normalizer: while a replay runs, all rows of the messages it commits are stored if and only if no commit of its own was taken for an insert of the replay |
| ReplayBeside.LiveSwallowed | scripts/replay.py:3-11 | concrete failing run: the replay is first with a message batched alone, and the live rows never reach the table though their offset is committed |
| ReplayBeside.CommittedHasSomeonesRows | scripts/replay.py:3-11 | whatever is swallowed on either side, every message either group has committed has all rows of the live normalizer, or all of the replay's, in the table |
| NormalizerProcess.SpanBatch.Track | normalizer/consumer.py:56-63 | widens the partition's range in place |
| NormalizerProcess.Normalizer.DeadLetterMessage | normalizer/consumer.py:227-258 | records the dead letter and tracks the offset |
| NormalizerProcess.Normalizer.Handle | normalizer/consumer.py:194-225 | one message's rows and dead letters are exactly its own, its offset is tracked either way, and a message without partition or offset changes nothing |
| NormalizerProcess.Normalizer.Flush | normalizer/consumer.py:260-289 | is the state machine's flush: insert under the token, and only then commit and reset; raises in exactly the failing cases |
| NormalizerProcess.Normalizer.Receive | normalizer/consumer.py:163-177 | polling and handling one message is the state machine's delivery |
| NormalizerProcess.Normalizer.Turn | normalizer/consumer.py:162-179 | the turn's events are exactly: the polled message if its partition has one left, then a flush if the batch now has its rows or its age; it raises, restarts the clock and stops idling in exactly the cases spelled out |
| NormalizerProcess.Normalizer.Run | normalizer/consumer.py:150-191 | the loop's events are its turns' in order, up to the first that raises or the end of idle polls, then one last flush, and it raises exactly when one of them does |
| NormalizerLoop.PolledIsDelivered | normalizer/consumer.py:163-177 | while the loop goes on, every message polled is handled, once and in the order polled |
| NormalizerLoop.StopsOnlyWhenIdle | normalizer/consumer.py:160-170 | the loop stops of itself only when told to, after that many seconds of nothing but empty polls |
| NormalizerLoop.NothingDueIsLeft | normalizer/consumer.py:178-179 | no turn that ends normally leaves a batch open that has its rows or its age, but for a partition end |
| Framing.RoundTrip | archiver/archiver.py:152-181 | reading back a framed object gives the same messages with the same boundaries |
| Framing.FramingInjective | archiver/archiver.py:152-165 | different payload lists have different framings |
| Framing.Frame | archiver/archiver.py:152-165 | the loop computes the framing, or raises when some length does not fit four bytes |
| Framing.Unframe | archiver/archiver.py:168-181 | the cursor loop ends on any bytes and computes the reference reader |
| ArchiveKey.KeyInjective | archiver/archiver.py:133-149 | an object name determines tenant (slashes included), hour, partition and both offsets |
| ArchiveKey.DatePathReads | archiver/archiver.py:133-149 | the path reads year, month, day and hour in that order |
| ArchiveKey.FileNameReads | archiver/archiver.py:133-149 | the file name reads partition, first and last offset in that order |
| Otlp.FirstTenantReads | archiver/archiver.py:243-247 | the reader returns what the first attribute that names a tenant says, else unknown |
| ArchiverSafety.OwnedExactly | archiver/archiver.py:241-251 | splitting by tenant gives each ResourceSpans to its own tenant as often as it occurs, and to no other |
| ArchiverSafety.PartsBelongToTenant | archiver/archiver.py:308-325 | what one message adds under a tenant: nothing, the undecodable message under unknown, or that tenant's ResourceSpans serialized |
| ArchiverSafety.RunKeeps | archiver/archiver.py:208-330 | over every run with failures at any put or commit and restarts, the archive invariant holds |
| ArchiverSafety.NameDeterminesContent | archiver/archiver.py:253-276 | each stored object holds exactly its tenant's parts of all messages of its partition in [first, last], in order; so two puts to one name carry the same payloads |
| ArchiverSafety.CommittedMeansArchived | archiver/archiver.py:253-276 | every payload of every committed message is in some object under its tenant |
| ArchiverSafety.CommittedResourceSpansArchived | archiver/archiver.py:241-276 | every ResourceSpans of every committed decodable message is archived under the tenant it names |
| ArchiverSafety.ObjectsAreSingleTenant | archiver/archiver.py:209-251 | each payload under a tenant serializes only that tenant's ResourceSpans, or is an undecodable message kept verbatim under unknown |
| ArchiverRetry.RetryOverwrites | archiver/archiver.py:253-330 | from any state of any run, say after the last commit, and over whatever deliveries, failing flushes (the one at shutdown included) and restarts follow: a flush that ends well leaves nothing but its own objects if and only if every object put in between was there before, or is put again in the same hour with the same bounds |
| ArchiverRetry.RetryOfSameWindow | archiver/archiver.py:146-149 | when all attempts since the last commit end at the same offsets they have the same groups, bounds and payloads, whatever the order of delivery, and the one that succeeds overwrites the others if and only if each put came in its hour or was there before |
| ArchiverRetry.ShutdownFlushLeavesCopy | archiver/archiver.py:327-330 | failing input: a commit fails and the flush at shutdown succeeds in another hour, leaving two objects with the same payloads |
| ArchiverRetry.RestartLeavesCopy | archiver/archiver.py:253-276 | failing inputs: both flushes of a process fail and the next process succeeds in another hour or with another batch; the shared payloads are archived twice |
| ArchiverProcess.ArchiveBatch.Add | archiver/archiver.py:76-86 | adds one payload to its tenant and partition group and to the totals |
| ArchiverProcess.ReadTenant | archiver/archiver.py:243-247 | the loop returns the first non-empty tenant attribute, else unknown |
| ArchiverProcess.SplitByTenant | archiver/archiver.py:241-251 | the grouping loop yields one serialized part per tenant in order of first appearance |
| ArchiverProcess.Archiver.PutGroups | archiver/archiver.py:257-270 | puts exactly the groups before the first that cannot be framed or whose put raises, in order |
| ArchiverLoop.PutsDoneStops | archiver/archiver.py:257-265 | the puts that return all fit the frame, and the first that does not return is unframable or the one that raises |
| ArchiverProcess.Archiver.Flush | archiver/archiver.py:253-276 | is the state machine's flush: one object per group, and only then the commit |
| ArchiverProcess.Archiver.Receive | archiver/archiver.py:300-325 | polling one message is the state machine's delivery; payloads and bytes held grow by its parts |
| ArchiverProcess.Archiver.Turn | archiver/archiver.py:296-328 | the turn's events are exactly: the polled message if its partition has one left, then a flush if the batch now has its payloads, its bytes or its age |
| ArchiverProcess.Archiver.Run | archiver/archiver.py:292-330 | the loop's events are its turns' in order, up to the first that raises, then one last flush, and it raises exactly when one of them does |
| ArchiverLoop.PolledIsDelivered | archiver/archiver.py:300-325 | while nothing raises, every message polled is archived into the batch, once and in the order polled |
| ArchiverLoop.NothingDueIsLeft | archiver/archiver.py:327-328 | no turn that ends normally leaves a full batch open, but for a partition end |
| RollupTheorems.MergeInvisible | query/repository.py:126-144 | merging any two parts changes no cell a reader sees |
| RollupTheorems.MaintainedRun | query/repository.py:126-144 | inserts and merges in any order and batching add exactly the inserted rows to every cell |
| RollupTheorems.LatestIsLatest | scripts/recompute_rollups.py:53-78 | the one-shot view keeps exactly one row per span, of greatest version |
| RollupTheorems.RollupExact | query/repository.py:126-144 | the maintained rollup equals the one-shot aggregate over the latest view in every cell if and only if no span was inserted twice |
| RollupTheorems.ReplaysOnlyInflate | query/repository.py:126-144 | whatever was replayed, each cell counts its inserted rows and the total is never below the one-shot total |
| RollupTheorems.CellCounts | scripts/recompute_rollups.py:80-99 | each counting column of a cell counts the cell's rows of its kind, and the latency state holds exactly the eligible durations |
| RollupTheorems.CellExtremes | scripts/recompute_rollups.py:80-99 | the extreme columns bound the cell's rows and are attained: greatest eligible duration, least positive one, last timestamp |
| RollupCells.CellMeans | scripts/recompute_rollups.py:80-103 | in raw columns: a cell of tenant, project, minute and dimensions counts and bounds exactly the rows with those ids, those dimensions and a timestamp in those 60 seconds |
| RollupCells.MaintainedCell | query/repository.py:126-144 | after inserts and merges in any order, reading a tenant's project, minute and dimensions gives exactly what was inserted for them, column by column |
| RollupCells.DayMeans | scripts/recompute_rollups.py:74-77 | a day's rows are those of its 24 hours in nanoseconds, its cells those of its 1440 minutes |
| RollupTheorems.FreshInsertsKeepExact | scripts/recompute_rollups.py:177-214 | new spans, in any batches and merges, keep an exact day exact |
| RollupTheorems.RecomputeCells | scripts/recompute_rollups.py:177-211 | a staged recompute replaces each cell of its day by what staging saw and leaves every other cell to the inserts |
| RollupDays.DayViewExact | scripts/recompute_rollups.py:53-104 | what staging selects for a day and what the latest versions have of it agree in every cell if and only if no span with a version on that day has its latest on another |
| RollupDays.DayViewsCompose | scripts/recompute_rollups.py:53-78 | choosing versions day by day and over the whole table is the same if and only if no span has versions on two days |
| RollupDays.ExactDayMatchesLatest | scripts/recompute_rollups.py:53-104 | a day as staging would give it agrees with the aggregate over the latest version of every span if and only if none of its spans has moved to another day |
| RollupDays.RecomputeExact | scripts/recompute_rollups.py:177-211 | with no insert to the day between staging and replace, the day equals the latest-version aggregate if and only if none of its spans moved away; with only new spans inserted and none moved, if and only if none was inserted to the day |
| RollupDays.RebuildExact | scripts/recompute_rollups.py:177-214 | after recomputing every day, every cell equals the aggregate over the latest version of every span if and only if no span has versions on two days |
| RollupDays.MovedSpanCountsTwice | scripts/recompute_rollups.py:53-104 | concrete failing input: a replay moves a span over midnight, and after recomputing both days it counts on both |
| RollupTheorems.WindowReadsWholeMinutes | query/repository.py:126-144 | a read at since is the raw aggregate from the start of that minute |
| RollupTheorems.WindowExact | query/repository.py:126-144 | it is the aggregate from since itself if and only if nothing happened earlier in that minute |
| LatestWindow.WindowViewExact | query/repository.py:53-90 | the latest-version read of a window shows the window of the latest versions, row by row and in every aggregate, if and only if no span of the window has its latest version before it |
| LatestWindow.MovedOutShowsOld | query/repository.py:82-90 | failing input: a replay moves a span back over the window's edge, and the read shows the version it replaced |
| RollupProcess.Database.InsertSpans | scripts/recompute_rollups.py:80-104 | an insert appends rows and one aggregated part |
| RollupProcess.Database.MergeParts | query/repository.py:126-144 | a background merge replaces two parts by their merge |
| RollupProcess.Database.ReplacePartition | scripts/recompute_rollups.py:205-208 | swaps one day's cells for staging's |
| RollupProcess.Database.RecomputeTable | scripts/recompute_rollups.py:177-211 | stage, replace, always drop staging: with others inserting in between it ends in the specified table, and a failure at either step changes no cell |
| TraceTree.ByStartSorts | query/repository.py:1252-1253 | siblings are rearranged in ascending start time, keeping the order of equal starts |
| TraceTree.OneDepth | query/repository.py:1258-1271 | a span hangs below a root at one depth only |
| TraceTree.DepthBound | query/repository.py:1258-1271 | depths stay below the number of spans, so the reference preorder is never cut off |
| TraceTree.TreeDistinct | query/repository.py:1258-1271 | the preorder places each span once |
| TraceTree.SubtreeContiguous | query/repository.py:1222-1271 | each subtree is contiguous: its span, then its children's subtrees in sibling order |
| TraceTree.PlacedIffReachable | query/repository.py:1258-1271 | exactly the spans whose parent links reach the root are placed, at that many steps |
| TraceTree.ParentFirst | query/repository.py:1222-1247 | every placed span but the root stands after its parent, one level deeper |
| TraceOrder.OrderIsPermutation | query/repository.py:1222-1280 | with unique ids and any parent links, cycles included, every span is shown exactly once |
| TraceOrder.ReachedIsPreorder | query/repository.py:1255-1271 | the explicit-stack walk with its cycle guard is exactly the recursive preorder from a root whose parent is absent |
| TraceOrder.TraceShape | query/repository.py:1222-1280 | without empty ids the list is that preorder followed by the unreachable spans in start order, and those are exactly the spans that do not reach the root |
| TraceOrder.ParentsAboveExactly | query/repository.py:1222-1247 | without empty ids, every span whose parent the trace has is shown below it, one level deeper, if and only if every such span hangs below the resolved root |
| TraceOrder.ChildAboveParent | query/repository.py:1222-1280 | concrete trace with two spans lacking their parents: the child of the later one is listed above it |
| TraceOrder.NoAdoptionExactly | query/repository.py:1249-1271 | for any links, no span but the root is placed as the child of an empty id if and only if no reached span has an empty id or only the root has no parent |
| TraceOrder.ResolveRoot | query/repository.py:1196-1206 | returns the first earliest span whose parent is absent, or none if there is none |
| TraceOrder.GroupByParent | query/repository.py:1249-1253 | the grouping and sorting loops give every id its children in stable start order |
| TraceOrder.WalkFrom | query/repository.py:1255-1271 | the stack loop ends on any links and computes the specified walk |
| TraceOrder.OrderTree | query/repository.py:1222-1280 | the whole method computes the specified order |
| TraceOrder.EmptyIdAdoptsRoots | query/repository.py:1249-1271 | concrete trace: a span with an empty id adopts another parentless span |
| SelfTime.SubtreeSelfTime | query/repository.py:958-971 | self times of a subtree sum to at least its top's duration and that of the spans an empty id adopted in it, with equality if and only if nowhere in it children outlast their parent |
| SelfTime.TraceSelfTime | query/repository.py:958-971 | the same for everything the resolved root leads to, for any parent links and any ids |
| SelfTime.SelfTimes | query/repository.py:961-971 | the accumulation loop and the subtraction give each span its duration minus its direct children's, not below zero |
| Pagination.CursorRoundTrip | query/repository.py:1283-1309 | a cursor decodes to the position it encodes if and only if the trace id is not empty; an empty one is refused |
| Pagination.ChunkCount | query/repository.py:853-858 | the page count is max(1, ceil(n / limit)) |
| Pagination.WholeListOnce | query/repository.py:790-858 | following next_cursor over unchanged data lists every trace once, newest first, in that many pages, if and only if no page but the last ends in an empty trace id |
| Pagination.StableTracesOnce | query/repository.py:790-858 | however data changes between requests, nothing is listed twice, pages descend, and a trace present unchanged throughout a finished visit is listed |
| Pagination.NewestFirst | query/repository.py:797-829 | over any visit and changing data, each trace listed started later than every one after it, or at the same time with the greater id |
| Pagination.PageMeans | query/repository.py:790-858 | a page has traces behind the cursor in start time and id and no others, the newest of them, at most limit, and all of them exactly when there is no next cursor |
| Strings.BeforeMeans | query/repository.py:797-801 | ids are compared where they first differ, by character code, a prefix coming first |
| FilterMeaning.BindingsKept | query/filters.py:369-444 | no placeholder name is used twice: every filter and condition finds its own values in the shared parameter dict |
| FilterMeaning.ScopeUndisturbed | query/filters.py:369-444 | filter parameters and the request's own (tenant, project, since, cursor, limit) never overwrite each other |
| FilterMeaning.CompilerPreservesMeaning | query/filters.py:149-444 | the generated clauses under the bound parameters select exactly the rows satisfying every active filter and every valid condition of the stage |
| FilterViews.TracesSelect | query/filters.py:196-252 | the trace list selects exactly: q in one of four columns, each picker equal to its own column, status error outside the six categories and ok in two, durations bounded, and every advanced row on its column or attribute |
| FilterViews.ErrorsSelect | query/filters.py:295-301 | the error list selects the same without status |
| FilterViews.CapabilitiesSelect | query/filters.py:257-284 | capability tables: the name searched and the server equal on rows, errors above zero and at least so many calls on groups |
| FilterViews.ComparisonReads | query/filters.py:149-172 | a rendered comparison has the operator it means |
| FilterViews.TextTestsRead | query/filters.py:149-172 | so has a rendered text test |
| FilterViews.ConstantTestsRead | query/filters.py:174-180 | rendered constant lists and the errors toggle mean what they say |
| FilterViews.AttributeTestsRead | query/filters.py:429-444 | the rendered attribute clause: its scope, and the test on one map entry |
| FilterMeaning.MissingKeyNeverMatches | query/filters.py:424-444 | an attribute condition matches a span if and only if the span has the key and its value passes the test |
| FilterVersions.ClauseSelects | query/filters.py:407-444 | an attribute clause asks whether some stored version of some span of the trace, in scope, passes |
| FilterVersions.SameTracesExactly | query/filters.py:424-444 | for each of is, is_not and contains: every condition selects the same traces from all stored versions as from the latest if and only if what some version had still shows: the value itself; it, or one nobody can ask for, or two different ones; or one it occurs in, trimmed and ignoring case |
| FilterVersions.ShownSameClause | query/filters.py:424-444 | the compiled clause of a condition then holds over all versions exactly when it holds over the latest |
| FilterVersions.OldValueStillSelects | query/filters.py:424-444 | failing inputs for each operator: a replay corrected red to blue, and the compiled clause for red, for not blue, or for containing red still selects the trace, which its latest versions do not |
| FilterMeaning.ZeroIsDropped | query/filters.py:149-153 | a selected row was not asked for if and only if max_duration_ms was zero, which is dropped, and the row took longer than that |
| FilterMeaning.ZeroSelectsEverything | query/filters.py:149-153 | failing input: asked for at most 0 ms, the clauses select every trace, however long it took |
| FilterMeaning.TextIgnoresValues | query/filters.py:149-444 | the SQL text depends on which filters, fragments, fields and operators were chosen, never on a bound value or attribute key |
| FilterRequest.Clause | query/filters.py:149-172 | one filter's fragment, with its binding written into the dict |
| FilterRequest.ConditionClauses | query/filters.py:382-405 | all condition fragments, each under its own index, with their bindings |
| FilterRequest.StageClauses | query/filters.py:369-381 | all fragments and bindings of one stage |
| FilterRequest.ConditionRoundTrip | query/filters.py:468-475 | a field:op:value row reads back as written, whatever colons the value has |
| FilterRequest.ConditionDefaults | query/filters.py:472-473 | a row without an operator asks for equality |
| FilterRequest.ToggleWords | query/filters.py:127-128 | a toggle is on for 1, true, yes and on, in any case, and off otherwise |
| FilterRequest.NumbersRead | query/filters.py:129-138 | durations are any number from zero, call counts whole numbers up to a million, anything else is rejected |
| FilterRequest.TextReads | query/filters.py:139-148 | text is trimmed, rejected beyond 200 characters, and dropped when it is not a picker's choice |
| FilterRequest.ParseValues | query/filters.py:455-465 | a request is rejected if and only if some filter's value is bad; otherwise every filter has exactly its parsed value |
| FilterRequest.Parse | query/filters.py:453-479 | what parsing returns meets the compiler theorem's hypotheses: typed values and at most ten valid conditions |
| SamplingTheorems.EverySpanInOnePlace | mcpobs/sampling.py:120-162 | over any calls, ended spans are as a multiset the forwarded, sampled-out, evicted and waiting ones, and at most max(1, max_traces) traces wait |
| SamplingTheorems.EvictsOldestFirst | mcpobs/sampling.py:151-162 | eviction takes whole traces from the old end, in order, and stops as soon as the bound is met |
| SamplingTheorems.AppendedTraceStays | mcpobs/sampling.py:151-162 | the trace just appended to is still held, with the span at its end |
| SamplingTheorems.WaitsWhole | mcpobs/sampling.py:128-134 | until its root ends, a never-evicted trace waits whole and in end order |
| SamplingTheorems.TraceWholeOrAbsent | mcpobs/sampling.py:120-149 | a never-evicted trace whose root ends last is forwarded whole in end order or not at all, and always whole if the root failed |
| SamplingTheorems.DecidedByMode | mcpobs/sampling.py:140-149 | a failed root's trace goes out whole; a successful one's is left out whole in errors_only whatever the draw, and in percentage goes out whole exactly when the draw is below the rate |
| SamplingTheorems.ErrorsNeverSampledOut | mcpobs/sampling.py:140-149 | no failed root is ever sampled out |
| SamplingTheorems.AllForwardsEverything | mcpobs/sampling.py:121-123 | in mode all every span is forwarded at once, in order |
| SamplingProcess.SamplingSpanProcessor.EvictIfOverCapacity | mcpobs/sampling.py:151-162 | the loop computes the specified eviction |
| SamplingProcess.SamplingSpanProcessor.OnEnd | mcpobs/sampling.py:120-138 | each call is the specified step |
| HeldBuffer.TrimmingComposes | mcpobs-js/src/exporter.ts:98-106 | trimming after every hold is the same as trimming everything once |
| HeldBuffer.NewestReads | mcpobs-js/src/exporter.ts:98-106 | the buffer keeps the last 2000 spans |
| HeldBuffer.OpenOrder | mcpobs-js/src/exporter.ts:98-117 | in the reference buffer, what was released and is still held, merged with what was dropped, is the arrivals in order |
| JsExporter.DeliveredInOrder | mcpobs-js/src/exporter.ts:73-117 | over every interleaving of exports and flushes, pending is the newest min(n, 2000) held since the last drain, and what was handed over plus pending is the arrivals in continuation order with only oldest held spans missing |
| JsExporter.NothingUnaccounted | mcpobs-js/src/exporter.ts:73-155 | every submitted span is waiting for a session, handed over, pending or dropped, and every drop is reported or counted for the next report |
| JsExporter.ReplacedDelegatesShutDownOnce | mcpobs-js/src/exporter.ts:119-143 | each batch goes to a delegate at its session's URL; replacement shuts each replaced delegate down once and the current one never, so exactly once overall if and only if shutdown was not also called while it was current |
| JsExporter.UrlReads | mcpobs-js/src/exporter.ts:119-139 | one trailing slash is dropped before the path is added |
| JsExporter.ShutDownTwice | mcpobs-js/src/exporter.ts:119-143 | failing run: shutdown, then a session at another URL, ends the first delegate twice |
| JsExporter.SessionSpanExporter.Hold | mcpobs-js/src/exporter.ts:98-106 | appends and trims the oldest overflow |
| JsExporter.SessionSpanExporter.Drain | mcpobs-js/src/exporter.ts:108-117 | returns held spans before new ones and empties buffer and counter |
| JsExporter.SessionSpanExporter.DelegateFor | mcpobs-js/src/exporter.ts:119-139 | reuses the delegate for the same URL, else shuts the old one down and creates one |
| JsExporter.SessionSpanExporter.ContinueExport | mcpobs-js/src/exporter.ts:77-95 | an export's continuation is the specified step |
| JsExporter.SessionSpanExporter.ContinueFlush | mcpobs-js/src/exporter.ts:147-153 | a flush's continuation is the specified step, and no step without a session |
| JsExporter.SessionSpanExporter.Shutdown | mcpobs-js/src/exporter.ts:141-143 | shuts the current delegate down and keeps it |
| PyExporter.BufferIsNewestHeld | mcpobs/exporter.py:107-146 | over every interleaving, pending is the newest min(n, 2000) held since the buffer was last emptied, and reports plus counter equal all drops |
| PyExporter.NothingUnaccountedExactly | mcpobs/exporter.py:138-156 | submitted spans are all in flight, in a flush's hands, posted, pending or counted as dropped, if and only if no flush that had taken spans found no session |
| PyExporter.FlushedTooEarlyLoses | mcpobs/exporter.py:138-156 | failing run: a flush takes a held span, finds no session, and the span is neither waiting, posted, buffered nor counted |
| PyExporter.MatchesTypeScriptExactly | mcpobs/exporter.py:138-156 | over all calls between which flushes run whole, the Python exporter has handed over, holds and has dropped exactly what the TypeScript one has, if and only if no flush found spans buffered and no session |
| PyOrder.PostedInOrderExactly | mcpobs/exporter.py:70-104 | over every interleaving of exports and flushes of distinct spans, what is posted stands in arrival order if and only if no flush, between taking the buffer and posting, is overtaken by a non-empty export or by a batch taken later |
| PyOrder.EndpointIsLastNamed | mcpobs/exporter.py:80-92 | over every interleaving, posts go to the endpoint the last continued export named, or to the configured one before that |
| PyOrder.ExportEndpoint | mcpobs/exporter.py:80-104 | an export's batch, held spans first, goes to its own session's endpoint |
| PyOrder.FlushEndpointExactly | mcpobs/exporter.py:138-156 | a flush's batch goes where the last export pointed, and so to its own session's endpoint if and only if that session names none or the same one |
| PyExporter.SlashesStripped | mcpobs/exporter.py:86-92 | all trailing slashes are dropped and nothing else |
| PyExporter.FlushOvertakenExample | mcpobs/exporter.py:138-156 | concrete run: a flush overtaken by an export posts older spans after newer ones, and to the endpoint in use before its session named another |
| PyExporter.SessionSpanExporter.Hold | mcpobs/exporter.py:107-116 | extends and trims the oldest overflow under the lock |
| PyExporter.SessionSpanExporter.Drain | mcpobs/exporter.py:121-136 | returns held spans before new ones; an empty buffer leaves the drop counter unreported |
| PyExporter.SessionSpanExporter.Export | mcpobs/exporter.py:70-104 | export with the provider's answer is the specified step, endpoint included |
| PyExporter.SessionSpanExporter.FlushTaken | mcpobs/exporter.py:148-155 | the second half posts what was taken, or loses it without a session |
| PyExporter.SessionSpanExporter.ForceFlush | mcpobs/exporter.py:138-156 | the two halves together: an empty buffer does nothing, another is emptied and posted or lost |
| SessionTokens.ServedSessionsAreLive | mcpobs/session.py:157-237 | every session returned was minted by a reply since the last invalidate, refreshes at 67.5% to 75% of its life, and had not expired when the call started; a failed refresh keeps and serves a live one |
| SessionTokens.FetchesExactly | mcpobs/session.py:163-200 | a call fetches if and only if it holds no session younger than its refresh time and, after k failures in a row, min(300, 5 * 2^min(k, 6)) seconds have passed, invalidate or not |
| SessionTokens.EndpointNotHammered | mcpobs/session.py:192-216 | n >= 6 failing fetches in a row take at least 310 + 300 (n - 6) seconds to start |
| SessionTokens.DelayReads | mcpobs/session.py:192-216 | the waits are 10, 20, 40, 80, 160 and then 300 seconds |
| SessionTokens.FetchReads | mcpobs/session.py:218-237 | a reply yields a session exactly when its token is not empty and its lifetime is positive |
| SessionTokens.SessionProvider.TryFetch | mcpobs/session.py:192-216 | counts failures and sets the next attempt, or clears both |
| SessionTokens.SessionProvider.Current | mcpobs/session.py:157-180 | the branches compute the specified answer and state |
| QuotaStore.PurgeInvisible | control/quota.py:141-152 | every increment returns what a store that never purges returns |
| QuotaStore.TotalIsSum | control/quota.py:141-152 | while a key's first entry has not expired, an increment returns the sum of everything added to it |
| QuotaStore.PurgeReads | control/quota.py:148-151 | beyond ten thousand entries nothing expired is kept, below it everything is |
| QuotaStore.LocalStore.IncrLocal | control/quota.py:141-152 | the method computes the specified entry, purge and total |
| Quota.KeysNeverCollide | control/quota.py:184-188 | counter keys are equal if and only if tenant and minute, or tenant and day, are; minute and day keys never meet |
| Quota.CounterKeysRead | control/quota.py:184-188 | the keys as written: tenant, date, and for a minute's counter hour and minute |
| Quota.DateReads | control/quota.py:184-188 | a date reads year, month and day in that order |
| Quota.OpsRead | control/quota.py:184-188 | the minute's counter lives 120 seconds, the day's 172800 |
| Quota.PlanLimits | control/quota.py:61-66 | each plan's two limits; no plan and unknown plans are trial |
| Quota.MeteredMeans | control/quota.py:175-182 | an override comes before the plan; nothing is counted without spans or without limits |
| Quota.NoResetInsideWindow | control/quota.py:185-188 | with clocks at most a minute apart in drift, no key is reset inside its minute or day, since 120 > 60 and 172800 > 86400 |
| Quota.DaysCount | control/quota.py:184-209 | the day number that times are measured by grows by one from each calendar date to the next, over month ends, leap days and year ends |
| Quota.RefusedExactly | control/quota.py:181-218 | a request is refused if and only if the spans its tenant has sent in its minute or day, refused ones included, exceed a limit other than zero |
| Quota.VerdictExactly | control/quota.py:190-218 | the flag goes up exactly with an admitted request that leaves a limited window more than four fifths full; the verdict names the window that refused and carries both totals and limits |
| Quota.AdmittedWithinLimit | control/quota.py:163-218 | under a fixed limit other than zero, no tenant gets more than it admitted in one minute or one day |
| Quota.OnceRefusedStaysRefused | control/quota.py:190-209 | once a window's limit has refused, every later non-empty request in it under the same or a lower limit is refused |
| Quota.SoftFlagPrecedesRefusal | control/quota.py:70-76 | when no request exceeds a fifth of a limit, the first refusal under it comes after an admitted request that carried the soft flag |
| Quota.RetryReachesNextWindow | control/quota.py:190-209 | waiting as long as a refusal says lands past the minute, or the day, that refused, by less than a second |
| Quota.QuotaEnforcer.Check | control/quota.py:163-218 | counts in both windows before ruling, and rules as specified |
| Stamp.TrustedIdentity | ingest/app.py:267-277 | trusted keys are distinct and name the principal's tenant and project and the region, whatever the session attributes are called |
| Stamp.TrustedReads | ingest/app.py:267-277 | the names written: tenant.id, project.id, data.region, and each session attribute under mcpobs.session. |
| Stamp.FlagReads | ingest/app.py:278-289 | untrusted attributes first, then the trusted ones, then the soft-quota flag exactly when asked for |
| Stamp.KeysAfterStamp | ingest/app.py:278-289 | every trusted key occurs exactly once with its trusted value; every other key keeps its occurrences, but for the soft-quota flag |
| Stamp.UntrustedSurvive | ingest/app.py:278-289 | untrusted attributes survive in order |
| Stamp.RestampExactly | ingest/app.py:253-290 | stamping again without the soft flag changes nothing if and only if the first stamp did not set it |
| Stamp.ReadersAgreeExactly | normalizer/otlp_decode.py:76-77 | first-match and last-wins readers both yield the principal's tenant, and so agree, if and only if it is not empty; the project is read back likewise |
| Stamp.StampedRow | ingest/app.py:253-290 | the row built of a span under a stamped resource carries the principal's tenant and project |
| Stamp.StampedRequest | archiver/archiver.py:241-251 | a stamped request is archived whole under its principal's tenant alone, every span untouched |
| Stamp.Restamp | ingest/app.py:278-289 | the in-place rewrite of one message computes the specified attributes |
| Stamp.StampParsed | ingest/app.py:253-290 | every message of the request is stamped in place |
| Stamp.CountSpans | ingest/app.py:213-219 | the nested loops count every span of every scope of every message |
| SqlComments.CleanLineHasNoComment | normalizer/migrations.py:183-200 | a cleaned line is a prefix of what precedes the first -- outside its quotes, and has no comment left |
| SqlComments.QuotesProtect | normalizer/migrations.py:188-194 | three characters quote: dashes between two of them stay, between any other two they start a comment |
| SqlComments.StatementsAre | normalizer/migrations.py:203-212 | the statements are the non-blank pieces between semicolons of the comment-free text, trimmed, in order, with nothing else lost |
| SqlComments.StripIsIdempotent | normalizer/migrations.py:170-212 | stripping stripped text changes nothing, and statements do not depend on how often it was done |
| SqlComments.MultiLineLiteralCut | normalizer/migrations.py:170-201 | concrete migration text without any comment: a literal over two lines loses its end |
| SqlComments.LineCutExact | normalizer/migrations.py:183-200 | after any text, the next line, whatever it is, is cut where the whole text has its first comment on it, if and only if no literal is open at the line's start |
| SqlComments.StripRemovesComments | normalizer/migrations.py:170-201 | when every literal ends on its line, stripping takes out exactly the text's comments, with trailing white space and the lines left empty |
| SqlComments.CutLine | normalizer/migrations.py:184-198 | the scanner loop cuts exactly at the first comment |
| SqlComments.Strip | normalizer/migrations.py:170-201 | the whole loop computes the specification |
| Migrations.DiscoverKeepsVersions | normalizer/migrations.py:112-130 | discovery yields the last file of each version, overrides after the base, in version order; overrides never change which versions there are, and discovery fails if and only if one would |
| Migrations.RecordedMeansExecuted | normalizer/migrations.py:90-110 | over every sequence of deployments interrupted after any effect, a ledger row comes right after all of its migration's statements, in order |
| Migrations.RecordedOnce | normalizer/migrations.py:94-110 | no version is ever recorded twice |
| Migrations.RunRecords | normalizer/migrations.py:106-110 | one run, cut anywhere, adds only migrations it found and the ledger lacked, in version order |
| Migrations.EditedMigrationAborts | normalizer/migrations.py:97-104 | a file whose checksum changed after it was recorded stops every later run before any statement |
| Migrations.SecondRunAppliesNothing | normalizer/migrations.py:90-110 | after a completed run every version found is in the ledger, and running again to any point applies nothing and does not fail |
| Migrations.Apply | normalizer/migrations.py:166-168 | statements in order and then the ledger row, stopping where the connection fails |
| Migrations.Run | normalizer/migrations.py:90-110 | the method performs exactly the specified effects, raises in exactly the failing cases, and returns the applied names |
| Payload.SecretsGone | mcpobs/payload.py:172-185 | at any depth, a field with a sensitive name holds the marker and nothing else |
| Payload.SensitiveReads | mcpobs/payload.py:32-64 | which names are sensitive: those containing one of fifteen words in any case, but for progressToken |
| Payload.MediaReads | mcpobs/payload.py:192-198 | three types of block are summarised, under the label [type omitted] |
| Payload.PathsSurvive | mcpobs/payload.py:172-198 | every path that meets no sensitive name and no summarised media content survives, with strings scrubbed, other scalars, list lengths and names kept |
| Payload.MediaOmitted | mcpobs/payload.py:192-198 | an image, audio or blob item of a list loses its content and names its type |
| Payload.ItemIsScrubbedSummary | mcpobs/payload.py:179-182 | a list item is summarised and then scrubbed |
| Payload.RedactionIsIdempotent | mcpobs/payload.py:172-198 | redacting twice is redacting once, when the text scrub is idempotent and marks what it changes |
| Payload.Render | mcpobs/payload.py:152-170 | reports the full length; shows the whole text, or exactly its first max_chars characters and a suffix naming how many are missing |

## Left out

- Consumer-group rebalances, log compaction and retention: partition logs are contiguous from offset 0 and one consumer reads them all.
- ClickHouse's finite deduplication window: every token is remembered for good.
- Failing dead-letter writes: `dead_letter` logs and goes on when both its targets fail; the model counts a message as dead-lettered when it is passed on.
- Dead letters carry a reason, a position and the payload; the length limits on stored text are not modelled.
- The `ingested_at` column, `anyLast` columns, quantile estimates and the `trace_summaries` table: durations are kept as multisets, counts and extremes.
- Kafka, S3, ClickHouse, HTTP, zlib, protobuf, JSON and base64: logs, maps and lists, with encoders taken as invertible where a round trip needs it.
- The scope conditions of the latest-version read, and the further sums of `overview` over the rollup: the view and the cells are modelled whole, windows as `RollupTheorems.WindowReadsWholeMinutes` says.
- TraceOrder.TraceShape: for traces without empty ids; with one, the adopted spans follow `NoAdoptionExactly`.
- TraceOrder.NoAdoptionExactly and TraceOrder.ParentsAboveExactly: span ids are unique, as the grouping by span id makes them.
- The outer shape of the trace list query (grouping by trace): pages are modelled on the resulting (start time, trace id) pairs.
- Floating point: times, rates and self times are exact numbers; rounding to three decimals, NaN and infinities are not modelled.
- Unicode case folding: names are folded in ASCII only.
- SamplingSpec: calls to `on_end` are taken one at a time, though the source forwards kept spans after it releases its lock; an equal span ending twice is counted twice.
- PyExporter.MatchesTypeScriptExactly: flushes run whole in it; flushes that others overtake are `PyOrder.PostedInOrderExactly`.
- PyOrder.PostedInOrderExactly: takes submitted spans to be distinct, so that an order among them is defined.
- PyExporter.SessionSpanExporter.Export: the endpoint write, the drain and the post are one step, so a flush that posts between them, to the new endpoint, is no run of the model.
- JsExporter and PyExporter: what the delegate does with a batch, and the `invalidate` call after a failed export, belong to the collector side and to `SessionTokens`.
- SessionTokens: `headers` callbacks, the endpoint scheme check and HTTP errors are all a failed fetch; a token is the text it renders to.
- Quota: the Redis path, which has no local state, and the wording of refusals.
- Quota.NoResetInsideWindow: requires that the monotonic clock is past zero and gains at most 60 s on the wall clock between two requests; with a larger jump a key can outlive or miss its window.
- Stamp: authentication, request limits and forwarding; a soft-quota flag sent by a customer is an untrusted attribute like any other and survives.
- Migrations: concurrent runners; a file changing between the two discoveries of one run; hashing is any function of the text.
- SqlComments.LineCutExact and SqlComments.StripRemovesComments: literals end at the next quote of their kind; a quote escaped by a backslash, which ClickHouse would read on over, ends one here as it does for the source's scanner.
- SqlComments: statements are split on every semicolon left after comments are stripped, quoted ones included, as the source does.
- Payload: `scrub` is any function on strings, with the two properties `RedactionIsIdempotent` names; negative preview limits, and result objects that are not JSON.
- `taxonomy.py`, the classifiers, URL and SQL label parsing, key and session signing, the console, the demo server and the FastAPI wiring: decision tables, library cryptography or plumbing.
