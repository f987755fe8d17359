# Market-data ingest: a verified model

This project models the parts of the ingest, normalise and storage pipeline
whose correctness is decided by code rather than by I/O, and proves what those
parts promise over every input, every run or every interleaving.

| module | what it models |
|---|---|
| `DepthBook`, `DepthSync` | the Binance local order book: snapshot plus buffered diffs, judged against a history of exchange updates |
| `Publication`, `PublicationProgress` | concurrent L1 publishers, conditional pointer writes, and readers, as interleaved steps over one object store |
| `WindowScheduler`, `TickSequence` | which window the normalizer runs next, live priority, the drain loop of one tick, and tick after tick |
| `Bootstrap`, `BootstrapScheduler` | the supervisor's chunk grid, sub-chunks, and the crash-restart scheduler whose only durable state is markers |
| `Pagination` | the aggTrades backfill loop |
| `Partitioning`, `ObjectKeys`, `L0Sink` | hour partitions, object keys, the readers' pruning and listing, and the L0 sink |
| `StableSort`, `SliceFinalize`, `SliceIngest` | folding events into a slice and finalising it |
| `AsOf` | derivative deltas and their as-of lookups |
| `Retention` | age-based deletion, and why it never reaches a bootstrap marker |
| `Arithmetic`, `Times`, `Wrappers` | division facts, i64 times and ranges, the optional value |

Code that updates state in place is a class or a method with loops, proved
equal to a function on values or to a stated property; the theorems are about
those functions. The publication protocol is a state machine because its hard
part is interleaving.

`dafny verify dfyconfig.toml` checks the whole project.

## What the code does that its name or documentation does not suggest

- A snapshot that does not parse still sets `last_update_id` (book.rs:10-12), so
  the book counts as synced. `DepthSync.SnapshotIsTrueIff` gives the exact
  condition where the buffered diffs do not reach back to the first updates,
  `DepthSync.UnparsedSnapshotMisleads` a run in which it fails, and
  `DepthSync.RunIsSafe` says how long it lasts: until a gap or a malformed diff
  clears the book.
- After a live-priority run the drain loop clears the oldest L0 object
  (drain.rs:26). With no L1 success on record a ready backlog is then not run in
  that tick: `WindowScheduler.EveryReadyWindowRunsIff` says exactly when,
  `WindowScheduler.LivePriorityForgetsOldest` shows a tick.
- Every tick starts from the newest success on record (drain.rs:16-17), and live
  priority publishes ahead of the backlog. A tick that stops before its cursor
  reaches its live window leaves a gap no later tick fills:
  `TickSequence.TicksLeaveNoGapIff`, `TickSequence.JumpsIff`.
- A CATCH-UP scan reaches into the future exactly when the scan margin is wider
  than the interval: `WindowScheduler.CatchUpScansThePastIff`.
- A flush takes the buffer out before the local write, so a failed write loses
  its records: `L0Sink.L0StorageSink.Perform` says exactly what is lost.
- The S3 reader lists fixed gap types; reconnect and empty-range gap alerts are
  written and never listed: `ObjectKeys.NeverListedIff`.
- The first delivery under an event id wins. An id is venue, event type, ingest
  time and the producer's own ordinal (record.rs:57-60), so events of two runs
  can share one; `SliceIngest.PublishesAlikeIff` says exactly when that shows.
- A delta's known-as-of time is its own row's ingest time, although the values it
  is compared with may have been ingested later: `AsOf.KnownAsOfHoldsIff`.
- Two observations of one key at one time leave their arrival order visible in
  the deltas: `AsOf.DeltasIgnoreArrivalIff`. Slices have no such case:
  `SliceFinalize.FinalizeCanonicalIff` is met by every row that ingest builds,
  `SliceIngest.IngestedRowIsArrivalIndependent`.
- Retention plans without deduplication. With overlapping prefixes a run that
  hits its limit could delete fewer keys (`Retention.StreamingDeletesAlikeIff`);
  the program only ever uses the default prefixes, which do not overlap, so in
  the program it never does (`Retention.RunDeletesAlike`).

## Model

| member | source | states |
|---|---|---|
| `DepthSync.LocalOrderBook.SyncFromSnapshot` | crates/crypto-market-data/src/depth_sync/book.rs:6-56 | snapshot load, pre-filter, alignment check and in-place replay together equal one skip/gap/apply fold over the unfiltered buffer, for every outcome |
| `DepthSync.LocalOrderBook.AlignAndReplay` | crates/crypto-market-data/src/depth_sync/book.rs:13-55 | the pre-filter and first-event check are invisible: same book, id, buffer and alert as the plain fold |
| `DepthSync.LocalOrderBook.ReplayBuffered` | crates/crypto-market-data/src/depth_sync/book.rs:32-55 | the replay loop computes the fold; a gap leaves just the offending event buffered, a malformed event leaves no book |
| `DepthSync.LocalOrderBook.ApplyDepthDelta` | crates/crypto-market-data/src/depth_sync/book.rs:58-81 | a diff is applied wholly or, if any level fails to parse, not at all |
| `DepthSync.ParseSnapshotLevels` | crates/crypto-market-data/src/depth_sync/book.rs:131-145 | the loaded side keeps positive quantities only, the later of two levels at one price winning |
| `DepthSync.ParseLevelUpdates` | crates/crypto-market-data/src/depth_sync/book.rs:83-111 | a result exactly when every price and quantity parses, and then every level in its place with its own price and quantity |
| `DepthBook.ParseLevelsMeans` | crates/crypto-market-data/src/depth_sync/book.rs:83-111 | the same of the function the theorems are stated through: Some exactly when every level is readable, of the same length, level by level |
| `DepthSync.ParseSnapshotMeans` | crates/crypto-market-data/src/depth_sync/book.rs:131-145 | a snapshot side parses exactly when every level does; a price is present exactly when some level rests a positive quantity there, and holds the last such quantity |
| `DepthSync.RetainFresh` | crates/crypto-market-data/src/depth_sync/book.rs:13-16 | exactly the events beyond the snapshot id, in order |
| `DepthSync.LocalOrderBook.HandleSyncedEvent` | crates/crypto-market-data/src/depth_sync/sync/event.rs:9-40 | stale events change nothing, a gap restarts synchronisation with that event, a malformed event restarts it empty |
| `DepthSync.LocalOrderBook.BufferUnsyncedEvent` | crates/crypto-market-data/src/depth_sync/sync/event.rs:42-66 | at capacity the buffer restarts with the new event |
| `DepthSync.LocalOrderBook.HandleDiffDepthEvent` | crates/crypto-market-data/src/depth_sync/sync.rs:15-59 | one event and the snapshot fetch it may trigger take the state one step along the run |
| `DepthSync.FetchMeans` | crates/crypto-market-data/src/depth_sync/sync/snapshot.rs:10-59 | when a snapshot is asked for and what becomes of it: after a failed fetch none until the book is reset, after an alert again at the next chance; otherwise none is used |
| `DepthBook.FoldIgnoresStale` | crates/crypto-market-data/src/depth_sync/book.rs:13-16 | dropping events at or below an id already reached changes nothing in the replay |
| `DepthBook.FoldShape` | crates/crypto-market-data/src/depth_sync/book.rs:32-55 | ids never go back, quantities stay positive, a finished replay reaches the newest id on offer |
| `DepthBook.ApplyLevelsAt` | crates/crypto-market-data/src/depth_sync/book.rs:70-81 | level updates are absolute: a price's earlier quantity matters only if no level names it |
| `DepthBook.PlainDiffIsFaithful` | crates/crypto-market-data/src/depth_sync/book.rs:58-81 | the faithfulness assumption on diffs is met by listing the exchange's own updates |
| `DepthBook.FaithfulLevelsAgree` | crates/crypto-market-data/src/depth_sync/book.rs:58-81 | a diff straddling the local id keeps every agreeing price in agreement with the exchange and corrects every price it names |
| `DepthBook.FoldAgrees` | crates/crypto-market-data/src/depth_sync/book.rs:32-55 | agreement with the exchange at a price survives any replay |
| `DepthBook.FoldIsExchangeBook` | crates/crypto-market-data/src/depth_sync/book.rs:32-55 | a book equal to the exchange's stays equal to it, whatever stops the replay |
| `DepthSync.SyncRefinesExchange` | crates/crypto-market-data/src/depth_sync/book.rs:6-56 | Ok and both gap alerts leave the exchange's book at the claimed id; Ok empties the buffer and reaches its newest id |
| `DepthSync.SyncIsSnapshotIndependent` | crates/crypto-market-data/src/depth_sync/book.rs:6-56 | two snapshots that synchronise over one buffer and end at one id give one book |
| `DepthSync.SyncSucceedsIff` | crates/crypto-market-data/src/depth_sync/book.rs:17-55 | over an unbroken buffer, Ok exactly when the snapshot reaches the first event |
| `DepthSync.AlertsAreExact` | crates/crypto-market-data/src/depth_sync/book.rs:17-55 | each alert's expected and observed id are the id after the book's own and the first id of the event that broke the sequence; a parse alert is raised exactly for a snapshot that does not parse |
| `DepthSync.TruncatedSnapshotAgrees` | crates/crypto-market-data/src/depth_sync/book.rs:6-56 | with a snapshot cut to its best levels, every price it had right stays right |
| `DepthSync.RunIsSafe` | crates/crypto-market-data/src/depth_sync/sync.rs:15-59 | over every run of diffs in any order and fetches that succeed, fail or do not parse, the buffer keeps its bound, an unsynced book is empty, and a synced book is the exchange's book unless it dates from a snapshot that did not parse |
| `DepthSync.TaintHasCause` | crates/crypto-market-data/src/depth_sync/book.rs:10-12 | only a fetched snapshot that does not parse can cause that exception |
| `DepthSync.SnapshotIsTrueIff` | crates/crypto-market-data/src/depth_sync/book.rs:10-12 | given a history that explains snapshot and buffered diffs and has, before the buffer reaches back, made more updates than it left levels: the book is true of every history that explains both exactly when the snapshot parses |
| `DepthSync.UnparsedSnapshotFitsALie` | crates/crypto-market-data/src/depth_sync/book.rs:10-12 | any such history has a twin, faithful to the same snapshot and buffer, of which the book left by an unparsed snapshot is false |
| `DepthSync.BufferMayVouch` | crates/crypto-market-data/src/depth_sync/book.rs:10-12 | without that room a buffer reaching back to the first update can make the claim of an unparsed snapshot true of every history |
| `DepthSync.UnparsedSnapshotMisleads` | crates/crypto-market-data/src/depth_sync/book.rs:10-12 | a run in which the book counts as synced and is wrong |
| `Publication.PublicationIsSafe` | src/normalize/publish/manifest_index.rs:21-94 | in every interleaving with crashes, lost answers and late requests, a stored pointer's manifest, and a stored manifest's report and every output it names, exist |
| `Publication.PointerWritesCompareAndSwap` | src/storage/s3_upload/put.rs:25-105 | each effective pointer write replaced exactly the value (or absence) its own call had observed earlier, whatever was retried, delayed or lost, so no unseen pointer is overwritten |
| `Publication.PointerWrittenOnce` | src/storage/s3_upload/put.rs:25-105 | with distinct run ids a pointer never takes the same body twice and each pointer call takes effect at most once, through all retries and late deliveries |
| `Publication.ReaderSeesOneRun` | src/normalize/l1_reader.rs:38-55 | a reader fetching pointer, manifest and report at three different times meets no missing object and no mixture of runs, and is refused exactly for no success, no coverage or no slices |
| `Publication.RunKeepsInv` | src/normalize/publish.rs:25-113 | the protocol invariant (every finished step is in the store, every stored body has its author, every sight is true of the log) holds in every reachable state |
| `Publication.ListIndexWindowStarts` | src/normalize/publish/manifest_index/index.rs:31-49 | the cursor loop, overflow exit included, lists the window starts of the range |
| `Publication.IndexedIff` | src/normalize/publish/manifest_index/index.rs:31-49 | a range is indexed under exactly the window starts of its grid that lie in it |
| `PublicationProgress.UndisturbedPublisher` | src/normalize/publish/manifest_index.rs:21-94 | from any past and for any well-formed job there are steps after which its outputs, report and manifest are stored, for Success and Empty the pointers of exactly the windows of the range hold its run, status, range and manifest, and every other pointer is as before |
| `PublicationProgress.FinishedSuccessIsReadable` | src/normalize/l1_reader.rs:38-55 | after that, a reader asking for any part of a success's range through any of its windows is given that run and its slices |
| `PublicationProgress.RetriesAreBounded` | src/storage/s3_upload/put.rs:25-105 | in every interleaving a call sends at most four requests, and after a lost reply it can send again exactly when it has sent fewer |
| `WindowScheduler.DecisionsAreClosed` | src/normalize/mode/decision.rs:12-94 | every window taken from the clock is aligned, one interval wide, and closed by the watermark or a whole interval; LIVE scans, and CATCH-UP scans with a margin within the interval, end by now |
| `WindowScheduler.LiveSelectedIff` | src/normalize/mode/decision.rs:12-49 | live priority selects the window ending at the last whole interval exactly when it is on, no range is given, the watermark is past, and the last success lags by the threshold |
| `WindowScheduler.SequentialSelectedIff` | src/normalize/mode/decision.rs:51-94 | which window sequential work selects and in which mode, on the floored last success or else the oldest object |
| `WindowScheduler.BackfillSelectedIff` | src/normalize/mode/decision.rs:57-63 | an explicit range is selected as it stands exactly when it is ordered, not negative and aligned, and refused otherwise |
| `WindowScheduler.ReadReachesBack` | src/normalize/run/decision.rs:33-47 | a scan starts a margin before the window; a read starts early enough for the one-hour lookup of every instant of the window when the lookback is at least an hour |
| `WindowScheduler.WideMarginScansTheFuture` | src/normalize/run/decision.rs:33-47 | a margin wider than the interval makes a CATCH-UP scan end after now |
| `WindowScheduler.CatchUpScansThePastIff` | src/normalize/run/decision.rs:33-47 | CATCH-UP scans never pass now exactly when the margin is at most the interval |
| `WindowScheduler.DecideModeAtCursor` | src/normalize/mode/decision.rs:51-94 | from an aligned cursor the next window is selected exactly when it is ready, and is that window |
| `WindowScheduler.FloorDecidesAlike` | src/normalize/mode/range.rs:3-9 | an unaligned cursor or an oldest object decides as its floor does |
| `WindowScheduler.ReadyIffBeforeLastBoundary` | src/normalize/mode/decision.rs:65-93 | readiness is the same as lying before the last boundary the clock and watermark allow |
| `WindowScheduler.IterateStops` | src/normalize/mode/decision.rs:51-94 | iteration stops exactly at the last boundary, or at once when past it |
| `WindowScheduler.IterateSteps` | src/normalize/mode/decision.rs:51-94 | the k-th selected window is the k-th window of the grid |
| `WindowScheduler.CatchUpTilesTime` | src/normalize/mode/decision.rs:51-94 | sequential catch-up tiles time from the floored cursor to the last boundary in (final - start) / interval steps |
| `WindowScheduler.Worker.RunLivePriorityDecision` | src/normalize/run/window.rs:51-74 | runs the live window exactly when one is selected and its run succeeds, idles exactly when none is ready; the cursor moves only when the window starts right at it |
| `WindowScheduler.Worker.RunNextReadyDecision` | src/normalize/run/window.rs:76-102 | completes the next window exactly when one is selected and its run succeeds or live priority ran that very range, idles exactly when none is ready |
| `WindowScheduler.Worker.DrainSequential` | src/normalize/run/worker/drain.rs:40-91 | the loop, with shutdown polls, window limit, failures and a clock read afresh each turn, does exactly what the value-level loop does |
| `WindowScheduler.Worker.DrainReadyWindows` | src/normalize/run/worker/drain.rs:11-91 | one tick equals the value-level tick the theorems below are about: how it ends, its cursor and the ranges it ran |
| `WindowScheduler.TickIsAccounted` | src/normalize/run/worker/drain.rs:11-91 | every tick ran the live window, then the first m windows from its floored cursor without it, with the cursor m windows on, or empty if there was nothing to start from; each way of stopping has its cause in the poll, limit, clock or run of the very turn it stopped at |
| `WindowScheduler.QuietTickDrainsIff` | src/normalize/run/worker/drain.rs:40-91 | with a standing clock, no failure and no shutdown, a tick ends by itself exactly when the turns it needs fit under the limit, and else at the limit |
| `WindowScheduler.UndisturbedTick` | src/normalize/run/worker/drain.rs:11-91 | such a tick, when it drains, ran the live window and exactly the ready windows, each once; with a success on record, exactly the ready windows |
| `WindowScheduler.EveryReadyWindowRunsIff` | src/normalize/run/worker/drain.rs:21-28 | such a tick leaves a ready window out exactly when there is no success on record, live priority is selected, and the oldest object lies more than one window before the last boundary |
| `WindowScheduler.EachWindowOnce` | src/normalize/run/window.rs:51-102 | of the live window and the first n windows without it nothing occurs twice and each occurs |
| `WindowScheduler.LivePriorityForgetsOldest` | src/normalize/run/worker/drain.rs:21-28 | a tick in which two windows are ready, only the newer is run, and nothing is left to start from |
| `TickSequence.TicksLeaveNoGapIff` | src/normalize/discovery/pointer.rs:17-45 | over any sequence of ticks, each starting from the newest success on record, no slot before the newest success is missing exactly when none was at the start and no tick stopped short of its live window; a gap stays for good |
| `TickSequence.TickKeepsGapless` | src/normalize/run/worker/drain.rs:16-28 | one tick keeps everything before the newest success published exactly when its cursor reached its live window |
| `TickSequence.JumpsIff` | src/normalize/run/worker/drain.rs:40-62 | an undisturbed tick stops short of its live window exactly when the backlog before it is at least the window limit |
| `TickSequence.LiveOnlyJumpsIff` | src/normalize/run/worker/drain.rs:29-38 | a live-priority-only worker does so whenever its live window is not the next one |
| `TickSequence.WithoutLivePriority` | src/normalize/mode/decision.rs:17-19 | a tick of a worker without live priority runs no live window and never jumps |
| `TickSequence.FirstTickStartsAtOldest` | src/normalize/run/worker/drain.rs:16-20 | with no success on record, an undisturbed tick without live priority runs each window ready from the oldest L0 object on once, and no other |
| `TickSequence.BacklogIsSkipped` | src/normalize/run/worker/drain.rs:16-28 | a tick after which two ready windows are never run |
| `Bootstrap.BootstrapChunks` | src/supervisor/bootstrap/chunk.rs:9-36 | the cursor loop yields the grid: never empty, contiguous, equally wide, starting the lookback before its newest end, and that end is the last chunk boundary at least an hour old |
| `Bootstrap.GridLiesInTime` | src/supervisor/bootstrap/chunk.rs:9-36 | the same of the grid the theorems are stated through |
| `Bootstrap.ChunksBetween` | src/supervisor/bootstrap/chunk.rs:23-35 | between aligned bounds no chunk is cut short |
| `Bootstrap.GridIsStable` | src/supervisor/bootstrap/chunk.rs:9-36 | two clock readings in one cell name the same chunks |
| `Bootstrap.GridMovesByCells` | src/supervisor/bootstrap/chunk.rs:9-36 | k cells later the k oldest chunks are gone and all others keep their place, so markers keep naming them |
| `Bootstrap.NormalizeSubchunks` | src/supervisor/bootstrap/chunk.rs:38-60 | the loop, saturation and early exits included, yields the sub-chunks of the chunk |
| `Bootstrap.SubchunksTile` | src/supervisor/bootstrap/chunk.rs:38-60 | sub-chunks tile their chunk end to start; all but the last are exactly one interval long and the last no longer |
| `Bootstrap.SubchunksAcceptedIff` | src/supervisor/worker_args.rs:148-160 | all sub-chunks pass the normalizer's range validation as BACKFILL exactly when both chunk ends lie on the interval |
| `Bootstrap.GridChunksAccepted` | src/normalize/mode/decision.rs:57-63 | with an interval dividing the chunk width, every chunk of the grid from time zero on is accepted |
| `BootstrapScheduler.Supervisor.HasL1Success` | src/supervisor/bootstrap/marker.rs:45-69 | answers yes exactly when the pointer read is there, says success, and holds this very start and end |
| `BootstrapScheduler.Supervisor.MarkL0Success` | src/supervisor/bootstrap/marker.rs:71-86 | called only when some backfill child of the chunk exited successfully; the marker is there afterwards exactly if it was or the put was applied |
| `BootstrapScheduler.Supervisor.MarkComplete` | src/supervisor/bootstrap/marker.rs:88-104 | called only with the L0 marker present and every sub-chunk shown normalized by a recorded reply; the marker is there afterwards exactly if it was or the put was applied |
| `BootstrapScheduler.Supervisor.RunBackfillChild` | src/supervisor/scheduler/child.rs:14-53 | starts only for a chunk without L0 marker; success exactly when the child exits successfully and no shutdown is pending |
| `BootstrapScheduler.Supervisor.RunNormalizeChild` | src/supervisor/scheduler/child.rs:83-112 | success exactly when the normalizer exits successfully and no shutdown is pending |
| `BootstrapScheduler.Supervisor.RunL1NormalizeChunk` | src/supervisor/scheduler/child.rs:55-117 | true only when for every sub-chunk some reply on record is a matching success pointer or a successful normalizer exit |
| `BootstrapScheduler.Supervisor.EnsureL0` | src/supervisor/scheduler/chunk.rs:28-41 | no L0 restart once its marker exists; true only with the marker there |
| `BootstrapScheduler.Supervisor.RunBackfillChunk` | src/supervisor/scheduler/chunk.rs:11-56 | no L0 restart once its marker exists, no other chunk's markers touched, true only with the chunk complete, and true whenever nothing fails |
| `BootstrapScheduler.Supervisor.NextMissingBootstrapChunk` | src/supervisor/bootstrap/selection.rs:6-16 | selects the oldest chunk without a complete marker in the grid of the clock it read, or finds none missing there |
| `BootstrapScheduler.Supervisor.RunBackfillScheduler` | src/supervisor/scheduler.rs:33-63 | keeps the recovery invariant through failures and shutdown; returns Ok only on shutdown or with no chunk missing from a grid read during this very call; with nothing failing and a standing clock it completes the grid in one round per missing chunk and one more |
| `BootstrapScheduler.Supervisor.RunSupervisor` | src/supervisor/mod.rs:109-143 | full normalisation takes over only when no chunk of a grid read in this life was missing, and does take over when nothing fails |
| `BootstrapScheduler.Supervisor.LiveAndDie` | src/supervisor/mod.rs:33-155 | across any number of crashes and restarts no marker is lost, no marked chunk is backfilled or selected again, and complete implies the L0 marker, a successful backfill exit on record, and for every sub-chunk a matching pointer or successful normalizer exit on record |
| `Pagination.SymbolBackfill.BackfillSymbol` | src/backfill/binance/runner/symbol.rs:8-79 | a finished run appended exactly the trades with start <= time <= end, in order, and its report says how many, the first and last time, the status, and one gap alert exactly for none; failure only with a failed fetch or append |
| `Pagination.SymbolBackfill.AppendPage` | src/backfill/binance/runner/symbol.rs:101-122 | appends exactly the page's trades in range, stops exactly when one lies past the end, and fails exactly when an append of this page failed |
| `Pagination.SymbolBackfill.AppendNextPage` | src/backfill/binance/runner/symbol.rs:52-64 | a page by id moves the position by its length; stopping early means nothing in range is left; fails exactly when an append failed |
| `Pagination.SymbolBackfill.Paginate` | src/backfill/binance/runner/symbol.rs:39-73 | the cursor loop terminates and has appended everything in range, unless a fetch or append failed |
| `Pagination.SymbolBackfill.AppendNoTradeGap` | src/backfill/binance/runner/symbol.rs:81-99 | the report notes the gap even if storing the gap record fails |
| `Pagination.LocateInRange` | src/backfill/binance/runner/symbol.rs:17-43 | the last trade of the page by time marks a position in the log with exactly that page in range before it |
| `Pagination.FromIdSkips` | src/backfill/binance/runner/symbol.rs:45-51 | asking from the id after a trade yields exactly the log after it |
| `Pagination.ObservedExtendsSummary` | src/backfill/report.rs:31-44 | observing trades in order keeps count, first and last time those of the trades observed |
| `Partitioning.HourlyParts` | src/normalize/input_keys/time.rs:8-25 | the loop lists the hours of the range, saturation included |
| `Partitioning.PruningLosesNothing` | src/normalize/input_keys/time.rs:8-25 | the partition of every record in the range is listed |
| `Partitioning.ListedHoursMeetRange` | src/normalize/input_keys/time.rs:8-25 | every listed hour holds an instant of the nonempty range |
| `Partitioning.NoHourTwice` | src/normalize/input_keys/time.rs:8-25 | within the calendar no hour is listed twice |
| `Partitioning.SameHourSamePart` | src/storage/partition/compute.rs:71-78 | a timestamp and the start of its hour share a partition |
| `Partitioning.TimePartsMeans` | src/storage/partition/compute.rs:71-78 | a timestamp of the calendar lies in the hour of the day it is given; any other is given the epoch |
| `Partitioning.PartitionMeans` | src/storage/partition/compute.rs:12-69 | each record goes to its own family, venue, type and hour, sharded by the hash of its symbol, or of its venue for source health |
| `ObjectKeys.KeysAgreeIff` | src/storage/partition/keys.rs:15-69 | two objects of a run share a key exactly when part number, family, hour and shard agree and venue and type read alike |
| `ObjectKeys.KeyIsUniqueIff` | src/storage/partition/keys.rs:15-69 | an object's key belongs to no other object exactly when the label between venue and type does not occur a second time in those names |
| `ObjectKeys.ProgramKeysAreUnique` | src/storage/partition/keys.rs:15-69 | the venues, event types and gap types the program writes meet that condition, so their keys are unique |
| `ObjectKeys.PaddedRoundTrips` | src/storage/partition/keys.rs:15-30 | zero-padded numbers read back as themselves |
| `ObjectKeys.PaddedWidth` | src/storage/partition/keys.rs:15-30 | padding reaches the width and never cuts |
| `ObjectKeys.KeyText` | src/storage/partition/keys.rs:15-69 | the text of every family's key, segment by segment |
| `ObjectKeys.ReaderFindsObject` | src/normalize/input_keys/local.rs:32-44 | the key of every object holding a record of the range passes the reader's filter |
| `ObjectKeys.KeyShape` | src/normalize/input_keys/local.rs:32-44 | every object key has a recognised family and contains the text of its hour |
| `ObjectKeys.ListingCoversIff` | src/normalize/input_keys/s3/prefixes.rs:6-31 | the S3 prefixes listed for an hour cover exactly the objects of that hour with a listed venue, event type or gap type |
| `ObjectKeys.NeverListedIff` | src/normalize/input_keys/s3/prefixes.rs:4-31 | of what the program writes, exactly the reconnect and empty-range gap alerts are never listed |
| `L0Sink.PushCapped` | src/storage/sink/report.rs:40-64 | a capped list is the newest entries of its whole history, and kept plus dropped is the count |
| `L0Sink.L0StorageSink.Append` | src/storage/sink.rs:81-152 | one ordinal is issued; its record is dropped exactly on a failed required publish, otherwise buffered, and a buffer that reaches the threshold becomes one object under the fate given |
| `L0Sink.L0StorageSink.FlushPartition` | src/storage/sink/flush.rs:38-108 | the whole buffer becomes one object with the next part number; uploads and failures are recorded as such |
| `L0Sink.L0StorageSink.FlushAll` | src/storage/sink/flush.rs:12-36 | each new object is one whole buffer under its own fate; ends in a write error exactly when a write fails, and then exactly the object just taken out is unwritten; otherwise all buffers go and only the live publisher can fail |
| `L0Sink.L0StorageSink.Perform` | src/storage/sink.rs:81-152 | over any run of operations each ordinal lies in exactly one buffer, uploaded object or failed upload, except exactly those whose required publish failed and those in an unwritten object; nothing is missing exactly when no call returned a publish or write error |
| `L0Sink.StoredRecordIsFound` | src/normalize/input_keys/local.rs:32-44 | from writer to reader: after any run, every record kept in an object with a time in the range lies under a key that passes the reader's filter, and under a listed S3 prefix when its names are listed ones |
| `L0Sink.L0StorageSink.Report` | src/storage/sink/state.rs:34-49 | the report holds the newest entries of both histories with their full counts |
| `L0Sink.L0StorageSink.UploadManifest` | src/storage/sink/state.rs:10-32 | the manifest reports itself, keeps the newest entries, retained plus dropped equals count, and a failed manifest upload is not recorded |
| `L0Sink.L0StorageSink.RecordFate` | src/storage/sink/state.rs:51-101 | each object is recorded once, as uploaded or as failed |
| `L0Sink.L0StorageSink.NextPartNumber` | src/storage/partition/keys.rs:6-13 | part numbers of a partition count up by one from 1 |
| `L0Sink.FlushConserves` | src/storage/sink/flush.rs:38-108 | a flush moves every record of the buffer to the same place in the object and nothing else |
| `L0Sink.BufferingConserves` | src/storage/sink.rs:81-152 | appending gives the new ordinal one place and leaves every other |
| `L0Sink.DroppingConserves` | src/storage/sink.rs:81-98 | a failed required publish spends the ordinal and nothing else |
| `L0Sink.FlushNumbersParts` | src/storage/partition/keys.rs:6-13 | the part numbers of each partition stay 1..k without holes, in flush order |
| `L0Sink.FlushMatchesReports` | src/storage/sink/state.rs:51-101 | the report histories name exactly the objects uploaded and exactly those whose upload failed, in flush order |
| `L0Sink.KeysAreNeverReused` | src/storage/partition/keys.rs:6-69 | two flushes of a run share a key exactly when their partitions differ only in names that read alike and the part numbers are equal; never for the program's own names |
| `L0Sink.EveryRecordOnce` | src/storage/sink/flush.rs:38-108 | an issued record is kept in one and only one slot exactly unless it was dropped unpublished or lies in an object that was never written |
| `L0Sink.SlotsHoldIssued` | src/storage/sink/flush.rs:38-108 | whatever a buffer or object holds was issued, unchanged |
| `SliceFinalize.FinalizeOne` | src/normalize/quality/finalize.rs:3-36 | the step-by-step update of one row is ordering, then canonical lists, then prices, then the verdict |
| `SliceFinalize.NormalizeEventOrder` | src/normalize/quality/finalize.rs:38-101 | the four event lists are stably sorted by their tuples, the last trade and book winning |
| `SliceFinalize.FinalizeSlices` | src/normalize/quality/finalize.rs:3-36 | rows are finalised one by one, in order |
| `SliceFinalize.FinalizeIsCanonical` | src/normalize/quality/finalize.rs:3-134 | permuting events and permuting or repeating reasons and ids never shows, when sort keys determine events |
| `SliceFinalize.FinalizeCanonicalIff` | src/normalize/quality/finalize.rs:3-134 | the finalised row is independent of arrival order exactly when sort keys determine events |
| `SliceFinalize.FinalizeTwice` | src/normalize/quality/finalize.rs:3-36 | finalising twice is finalising once |
| `SliceFinalize.CompletenessMeans` | src/normalize/quality/finalize.rs:103-134 | each of the four verdicts, exactly, in terms of the incoming row |
| `SliceFinalize.LatestEventsWin` | src/normalize/quality/finalize.rs:38-75 | last trade and quoted top belong to an event no other of the row comes after, by exchange time, then sequence (a missing one last), then ingest time, then parent id |
| `SliceFinalize.KeysOrder` | src/normalize/quality/finalize.rs:38-101 | the sort keys order trades and books by those four fields, depth and ticker events by the three without a sequence |
| `SliceFinalize.ReasonsMean` | src/normalize/quality/finalize.rs:8-19 | a row without activity is given all_invalid or trade_silence according to its invalid count, a row quoted on neither side depth_top_missing, and keeps the reasons it had |
| `SliceFinalize.PricesMean` | src/normalize/quality/finalize.rs:26-31 | the mid is the mean of bid and ask, and spread times mid is ten thousand times their difference; without both sides, or without a positive mid, none is computed |
| `SliceFinalize.FinalizeKeepsAll` | src/normalize/quality/finalize.rs:3-36 | every event and count is kept, ids and reasons keep their members in strict order, and only the three derived reasons are added |
| `StableSort.SortSorts` | src/normalize/quality/finalize.rs:38-101 | the sort yields a sorted permutation |
| `StableSort.SortCommutesWithFilter` | src/normalize/quality/finalize.rs:38-101 | stability: sorting commutes with every filter |
| `StableSort.SortCanonicalIff` | src/normalize/quality/finalize.rs:38-101 | a stable sort forgets arrival order exactly when keys determine elements |
| `StableSort.SortDedupCanonicalIff` | src/normalize/quality/finalize.rs:20-25 | two lists agree after sort and dedup exactly when they have the same members |
| `SliceIngest.SliceAccumulator.IngestRawEvent` | src/normalize/build/ingest.rs:11-42 | only an admitted event claims its id; it reaches the row when it is the first with that id and belongs to the slice |
| `SliceIngest.SliceAccumulator.ApplyEvent` | src/normalize/build/slices/event.rs:21-50 | in-place dispatch adds to the row exactly what the event is worth, whatever came before |
| `SliceIngest.SliceAccumulator.ApplyTradeEvent` | src/normalize/build/slices/event.rs:56-74 | a parsed trade counts once with its volume; an unparsed one is marked invalid |
| `SliceIngest.SliceAccumulator.ApplyBookEvent` | src/normalize/build/slices/event.rs:76-97 | a depth snapshot with a readable top counts as book and depth; an unreadable one only as depth |
| `SliceIngest.BuildRow` | src/normalize/read/fold.rs:26-47 | the ingest loop over deliveries equals a fold over the first admitted event of each id |
| `SliceIngest.FreshMeans` | src/normalize/build/ingest.rs:11-42 | the events behind a row are the first intact deliveries of their ids, where those have the slice's venue and symbol and a time in its window |
| `SliceIngest.RowMeans` | src/normalize/build/slices/event.rs:21-137 | the row lists exactly those events that parse, each once with its own fields, names them and their runs, complains of the rest, and counts as delayed those ingested more than the allowed latency after they happened |
| `SliceIngest.PublishedMeans` | src/normalize/build/slices/event.rs:21-137 | the same of the row as published, with its traded volume and the health notes added |
| `SliceIngest.ApplySwaps` | src/normalize/build/slices/event.rs:21-137 | two events may change places: only list order and last-seen prices can differ |
| `SliceIngest.FoldIgnoresOrder` | src/normalize/read/fold.rs:26-47 | any permutation of events gives the same row up to list order and last-seen prices |
| `SliceIngest.FreshIgnoresDelivery` | src/normalize/build/ingest.rs:33-36 | the events that reach a row do not depend on delivery order, file boundaries or repetition |
| `SliceIngest.IngestedRowIsArrivalIndependent` | src/normalize/build/ingest.rs:11-42 | for every delivery, with no condition on ids, the row that reaches finalisation is one no arrival order of its events can change |
| `SliceIngest.DeliveryDoesNotMatter` | src/normalize/read/fold.rs:26-47 | the published row depends only on which events were delivered, when admitted events sharing an id share their effect on the slice |
| `SliceIngest.SharedIdExposesOrder` | src/normalize/build/ingest.rs:33-36 | two admitted events under one id with different effects always publish differently in the two orders |
| `SliceIngest.PublishesAlikeIff` | src/normalize/build/ingest.rs:11-42 | all orders and repetitions of all deliveries from a pool publish alike exactly when admitted events sharing an id share their effect |
| `SliceIngest.FoldAccounts` | src/normalize/build/slices/event.rs:56-110 | counts equal list lengths, volume equals the sum over trades, book tops are positive and uncrossed |
| `SliceIngest.PublishedQuote` | src/normalize/quality/finalize.rs:26-31 | a published row quotes exactly when it saw a book; its mid lies between bid and ask and its spread is never negative |
| `AsOf.BuildDerivativeFeatureDeltas` | src/normalize/derivative_projection.rs:11-40 | the nested loops over groups and sorted rows compute the deltas of the arrivals, listed by key and then time |
| `AsOf.GroupDerivativeMetrics` | src/normalize/derivative_projection.rs:42-64 | the sorted map holds each key that occurs with its rows in stable time order |
| `AsOf.LookupIsAsOf` | src/normalize/derivative_projection.rs:135-144 | searching the sorted group backwards equals a one-pass search of the unsorted arrivals |
| `AsOf.AsOfIsInForce` | src/normalize/derivative_projection.rs:135-144 | a lookup finds the latest same-key observation at or before its target, the later arrival among ties, and finds none exactly when there is none |
| `AsOf.PastIsSettled` | src/normalize/derivative_projection.rs:11-64 | the deltas up to T are exactly the deltas of the observations up to T |
| `AsOf.NoLookAhead` | src/normalize/derivative_projection.rs:11-64 | later observations, wherever they arrive, leave every delta up to T unchanged |
| `AsOf.DeltasIgnoreArrivalIff` | src/normalize/derivative_projection.rs:11-64 | the deltas are independent of arrival order, wherever the range starts, exactly when no two different observations of one key share a time |
| `AsOf.KnownAsOfHoldsIff` | src/normalize/derivative_projection.rs:104-124 | the known-as-of time bounds everything a delta was compared with, for every selection of arrivals, exactly when no observation a quarter of an hour older than another of its key was ingested after it |
| `AsOf.KnownAsOfMayFail` | src/normalize/derivative_projection.rs:104-124 | two observations for which it does not |
| `AsOf.OneDeltaEach` | src/normalize/derivative_projection.rs:18-38 | each observation from the start of the range on yields its one delta, in key and time order, and no other does |
| `AsOf.DeltaMeans` | src/normalize/derivative_projection.rs:22-37 | what a delta holds: its observation's fields, the finite values in force 15 minutes and an hour before, the change that undoes to each, and a window of one second |
| `AsOf.RowsOrder` | src/normalize/derivative_projection.rs:66-73 | the order of deltas: venue, native symbol, canonical symbol, market, metric, then time |
| `AsOf.SortedRowsAreGroups` | src/normalize/derivative_projection.rs:42-64 | rows sorted by key and time are the concatenation of their groups in key order |
| `AsOf.PercentChangeInverts` | src/normalize/derivative_projection.rs:146-153 | a change exists exactly for a finite value against one away from zero, and undoing it gives the value back |
| `AsOf.QualityMeans` | src/normalize/derivative_projection.rs:75-93 | what each quality status and missing reason says about the two earlier values |
| `Retention.Sweep.Observe` | src/storage/retention/planner.rs:54-79 | one more listed object turns the plan of the listing into the plan of the longer listing |
| `Retention.Sweep.RunOnce` | src/storage/retention/runner.rs:20-54 | fails exactly when a listing fails, and then deletes nothing; otherwise exactly the candidates whose delete was confirmed or applied despite an error are gone, and the statistics match the replies |
| `Retention.Sweep.DeleteAll` | src/storage/retention/runner.rs:42-51 | exactly the keys whose delete took effect are gone; deleted and failed add up to the candidates; saturating step by step is saturating the sum once |
| `Retention.PlanRetentionDeletes` | src/storage/retention/planner.rs:28-52 | the deduplicating planner, compiled for tests only in the source, plans the first object of each key |
| `Retention.DeletesExactlyTheExpired` | src/storage/retention/planner.rs:81-106 | an object is deleted exactly when unprotected, dated and past retention, protected or undated exactly when its prefix or its missing date says so, and its age is in whole seconds |
| `Retention.ChosenShape` | src/storage/retention/planner.rs:66-79 | the candidates are the first expired objects in listing order, up to the limit |
| `Retention.PlanMeans` | src/storage/retention/planner.rs:54-106 | what a plan counts and would delete, on the objects' own fields: the first expired ones up to the limit with their key, size and age; how many were undated, protected and expired; stopped exactly beyond the limit |
| `Retention.GoneMeans` | src/storage/retention/runner.rs:42-51 | a key is gone exactly when some reply to its delete was a confirmation or an error after the fact |
| `Retention.DeletedCountMeans` | src/storage/retention/runner.rs:42-51 | the deleted count is the number of confirmed deletes |
| `Retention.OnlyExpiredAreDeleted` | src/storage/retention/runner.rs:24-54 | a chosen key belongs to an expired, unprotected object under a configured prefix |
| `Retention.BelowTheLimitAllAreChosen` | src/storage/retention/planner.rs:66-79 | a run that does not hit the limit chooses every expired object it can reach |
| `Retention.StreamingDeletesAlikeIff` | src/storage/retention/runner.rs:28-40 | planning without deduplication deletes the same keys as planning with it exactly when no key repeats among the expired listings under the limit or every expired key is among them |
| `Retention.StreamingMayDeleteFewer` | src/storage/retention/runner.rs:28-40 | a bucket, two overlapping prefixes and a limit under which one key less is deleted |
| `Retention.RunDeletesAlike` | src/storage/retention/runner.rs:28-40 | a run with incomparable prefixes, or below the limit, deletes the same keys either way |
| `Retention.ListsOnceIff` | src/storage/retention/runner.rs:28-40 | no bucket is listed twice over exactly when no configured prefix extends or repeats another |
| `Retention.DefaultPrefixesAreIncomparable` | src/storage/retention/config.rs:88-116 | both default prefix lists meet that condition |
| `Retention.MarkerKeysNameChunks` | src/supervisor/bootstrap/marker.rs:106-118 | a marker key names one chunk and one marker |
| `Retention.MarkersOutliveRetention` | src/storage/retention/config.rs:88-116 | retention with either default prefix list never chooses a bootstrap marker |

## Left out

- Number widths: times and ids are unbounded integers. Saturation, truncating division and checked addition are written out in the window, chunk, hour and retention arithmetic; the `+ 1` on update ids and trade ids at the very end of their types, and `at - 15m` below the i64 range, are not.
- WindowScheduler.DecisionsAreClosed: the clock reads less than the last millisecond of i64, where `end + watermark` saturates to now itself.
- WindowScheduler.UndisturbedTick: the interval is a multiple of the row width and cursors are not negative; otherwise range validation refuses windows, which `TickIsAccounted` names as the cause of the error. A live-priority-only worker ends after its live window.
- Bootstrap.BootstrapChunks: the lookback and the aligned start bound lie inside i64 (`FitsI64`); a start bound that saturates is no multiple of the chunk width, and aligning it overflows.
- Partitioning.HourlyParts: the floored start lies inside i64; the multiplication in `floor_hour_ms` would overflow otherwise.
- Decimal text: `FixedDecimal` parsing is a partial function (a field is absent when it fails), prices and quantities are reals keyed by value. Rounding, NaN and infinities of f64 are left out, except that `AsOf` keeps non-finite values as such.
- DepthSync.RunIsSafe: a snapshot that parses holds the full book; `TruncatedSnapshotAgrees` covers one cut to its best levels, price by price.
- Publication.PublicationIsSafe: steps over values rather than a mutable store, retention does not run, equal ETags mean equal bodies, and key prefixes are distinct constructors; the grouping of slices into output files and local spool files are not modelled.
- PublicationProgress.UndisturbedPublisher: that an undisturbed publisher finishes is the existence of such steps from any past, not a promise about scheduling.
- Publication.ReaderSeesOneRun: run ids are distinct, as the reader's checks presuppose; so in PointerWrittenOnce.
- TickSequence.TicksLeaveNoGapIff: a success is on record at the start, every run counts as a success (a run without slices publishes none), one worker publishes, and the lookup finds the newest success however old it is; the source looks back 90 days. Reading the oldest L0 object is best effort and an input here.
- BootstrapScheduler.Supervisor.LiveAndDie: a marker put that fails or is cut off by a crash has been applied or not by then; one that lands later still is not modelled. Realtime and normalizer child restarts are left out.
- Pagination.SymbolBackfill.BackfillSymbol: the server's log does not change during the run; the two places that note an absence of trades are one.
- L0Sink.L0StorageSink.FlushAll: the four buffer maps are one map tagged by family, and the order of partitions is arbitrary.
- ObjectKeys.ReaderFindsObject: one direction; a key may contain the text of a listed hour without belonging to it. Dates are day numbers with an injective text, and the shard hash is a parameter.
- SliceIngest.DeliveryDoesNotMatter: one slice's row. Identity fields come from the first event of the identity, and health and gap notes are given; how the latest health row is chosen among equal times is not modelled. Volume is a real sum.
- SliceFinalize.FinalizeOne: rows are values, since each row is owned by the loop that updates it; the library's stable sort is an insertion sort.
- AsOf.BuildDerivativeFeatureDeltas: the delta id (a hash of other fields) is not modelled.
- Retention.Sweep.RunOnce: the bucket does not change between listing and deleting.
- Retention.PlanMeans: ages and the retention period fit 64-bit milliseconds; `DeletesExactlyTheExpired` says what saturation does beyond that.
- LIVE selection among listed S3 keys by run id, S3 paging, and the universe, regime and volume projections: they read finished rows or listings and keep no state of their own; nothing in this model depends on them.
- WebSocket sessions, HTTP, NATS, TLS, signals, process spawning, logging, Parquet and JSON encoding, hashing, argument parsing: I/O and foreign libraries, present only as outcomes.
