# Evidence pipeline of agentic-debug-mode, modelled and proved in Dafny

A debugging session collects events. Probes append lines to a session's incoming file or post them over HTTP; a
daemon turns each line into one event or one diagnostic, redacts secrets and numbers the events; commands read the
log back as sorted pages (`logs`) or as pages of a jaq program's output (`query`), while new events arrive and the
session may be reset. This project models that pipeline and proves that every stage meets its simple description.

| files | part of the system |
|---|---|
| `Common`, `Lines`, `Faults` | options, results, bytes, files as lines, a disk on which any access may fail |
| `EventOrder`, `Merging`, `EventLog`, `ExternalSort` | event order, k-way merge, the meaning of a log page, and the external merge sort that computes it |
| `LogPages` | `logs`: offset paging over a watermark snapshot |
| `QueryPage`, `QueryChains`, `QueryCommand`, `QueryMeaning`, `StreamCursors` | native streaming pages, following cursors, the command around them, which records a query covers, and commands that follow their cursors |
| `SessionSystem`, `QueryHistory` | interleavings of ingestion, restarts, resets and queries |
| `SlurpPage`, `SlurpHistory`, `SlurpCursors` | slurp queries and their spool files, histories of them, and commands that follow their cursors |
| `SessionLock` | the per-session promise chain |
| `DirectAppend`, `Ingestion`, `DirectIngestion`, `SessionRegistry` | observing the incoming file, the stores, the ingestion service, resetting a session |
| `IngestionMachine`, `IngestionInvariants`, `DirectMarks`, `ExactlyOnce` | crashes, resets, replay and exactly-once ingestion |
| `FailedResets`, `CacheHistory`, `IngestionHistory`, `IngestionExamples` | what failed resets and lost writes break, and exactly when |
| `IngestionRefinement`, `EndToEnd` | ingestion as part of the histories that queries see, and both together |
| `Activity` | idle shutdown of the daemon |
| `CProbe`, `ProbeReader` | the emitted C helper and a reader for what it writes |
| `SensitiveKeys`, `KeySpellings`, `SecretKeys`, `Redaction`, `EventValidation` | secret keys, redaction, validation |

## How to read it

- Code that changes state is a class or a method with the same loops and branches, proved against a specification
  function or predicate (`PageOf`, `PageAt`, `SlurpAnswer`, `RecordsFrom`, `Ingested`, `Redacted`, `Apply`); what
  the repository promises is proved about that specification. What such a function computes is also said without it:
  `PageShows`, `RunCovers`, `EvaluationCovers`, `IsLine`, `Treats`, `Secret`, `FollowsSchema`.
- Interleavings and crashes are transition systems. A step is one atomic effect, so a crash can fall between any two:
  `IngestionMachine` for ingestion, `SessionSystem` for queries against resets, `SessionLock` for the lock itself.
  `DirectIngestion` shows that what the methods do is a run of the ingestion machine, and `IngestionRefinement` that
  such a run is a behaviour of `SessionSystem`.
- Failures are inputs: a `FaultyDisk` answers each access, a deadline each check, a failed reset says which of its
  clearings were done, which failed and which are still running. Theorems hold for every such choice.
- jaq, serde_json, JSON parsing and validation are arbitrary functions: `Engine`, `Jaq` and `Judge` are parameters,
  and every theorem holds for all of them.

## Assumptions

- SHA-256 is injective, and random identifiers, spool names and evidence epochs are fresh: an identifier is modelled
  by what is hashed, or by a number not drawn before.
- An append of one record to `events.ndjson` or of one list to `diagnostics.ndjson` happens whole or not at all, and
  an append that throws has written nothing. Reads of regular files are full. Writing the cursor is atomic.
- One daemon owns a state root; a restart starts with empty memory. Probes only append to the incoming file.
- A native read that overlaps appends returns the file as it was when its last byte was read.
- `localeCompare` is a total preorder (`Collation` maps strings to reals that are compared). JSON numbers in stored
  events are finite, so timestamps are reals and no comparison involves NaN.
- `readline` and `split("\n")` find the same lines. Where `readline` also splits at U+2028 and U+2029, which
  JSON.stringify leaves as they are, this excludes stored text that validation accepts.
- The cursor file does not hold the JSON text `null`: nothing writes it, and the observer would throw on it.
- jaq prints every value as one non-empty line.
- In the ingestion machine a reset that succeeds is one step, as every other holder of the session lock sees it, and
  one that fails leaves any of its clearings done, failed or still running. `SessionSystem` has the steps in between.
- A restart ends whatever the old daemon was still doing, clearings included.

## Where the code and its intentions differ

- `recordsByHypothesis` is created by `{}` (src/daemon/event-store.ts:307). A hypothesis called "constructor" or
  "__proto__" is miscounted; `TalliesRightIff` gives the exact condition. Hypothesis ids are free text of up to 256
  characters (src/domain/event-validation.ts:97-99).
- Reset clears through `Promise.all` and writes the epoch last (src/daemon/session-registry.ts:110-121). A clearing that
  fails rejects the reset at once and releases the session lock while the others run on. So a reset can fail after
  clearing the log, or fail and have its clearing land later, under the next operation of the session; the old epoch
  stays in both cases and a query across it can succeed. `EvidenceIsKeptIff` says that these two, where there was
  something to lose, are exactly the exceptions; `FailedResetLosesTheLog` shows both.
- Clearing a store empties its identifier cache before the file (src/daemon/event-store.ts:181-182,
  src/daemon/diagnostic-store.ts:60-61). When the write fails, or lands after another append, even one behind a later
  reset, the cache is wrong; `CachesAreExactIff` gives the exact condition over runs, `CacheIsWrongExamples` and
  `LateClearingLeavesAnId` are instances.
- A failed reset, or a clearing that lands after one, can leave lines without a trace or with two
  (`FailedResetLosesALine`). `ResetIsSoundIff` and `LandingIsSoundIff` say which ones do: exactly those after which the
  promise can be broken (`DamageIsExact`). They mark the state `damaged`, and the exactly-once theorems hold of every
  state without the mark. A damaged session may still recover by itself, say by a restart.
- Every query error is deferred behind a full page except the parse error at native/query/src/lib.rs:421; `FailedChain`
  counts the pages in both cases, `ParseErrorLosesAFullPage` is an instance.
- The counter moves before the append (src/daemon/ingest-api.ts:158-159) and is dropped after the clearings
  (src/daemon/session-registry.ts:120), so a failed append or a failed reset can leave a gap; `SequencesAreDenseIff`
  says exactly when, `FailedAppendLeavesAGap` and `FailedResetLeavesAGap` are instances.
- A crash between an event and its SECRET_REDACTED diagnostic loses the diagnostic, because the replay returns at
  src/daemon/ingest-api.ts:155; `RedactionsReportedIff` says exactly when over all runs, and
  `ReportIsLost` is an instance without a crash.
- Camel and Pascal spellings of one-letter words do not always reach the snake spelling; `CamelNormalizes` and
  `PascalNormalizes` say exactly when.

## Model

| member | source | states |
|---|---|---|
| EventOrder.StableSortIsStable | src/daemon/event-store.ts:56-62 | the sorted list holds the same events, each one at or before the next in the comparison, and events that tie keep their order |
| EventOrder.StableSortLists | src/daemon/event-store.ts:56-62 | of two listed events the first has the smaller timestamp; or the same timestamp and the smaller sequence; or both the same and an identifier that collates no later; events equal in all three keep the order of the log |
| EventOrder.StableSortUnique | src/daemon/event-store.ts:56-62 | a stable sort is unique: two sorted lists with the same ties in the same order are equal, so `StableSort` stands for every stable sort |
| Merging.MergeIsStableSort | src/daemon/event-store.ts:102-113 | merging any number of sorted runs is a stable sort of their concatenation |
| ExternalSort.AddChunk | src/daemon/event-store.ts:216-223 | one more sorted chunk keeps the runs a faithful, tie-ordered division of the events scanned so far |
| ExternalSort.MergeGroup | src/daemon/event-store.ts:358-368 | replacing a group of neighbouring runs by its merge keeps the runs a faithful, tie-ordered division of the events |
| ExternalSort.EventPages.OpenSortedReaders | src/daemon/event-store.ts:225-241 | a reader per file, standing on its first line; when an open or a first `advance` fails, the failure is reported as what it is and every reader opened so far is closed, the failing one included |
| ExternalSort.EventPages.NextReader | src/daemon/event-store.ts:102-113 | the reader whose head is strictly smaller than all earlier heads and no larger than any later one, or none when all are exhausted |
| ExternalSort.EventPages.MergeSortedFiles | src/daemon/event-store.ts:243-269 | the output file, which must not exist, receives the merge of the inputs, or some access failed; either way all readers are closed |
| ExternalSort.EventPages.ReadMergedPage | src/daemon/event-store.ts:271-295 | the early-stopping loop returns the slice [offset, offset+limit) of the whole merge, or some access failed; either way every reader is closed |
| ExternalSort.EventPages.MergePass | src/daemon/event-store.ts:356-370 | one pass merges groups of at most 32 into new, never used file names, leaving ceil(n/32) runs of the same events, or reports why not; no reader stays open |
| ExternalSort.EventPages.MergePasses | src/daemon/event-store.ts:356-370 | the passes terminate for every number of chunks with at most 32 runs left, never with more than 32 readers open, on failures too |
| ExternalSort.EventPages.ScanLog | src/daemon/event-store.ts:324-354 | the scan yields the counts, the watermark and chunk files that divide the matching events in order; it fails exactly when an access fails or a line does not parse |
| ExternalSort.EventPages.Summarize | src/daemon/event-store.ts:190-214 | the status counts equal the number of stored events and the largest sequence, hence the totals of any unfiltered page |
| ExternalSort.EventPages.ReadPage | src/daemon/event-store.ts:297-386 | on a disk where any access may fail the answer is exactly the [offset, offset+limit) slice of the matching events, earliest timestamp first, with the watermark and counts, or the one error that applies, another epoch only when a different one was asked for; on every exit no reader is open, at most 32 were open at once, and no sort file is left unless removing it failed |
| EventLog.MatchingIsPicked | src/daemon/event-store.ts:333-343 | the matching events are exactly the records of the log numbered up to the watermark with one of the hypotheses asked for, in the order of the log |
| EventLog.HighestIsLargest | src/daemon/event-store.ts:324-332 | the watermark is the largest sequence in the log, zero without records |
| EventLog.PageOfShows | src/daemon/event-store.ts:297-386 | a page lists the wanted records in order from its offset on, up to its limit, with their number, the watermark and, without inherited names, the right count for every hypothesis |
| EventLog.TalliesRightIff | src/daemon/event-store.ts:307-347 | the per-hypothesis counts are right exactly when no listed event carries one of the twelve names that a plain JavaScript object inherits |
| EventLog.TalliesWrongExample | src/daemon/event-store.ts:346-347 | one event labelled "constructor" already gets a count that is not a number, and one labelled "__proto__" is not counted |
| EventLog.TalliesSum | src/daemon/event-store.ts:346-348 | without inherited names the counts sum to the total |
| LogPages.LogsCommand | src/commands/logs.ts:67-162 | the reply: the wanted records in order from the offset on, `hasNext` exactly when more follow, next and previous offsets, and the snapshot (the requested one, or watermark and epoch of this page); a snapshot of another session or epoch is refused, and without a failing access nothing else is |
| LogPages.WatermarkFreezes | src/daemon/event-store.ts:335-339 | filtering the grown log by the first page's watermark gives the events of the first page's log |
| LogPages.PageIsSnapshotSlice | src/commands/logs.ts:102-133 | page i of a walk is slice i of the sorted snapshot at the first request, with `hasNext` exactly when events remain, the offsets of the pages before and after it, whatever was ingested in between |
| LogPages.PagesAreTheSnapshot | src/commands/logs.ts:116-133 | the pages of a walk followed to its end concatenate to the snapshot in order of timestamp, sequence and identifier; all but the last are full and none is superfluous |
| QueryPage.RunStreamingPage | native/query/src/lib.rs:300-503 | for every program, deadline and starting position one call returns a page that `PageAt` allows: the next `limit` values with a strictly later continuation from which the rest of the run follows, or the last values, or an error not owed to a full page; `RunCovers` says what the run is |
| QueryPage.EmitOutputs | native/query/src/lib.rs:427-492 | the inner loop with one value of lookahead: stops behind a full page at the output it has not delivered, defers errors behind a full page, and otherwise hands the values on |
| Lines.TrimEndCuts | native/query/src/lib.rs:378 | of a line read for streaming the trailing CRs and LFs are cut off, all of them and nothing else |
| QueryMeaning.RunCovers | native/query/src/lib.rs:384-475 | the run is the concatenation, in log order, of what the program yields for exactly the records numbered up to the watermark with one of the hypotheses asked for, up to the first line that is malformed or on which the program fails; the error is that line's |
| QueryMeaning.FreshRunCoversTheLog | native/query/src/lib.rs:404-419 | with the watermark of the whole log and no hypotheses every stored record feeds the program |
| QueryChains.RunIgnoresGrowth | native/query/src/lib.rs:410-419 | appending lines that the scope leaves out does not change the run from any position |
| QueryChains.ChainInvariant | native/query/src/lib.rs:300-503 | at every page of a chain, what was delivered followed by the run from its continuation is the run over the first page's log, and continuations grow strictly |
| QueryChains.CompletedChain | native/query/src/lib.rs:300-503 | a chain followed to a page without continuation delivers exactly one complete run; every page with a continuation holds `limit` values |
| QueryChains.FailedChain | native/query/src/lib.rs:384-475 | without timeouts a run of p values that ends in an error delivers limit * floor(p/limit) of them before the error page; the undeferred parse error at line 421 delivers limit * floor((p-1)/limit) |
| QueryChains.ParseErrorLosesAFullPage | native/query/src/lib.rs:421-425 | a log, a program and a limit for which that error costs a full page |
| QueryChains.TimelyPagesAreDetermined | native/query/src/lib.rs:300-503 | without timeouts the outcome of a call is determined by the run: which values, and whether there is a continuation |
| QueryCommand.Preflight | src/commands/query.ts:94-157 | a command goes on exactly with a program of at most 4096 characters or a cursor of this session, epoch and program; its plan is the cursor's query at its continuation, or a fresh one with the current watermark; every refusal names what is wrong |
| QueryCommand.Postflight | src/commands/query.ts:196-280 | the epoch comes first, then the native error, then rows and the next cursor; a slurp command deletes its spool when the cursor is stale, on malformed evidence, on a timeout and after the last page, and keeps it on any other error and whenever it returns a cursor |
| QueryCommand.CursorContinuesThePlan | src/cli/snapshot-cursor.ts:104-177 | the next command with a returned cursor repeats the query at the page's continuation, or is stale |
| StreamCursors.EveryStreamCursorWorks | src/commands/query.ts:94-251 | every cursor of a streaming query works: in one epoch, without a timeout, command number k delivers the values of the first command's run from k * limit on: a full page and a cursor while more is to come, be it an error that can wait; else the rest and no cursor, or the error |
| SlurpCursors.EveryCursorWorks | src/commands/query.ts:158-280 | every cursor of a slurp query works: in one epoch, without a timeout, a failed access or another deletion, command number k succeeds with the values from k * limit on; it returns a cursor and leaves its spool exactly while values remain, and the last page leaves no spool |
| SessionSystem.InvAlways | src/daemon/session-registry.ts:99-124 | in every interleaving of ingestion, failed appends, restarts, multi-step resets and clearings that outlive a failed reset the stored lines are whole records, the counter is at least the maximum of the log, and epochs are never reused |
| SessionSystem.EqualEpochsMeanOnlyGrowth | src/commands/query.ts:197-214 | two status reads under the lock that report one epoch enclose one and the same log file, grown, if and only if in between no reset fails after clearing the log and no clearing of a failed reset lands |
| SessionSystem.EvidenceIsKeptIff | src/commands/query.ts:197-214 | at every moment between two such reads the log is that of the first one with newer sequences behind it, if and only if neither happens in between or the log was empty at the first read |
| SessionSystem.FailedResetLosesTheLog | src/daemon/session-registry.ts:110-121 | both exceptions happen: one epoch, a record at the first read, an empty log at the second |
| SessionSystem.GrowthThroughout | src/commands/query.ts:186-214 | without those two events the file was that of the first read, grown, at every moment between two such reads; the native read takes no lock and needs none |
| SessionSystem.SeenIsGrown | native/query/src/lib.rs:300-310 | then what a native call reads outside the lock is the log of the first status read, grown by newer sequences |
| SessionSystem.ResetChangesTheEpoch | src/daemon/session-registry.ts:106-121 | once a reset has cleared the log, and none of those two events follows, every later status read reports another epoch |
| SessionSystem.NewerEntriesGrowUnseen | native/query/src/lib.rs:404-414 | as bytes, a log grown by sequences above the watermark grew only outside the query's scope |
| QueryHistory.WalkIsOneRun | src/commands/query.ts:116-251 | in every history in which no reset fails after clearing the log and no clearing of a failed reset lands, the rows of successful pages that follow their cursors to the end are what the program yields for every record stored at the first preflight, one after the other, and it failed on none of them |
| QueryHistory.ResetStopsTheChain | src/commands/query.ts:130-214 | after a reset has cleared the log, in such a history, no command of the old chain succeeds: a later one rejects the cursor, one already running fails its postflight check |
| QueryHistory.LogPagesSeeGrowth | src/daemon/control-api.ts:118-129 | log pages served in one epoch of such a history see a log that only grew, as the log-page theorem assumes |
| QueryHistory.LogWalkIsOneSnapshot | src/commands/logs.ts:67-162 | log pages followed to the end through ingestion, restarts and resets concatenate to the records of the first page's moment in order of timestamp, sequence and identifier; all but the last are full |
| SlurpPage.CollectInputs | native/query/src/lib.rs:598-634 | the slurped inputs are those of `Inputs`, which `InputsCover` describes, unless the deadline fires |
| SlurpPage.StripLineCuts | native/query/src/lib.rs:600 | of a line read for slurping one LF, or one CR and LF, is cut off |
| QueryMeaning.InputsCover | native/query/src/lib.rs:598-634 | the array of inputs holds exactly the records numbered up to the watermark with one of the hypotheses asked for, in log order; any malformed line, and any wanted one that jaq cannot parse, fails the query |
| QueryMeaning.EvaluationCovers | native/query/src/lib.rs:590-680 | an evaluation fails on a program that does not compile, else on a line that spoils the array, else on a runtime error, and otherwise is what the program makes of that array |
| QueryMeaning.FreshSlurpCoversTheLog | native/query/src/lib.rs:598-634 | with the watermark of the whole log and no hypotheses the array holds every stored record |
| SlurpPage.BuildSpool | native/query/src/lib.rs:570-680 | create, write, sync and rename may each fail: the spool appears with one complete evaluation or not at all, the error is the evaluation's own, a timeout that fired or a failed access, and the temporary file is gone unless removing it failed |
| SlurpPage.ReadSpoolPage | native/query/src/lib.rs:690-740 | up to `limit` lines of the spool with one line of lookahead, unless the deadline fires or a read fails |
| SlurpPage.RunSlurpPage | native/query/src/lib.rs:557-688 | an existing spool is read and never rewritten, a missing one is evaluated only at offset zero and otherwise an error; answer and spools are determined but for a timeout that fired or an access that failed |
| SlurpPage.SpoolReadIsPage | native/query/src/lib.rs:690-740 | reading a spooled list from the offset of its i-th value gives values i to i+limit and the offset of the next |
| SlurpPage.ContinuationsArePositive | native/query/src/lib.rs:569-575 | issued spool offsets are positive, so only the first call of a query reaches the evaluation and a missing spool is always an error |
| SlurpPage.SpoolsHoldEvaluations | native/query/src/lib.rs:674-680 | every spool holds the one evaluation of the query that drew its id |
| SlurpPage.SlurpWalkIsOneEvaluation | native/query/src/lib.rs:557-740 | successful slurp pages followed to the end concatenate to the outputs of exactly one evaluation |
| SlurpHistory.EvaluationIgnoresGrowth | native/query/src/lib.rs:615-626 | entries above the watermark change nothing in the evaluation of a slurp query |
| SlurpHistory.SlurpWalkIsOneLog | src/commands/query.ts:158-251 | in every history, slurp commands that follow their cursors to the end return what the program makes of the array of all records stored at the first command's preflight, provided that during that first command no reset fails after clearing the log and no clearing of a failed reset lands |
| SessionLock.ReachableStates | src/daemon/persistence.ts:102-120 | in every reachable state at most one outer operation per session runs, each starts only after all earlier arrivals finished, well or badly, and a missing map entry means nothing of the session is pending; code of two operations overlaps only through calls that a finished one left behind |
| SessionLock.LeftBehindByFinish | src/daemon/session-registry.ts:110-119 | calls are left behind only by an operation that finished while they were running, as a rejected `Promise.all` does; where every operation awaits its calls there is no overlap |
| SessionLock.OverlapExample | src/daemon/session-registry.ts:110-119 | such an overlap is reachable |
| SessionLock.SomethingCanHappen | src/daemon/persistence.ts:102-120 | no deadlock: while an operation of a session is unfinished some step of that session is possible, nested calls included |
| SessionLock.ProgressTerminates | src/daemon/persistence.ts:102-120 | without new calls every step shrinks the work left, so every queued operation gets its turn |
| SessionLock.MapCleansItself | src/daemon/persistence.ts:113-119 | when every operation of a session has been cleaned up its map entry is gone |
| SessionLock.Persistence.RunSessionOperation | src/daemon/persistence.ts:102-112 | a call from inside the session runs inline; any other chains on the session's tail and becomes it |
| SessionLock.Persistence.FinallyBlock | src/daemon/persistence.ts:115-119 | the entry is deleted only by the call that is still the tail, and the invariant is kept |
| DirectAppend.RecordsAreTheLines | src/daemon/direct-append-observer.ts:127-136 | the observed records are exactly the non-empty complete lines of the file |
| DirectAppend.StartsIncrease | src/daemon/direct-append-observer.ts:128-170 | each of them once, in the order of the file |
| DirectAppend.RecordsSplit | src/daemon/direct-append-observer.ts:127-174 | cutting at any boundary splits the records: windows do not matter |
| DirectAppend.RecordsGrow | src/daemon/direct-append-observer.ts:127-174 | appended bytes only append records |
| DirectAppend.ScanOversizedRecord | src/daemon/direct-append-observer.ts:180-219 | reads on block by block to the LF: start, hashed bytes, length, preview min(length, 256) and end, independent of blocks; nothing when the record is not complete |
| DirectAppend.ObserveLines | src/daemon/direct-append-observer.ts:127-171 | the window's complete lines, each with its offset, bytes, length and preview length |
| DirectAppend.ObserveTick | src/daemon/direct-append-observer.ts:87-178 | one tick observes exactly the records between the cursor and the cursor it writes, which is zero or just past an LF and leaves no complete line of the 256 KiB window behind; a record found by the scan fills the window; a cursor outside the file counts as zero |
| Ingestion.EventStore.HasId | src/daemon/event-store.ts:146-155 | membership in the cache, filled from the file when empty |
| Ingestion.EventStore.Append | src/daemon/event-store.ts:157-177 | appends unless the identifier is known, and then the cache knows it; a failed write changes neither |
| Ingestion.EventStore.Clear | src/daemon/event-store.ts:179-184 | empties the cache at once and the file of this session, and no other, when the replacement is done |
| Ingestion.EventStore.Land | src/daemon/event-store.ts:179-184 | a replacement that lands later empties the file and leaves the cache |
| Ingestion.DiagnosticStore.Append | src/daemon/diagnostic-store.ts:22-52 | appends exactly the diagnostics not seen before, in the file or earlier in the list, in order |
| Ingestion.DiagnosticStore.Clear | src/daemon/diagnostic-store.ts:58-63 | the same for diagnostics |
| Ingestion.DiagnosticStore.Land | src/daemon/diagnostic-store.ts:58-63 | the same for diagnostics |
| Ingestion.EventSequence.Next | src/daemon/sequence.ts:8-19 | one more than the cached value or else the log's maximum, and the cache holds it |
| Ingestion.IngestionService.IngestRecord | src/daemon/ingest-api.ts:74-113 | above 65536 bytes one diagnostic with the length and the answer too-large; else, for what is not JSON, one with the preview length and malformed; else, for what is no event, one that says so and invalid; else one event with the next number and, if secrets were replaced, one report; nothing is left twice, and other sessions are untouched |
| Ingestion.IngestionService.IngestOversizedRecord | src/daemon/ingest-api.ts:115-133 | one diagnostic with the length, and the answer too-large |
| Ingestion.IngestionService.Ingest | src/daemon/ingest-api.ts:135-165 | the same as `IngestRecord` for a parsed value: duplicates first, then the number, the event, the report |
| Ingestion.IngestedTreats | src/daemon/ingest-api.ts:74-165 | the specification `Ingested` does the same: which diagnostic or event each record leaves and what is answered, written out in terms of length and verdict, with unwritable files and known identifiers |
| Ingestion.UnseenAreNew | src/daemon/diagnostic-store.ts:33-43 | of a list of diagnostics exactly one of each identifier not seen before is added |
| Ingestion.AllNewAreAdded | src/daemon/diagnostic-store.ts:33-43 | all of them, in order, when all are new |
| SessionRegistry.SessionRegistry.Reset | src/daemon/session-registry.ts:99-124 | a new epoch stands for a session whose stores, files, cursor and counter have all been cleared; when a clearing throws the old epoch and the counter stand, the caches are empty and exactly the parts not yet done still hold what they held; other sessions are never touched |
| SessionRegistry.SessionRegistry.ClearAll | src/daemon/session-registry.ts:110-119 | the clearings run side by side: each part is cleared or, if it failed or is still running, as it was, whatever happens to the others |
| SessionRegistry.SessionRegistry.LandLate | src/daemon/session-registry.ts:110-119 | a clearing that lands after its reset has thrown empties its part and nothing else, not the caches either |
| SessionRegistry.EventCacheExactIff | src/daemon/event-store.ts:157-184 | for one clearing of the event log, with appends before and after it lands: the identifier cache is exact if and only if nothing was appended before it landed or, when it never lands, all that the file held has been appended again |
| SessionRegistry.CacheIsWrongExamples | src/daemon/event-store.ts:157-184 | an event that is forgotten although it is stored, and one that is remembered although it is gone |
| CacheHistory.CachesAreExactIff | src/daemon/event-store.ts:146-184 | over every run, for the event and the diagnostic cache: a populated cache equals the identifiers of its file if and only if no clearing that failed or is still running has made the daemon forget one that is stored, and none that landed has removed one that is remembered |
| DirectIngestion.DirectAppendObserver.ProcessSessionWhileLocked | src/daemon/direct-append-observer.ts:87-178 | a tick ingests what it observed up to the first failure and writes the cursor only when all of it was ingested |
| DirectIngestion.TickIsARun | src/daemon/direct-append-observer.ts:87-178 | the stores a tick leaves are those of a run of the ingestion machine, so its theorems hold of them; with both files writable the cursor is written |
| DirectIngestion.PostIsARun | src/daemon/ingest-api.ts:200-205 | so are those a posted record leaves |
| DirectIngestion.PostIsTreated | src/daemon/ingest-api.ts:200-205 | a posted record is treated by its own length, with a preview of at most 256 bytes, under random identifiers |
| DirectIngestion.CanDrain | src/daemon/direct-append-observer.ts:104-178 | between ticks the observer catches up with the file by undisturbed ticks, each of at most one window of 256 KiB or one record that fills it |
| IngestionInvariants.CachesStep | src/daemon/event-store.ts:146-177 | every step but those of a reset keeps populated identifier caches equal to the identifiers in their files |
| IngestionInvariants.NumbersStep | src/daemon/sequence.ts:8-25 | every step, failed resets and late clearings included, keeps sequences strictly increasing and the counter at or above the file's maximum |
| IngestionInvariants.UniqueStep | src/daemon/event-store.ts:157-176 | every step but those of a reset keeps stored identifiers unique and reports an event's redaction at most once |
| IngestionMachine.AnythingCanGoWrong | src/daemon/direct-append-observer.ts:87-178 | no failure is assumed away: in every state probes may write, the cursor file may be lost, what runs may throw, and late clearings may land or fail |
| IngestionMachine.AnythingCanBegin | src/daemon/session-registry.ts:99-124 | while nothing runs, any record may be posted, and a reset may succeed or fail with any of its clearings undone or still running |
| IngestionMachine.RestartForgets | src/daemon/event-store.ts:146-155 | a restart, possible in every state, keeps the files and the cursor; known identifiers and the counter are then what the files say |
| ExactlyOnce.InvAlways | src/daemon/direct-append-observer.ts:87-178 | after any run (appends, ticks, posts, failed writes, crashes, a lost cursor, resets, failed resets and late clearings) numbers are in order, and the whole invariant holds unless the session is damaged |
| ExactlyOnce.ResetIsSoundIff | src/daemon/session-registry.ts:110-119 | a reset leaves the invariant behind, whatever came before it, if and only if it does no harm: each log it did not clear was empty, and a cursor it did not write is inside the file with no record before it |
| ExactlyOnce.LandingIsSoundIff | src/daemon/session-registry.ts:110-119 | a clearing that lands later keeps the invariant if and only if it does no harm: the log is empty, or nothing of the incoming file is stored or under way and the cursor is at its start |
| FailedResets.DamageIsExact | src/daemon/session-registry.ts:110-119 | from an undamaged state a step marks the session damaged if and only if from then on some run without a further reset or late clearing breaks the promise (exact caches; one trace for every line once drained); a step that takes the mark away restores the promise for good |
| ExactlyOnce.AtMostOnceInOrder | src/daemon/ingest-api.ts:135-165 | in every reachable undamaged state each direct event is that of a good line, with its body; events stand in the order of their lines, and none is stored while an earlier good line is missing; likewise the diagnostics of bad lines; identifiers are unique, sequences increase, caches are exact |
| ExactlyOnce.ExactlyOnceWhenDrained | src/daemon/direct-append-observer.ts:87-178 | when no complete line is left behind the cursor of an undamaged session, every good line has its event and every bad line its diagnostic, in order and nothing else |
| ExactlyOnce.EveryLineOnce | src/domain/ingestion.ts:59-73 | then each complete line of an undamaged session has exactly one trace under its identifier: above 65536 bytes its length and a preview of 256, not JSON the preview length, no event that fact, otherwise its event with its body |
| ExactlyOnce.TracesAreLines | src/daemon/ingest-api.ts:135-165 | whatever an undamaged session stores under a direct identifier is what some complete line of the incoming file should leave |
| ExactlyOnce.ReplayAddsNothing | src/daemon/direct-append-observer.ts:93-96 | from a drained, undamaged state no run without new bytes, a reset, or a late clearing of a log or the incoming file adds or removes a trace of a direct record, however often the daemon restarts or the cursor is lost |
| ExactlyOnce.AppendIsNeverDuplicate | src/daemon/ingest-api.ts:159-161 | the duplicate check that would throw inside `ingest` never fires |
| IngestionHistory.SequencesAreDenseIff | src/daemon/ingest-api.ts:158-161 | in every run the stored sequences are exactly 1..n since the log was last cleared if and only if no event was appended while the daemon held a number that is not in the log: one whose append failed, or one from before a clearing whose reset failed |
| IngestionHistory.NoGapWithoutFailures | src/daemon/ingest-api.ts:158-161 | crashes alone never open a gap |
| IngestionHistory.RedactionsReportedIff | src/daemon/ingest-api.ts:155-162 | between operations, in every run, every stored redacted event, direct or posted, is reported if and only if no report has been dropped: the daemon never stopped between such an event and its report, nor were the diagnostics cleared without the log, unless the event was stored and reported once more |
| IngestionExamples.FailedAppendLeavesAGap | src/daemon/ingest-api.ts:158-161 | an append fails, and the next record is number 2 in an empty log |
| IngestionExamples.FailedResetLeavesAGap | src/daemon/session-registry.ts:110-120 | a reset clears the log and fails, and the next record is number 2 in an empty log |
| IngestionExamples.ReportIsLost | src/daemon/ingest-api.ts:161-165 | a redacted event is stored and never reported |
| IngestionExamples.FailedResetLosesALine | src/daemon/session-registry.ts:110-119 | a failed reset leaves a line behind the cursor without any trace, with nothing left to drain |
| IngestionExamples.LateClearingLeavesAnId | src/daemon/session-registry.ts:110-119 | a clearing outlives its reset and a successful second one, and lands on a posted record: the event is gone and its identifier remembered |
| IngestionRefinement.RunsAreBehaviours | src/daemon/ingest-api.ts:135-165 | every run of the ingestion machine is a behaviour of the session that the query and log-page theorems are about, moment by moment: same log, same counter, same number drawn, same clearings under way |
| IngestionRefinement.NewSessionsRuns | src/daemon/session-registry.ts:99-124 | so is every run of a new session |
| EndToEnd.LogWalkListsTheLines | src/commands/logs.ts:67-162 | a log walk that starts when nothing is left behind the cursor of an undamaged session lists, by timestamp, sequence and identifier, exactly the stored events: one for every good line of the incoming file, in the order of the lines, and the posted ones |
| EndToEnd.QueryWalkRunsOverTheLines | src/commands/query.ts:116-251 | a query walk that starts then returns what the program yields for each of these events, one after the other |
| Activity.TimerTracksActivity | src/daemon/activity.ts:36-93 | in every run, outside stop, a current timer is pending exactly when no lease is outstanding, due 30 minutes after the last activity; `onIdle` runs at most once |
| Activity.IdleExactlyWhen | src/daemon/activity.ts:79-91 | `onIdle` runs exactly on a current callback, without leases, at least 30 minutes after the last activity, never after stop |
| Activity.PendingTimerIsNotLost | src/daemon/activity.ts:83-90 | the pending timer's callback ends in `onIdle` when it is due and otherwise re-arms it for the same time |
| Activity.LeaseCounts | src/daemon/activity.ts:47-64 | a lease counts from its acquisition to its release, the timer stands still meanwhile and starts again exactly with the last release |
| Activity.StaleCallbacks | src/daemon/activity.ts:36-52 | a touch, a new lease and a stop make the callbacks of all earlier timers do nothing |
| Activity.StopStops | src/daemon/activity.ts:67-81 | after a stop no timer is pending and `onIdle` does not run, whatever happens |
| Activity.ReleaseOnce | src/daemon/activity.ts:54-64 | releasing a lease again changes nothing |
| Activity.StoppedForGood | src/daemon/activity.ts:67-74 | once stopped, nothing changes any more |
| Activity.ActivityTracker.TouchAt | src/daemon/activity.ts:36-45 | the fields after `touch` are those of the specification |
| Activity.ActivityTracker.AcquireLease | src/daemon/activity.ts:47-55 | the fields after `acquireLease`, and which lease was given out |
| Activity.ActivityTracker.ReleaseLease | src/daemon/activity.ts:55-64 | the fields after the returned release function has run |
| Activity.ActivityTracker.StopNow | src/daemon/activity.ts:67-74 | the fields after `stop` |
| Activity.ActivityTracker.OnTimer | src/daemon/activity.ts:79-91 | the fields after a timer callback, early, stale or due |
| CProbe.AgentDebugBuffer.Append | src/probes/c.ts:31-41 | writes inside the buffer all of the text or nothing; after an overflow nothing more is written |
| CProbe.AgentDebugBuffer.WriteString | src/probes/c.ts:47-79 | the buffer holds what fits of the quoted, escaped text, and knows whether all of it did |
| CProbe.AgentDebugJsonString | src/probes/c.ts:82-92 | a NUL-terminated literal inside the static storage of 69632 bytes, cut off at 69631 |
| CProbe.AgentDebugEmit | src/probes/c.ts:110-171 | appends the whole record if and only if there is data, not empty and without bytes below 32, and the record has at most 65536 bytes; nothing otherwise |
| ProbeReader.DecodeQuoted | src/probes/c.ts:47-79 | decoding by section 7 of RFC 8259 inverts the string writer for every text, whatever follows |
| ProbeReader.RecordRoundTrip | src/probes/c.ts:131-152 | a record read back gives the three texts, the data verbatim and, as a number, the time |
| ProbeReader.StampIsTheTime | src/probes/c.ts:126-130 | the digits of the stamp, read as a decimal, are the time, without leading zeros |
| ProbeReader.RecordText | src/probes/c.ts:131-152 | the order of the members and the punctuation between them, byte by byte |
| ProbeReader.FieldText | src/probes/c.ts:131-150 | a member name stands between quotation marks and in front of a colon |
| ProbeReader.EscapedBytes | src/probes/c.ts:55-76 | what the string writer makes of each byte, written out |
| ProbeReader.OneLinePerRecord | src/probes/c.ts:115-155 | an emitted record has its only LF, and only byte below 0x20, at its end, and fits 64 KiB |
| ProbeReader.TruncatedTextIsDropped | src/probes/c.ts:82-155 | a text that `agent_debug_json_string` truncates is always dropped by `agent_debug_emit`; any record that is appended carries the whole text |
| ProbeReader.JsonStringIsCString | src/probes/c.ts:82-92 | the returned literal has no NUL and no control character |
| ProbeReader.StampFits | src/probes/c.ts:126-130 | every 64-bit time fits the 32-byte stamp, terminator included |
| SensitiveKeys.SplittingMarks | src/domain/redaction.ts:37-38 | the two capital-splitting replacements together put an underscore before exactly the ends of acronyms and the starts of words |
| SensitiveKeys.NormalizeIsNormal | src/domain/redaction.ts:35-42 | the result has only [a-z0-9_] and no leading, trailing or doubled underscore |
| SensitiveKeys.NormalizeIdempotent | src/domain/redaction.ts:35-42 | normalising twice is normalising once |
| KeySpellings.SnakeNormalizes | src/domain/redaction.ts:35-42 | the snake spelling is its own normal form |
| KeySpellings.KebabNormalizes | src/domain/redaction.ts:35-42 | the kebab spelling normalises to the snake spelling |
| KeySpellings.CamelNormalizes | src/domain/redaction.ts:35-42 | the camel spelling normalises to the snake spelling if and only if each later word can be told from the one before |
| KeySpellings.PascalNormalizes | src/domain/redaction.ts:35-42 | the same for Pascal case |
| KeySpellings.TrainNormalizes | src/domain/redaction.ts:35-42 | the train spelling, as in Set-Cookie, reaches the snake spelling |
| KeySpellings.SpellingsAgree | src/domain/redaction.ts:35-42 | words of at least two characters have one normal form in all four spellings |
| KeySpellings.OneLetterWordsMerge | src/domain/redaction.ts:37-38 | xYZ does not normalise to x_y_z |
| SecretKeys.SensitiveIff | src/domain/redaction.ts:3-47 | a key is sensitive if and only if its normal form is one of the twelve exact names, or one of the eleven qualified names alone or behind an underscore, all written out |
| SecretKeys.SecretInEverySpelling | src/domain/redaction.ts:35-47 | so words of two or more characters are hidden in all of snake, kebab, train, camel and Pascal spelling, or in none, as their snake spelling is secret or not |
| SecretKeys.NotQualified | src/domain/redaction.ts:18-47 | a name whose last character is none of those that qualified names end in is sensitive only if it is an exact one |
| SecretKeys.SecretExamples | src/domain/redaction.ts:3-47 | Set-Cookie, password, apiKey and stripe_api_key are hidden; tokens and mypassword are not |
| SecretKeys.SecretsAreGone | src/domain/redaction.ts:54-71 | at every depth the value under such a key is the marker |
| SecretKeys.OthersAreKept | src/domain/redaction.ts:54-71 | and a value that stands under no such key stays as it is, apart from what is below it |
| Redaction.Redact | src/domain/redaction.ts:54-71 | the recursive map returns the redacted value and pushes the listed paths behind the ones already there |
| Redaction.RedactionKeepsVisible | src/domain/redaction.ts:54-71 | away from sensitive keys redaction changes nothing |
| Redaction.RedactionHidesSensitive | src/domain/redaction.ts:62-64 | at every outermost sensitive position stands the marker |
| Redaction.RedactedIsFullyRedacted | src/domain/redaction.ts:54-71 | no sensitive key, at any depth, keeps any value but the marker |
| Redaction.RedactedUnchangedIff | src/domain/redaction.ts:54-71 | redaction leaves a value alone if and only if it is already fully redacted |
| Redaction.RedactionIdempotent | src/domain/redaction.ts:73-76 | a second pass returns the same value |
| Redaction.SecondPassSamePaths | src/domain/redaction.ts:73-76 | and lists the same paths |
| Redaction.RedactionKeepsJson | src/domain/event-validation.ts:19-44 | a valid JSON value stays valid at every depth |
| Redaction.ListedExactly | src/domain/redaction.ts:61-65 | the listed positions are exactly the outermost sensitive ones |
| Redaction.ListedInOrder | src/domain/redaction.ts:60-67 | each once, in traversal order |
| Redaction.PathsAreRenderedPositions | src/domain/redaction.ts:56-63 | the pushed paths are these positions, written out |
| Redaction.PathText | src/domain/redaction.ts:56-61 | a path joins keys by dots and puts the number of an item in brackets, in decimal |
| Redaction.DigitsAreTheNumber | src/domain/redaction.ts:56 | the number in brackets is written in decimal, without leading zeros |
| EventValidation.ValidateAndNormalizeEvent | src/domain/event-validation.ts:78-148 | accepts exactly the schema, field by field: texts of 1 to 256 and 1024 UTF-16 units, a finite timestamp, data of bounded shape and 32768 bytes; the stored data is valid JSON, holds the marker under every secret name and is otherwise the probe's; the reported paths are the outermost sensitive positions, written out, and there is one whenever the data changed |
| EventValidation.JsonIffItFits | src/domain/event-validation.ts:19-44 | what `isJsonValue` accepts, node by node: at most eight levels down, no infinite number, texts of 4096 units, keys of 256 and 100 children at most |
| EventValidation.LookupFinds | src/domain/event-validation.ts:78-103 | with every key once, a field is found if and only if it is there |

## Left out

- HTTP routing, CORS, server-sent event streaming, command-line parsing, output rendering: plumbing around the modelled operations.
- Daemon start-up, start-up lock, tokens, process handling, file permissions, symbolic links, Windows branches, fsync: effects of the operating system.
- jaq, serde_json, JSON.parse, JSON.stringify, SHA-256, HMAC and base64 themselves: parameters or identities; a cursor is its authenticated payload.
- Creating, listing and removing sessions: easy members; removing leaves identifier caches behind, which is harmless because session ids are not reused.
- The C++, Rust and other probe templates: they repeat the C escaping without the bounded buffer.
- The live event stream: it does not rewind after a reset, so it promises no complete delivery.
- The byte bound on event data after redaction: the marker can be longer than what it replaces, so the bound is not kept.
- `scannedRecords` of a query page: a statistic; `producedValues` is bounded.
- Two nested session operations of different sessions: `SessionLock` covers nesting in one session.
- Read errors of the status summary, and of the log under a native query: an error there ends the command without a page.
- Unpaired surrogates in JSON strings: a string is a sequence of Unicode characters, whose length counts UTF-16 code units where the code does.
- A short `write` of the C helper: the record is handed to the operating system in one call whose result is ignored.
- Surrogate pairs in \u escapes: the probe never writes them, and `DecodeString` rejects them.
- The stream-level buffering of readers and writers: a sorted run is a list of events, its reader delivers them in order.
- QueryPage.RunStreamingPage: the count of scanned records is not stated, because no promise depends on it.
- DirectIngestion.DirectAppendObserver.ProcessSessionWhileLocked: observing and ingesting the records of one window are two loops here and one loop in the source; the file cannot shrink in between because the lock is held.
