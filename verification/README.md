# cq-dashboard: history, sink and read side

cq-dashboard records the history of background jobs from event streams that are unordered,
lossy and produced by several processes at once. This project models the logic that makes
such a history trustworthy and proves what it promises:

- **History store.** Every write is an upsert that merges a record into the stored row.
  `Bands` proves once what folding with an associative, idempotent operator gives; `Merging`
  shows that the row merge is such an operator and commutes exactly on agreeing records;
  `History` and `HistoryRuns` lift this to the whole store and to every sequence of store
  calls; `Lifecycle` says in which state a job ends up. `MemoryStores` is the in-memory store as a class with mutable maps, each method
  proved against those specifications.
- **Sink.** `SinkProtocol` is a state machine over the atomic steps of hooks, writer, Start
  and Close, with anything else that happens to the store in between; `SinkLiveness` says
  what it gets done while it runs, `SinkShutdown` what closing it guarantees and what it loses;
  `SinkWriters` is the writer's code, run without
  interference.
- **Shared store.** `SharedStore` is a timed state machine of processes that claim epochs,
  beat, reconcile, write, close and crash against one store; `SharedSinks` runs a sink inside
  it.
- **SQL backends.** `SqlStore` and `SqlTimelines` model the statements of both drivers as row
  and table functions and prove that they simulate the in-memory store. `SqlFilters`,
  `SqlBinding` and `Patterns` treat `predicate` and `rebind` as a small compiler that must mean
  what `matching` means.
- **Read side.** `Filters`, `Search`, `Listing`, `Paging`, `Tallies`, `Partition` and `Timelines`.
- **Login.** `Limiter` (fixed-window attempts), `Sessions` (signed cookies and sign-out), with
  `Base64` (section 5 of RFC 4648), `Decimal` and `Int64` beneath.

Conventions. An instant is an integer number of nanoseconds since Go's zero time, so 0 is the
zero time. The clock is a parameter. Each store call runs under the store's lock and is one
step. Map iteration is modelled as removing an arbitrary member from a set of keys still to be
visited, so results hold for every iteration order. Names, keys and search text are sequences
of characters standing for bytes. `Other(name)` stands for any state outside the nine
constants; `Rank` sends it to 3, as the source does.

Where the code and its documentation part, the model follows the code:

- `offer` says that anything offered after Close is counted as dropped rather than lost
  silently (sink/sink.go:286-288), and Close says that it flushes (sink/sink.go:267). Neither
  holds of every run. An offer caught between its two selects when `done` closes can land in a
  channel that nobody drains (`SinkShutdown.StraddlerStranded`); Close releases the mutex before
  it closes `done`, so a Start can overtake it and Close then returns before a live writer has
  written (`SinkShutdown.StartOvertakesClose`); and a sink closed without a Start keeps what it
  had accepted (`SinkShutdown.NeverStarted`). `SinkShutdown.StrandableIff` says exactly when a
  record can still be stranded, `SinkShutdown.CloseFlushesIff` that Close keeps its promise if and
  only if the sink was launched before Close read the flag, and `SinkShutdown.LeftBehind` which
  records are left.
- A closing sink retires its epoch while its writer still drains (sink/sink.go:210-214), so that
  a restart reconciles at once. Another process starting in between interrupts jobs whose ends the
  writer has yet to deliver, and these then come too late: `SharedStore.ReconcileBeatsDrain`,
  against `SharedStore.DrainBeatsReconcile`.
- A window frozen at an instant should not move when jobs arrive (store/store.go:108-110). An
  attempt event may be the first heard of a job, and the job record made of it carries no enqueue
  time (sink/sink.go:465-473), so the job enters every window: `Paging.AttemptEntersWindow`.
  `Paging.ArrivalsMoveNoPageIff` gives the exact condition.
- Events of a job may arrive in any order; records of one attempt may not. A start that arrives
  after the end turns a completed attempt back to active: `Merging.LateStartReopens`;
  `Merging.MergeAttemptCommutesIff` and `History.AttemptsOrderTolerant` say what does commute.
- Sign-out refuses a session while `now` is before its expiry, and the expiry check refuses it
  once `now` is after it (web/login.go:129-134, 245-247), so at the expiry instant itself a
  signed-out cookie is accepted: `Sessions.AcceptedAtExpiry`, and exactly when in
  `Sessions.SignedOutIff`.
- Nothing in the sign-out list should outlive the session TTL (web/login.go:106-111). Entries are
  dropped only by the next sign-out: `Sessions.HeldIff`, `Sessions.ExpiredEntryHeld`.
- The limiter lets through up to 2 * burst - 1 attempts in an interval as long as its window,
  and this is attained: `Limiter.ApprovalsBounded`, `Limiter.BoundIsMet`.
- The SQL stores keep microseconds, the in-memory store nanoseconds. For every run from 1970 on,
  SQL is the in-memory store fed with instants cut to microseconds
  (`SqlStore.SqlRunsTheCutReference`); `SqlStore.CutCommutesIff` says what the cut costs a row,
  `SqlStore.SqlReportsTheSameIff` when a cutoff shows it, and `SqlStore.SqlPruneSpares` is a row
  that one store prunes and the other keeps.
- The SQL timeline counts rows from the microsecond before `since` (`SqlTimelines.SqlCountsBlurredRow`),
  cuts the bucket width to microseconds, so that 1500 ns is filled as 1000
  (`SqlTimelines.SqlTimelineFillsIff`, `SqlTimelines.FractionalBucketsDiffer`), fails for a bucket
  under one microsecond (`SqlTimelines.SqlTimelineFailsIff`), and for a zero `since` usually answers
  with an error instead of no buckets (`SqlTimelines.SqlZeroSince`).
  `SqlTimelines.SqlTimelineAgreesIff` says exactly when the two agree.
- The bucket limit is checked on a span that saturates, so very wide buckets over more than 292
  years pass it: `Timelines.SaturatedSpanOverruns`, and exactly when in `Timelines.TimelineBounded`.
- SQL search terms are LIKE patterns: `Patterns.LikeIsContainsIff` shows that a term means what
  it means in memory if and only if it holds no wildcard.
- `KeyFor` tells submissions apart exactly when no colon is involved: `Records.KeyAmbiguousIff`.
- `Timeline` panics for a `since` more than a slot past now: `Timelines.TimelineFailsIff`.

## Model

| member | source | states |
|---|---|---|
| Bands.FoldReplay | store/memory/memory.go:56-59 | folding a whole stream a second time into what it already produced changes nothing, for any associative idempotent merge |
| Bands.FoldOrderTolerant | store/memory/memory.go:56-79 | two streams with the same members, in any order and multiplicity, fold to the same record when their members pairwise agree |
| Names.MaskSegment | store/normalize.go:52-79 | the counting loop computes the mask of a segment: `*` for one that holds a digit or is a long hex run, the segment itself otherwise |
| Names.Normalize | store/normalize.go:18-48 | the byte loop with its flush closure equals split, mask each segment, rejoin with the same separators |
| Names.RejoinSplit | store/normalize.go:18-48 | splitting a name loses nothing: rejoining gives it back, and no segment holds a separator |
| Names.SplitRejoin | store/normalize.go:18-48 | splitting inverts rejoining for all pieces without separators inside |
| Names.NormalizeIdempotent | store/normalize.go:10-18 | normalizing masks the segments in place, keeps every separator, and twice is once |
| Names.NormalizeBounds | store/normalize.go:10-18 | a pattern is never longer than its name, shows no digit, and is blank if and only if the name is |
| Names.NormalizeSegments | store/normalize.go:10-79 | segment by segment, one that shows a digit or spells eight or more hexadecimal digits becomes `*`, and every other segment and separator stays |
| Names.NormalizeKeepsIff | store/normalize.go:10-79 | a name is its own pattern if and only if none of its segments is of that kind |
| Records.KeyInjective | store/store.go:235-241 | a key determines epoch, queue and id when epochs hold no colon and queues (or ids) hold none |
| Records.KeyAmbiguousIff | store/store.go:239-241 | another submission shares the key if and only if epoch, queue or id holds a colon |
| Merging.MergeRecord | store/memory/memory.go:81-129 | the field-by-field update of the by-value copy computes the merge on all pairs of records |
| Merging.MergeIsBand | store/memory/memory.go:81-129 | merge is associative and idempotent on all records |
| Merging.MergeCommutesIff | store/memory/memory.go:81-129 | two records merge to the same row in either order if and only if they agree: same identity, no two states of one rank, set values equal, equal progress instants carry equal progress |
| Merging.MergeStaysInFamily | store/memory/memory.go:81-129 | merging two records of a pairwise agreeing family gives a record that agrees with the rest |
| Merging.RowOrderTolerant | store/memory/memory.go:60-129 | all permutations and repetitions of a coherent set of one job's events give one row |
| Merging.MergeAdvances | store/memory/memory.go:81-129 | merging never lowers rank, attempt or progress instant, never changes a terminal state, and never changes a set queue, name, lineage, enqueue or start time |
| Merging.MergeAttemptIsBand | store/memory/memory.go:146-155 | the attempt merge (incoming wins, blank error and finish are kept) is associative and idempotent |
| Merging.MergeAttemptCommutesIff | store/memory/memory.go:146-155 | two records of an attempt merge alike in either order if and only if they agree: same attempt, same state, set error and finish equal |
| Merging.LateStartReopens | store/memory/memory.go:146-155 | a start record that follows the end turns a completed attempt back to active, while the other order keeps it completed |
| History.BatchingIrrelevant | store/memory/memory.go:60-79 | upserting batches one after another equals upserting their concatenation, however they are cut |
| History.UpsertProjects | store/memory/memory.go:60-79 | after any stream each row is the fold of exactly the events that carry its key |
| History.UpsertReplay | store/memory/memory.go:56-79 | re-delivering any batch of jobs to any store leaves it as it was |
| History.DeliveryOrderTolerant | store/memory/memory.go:60-129 | two deliveries of the same coherent events, permuted, repeated and batched in any way, leave the same rows |
| History.SubmissionIsolated | store/memory/memory.go:64-76 | with colon-free epochs and queues, a row is the fold of its own (epoch, queue, id) events alone, whatever else was delivered |
| History.SaveProjects | store/memory/memory.go:133-159 | a job's attempt list after any stream depends on its own attempts alone |
| History.PlaceAllLookup | store/memory/memory.go:140-157 | the list keeps at most one record per (attempt, start), holding the fold of the records of that slot |
| History.SaveReplay | store/memory/memory.go:131-159 | re-delivering any batch of attempts leaves the store as it was |
| History.AttemptsOrderTolerant | store/memory/memory.go:131-159 | two deliveries of the same coherent attempt records, permuted, repeated and batched in any way, record the same for every attempt of every job |
| Lifecycle.TerminalIff | store/store.go:33-49 | a state is terminal if and only if it is none of created, pending and active |
| Lifecycle.FailureIff | store/store.go:147-161 | the failure states are the named states that end a job, except completed |
| Lifecycle.JobStands | store/memory/memory.go:60-86 | after any deliveries, in any order and batching, a row has the first terminal state that was reported of its job, and with none reported active if anything said so, else pending if anything did, else created |
| Lifecycle.StartAndEnqueueCommute | store/store.go:30-44 | a job that is enqueued and started is active in whichever order the two events come |
| HistoryRuns.RunValid | store/memory/memory.go:60-190 | in every reachable state each row sits under its own key with the normalized pattern of its name, and attempts hold at most one record per (key, attempt, start) |
| HistoryRuns.RunAdvances | store/memory/memory.go:60-190 | between any two points of any run through which a row exists, it only advances: rank, attempt and progress never decrease, a terminal state and set identity and times never change |
| HistoryRuns.OnlyPruneRemoves | store/memory/memory.go:418-444 | an operation removes a row if and only if it is a prune with a nonzero cutoff and the row is terminal, old enough and in a wanted state |
| HistoryRuns.GoneMeansPruned | store/memory/memory.go:418-444 | a row missing at the end of a run was terminal just before some prune of that run |
| HistoryRuns.ReconcileExact | store/memory/memory.go:171-190 | after reconciling, unfinished rows belong to the caller or to a beating epoch; exactly the orphans changed, and only in their state |
| HistoryRuns.ReconcileCounts | store/memory/memory.go:171-190 | the orphans are as many as the rows that changed, and reconciling again at the same instant changes none |
| HistoryRuns.PruneExact | store/memory/memory.go:418-444 | pruning removes exactly the aged terminal rows in the wanted states; a zero cutoff removes nothing |
| HistoryRuns.PruneTakesAttempts | store/memory/memory.go:438-440 | a pruned row takes all its attempts with it, and no others go |
| HistoryRuns.PruneCounts | store/memory/memory.go:432-443 | the count is the number of rows removed, and a second prune removes none |
| MemoryStores.MemoryStore.UpsertJobs | store/memory/memory.go:60-79 | the loop leaves the store that the upsert operation specifies and keeps the class invariant |
| MemoryStores.MemoryStore.SaveAttempts | store/memory/memory.go:133-159 | the same for attempts, replacing in place or appending |
| MemoryStores.MemoryStore.PlaceRecord | store/memory/memory.go:142-157 | the inner scan replaces the record of the same attempt and start, keeping its error and finish where the new one has none, or appends |
| MemoryStores.MemoryStore.Heartbeat | store/memory/memory.go:162-167 | the epoch's last beat is set and nothing else changes |
| MemoryStores.MemoryStore.ReconcileEpoch | store/memory/memory.go:171-190 | updating rows while ranging over them gives the reconciled store, and the result is the number of rows that changed |
| MemoryStores.MemoryStore.PruneJobs | store/memory/memory.go:418-444 | deleting while ranging gives the pruned store, and the result is the loss in rows |
| MemoryStores.MemoryStore.Matching | store/memory/memory.go:447-478 | every matching row is found exactly once, in whatever order the map is walked |
| MemoryStores.MemoryStore.CountJobs | store/memory/memory.go:220-224 | the number of keys whose rows match |
| MemoryStores.MemoryStore.Jobs | store/memory/memory.go:193-217 | the requested page of the one newest-first listing of the matching rows, or a panic if and only if the offset is negative; every row shown matches, later enqueue times come first, and equal ones go by key, the greatest first |
| MemoryStores.MemoryStore.GroupJobs | store/memory/memory.go:227-272 | each group counts the matching rows that share its state, its error and its pattern (a blank one shown as "(unnamed)"), with their latest activity; larger groups come first and among equals those seen later; the groups are the largest of a complete grouping whose counts add up to CountJobs |
| MemoryStores.MemoryStore.Counts | store/memory/memory.go:405-414 | the tally counts the rows of every state and lists no state without rows |
| MemoryStores.MemoryStore.Timeline | store/memory/memory.go:275-329 | the range check on a saturating span and the two loops compute the specified buckets, refusal or panic |
| Listing.ListingUnique | store/memory/memory.go:197-203 | a sequence that is newest first and holds each row once is the listing: there is only one |
| Listing.LexIff | store/memory/memory.go:199-200 | the string order is that of the first differing character, or of a proper prefix |
| Listing.ListingIff | store/memory/memory.go:197-203 | a sequence is the listing if and only if it holds every row exactly once, later enqueue times first, and rows of one instant by key, the greatest first |
| Listing.ListingIsSorted | store/memory/memory.go:197-203 | the listing holds every row exactly once, by enqueue time and then key, descending |
| Listing.SortNewestFirst | store/memory/memory.go:197-203 | sorting any enumeration of the rows gives the listing, whatever order they came in |
| Listing.PageShows | store/memory/memory.go:205-216 | a page holds the rows from its offset on, as many as asked for up to 500, and 100 when the limit is out of range |
| Paging.List | web/handler.go:591-651 | for every page number, also one whose offset wraps around 64 bits, the view counts the rows of the store at its first reading and shows the clamped page of the store at its second, with the row numbers that go with it; when the matching rows are the same at both it is a page of the listing counted |
| Paging.Ask | web/handler.go:591-617 | the page number falls back to 1, the offset is the wrapped product, and a page past the first opens a window at now unless the query names one |
| Paging.Locate | web/handler.go:623-632 | a page past the end lands on the last one, and the offset that reaches the store is in range even when the first product wrapped |
| Paging.PagesCoverListing | web/handler.go:603-632 | pages 1..Pages, read one after another, show every matching row exactly once, newest first |
| Paging.ThirdPage | web/handler.go:596-632 | a page shows fifty rows: 120 rows take three pages, and the last shows the last twenty |
| Paging.FrozenWindow | web/handler.go:603-617 | two stores that agree on the rows inside the window have the same matching rows, hence the same pages |
| Paging.ArrivalsMoveNoPageIff | store/store.go:108-110 | a batch of new jobs leaves the matching rows, hence every page, as they were if and only if each job has a set enqueue time past the window, the first its events report, or fails another condition of the filter |
| Paging.ArrivalsMoveNoPage | store/store.go:108-110 | so jobs whose every event carries an enqueue time past the window move no page |
| Paging.AttemptEntersWindow | sink/sink.go:465-473 | a job first heard of through an attempt event enters every frozen window of an unfiltered listing |
| Tallies.Tally | store/memory/memory.go:235-258 | the tally describes every family that occurs: its row count and its latest activity |
| Tallies.GroupIs | store/memory/memory.go:232-258 | a group of the tally counts exactly the rows whose state, error and shown pattern are its own, and carries their latest activity |
| Tallies.GroupedIff | store/memory/memory.go:232-249 | two rows are counted in one group if and only if they agree on state, error and shown pattern |
| Tallies.RankGroups | store/memory/memory.go:260-268 | the ranked list is a complete grouping with distinct families, largest first, ties by latest activity |
| Tallies.GroupingConserves | store/memory/memory.go:227-268 | the counts of a complete grouping add up to the number of rows |
| Tallies.CountsConserve | store/memory/memory.go:405-414 | the per-state tally adds up to the number of stored rows |
| Tallies.CountsAgree | store/memory/memory.go:405-414 | each state's tally is what CountJobs answers for a filter on that state |
| Timelines.RefusedIff | store/memory/memory.go:279-284 | the saturated span is refused if and only if the range reaches 10001 buckets and such a range fits a duration |
| Timelines.TimelineFailsIff | store/memory/memory.go:279-284 | the call is refused if and only if `since` is set and that holds, and panics if and only if `since` is more than a slot past now; neither happens otherwise |
| Timelines.TimelineBounded | store/memory/memory.go:282-329 | buckets are contiguous and in order, and one clock reading yields at most 10002 of them, unless and only unless 10001 buckets do not fit a duration and the range covers more slots |
| Timelines.SaturatedSpanOverruns | store/memory/memory.go:279-284 | a concrete range from 1677 to 2026 passes the check and overruns the limit |
| Timelines.TimelineConserves | store/memory/memory.go:286-329 | completed and failed sums equal the completed and failure-state rows active since the cutoff whose slot is not past now's |
| Timelines.BucketHolds | store/memory/memory.go:286-329 | a bucket counts the rows that completed, and those that ended in another named state, among the rows last active within its span and not before `since` |
| Timelines.TimelineDefaults | store/memory/memory.go:275-284 | without a width buckets are minutes, and for widths up to ten days a range is refused if and only if it reaches 10001 of them |
| Timelines.Totals | web/handler.go:489-495 | the totals are the bucket sums and the peak is the tallest bucket |
| Timelines.Sparkline | web/handler.go:481-510 | each bar carries the two percentages of the peak rounded down; they never total over 100, and at the peak at least 99 |
| SinkProtocol.OneAtATime | sink/sink.go:342-372 | applying records one at a time equals applying all the jobs and all the attempts of the sequence |
| SinkProtocol.RunInv | sink/sink.go:161-372 | the invariant (conservation, bounds, shutdown order, late sends, store contents) holds after every interleaving of offers, ticks, writer steps, Start, Close and other calls on the store |
| SinkProtocol.EventsConserved | sink/sink.go:289-372 | in every reachable state offered = dropped + written + refused + batch + channel + in flight, accepted = flushed ++ batch ++ channel in order, and neither buffer exceeds its limit |
| SinkProtocol.LaunchFinds | sink/sink.go:161-197 | the store at launch is the one the run began with after every call made until then: the heartbeat and reconcile of Start and those of everyone else |
| SinkProtocol.SinkRefinesOneAtATime | sink/sink.go:305-372 | whatever other calls reach the store in between, it is what the committed records, one at a time among those calls, make of the store found at launch; with no refusal these are the flushed records, table by table, however batches were cut, and a sink alone leaves the one-at-a-time fold of what it flushed |
| SinkLiveness.OfferRuns | sink/sink.go:289-302 | an uninterrupted offer is appended to the buffer, or shed and counted if and only if the sink is closed or the buffer is full |
| SinkLiveness.TickFlushes | sink/sink.go:319-320 | from every state of the looping writer a tick with the two store calls it brings takes all of the batch to the store, counts what was accepted and loops on; with an empty batch it does nothing |
| SinkLiveness.ReceiveFlushes | sink/sink.go:314-318 | a received record waits in the batch, without a store call, until the batch is full, and then goes to the store with it |
| SinkLiveness.DrainFlushes | sink/sink.go:321-336 | the drain receives in the same way, and at its first look at an empty channel writes the rest of the batch and stops |
| SinkLiveness.CatchesUp | sink/sink.go:305-372 | in every reachable state of a launched sink whose writer is not past its last look at the channel, the writer's own steps are enough to write and count everything accepted, in order, without a Close, a further record or a full batch |
| SinkShutdown.LeftBehind | sink/sink.go:270-302 | once no writer is running or can be launched: if it ran, all that was accepted before `done` closed is flushed and the channel holds exactly the last sends made after, each of another hook that was between its selects at that moment; if it never ran, everything accepted is still there |
| SinkShutdown.StrandedForGood | sink/sink.go:305-340 | from then on the channel only grows and nothing is written again |
| SinkShutdown.StrandableIff | sink/sink.go:284-340 | in every reachable state a record can still be stranded if and only if `done` is open, an offer is between its selects, or a record sits in a channel whose writer is past its last look or was never launched |
| SinkShutdown.ClosingStrandsIff | sink/sink.go:276-302 | when `done` closes on a launched sink a record can be stranded if and only if an offer is in flight |
| SinkShutdown.FlushedIff | sink/sink.go:266-282 | in every reachable state after `done` closed, all accepted before it is flushed if and only if what is still buffered is no more than what was sent late; a Close that waited returns with the writer stopped and all of it flushed |
| SinkShutdown.CloseFlushesIff | sink/sink.go:266-282 | after Close has read the flag, every way in which it can return has flushed all that was accepted before `done` closed if and only if the writer was launched before that reading |
| SinkShutdown.OvertakesFromBehind | sink/sink.go:270-276 | Start and Close exclude one another: a Start that launches the writer after Close has read the flag has also begun after that |
| SinkShutdown.ComesToRest | sink/sink.go:321-336 | a closed sink can always come to rest without any offer completing |
| SinkShutdown.DrainTerminates | sink/sink.go:321-336 | after `done` is seen, every continuation holds at most a computed number of writer steps and sends, and the writer has stopped if and only if it has no step left to take |
| SinkShutdown.StraddlerStranded | sink/sink.go:284-302 | a concrete run ends with Close returned and the record of an offer caught between its selects neither written nor counted as dropped |
| SinkShutdown.StartOvertakesClose | sink/sink.go:270-282 | a concrete run in which Close returns without waiting, beside a live writer and an unwritten record, with no offer in flight |
| SinkShutdown.NeverStarted | sink/sink.go:266-282 | a concrete run in which a sink closed without a Start keeps an accepted record, neither written nor counted as dropped |
| SinkWriters.Sink.Offer | sink/sink.go:289-302 | a record is buffered or counted as dropped, never both, without blocking |
| SinkWriters.Sink.Separate | sink/sink.go:347-355 | the loop splits a batch into its jobs and its attempts, each in order |
| SinkWriters.Sink.Receive | sink/sink.go:314-328 | one record moves from the channel to the batch, and a batch that it fills is flushed |
| SinkWriters.Sink.Flush | sink/sink.go:342-372 | whatever the store answers to its two calls, what it accepted is written as if record by record and counted, and the batch is emptied |
| SinkWriters.Sink.Drain | sink/sink.go:321-336 | whatever the batch size and the answers, batch and channel are cut into batches in order and each is flushed; with no refusal all of it is written and counted |
| SinkWriters.AllAccepted | sink/sink.go:342-372 | batches that the store accepts leave what their records leave one at a time, and count them all |
| SharedStore.RunInv | sink/sink.go:161-217 | over every run of any number of processes, rows are filed under their own epoch and every claimed or open process's stored heartbeat is its last one |
| SharedStore.LaunchInterruptsIff | sink/sink.go:179-188 | a start changes a known process's row if and only if it is unfinished and that process has retired or been silent longer than the limit, and then only interrupts it |
| SharedStore.LiveSiblingsSpared | store/memory/memory.go:162-190 | a start changes no row of an open sink that beats on time |
| SharedStore.BeatSpares | sink/sink.go:199-217 | whatever its limit, no start touches a row of a process that has just beaten, be it open or draining with its epoch not yet retired |
| SharedStore.ClosedIsReconciledAtOnce | sink/sink.go:199-217 | what a closed process left unfinished is interrupted by the next start of any other process, without waiting for the staleness limit |
| SharedStore.NewcomerCleansUp | sink/sink.go:161-188 | whatever happens after a crash, a process that starts under a fresh epoch once the limit has passed since the last heartbeat leaves no row of the crashed one in flight |
| SharedStore.DrainBeatsReconcile | sink/sink.go:305-340 | the end of a draining process's job is recorded if it is written before the next start of another |
| SharedStore.ReconcileBeatsDrain | sink/sink.go:210-214 | once the epoch is retired such a start interrupts the job first, and the end that the writer still delivers changes nothing |
| SharedStore.AttemptsReachTheStore | store/memory/memory.go:133-159 | until something is pruned, the attempts table is what the attempts of all processes, in the order written, make of the one found |
| SharedStore.OpenSinkOwnsItsRows | sink/sink.go:161-217 | in every run with timely beats, an open sink's rows are what its own writes and retention make of an empty table |
| SharedSinks.SharedSinkRefines | sink/sink.go:161-372 | in every joint run of a sink and the other processes with timely beats, the rows of a sink still open are what its committed job records, one at a time and in order, and the prunes in between make of an empty table |
| SqlStore.UnixRoundTrip | store/sqlite/sqlite.go:692-705 | zero and whole microseconds after 1970 survive the column, and only the zero time is stored as 0 |
| SqlStore.UnixOrder | store/sqlite/sqlite.go:692-705 | columns compare as the instants do |
| SqlStore.CutoffAgreesIff | store/postgres/postgres.go:693-706 | comparing a column with a cutoff in nanoseconds agrees with comparing the instants unless the cutoff falls within that instant's microsecond |
| SqlStore.EncodeRoundTrip | store/sqlite/sqlite.go:665-688 | a scanned row is the job that was stored |
| SqlStore.ConflictIsMerge | store/sqlite/sqlite.go:138-164 | the ON CONFLICT clause computes the reference merge, column by column |
| SqlStore.MergeKeepsClean | store/postgres/postgres.go:104-130 | filling a blank pattern keeps it the normalized name, because only a blank name has a blank pattern |
| SqlStore.SaveOneSimulates | store/sqlite/sqlite.go:208-239 | the attempts upsert does to the rows of one job what placing does to its list, slot by slot |
| SqlStore.OrphansSimulate | store/sqlite/sqlite.go:259-280 | the reconcile statement selects the orphans except those whose last beat lies within the cutoff's microsecond |
| SqlStore.AgedSimulates | store/sqlite/sqlite.go:453-494 | the prune statements select the aged rows except those last active within the cutoff's microsecond |
| SqlStore.StepSimulates | store/postgres/postgres.go:133-244 | every store call with a sharp cutoff keeps the tables an encoding of the reference store |
| SqlStore.CountsDifferBySpared | store/postgres/postgres.go:226-245 | the counts that reconcile and prune report are lower than the reference's by exactly the spared rows |
| SqlStore.SqlSimulatesReference | store/postgres/postgres.go:104-470 | after any sequence of upserts, saves, heartbeats, reconciles and prunes with sharp cutoffs the tables encode the reference maps |
| SqlStore.SqlReportsTheSameIff | store/postgres/postgres.go:429-470 | after such a run, the next call reports the same number of rows if and only if its cutoff is sharp |
| SqlStore.SqlPruneSpares | store/sqlite/sqlite.go:453-494 | a concrete row that the in-memory prune removes and the SQL prune keeps |
| SqlStore.MicroRunsAreSharp | store/sqlite/sqlite.go:138-277 | runs whose instants are whole microseconds are always sharp |
| SqlStore.CutIsInvisible | store/sqlite/sqlite.go:692-705 | every statement does and reports the same for an operation and for the operation with its instants cut to microseconds |
| SqlStore.SqlRunsTheCutReference | store/postgres/postgres.go:104-470 | for all runs with instants of any precision from 1970 on, the tables encode the reference store run on the cut operations, every row reads back from it, and the next call reports what the reference reports for its cut |
| SqlStore.CutCommutesIff | store/sqlite/sqlite.go:138-164 | merging the cut records gives the cut of the merged record if and only if two different progress reports do not fall into one microsecond in order |
| SqlStore.SqlReadsBack | store/postgres/postgres.go:665-690 | a row exists in SQL if and only if it exists in the reference store, and reads back as the same job |
| SqlTimelines.Timeline | store/sqlite/sqlite.go:555-620 | the guards and the fill loop compute the specified reply from the grouped query, in the source's order of checks |
| SqlTimelines.SlotAgrees | store/sqlite/sqlite.go:565-610 | microsecond slots are nanosecond slots for buckets of whole microseconds |
| SqlTimelines.BucketAgrees | store/postgres/postgres.go:559-597 | bucket by bucket SQL counts what the reference counts, the first bucket also the rows within the microsecond before `since`, and starts where the reference starts except in the first bucket of 1970 |
| SqlTimelines.SqlTimelineFailsIff | store/sqlite/sqlite.go:555-620 | the call is refused exactly as in memory for a set `since`; it divides by zero or panics if and only if it is not refused, `since` is not stored as unset, and the bucket is under a microsecond or `since` is more than a slot past now; the query itself divides by zero exactly when rows are selected |
| SqlTimelines.SqlTimelineFillsIff | store/postgres/postgres.go:533-598 | for every bucket of a microsecond or more, SQL fills what the reference fills with the width cut to whole microseconds if and only if there is no bucket, or no counted row in the microsecond before `since` and `since` is past the first bucket of 1970 |
| SqlTimelines.SqlTimelineAgreesIff | store/postgres/postgres.go:533-598 | so for widths of whole microseconds the two timelines are equal if and only if that holds |
| SqlTimelines.FractionalBucketsDiffer | store/sqlite/sqlite.go:555-610 | for widths over a microsecond that are not whole microseconds, timelines of two or more buckets are never equal |
| SqlTimelines.SqlCountsBlurredRow | store/sqlite/sqlite.go:571-600 | a concrete row that SQL counts and the reference does not |
| SqlTimelines.SqlZeroSince | store/sqlite/sqlite.go:561-569 | for a zero `since` the reference answers no buckets, and SQL refuses every bucket too short for the longest span |
| Patterns.LikeFindsLiteral | store/sqlite/sqlite.go:314-321 | LIKE '%term%' holds exactly where the case-folded text contains the case-folded term, for terms without wildcards |
| Patterns.LikeWithoutPercent | store/sqlite/sqlite.go:314-321 | without "%" and escapes a pattern goes character by character, "_" standing for any one |
| Patterns.LikeIsContainsIff | store/postgres/postgres.go:287-294 | a term means the same in SQL and in memory on all texts if and only if it holds no wildcard (for Postgres, no backslash either) |
| Patterns.FieldsLower | store/memory/memory.go:452 | lower-casing before or after splitting the search gives the same terms |
| Search.FieldsOfLaid | store/memory/memory.go:452 | words come back, in order, from any text in which they are spaced out, with any space around them |
| Search.FieldsSpaced | store/memory/memory.go:452 | and every text is its fields spaced out in that way: they are its maximal runs of other characters |
| Search.SearchMeans | store/memory/memory.go:447-478 | a search for some words keeps exactly the rows that the rest of the filter keeps and in whose id or name every word occurs, ignoring the case of letters |
| SqlFilters.Predicate | store/postgres/postgres.go:251-308 | clause and arguments built side by side are the rendered conditions of the filter and their parameters, in order |
| SqlFilters.StatePlaceholders | store/postgres/postgres.go:276-285 | one placeholder and one argument per wanted state, in order |
| SqlBinding.Rebind | store/postgres/postgres.go:641-657 | the loop numbers the placeholders of any query from 1 in order and changes nothing else |
| SqlBinding.RebindConcat | store/postgres/postgres.go:641-657 | rebinding a concatenation rebinds the parts, the second continuing where the first stopped |
| SqlBinding.ClauseRebinds | store/postgres/postgres.go:251-308 | every compiled clause holds exactly one placeholder per argument, and rebinding spells them $1..$n in argument order |
| SqlBinding.PlaceholdersDistinct | store/postgres/postgres.go:641-657 | the placeholders of a rebound clause, left to right, are $1 to $n and all distinct: no two parameters read one argument |
| SqlBinding.NumbersArePositions | store/postgres/postgres.go:641-657 | the number written into a conjunct is the position its parameter is read from |
| SqlBinding.BindingIsExact | store/sqlite/sqlite.go:284-335 | each placeholder, read in order, receives the argument that was appended with it |
| SqlBinding.FilterCompiles | store/sqlite/sqlite.go:284-335 | evaluating the clause with its arguments on an encoded row holds if and only if the reference store matches the job |
| Limiter.AttemptLimiter.Allow | web/login.go:165-183 | sweep and count give the table and verdict that the step function specifies, in whatever order entries are swept |
| Limiter.TableFollowsClient | web/login.go:165-183 | over every clocked run the shared table gives a client the verdicts of a limiter of its own |
| Limiter.ClientIsolated | web/login.go:165-183 | a client's verdicts are those it would get if no other client ever called |
| Limiter.HoldsOpenWindows | web/login.go:165-176 | after a call the table holds, besides the caller's, only windows that are still open |
| Limiter.ApprovalsBounded | web/login.go:146-183 | over every run no closed interval as long as the window holds more approvals of a client than 2 * max(burst, 1) - 1, or max(burst, 1) for a window of 0 |
| Limiter.BoundIsMet | web/login.go:165-183 | that bound is attained by a clocked run of the limiter for every burst, window and client |
| Limiter.RefusedOnlyWhenSpent | web/login.go:177-182 | a refusal means the whole burst was granted within the window's length before it |
| Limiter.ApprovedAfterWindow | web/login.go:177-180 | a client's first attempt after its window has passed is approved and opens a new one, whatever others did |
| Int64.WrapUndone | web/login.go:199-200 | shifting seconds to the Unix epoch and back is exact even where 64 bits wrap |
| Decimal.FormatParse | web/login.go:200 | parsing inverts formatting for every 64-bit integer |
| Decimal.FormatExample | web/login.go:200 | integers are written in decimal, with a leading minus |
| Base64.DecodeEncode | web/login.go:198 | every byte string survives unpadded base64url |
| Base64.TestVectors | web/login.go:198 | two test vectors of section 10 of RFC 4648 and the two symbols of the URL alphabet |
| Sessions.JoinSplit | web/login.go:231 | splitting on dots loses nothing and yields dot-free parts |
| Sessions.SplitFour | web/login.go:231-236 | the four fields come back exactly when the id holds no dot |
| Sessions.EpochIs | web/login.go:199-200 | the Unix epoch lies 1969 Gregorian years after the zero time, and Unix seconds count from it |
| Sessions.Revocations.Sweep | web/login.go:137-144 | deleting while ranging keeps exactly the entries whose expiry has not passed |
| Sessions.Revocations.SignOut | web/login.go:121-126 | a sign-out sweeps and then records the session's expiry |
| Sessions.RevokedIff | web/login.go:121-144 | over every clocked run a session is revoked exactly while the expiry of its last sign-out lies ahead: sweeping forgets nothing that matters |
| Sessions.HeldIff | web/login.go:106-144 | an entry is held if and only if its expiry had not passed at the last sign-out, or it is that sign-out; so what expires later stays until the next one |
| Sessions.ExpiredEntryHeld | web/login.go:106-144 | an entry that no check needs any more is still held |
| Sessions.VerifySigned | web/login.go:197-257 | a signed session verifies, with its expiry cut to seconds, if and only if the subject is not empty, the id has no dot, and it is neither expired nor revoked |
| Sessions.AcceptsOnlySigned | web/login.go:230-257 | whatever verifies carries the signature of everything before it, and the session says what that payload says |
| Sessions.SignedOutIff | web/login.go:121-134 | after sign-out a cookie is accepted if and only if the two clock readings of a check enclose its expiry |
| Sessions.AcceptedAtExpiry | web/login.go:121-134 | a concrete acceptance: a signed-out cookie checked at the very instant of its expiry |
| Sessions.SessionFrom | web/login.go:221-228 | the result is what the first verifying cookie carries, or none if none verifies |
| Sessions.FoundBehindOthers | web/login.go:217-228 | a live session is found behind any number of cookies that do not verify |

## Left out

- SQL engines, drivers, transactions, pragmas, migrations and JSON encoding: each statement is an atomic row or table function; the attributes column is the map it encodes, and a nil map is an empty one.
- The two SQL drivers are modelled by one set of write statements, since they differ in spelling only; filters keep both spellings. The attempts column of Postgres is 32 bits wide; this is not modelled.
- Ordering of SQL listings and groups: equal timestamps are ordered by rowid or sequence there, by key in memory, so SQL `Jobs`, `GroupJobs`, `Counts` and `Lineage` are not modelled.
- `AttributeKeys`, `Job` and `Lineage` reads: they would only add easy members.
- Case folding and white space outside ASCII; `json_extract` for attribute keys that are not plain identifiers.
- Overflow of 64-bit nanosecond and duration arithmetic in the stores and the limiter, apart from the saturation of `time.Since`.
- Set instants before 1970 in the SQL stores: their columns hold negative or zero counts.
- The cq library: its events are an arbitrary input stream, and coherence is a stated assumption. Building records from cq events (`offerJob`, `offerAttempt`, `ReportProgress`, `rootID`) is left out.
- HMAC, randomness, constant-time comparison, CSRF, cookie flags and credential checks: `sign` is any function to dot-free text, and nothing is claimed about secrecy.
- HTTP routing, gates, redirects, templates, audit callbacks, pager links, JSON wire structs, control actions and the demo.
- Mutexes, channels and atomics as such: each critical section and channel operation is one step, and fairness is not modelled.
- SinkProtocol.SinkRefinesOneAtATime: a store call that returns an error is taken to have had no effect.
- SinkWriters.Sink.Offer: the two selects run as one step; what can happen between them is in SinkProtocol.
- SinkWriters.Sink.Drain: no hook sends during the drain; sends at any moment are in SinkProtocol.
- SharedSinks.SharedSinkRefines: speaks of job rows; attempts are not followed in the shared store.
- SharedStore.LiveSiblingsSpared: speaks of open sinks; what happens between the retiring of an epoch and the end of the drain is in SharedStore.ReconcileBeatsDrain.
- Paging.List: the query string is already parsed; a store of 2^63 rows is excluded.
- MemoryStores.MemoryStore.Timeline: `UnixNano` is exact; its wrap-around outside the years 1678 to 2262 is not modelled.
- SqlStore.SqlSimulatesReference: assumes whole microseconds and sharp cutoffs; SqlStore.SqlRunsTheCutReference is the result for all runs from 1970 on.
- SqlTimelines.SqlTimelineAgreesIff: widths of whole microseconds; SqlTimelines.SqlTimelineFillsIff and SqlTimelines.SqlTimelineFailsIff cover the others.
- SqlTimelines.SqlTimelineFailsIff: a division by zero in the query is one failure for both drivers; Postgres raises it, SQLite yields a NULL slot that the scan refuses.
- SqlTimelines.FractionalBucketsDiffer: of timelines with a single bucket nothing is said.
- Sessions.SessionFrom: sign-outs do not change while the cookies of one request are examined.
