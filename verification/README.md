# FileMagic, verified

FileMagic converts uploaded files. A job is submitted over HTTP, waits in a bounded queue, is run
by one worker, is downloaded once and then deleted; finished jobs that nobody fetches are cleaned
up. Around that core sit a request limiter, counters flushed to a remote key-value store, the
handling of untrusted file names and archives, a PDF page editor and a file type detector. This
project models those parts in Dafny and proves what they promise.

`dafny verify dfyconfig.toml` checks everything.

## How it is organised

* **Queue.** `JobQueue` is the queue as objects: `Queue`, `Job` and the shared `downloaded` flag.
  `QueueMachine` cuts the same operations at every access that others can see without the mutex
  and lets submitters, the worker, downloaders and the cleaner interleave freely; jobs live at
  addresses of a modelled heap, so that a published snapshot could in principle be written later.
  `QueueInvariant`, `QueueFairness`, `QueueLifeCycle` and `QueueDelivery` hold the invariants, one
  concern each. `QueueTheorems` puts them together into statements about all runs from an empty
  queue. `QueueProgress` shows that the queue never gets stuck and that every accepted job comes to
  its end, `QueueDownloads` when a result can still be downloaded, `QueueSharing` which mixes of
  clients the queue can hold. `Handlers` has the download handlers and the cleaner as methods over
  the objects. `QueueRefinement` says what the atomic steps of one call add up to when run
  undisturbed; `QueueObjects` relates the objects to the machine's states and shows that the methods
  of `JobQueue.Queue` and `Handlers` lead from an object that shows a state to one that shows the
  state after exactly these steps.
* **Counters.** `KvLedger` is the store with its `flush`; `KvMachine` is one counter with a remote
  side that answers reads with any value it ever held, and loses, hides or delays writes.
* **Limiter.** `RateLimiter` is the object; `RateTraces` has the theorems over whole traces, and
  `RateBounds` the exact bound on what a minute can let in.
* **Names and paths.** `Utf8`, `Sanitize` (bytes), `Text`, `Paths`, `Manifest`, `Listing`,
  `ListingText` (code points). `SanitizeNames` says what a file name becomes, from its bytes;
  `ListingText` prints listings line by line and says what answer each gets.
* **PDF pages.** `PdfEditor`, over page objects.
* **File types.** `Detector`.

## What does not hold, and exactly when

Each of these has a lemma with the exact condition and a concrete input that shows the failure.

* One pass of the file name sanitiser is not always a fixpoint. It is not exactly when the name
  before truncation is longer than 255 bytes and has a dot or a space right before the code point
  that passes byte 255 (`Sanitize.UnstableExactlyWhen`; a name of 256 bytes:
  `Sanitize.OnePassMayNotSettle`). Two passes always settle.
* The size limit on archive listings is a limit on an `int64` sum. A listing is judged wrongly
  exactly when it is otherwise in order, its true sum is over the limit, and the running total,
  wrapped to `int64`, is within it after every file (`Listing.RightExactlyWhen`; a text of two
  files: `ListingText.TotalCanWrap`).
* A client evicted from the limiter starts a new minute. Twice the minute limit holds for every
  sixty seconds of every trace exactly when the minute limit is at most 1 or the hour limit at most
  one more than it (`RateBounds.TwiceTheLimitExactlyWhen`). Otherwise a burst reaches
  `RateBounds.WorstMinute`, which is never exceeded and at most one less than three times the limit
  (`RateBounds.WorstMinuteIsReached`, `RateBounds.SlidingBounds`). Both limiters of the program,
  10 a minute with 60 an hour and 60 with 600, are of the second kind (`RateBounds.EvictionLetsMoreIn`).
  All this is the same for the traces in which a clean-up pass is made every five minutes.
* A done job that is kept need not be downloadable. On whatever snapshot, a download wins the
  result exactly when no other has won it before (`QueueDownloads.MarkWinsExactlyWhen`). One that is
  cut short after that keeps the job and loses its result for good (`QueueDownloads.LostForGood`; a
  run: `QueueDownloads.CutShortLosesTheResult`).
* The counter ledger is exact if and only if the remote value at the start is not negative: an
  absent confirmed value reads as 0. From every negative value one increment and one flush are
  enough to lose count (`KvMachine.ExactFromNonNegativeBase`; the run: `KvMachine.NegativeBaseLosesCount`).
* One clean flush drains a counter if and only if no write is retained or nothing came in since
  (`KvMachine.OneFlushMayNotDrain`; a run: `KvMachine.OneFlushDoesNotDrain`). Two clean flushes make
  the remote value right if and only if it was right before or something was to be sent
  (`KvMachine.TwoFlushesDrain`); after a late landing neither holds (`KvMachine.LateLandingStaysBehind`;
  a run: `KvMachine.LateLandingHappens`).
* One client can fill the queue if and only if it has at most two places (`QueueSharing.OneClientFills`).

## Assumptions

* Job IDs are random UUIDs and are taken never to repeat. `DeleteJob` is called only by the
  cleaner for a snapshot that is finished and old enough, and by a handler after a download served
  to the end, as in the program.
* Calls that only read (`GetJob`, `GetPosition`, `GetAllJobs`, `DownloadFile`) are no steps of the
  machine: they change nothing. What they find is stated of every reachable state, and clients may
  act on any snapshot that was ever published.
* The counters have one writer, start from a remote value that is not negative, and stay below the
  end of `int64`. Clocks do not run backwards.
* `strings.ToUpper` is modelled on ASCII letters. The only other letters whose upper case is ASCII
  give I and S, which occur in no device name.
* `path.Clean`, `filepath.Rel` and `filepath.Base` are modelled as Go documents them for Unix, and
  UTF-8 as sections 3 and 4 of RFC 3629 define it. `fullcopy_page`, `select`, `set_rotation`,
  `apply_redactions` and the derotation matrix do what the PDF library documents.
* Go's random map order is an arbitrary choice (`:|`) in the loop.
* Coordinates of the page editor are reals. The sums that give the corner of a redaction are
  rounded by an arbitrary function `fl`, the script's floating-point rounding; a corner that rounds
  to its origin is refused as the script refuses it. The change of coordinates between a turned and
  an unturned page is exact.

## Model

| member | source | states |
|---|---|---|
| `JobQueue.ReleaseUndoesTake` | internal/queue/queue.go:184-195 | giving a slot back undoes taking it exactly, and the table never keeps a zero entry |
| `JobQueue.PositionFinds` | internal/queue/queue.go:207-217 | a position is 0 exactly for an unlisted ID; otherwise it is the 1-based place of the first occurrence |
| `JobQueue.FirstOccurrence` | internal/queue/queue.go:228-238 | removal takes out the first occurrence and keeps everything else in order |
| `JobQueue.RemoveAbsent` | internal/queue/queue.go:228-238 | removing an ID that is not listed changes nothing |
| `JobQueue.VerdictExactlyWhen` | internal/queue/queue.go:127-135 | done exactly without an error and within 100 MB, which keeps the error text; each failure has its own text |
| `JobQueue.AtomicBool.Mark` | internal/queue/queue.go:70-72 | compare-and-swap: true exactly for the first caller |
| `JobQueue.Job.Copy` | internal/queue/queue.go:121-122 | a copied job is a record of its own and shares the downloaded cell |
| `JobQueue.Job.MarkDownloaded` | internal/queue/queue.go:70-72 | true exactly when no copy of the job was marked before |
| `JobQueue.Queue.constructor` | internal/queue/queue.go:95-108 | an empty queue with a per-client limit of a third of its size, at least 2 |
| `JobQueue.Queue.Submit` | internal/queue/queue.go:144-180 | accepts exactly when there is room and the owner is exempt, holds fewer than two places, or with this one at most a third of the queue; a refusal changes nothing, an acceptance stores, lists, counts and sends the new job, with the path and size of the upload |
| `JobQueue.Queue.ReleaseSlot` | internal/queue/queue.go:184-195 | one slot of a named owner is given back, the last one with its entry |
| `JobQueue.Queue.GetJob` | internal/queue/queue.go:199-205 | the stored snapshot, if there is one |
| `JobQueue.Queue.GetPosition` | internal/queue/queue.go:207-217 | the loop finds the first occurrence, or 0 |
| `JobQueue.Queue.RemoveFromOrder` | internal/queue/queue.go:228-238 | the loop removes the first occurrence only |
| `JobQueue.Queue.DeleteJob` | internal/queue/queue.go:223-226 | the record and its place in the order list go, all others stay |
| `JobQueue.Queue.Begin` | internal/queue/queue.go:119-125 | the worker takes the oldest job, and publishes a processing snapshot that is not the record it goes on writing |
| `JobQueue.Queue.Complete` | internal/queue/queue.go:127-138 | the verdict on the outcome, whatever files the conversion left behind, the completion time, publication and the release of the slot |
| `JobQueue.Queue.Work` | internal/queue/queue.go:119-139 | a whole turn: the record that was queued and the processing snapshot are not the record that is published at the end |
| `QueueInvariant.StepCopies` | internal/queue/queue.go:119-125 | in every step: records with one ID are copies of one job, equal in ID, owner and request, and they and only they share a flag; files and status are each copy's own |
| `QueueInvariant.StepSnapshots` | internal/queue/queue.go:119-139 | in every step: nothing published is written again, and the worker's copy is known to nobody until it is published |
| `QueueInvariant.StepFifo` | internal/queue/queue.go:114-180 | in every step: the IDs submitted are the IDs started followed by those in the channel, without repeats |
| `QueueInvariant.StepMirrors` | internal/queue/queue.go:114-180 | in every step: the order list is the channel, preceded by at most the one job received and not yet removed |
| `QueueInvariant.PastUnlisted` | internal/queue/queue.go:223-238 | a finished job is not in the order list, so deleting it moves nobody |
| `QueueInvariant.StepEnded` | internal/cleanup/cleanup.go:44-73 | in every step: only finished jobs are downloaded, cleaned up or deleted |
| `QueueFairness.TallyRelease` | internal/queue/queue.go:184-195 | the slot given back was taken, and the counts stay exact |
| `QueueFairness.StepFairness` | internal/queue/queue.go:144-195 | in every step: the table counts exactly each client's jobs in the channel, in the worker's hand and being sent, never over the limit |
| `QueueLifeCycle.StageTrail` | internal/queue/queue.go:119-139 | an automaton over publications accepts exactly queued, then processing, then one of done and error |
| `QueueLifeCycle.StepTrails` | internal/queue/queue.go:119-139 | in every step: how far a job's publications have come is where the job is |
| `QueueLifeCycle.StepTable` | internal/queue/queue.go:199-226 | in every step: the job table holds the latest publication of every job that is not deleted |
| `QueueDelivery.StepWon` | internal/api/handlers/convert.go:1191-1195 | in every step: a flag is set exactly when a download of that job was won, and no job is won twice |
| `QueueDelivery.StepRetained` | internal/cleanup/cleanup.go:48-73 | in every step: a directory or record goes only after a complete download or at its age |
| `QueueTheorems.ReachableSound` | internal/queue/queue.go:95-238 | all invariants hold in every state that any interleaving reaches from an empty queue |
| `QueueTheorems.SendNeverBlocks` | internal/queue/queue.go:144-176 | the send made while the mutex is held always finds room |
| `QueueTheorems.SlotsAreExact` | internal/queue/queue.go:150-175 | in every reachable state a client's count is the number of its unfinished jobs, at most the limit, and absent when that is 0 |
| `QueueTheorems.ReleaseIsOwed` | internal/queue/queue.go:138-195 | the worker never gives back a slot that was not taken |
| `QueueTheorems.StartsInOrder` | internal/queue/queue.go:114-180 | jobs start in submission order, each once; at rest the order list is exactly what waits |
| `QueueTheorems.PositionNeverIncreases` | internal/queue/queue.go:207-217 | over any run, a submitted job never moves back and never returns to the queue |
| `QueueTheorems.LivesAreLegal` | internal/queue/queue.go:119-139 | what is published for any ID over any run is a legal life, complete only for finished jobs |
| `QueueTheorems.SnapshotsAreImmutable` | internal/queue/queue.go:197-205 | a snapshot reads the same however the run goes on |
| `QueueTheorems.DeletedNeverReturns` | internal/queue/queue.go:223-226 | a deleted job is never in the table again |
| `QueueTheorems.GetJobIsCurrent` | internal/queue/queue.go:199-205 | a lookup finds the latest snapshot of exactly the published jobs that are not deleted |
| `QueueTheorems.ResultsAreBounded` | internal/queue/queue.go:127-137 | exactly the finished snapshots have a completion time; done means within the size limit |
| `QueueTheorems.AtMostOnceDelivery` | internal/api/handlers/convert.go:1191-1235 | over any run, on whatever snapshots: no job is won twice, only done jobs are won, and the processed count never exceeds the number of done jobs |
| `QueueTheorems.ResultsAreRetained` | internal/cleanup/cleanup.go:48-73 | the record of a job is found, and its directory stays, until the job was downloaded to the end or is old enough |
| `QueueTheorems.WorkIsSafe` | internal/cleanup/cleanup.go:48-73 | neither the record nor the directory of a job that is stored and not finished is ever removed, whether the submitter, the channel or the worker holds it |
| `QueueProgress.StepUses` | internal/queue/queue.go:114-180 | every step of the submitter and the worker uses up exactly one of the steps that are left; only an admission adds some |
| `QueueProgress.NeverStuck` | internal/queue/queue.go:114-180 | no deadlock between the mutex and the channel: while anything is left to do and the worker is not stopped, a step that does it is enabled |
| `QueueProgress.NoEndlessWork` | internal/queue/queue.go:114-180 | without new submissions, in whatever order, exactly so many such steps can be taken as are left |
| `QueueProgress.NothingLeft` | internal/queue/queue.go:114-195 | when none is left, every accepted job has a complete life, the order list is empty and no slot is taken |
| `QueueProgress.EveryJobEnds` | internal/queue/queue.go:114-195 | from every sound state the steps that are left bring every accepted job to done or error and free all slots |
| `QueueDownloads.MarkWinsExactlyWhen` | internal/api/handlers/convert.go:1191-1195 | in every reachable state and on every snapshot of a done job: a download wins if and only if nobody has won it before, and otherwise changes nothing |
| `QueueDownloads.LostForGood` | internal/api/handlers/convert.go:1191-1220 | a result won and neither served nor being served is never served, however the run goes on |
| `QueueDownloads.CutShortLosesTheResult` | internal/api/handlers/convert.go:1191-1220 | a run that ends with a kept job whose result is lost for good |
| `QueueRefinement.SubmitAtOnce` | internal/queue/queue.go:144-180 | the atomic steps of a submission, undisturbed: one new record and flag, stored, listed, counted and sent |
| `QueueRefinement.BeginAtOnce` | internal/queue/queue.go:119-125 | the worker's steps up to the conversion, undisturbed: its own copy and another one published |
| `QueueRefinement.CompleteAtOnce` | internal/queue/queue.go:127-138 | the worker's steps after the conversion, undisturbed |
| `QueueRefinement.DeliverAtOnce` | internal/api/handlers/convert.go:1191-1235 | the steps of a download served to the end, undisturbed |
| `QueueRefinement.DeleteAtOnce` | internal/cleanup/cleanup.go:60-69 | the steps that remove one job, undisturbed |
| `QueueRefinement.CutShortAtOnce` | internal/api/handlers/convert.go:1191-1220 | a download cut short takes the result and does nothing else |
| `QueueObjects.New` | internal/queue/queue.go:95-108 | a new queue object shows the machine's first state |
| `QueueObjects.Submit` | internal/queue/queue.go:144-180 | a call of `Queue.Submit` leads from an object that shows a state to one that shows the state after the machine's steps of an acceptance, or of a refusal; all objects keep their addresses |
| `QueueObjects.Begin` | internal/queue/queue.go:119-125 | the same for `Queue.Begin`; the job it returns is the worker's record |
| `QueueObjects.Complete` | internal/queue/queue.go:127-138 | the same for `Queue.Complete` at any later time |
| `QueueObjects.DeleteJob` | internal/queue/queue.go:223-226 | the same for `Queue.DeleteJob`, on a snapshot of any age that may go |
| `QueueObjects.Download` | internal/api/handlers/convert.go:1165-1235 | the same for `Handlers.Download` with any answer, from every sound state; the store counts exactly when the machine does |
| `QueueObjects.CleanUp` | internal/cleanup/cleanup.go:48-73 | the same for one turn of the cleaner's loop, on a snapshot of any age |
| `QueueSharing.FullQueueIsShared` | internal/queue/queue.go:95-108 | a full queue without exempt jobs has at least 2 clients from 3 places on, at least 3 from 5 on |
| `QueueSharing.FairMixesCanWait` | internal/queue/queue.go:148-156 | a mix of owners can wait in the channel if and only if it fits and every client is within its limit |
| `QueueSharing.OneClientHolds` | internal/queue/queue.go:95-156 | how many places one client can hold: n exactly when they are at most two or at most a third of the queue, and exempt jobs all of them |
| `QueueSharing.OneClientFills` | internal/queue/queue.go:95-156 | one client can fill the queue if and only if it has at most two places |
| `Handlers.Download` | internal/api/handlers/convert.go:1165-1235 | which answer exactly when, from the job as it is found; a refusal changes nothing, a download cut short takes the result and keeps the job, one served to the end is counted and deletes it |
| `Handlers.CheckNames` | internal/api/handlers/convert.go:1320-1343 | the problem of the first bad name in the manifest, found before the result is taken |
| `Handlers.WriteEntries` | internal/api/handlers/convert.go:1355-1373 | the entries before the first file that is gone, without those that cannot be made |
| `Handlers.OpenExactlyWhen` | internal/api/handlers/convert.go:1451-1506 | what each name in a manifest is refused for, which file it opens otherwise, and its name in the archive |
| `Handlers.ProblemExactlyWhen` | internal/api/handlers/convert.go:1320-1343 | the manifest has a problem exactly when it is empty or a name does not open, and then the first such name's |
| `Handlers.DownloadZip` | internal/api/handlers/convert.go:1302-1387 | as `Download`, for the archive of all files of the manifest |
| `Handlers.ArchiveHoldsTheManifest` | internal/api/handlers/convert.go:1320-1373 | while the listed files are there, the archive holds each file of the walk once, under its relative path, in order |
| `Handlers.CleanUp` | internal/cleanup/cleanup.go:48-73 | one snapshot: removed exactly when it is done or failed, old enough or undated, and its directory could be removed |
| `Handlers.CleanupExpiredJobs` | internal/cleanup/cleanup.go:44-73 | in any order, a job goes from the table exactly when it is done or failed, old enough or undated, and its directory could be removed; the order list loses the same jobs, and where none of them was listed, nobody loses a place |
| `Handlers.RemoveOneMore` | internal/queue/queue.go:228-238 | what is left of the order list does not depend on the order of removals |
| `KvLedger.Store.IncrementProcessed` | internal/stats/cloudflare_kv.go:85-90 | one more pending under the key files_processed and nothing under the other, if the store is enabled |
| `KvLedger.Store.IncrementThanks` | internal/stats/cloudflare_kv.go:94-99 | one more pending under the key thanks and nothing under the other, if the store is enabled |
| `KvLedger.Store.FlushOne` | internal/stats/cloudflare_kv.go:168-193 | one key's turn leaves the other key alone |
| `KvLedger.Store.Flush` | internal/stats/cloudflare_kv.go:159-194 | every key gets exactly its turn, in any order; the cache is invalidated exactly when a write was acknowledged |
| `KvLedger.NextTurnMakesGood` | internal/stats/cloudflare_kv.go:168-193 | a turn whose PUT failed and the next one do what one turn would have done, whatever the next one reads; a turn without an answer to GET leaves everything to the next |
| `KvLedger.ValueSent` | internal/stats/cloudflare_kv.go:178-183 | the value sent adds what is pending to the larger of what was read and what was confirmed |
| `KvLedger.AckedConfirms` | internal/stats/cloudflare_kv.go:185-192 | a turn acknowledges exactly when it would leave a write behind if the PUT failed, and then that write is confirmed |
| `KvMachine.TurnIsFlushKey` | internal/stats/cloudflare_kv.go:168-193 | the atomic steps of a turn, undisturbed, are the turn that `Store.Flush` gives the key |
| `KvMachine.StepInv` | internal/stats/cloudflare_kv.go:168-193 | every step, with reads stale and writes lost, hidden or late, keeps the ledger invariant |
| `KvMachine.LedgerIsExact` | internal/stats/cloudflare_kv.go:159-194 | over any run: base plus increments is pending plus booked, and no remote value ever exceeds it |
| `KvMachine.ExactFromNonNegativeBase` | internal/stats/cloudflare_kv.go:179-181 | that holds over all runs if and only if the base is not negative |
| `KvMachine.NegativeBaseLosesCount` | internal/stats/cloudflare_kv.go:179-181 | from every negative base, one increment and one read by the flush make the ledger wrong |
| `KvMachine.PutsNeverDecrease` | internal/stats/cloudflare_kv.go:181-187 | over any run: values sent never decrease, exceed every acknowledged one before, and an unacknowledged one is sent again unchanged |
| `KvMachine.TwoFlushesDrain` | internal/stats/cloudflare_kv.go:159-194 | after two clean turns nothing is pending; the remote value is then right if and only if it was right before or something was to be sent |
| `KvMachine.CurrentWithoutLanding` | internal/stats/cloudflare_kv.go:185-190 | without late writes, the remote value is the booked one whenever no write is retained |
| `KvMachine.TwoFlushesRecover` | internal/stats/cloudflare_kv.go:159-194 | after any run without late writes, two clean turns make the remote value base plus increments |
| `KvMachine.OneFlushMayNotDrain` | internal/stats/cloudflare_kv.go:170-187 | one clean turn drains if and only if no write is retained or nothing is pending |
| `KvMachine.OneFlushDoesNotDrain` | internal/stats/cloudflare_kv.go:168-187 | a run from the start that ends with a write retained and one increment pending after a clean flush |
| `KvMachine.LateLandingStaysBehind` | internal/stats/cloudflare_kv.go:170-172 | after a late landing with nothing pending, clean turns leave the remote value too low |
| `KvMachine.LateLandingHappens` | internal/stats/cloudflare_kv.go:168-187 | a run from the start after which the remote value is 1, two increments were made, and every clean flush leaves it so |
| `RateLimiter.ClientRate.Charge` | internal/api/middleware.go:80-95 | the windows are renewed when over, and the request counted exactly when it is let through |
| `RateLimiter.RateLimiter.Allow` | internal/api/middleware.go:65-96 | the record of this client decides, and no other client's record changes |
| `RateLimiter.RateLimiter.Cleanup` | internal/api/middleware.go:52-61 | in any order, exactly the clients whose hour is over go |
| `RateTraces.AnyHour` | internal/api/middleware.go:44-96 | from any state within the limits, an hour lets in at most twice the hourly limit, whatever is evicted |
| `RateTraces.AnyMinute` | internal/api/middleware.go:44-96 | sixty seconds let in at most twice the limit, or three times with an eviction among them |
| `RateTraces.NeverTooStrict` | internal/api/middleware.go:65-96 | over every trace: a client with fewer requests let through in the past minute and the past hour than its limits is let through |
| `RateTraces.ClientsAreIndependent` | internal/api/middleware.go:44-96 | the answers to one client are those of the trace with all other clients' requests removed |
| `RateTraces.EvictionForgetsTheMinute` | internal/api/middleware.go:54-78 | after a possible eviction the hour window is the same as without it; the minute window if and only if it was over or as good as new |
| `RateBounds.WorstMinuteBounds` | internal/api/middleware.go:44-96 | no minute of any trace lets in more than WorstMinute, a function of the two limits alone |
| `RateBounds.SlidingBounds` | internal/api/middleware.go:44-96 | for every trace from the start of the program and every interval: an hour lets in at most twice the hourly limit, a minute at most twice the limit without an eviction, and never more than WorstMinute, which is below three times the limit |
| `RateBounds.WorstMinuteIsReached` | internal/api/middleware.go:44-96 | for all limits that leave room for it, a trace with a clean-up pass every five minutes and a minute that lets in exactly WorstMinute |
| `RateBounds.TwiceTheLimitExactlyWhen` | internal/api/middleware.go:44-96 | twice the minute limit holds on all traces, and on all traces with a clean-up pass every five minutes, if and only if the minute limit is at most 1 or the hour limit at most one more than it |
| `RateBounds.EvictionLetsMoreIn` | internal/api/router.go:17-18 | the program's limits, 10/60 by default (internal/config/config.go) and 60/600, let in 29 and 179 in some minute |
| `RateBounds.LetInAgainExactlyWhen` | internal/api/middleware.go:65-96 | a client that has used up its smaller limit at one moment is let in again exactly after more than 60 seconds, or more than an hour when that was the hour limit |
| `RateBounds.EvictedExactlyWhen` | internal/api/middleware.go:52-61 | a pass drops a client that made one request exactly when more than an hour has passed |
| `Utf8.DecodeEncode` | internal/converter/archive.go:154-192 | every well-formed sequence is the only spelling of its code point |
| `Utf8.EncodeDecode` | internal/converter/archive.go:154-192 | an encoded code point is decoded again, whatever follows |
| `Utf8.StartsExactlyWhen` | internal/converter/archive.go:154-192 | exactly the byte sequences of the table in section 4 of RFC 3629 start a code point; every other byte counts as U+FFFD |
| `Utf8.LongestPrefixFits` | internal/converter/archive.go:226-236 | the longest prefix of whole code points is well formed, fits, and drops at most three bytes more |
| `Utf8.OnlyLongestIsValid` | internal/converter/archive.go:226-236 | of all cuts between it and the bound, only that one is well formed |
| `Utf8.LongestPrefixIsLongest` | internal/converter/archive.go:226-236 | no well-formed prefix that fits is longer |
| `Utf8.NextDoesNotFit` | internal/converter/archive.go:226-236 | the code point after the longest prefix passes the bound |
| `Utf8.CutIsLongest` | internal/converter/archive.go:226-236 | a cut after an ASCII byte and before a code point that passes the bound is the longest prefix |
| `Sanitize.Truncate` | internal/converter/archive.go:226-236 | cutting bytes and backing off until well formed gives the longest prefix of whole code points |
| `Sanitize.SanitizeFilename` | internal/converter/archive.go:142-239 | the eight stages as written, on every byte string |
| `Sanitize.NameStages` | internal/converter/archive.go:142-224 | the first seven stages as written |
| `Sanitize.MapRunewise` | internal/converter/archive.go:154-192 | code point by code point, the problematic ones become underscores and the others stay in place |
| `Sanitize.BaseIsLastComponent` | internal/converter/archive.go:147-148 | the base is the last component: no slash inside, a slash or nothing before, only slashes after |
| `Sanitize.ProperMeaning` | internal/converter/archive.go:154-192 | what "proper" means: well-formed UTF-8 without a mapped character |
| `Sanitize.ResultIsSafe` | internal/converter/archive.go:142-239 | every result is 1 to 255 bytes, proper, does not start with a dash, dot or space, is no device name, and after truncation has at least 252 bytes |
| `Sanitize.SecondPass` | internal/converter/archive.go:142-239 | on a safe name nothing is truncated, and nothing changes if and only if it does not end in a dot or space |
| `Sanitize.StableExactlyWhen` | internal/converter/archive.go:142-239 | a second pass changes nothing if and only if the first result does not end in a dot or space; always when truncation did not fire |
| `Sanitize.UnstableExactlyWhen` | internal/converter/archive.go:142-239 | one pass is not enough if and only if the name before truncation is too long and has a dot or space right before the code point that passes the bound |
| `Sanitize.TwoPassesSettle` | internal/converter/archive.go:142-239 | two passes are a fixpoint for every byte string |
| `Sanitize.OnePassMayNotSettle` | internal/converter/archive.go:226-236 | a name of 256 bytes for which one pass is not enough |
| `SanitizeNames.DangerousExactlyWhen` | internal/converter/archive.go:154-191 | of ASCII, letters, digits and ten signs stay; beyond it, exactly 19 invisible characters go |
| `SanitizeNames.RunesDetermine` | internal/converter/archive.go:154-192 | well-formed bytes are determined by their code points, so the code points of a result say what it is |
| `SanitizeNames.ReservedExactlyWhen` | internal/converter/archive.go:212-224 | reserved are exactly the names that spell one of the 24 device names in either case and end there or go on with a dot |
| `SanitizeNames.NulMakesNoDifference` | internal/converter/archive.go:143-145 | a null byte anywhere in a name does not change the result |
| `SanitizeNames.DirectoriesMakeNoDifference` | internal/converter/archive.go:147-148 | directories in front of a name and slashes behind it do not change the result |
| `SanitizeNames.NothingIsLeft` | internal/converter/archive.go:194-205 | no name, or one that maps to dots and spaces only, becomes "file" |
| `SanitizeNames.OnlySlashes` | internal/converter/archive.go:147-192 | the root becomes one underscore |
| `SanitizeNames.NameExactly` | internal/converter/archive.go:142-239 | any other component: the dots and spaces around its mapped form go, a leading dash becomes an underscore, a device name gets one in front, and only what passes byte 255 is cut off |
| `SanitizeNames.HasCore` | internal/converter/archive.go:199-202 | every mapped form has such a middle part, unless it is dots and spaces only |
| `SanitizeNames.CharactersStay` | internal/converter/archive.go:142-239 | a name with nothing to trim, mark or cut keeps its characters one by one, the dangerous ones as underscores |
| `SanitizeNames.SanitizedExactly` | internal/converter/archive.go:226-238 | the bound is 255 bytes: up to it the name stays, beyond it 252 to 255 bytes of whole code points are left |
| `Paths.CleanKeepsMeaning` | internal/converter/decompress.go:255-255 | cleaning a path keeps where it leads, from every directory |
| `Paths.CleanIsIdempotent` | internal/converter/decompress.go:255-255 | a clean path is its own cleaning |
| `Paths.CleanCheckNeverFires` | internal/converter/decompress.go:255-261 | after the component check, the check on the cleaned name refuses nothing |
| `Paths.AcceptedEntryIsContained` | internal/converter/decompress.go:237-263 | an accepted entry stays at or below any directory at every point of its path, cleaned or not |
| `Paths.AcceptedExactlyWhen` | internal/converter/decompress.go:237-263 | acceptance in terms of the characters of the name and its components alone |
| `Paths.RefusedExactlyWhen` | internal/converter/decompress.go:237-263 | what every other entry is refused for |
| `Paths.WithinBaseIsPrefix` | internal/api/handlers/convert.go:1500-1506 | the textual test on the relative path holds if and only if the target is the base or below it |
| `Paths.FirstTestDecides` | internal/api/handlers/convert.go:1451-1498 | a name passes the lexical guard if and only if it is not empty, absolute, or with a null byte, backslash or dot component, and is then opened at its components strictly below the base |
| `Manifest.BuildManifest` | internal/converter/decompress.go:51-111 | the walk function over all visits, stopping at the first error |
| `Manifest.WalkIsFaithful` | internal/converter/decompress.go:57-104 | the walk succeeds if and only if nothing failed, no path is suspicious and both limits hold; it lists every regular file in order, numbered from 0, with the true total |
| `Manifest.WalkExactly` | internal/converter/decompress.go:57-104 | the whole walk in terms of its visits: success exactly when none failed, no component starts with two dots or holds a backslash, and there are at most 100 files of 100 MB in all; then the k-th entry has the path, size and number of the k-th file |
| `Manifest.RefusedExactlyWhen` | internal/converter/decompress.go:57-95 | what a visit is refused for, in the order of the tests |
| `Manifest.ProducerRefuses` | internal/converter/decompress.go:93-95 | exactly the paths with a component that starts with two dots or holds a backslash are refused by the walk |
| `Manifest.ConsumerRefuses` | internal/api/handlers/convert.go:1451-1498 | of such paths the download guard refuses exactly those with a backslash |
| `Manifest.ManifestOpens` | internal/api/handlers/convert.go:1451-1498 | every manifest name passes the download guard; entry k has the path, size and number of the k-th file of the walk and opens it |
| `Listing.Scanner.FlushEntry` | internal/converter/decompress.go:150-174 | the closure over the scanner's variables; the entry is reset on every path |
| `Listing.Validate7zListing` | internal/converter/decompress.go:144-230 | the loop is the fold of the line step over all lines |
| `Listing.StreamIsParseThenCheck` | internal/converter/decompress.go:144-230 | on every text, the streaming validator gives the very answer of parsing all records first and checking them afterwards, and refuses when a size cannot be parsed |
| `Listing.CheckIsModular` | internal/converter/decompress.go:150-174 | on every listing and each beginning of it: accepted exactly when its records are sound, its files few enough and every wrapped running total within the limit; then the counts are the true number of files and the wrapped sum |
| `Listing.AcceptsExactlyWhen` | internal/converter/decompress.go:150-174 | the same for the whole listing |
| `Listing.RefusedExactlyWhen` | internal/converter/decompress.go:150-174 | the first record that is not tolerated decides what the listing is refused for, and for which of its faults |
| `Listing.MeetsIsTolerated` | internal/converter/decompress.go:165-173 | a listing that keeps the limits is never refused |
| `Listing.RightExactlyWhen` | internal/converter/decompress.go:165-173 | acceptance and the limits on the true numbers agree on a listing if and only if it is not the case that all else is in order, the true sum is over the limit and no wrapped running total is |
| `Listing.ModestSizesAreExact` | internal/converter/decompress.go:165-173 | with sizes up to maxInt64 - maxTotalSize the check is exact |
| `ListingText.SpaceExactlyWhen` | internal/converter/decompress.go:177-177 | the 25 white space characters that are trimmed |
| `ListingText.TrimGives` | internal/converter/decompress.go:177-177 | trimming takes exactly the white space around a text, such as a carriage return |
| `ListingText.AttributesExactlyWhen` | internal/converter/decompress.go:232-235 | attributes are those of a directory exactly when their first character that is no white space is a D |
| `ListingText.ParseNumber` | internal/converter/decompress.go:207-212 | every number under any sign and with any zeros in front is read if it is an int64, and only then |
| `ListingText.ParsedIsNumber` | internal/converter/decompress.go:207-212 | whatever is read is such a number |
| `ListingText.ParsePrinted` | internal/converter/decompress.go:176-221 | parsing a printed listing gives back its records: under any header, with white space around lines, other keys and noise, fields before and after the path in any order and number, entries with and without blank lines between them, entries without a path, and entries cut off by another separator |
| `ListingText.PrintedIsJudged` | internal/converter/decompress.go:144-230 | a printed listing gets the answer that its records deserve, with the error |
| `ListingText.BadSizeIsRefused` | internal/converter/decompress.go:207-211 | a size that is no int64 or negative is refused wherever the scan gets to it |
| `ListingText.PrintedListingAccepted` | internal/converter/decompress.go:144-230 | a printed listing is accepted if and only if its paths are safe, every file has a size, there is a file, and both limits hold on the true numbers |
| `ListingText.PrintedListingExactly` | internal/converter/decompress.go:144-230 | the same for sizes of any int64, with the wrapped running totals in place of the sum |
| `ListingText.TotalCanWrap` | internal/converter/decompress.go:144-230 | a text of two files that is accepted although its sizes add up to far more than the limit |
| `PdfEditor.Document.FullcopyPage` | scripts/pdf_editor.py:37-39 | appends a page object of its own that looks the same |
| `PdfEditor.Document.Select` | scripts/pdf_editor.py:41-41 | keeps exactly the chosen page objects, in the chosen order |
| `PdfEditor.CopyRepeats` | scripts/pdf_editor.py:30-40 | the loop returns different places that come from the wanted pages, each repeat a fresh copy |
| `PdfEditor.ApplyPages` | scripts/pdf_editor.py:24-41 | an invalid page changes nothing; otherwise place k shows the k-th chosen page and no two places share an object |
| `PdfEditor.RotationIsOrderFree` | scripts/pdf_editor.py:44-55 | the order of the dictionary's items does not matter |
| `PdfEditor.TurnsAddUp` | scripts/pdf_editor.py:44-55 | the turn of a place in numbers: only 90, 180 and 270 asked for that place count, each as often as it is asked for |
| `PdfEditor.ApplyRotations` | scripts/pdf_editor.py:44-55 | every page is turned by the sum of the valid angles for its place |
| `PdfEditor.RedactionHitsItsArea` | scripts/pdf_editor.py:159-166 | the area redacted, as displayed, is the area asked for, in all four rotations |
| `PdfEditor.QuarterTurn` | scripts/pdf_editor.py:162-166 | a page turned further by 90 degrees is displayed a quarter clockwise from before, and its sides change places |
| `PdfEditor.CrossesExactlyWhen` | scripts/pdf_editor.py:163-165 | an area crosses the displayed page exactly when it is not empty and, turned back, meets the page |
| `PdfEditor.MalformedIsRefused` | scripts/pdf_editor.py:150-157 | which redactions are refused as no rectangle, for their page or for their coordinates |
| `PdfEditor.AcceptedExactlyWhen` | scripts/pdf_editor.py:158-166 | one of numbers is accepted exactly when its corners are in order and, turned back, it meets the page; else it is refused as empty or as outside |
| `PdfEditor.FirstRefusalDecides` | scripts/pdf_editor.py:148-168 | the first redaction that is refused decides the error |
| `PdfEditor.RoundedAreaCovers` | scripts/pdf_editor.py:159-163 | with any monotone rounding of the sums, the rectangle covers every float point of the exact one and has no other float point in its interior |
| `PdfEditor.MarkAll` | scripts/pdf_editor.py:148-168 | succeeds if and only if every redaction is valid, and then marks exactly their pages |
| `PdfEditor.ApplyMarked` | scripts/pdf_editor.py:170-177 | in any order, exactly the marked pages are redacted |
| `PdfEditor.ApplyRedactions` | scripts/pdf_editor.py:143-177 | succeeds if and only if every redaction is valid; then every page carries exactly its areas |
| `PdfEditor.UnmovedPages` | scripts/pdf_editor.py:196-209 | where nothing moves pages, redacting last is redacting first |
| `PdfEditor.Edit` | scripts/pdf_editor.py:183-211 | saves if and only if the configuration is valid, else fails with the first error in the order of the steps; pages are redacted as in the source, then selected, then turned, and none is shared |
| `PdfEditor.FailsExactlyWhen` | scripts/pdf_editor.py:183-211 | which configurations are saved, and which error each other one ends with: pages out of range, turns that are no numbers, redactions refused, and redactions in output coordinates combined with turns or a selection |
| `PdfEditor.SavedPage` | scripts/pdf_editor.py:183-211 | every output page has its source page's content, every redaction asked for that page and no other, and its own turns only |
| `PdfEditor.SavedMarks` | scripts/pdf_editor.py:166-177 | a page with a redaction asked for it loses all its marks to the redactions; any other keeps both as they are |
| `Detector.MatchIsCandidate` | internal/validator/validator.go:41-244 | whatever type a header passes for is the one named by its first bytes and its brand |
| `Detector.AtMostOneType` | internal/validator/validator.go:41-244 | no header passes for two types |
| `Detector.JpegExactlyWhen` | internal/validator/validator.go:168-176 | the headers that are JPEG, byte by byte |
| `Detector.PngExactlyWhen` | internal/validator/validator.go:177-183 | the headers that are PNG |
| `Detector.BmpExactlyWhen` | internal/validator/validator.go:184-190 | the headers that are BMP |
| `Detector.TiffExactlyWhen` | internal/validator/validator.go:65-68 | the headers that are TIFF |
| `Detector.SignaturesExactlyWhen` | internal/validator/validator.go:69-106 | the headers that are PDF, FLAC or MKV: exactly those with the four bytes of the signature |
| `Detector.Mp3ExactlyWhen` | internal/validator/validator.go:191-223 | the headers that are MP3: a tag, or a frame header of layer 3 with rates that exist |
| `Detector.RiffExactlyWhen` | internal/validator/validator.go:131-150 | the headers that are WEBP, WAV or AVI |
| `Detector.BrandedExactlyWhen` | internal/validator/validator.go:224-232 | the headers that are HEIC, MP4, MOV or M4A: a file type box of 8 to 1024 bytes with one of the type's brands |
| `Detector.MatchesType` | internal/validator/validator.go:126-158 | the loop over one type's patterns, with its two continues |
| `Detector.DetectFileType` | internal/validator/validator.go:117-162 | whatever the order of the map, the answer is the one type that matches, or none when none does |

## Left out

- HTTP: routing, request parsing, response headers and bodies, CORS, logging, configuration. `StatusGone` and the other answers are constructors of a reply.
- Conversions: running external tools in the sandbox, and all command lines. The conversion is an arbitrary outcome of the worker's step.
- The real file system: which directories can be removed and which files can be opened are parameters; symbolic links, `EvalSymlinks` and `O_NOFOLLOW` are not modelled.
- Paths.FirstTestDecides: speaks of the lexical part of opening a file only.
- Manifest.BuildManifest: skips symbolic links but does not model that the walk also removes them; the list of visits is given, not computed from a tree.
- Handlers.DownloadZip: its steps in the machine are those of Download, and are not repeated in QueueObjects; what is copied into an entry is not modelled, nor that a copy error is ignored; the archive is the list of its entry names.
- Handlers.Download: the deletion that the program starts in the background happens at the end of the call; the interleavings are in QueueMachine.
- QueueObjects.Download: as Handlers.Download, the whole deletion inside the call.
- Handlers.CleanupExpiredJobs: requires that every job is stored under its own ID, which QueueTheorems proves of every reachable state.
- `DownloadFile` changes no state; its guard is `Paths.OpenUnder`.
- QueueTheorems.WorkIsSafe: the removal of orphaned directories by modification time is not modelled; it depends on file system clocks.
- The options and metadata maps of a job, and its conversion type beyond being carried along.
- `Start`, `Length` and the shutdown of the worker inside a conversion: the worker stops between jobs.
- `stats.Store.Get`: its cache races with the flush by design. The increments of one counter are interleaved with its flush in KvMachine; the two counters are independent.
- KvLedger.Store.Flush: an increment between the test for zero and the swap is in KvMachine, not in the method.
- Names and listings are sequences of code points in `Paths`, `Manifest` and `Listing`; bytes that are not UTF-8 occur only in `Utf8` and `Sanitize`.
- Watermarks, page numbers and scrubbing of PDF files: they neither move pages nor change rotations or redactions.
- PdfEditor.MarkAll: a corner that overflows to an infinite float is not modelled.
- PdfEditor.ApplyRedactions: the scrubbing of the saved file is not modelled.
- PdfEditor.Edit: a failed edit leaves the document in an unspecified state; the program discards it.
- Read errors of the type detector: `header` is what one successful read returned.
- Target-size searches, certificate handling, extension and MIME tables.
