# vigil-agent: a verified model

A Dafny model of the parts of the agent where a mistake would lose or reorder monitoring data, or
leave the process hanging: the concurrent scheduler with its bounded buffer and its shutdown, the
HTTP outcome table, the registry's scrape, the configuration parsers, the metrics printer and the
update check. `dafny verify dfyconfig.toml` checks everything.

## How it is built

- `Pipeline` is the scheduler as a step system. The collector, the sender, `Run`, and the goroutine
  that waits for the sender share the buffer, the one-slot notify channel, the shutdown channel, two
  contexts and the counters. One step is one critical section, one channel operation, one atomic
  counter update, or the start or end of a Send. `Exec` runs a schedule, `Reachable` quantifies over
  all of them. A `select` may take any ready case, timers may fire at any moment, and the scrape and
  the sink answer as they like. A batch is named by its position in the order of pushes.
- `PipelineInvariants` holds the invariants and the proof that every step keeps them;
  `PipelineSafety` draws the conclusions about reachable states, `PipelineShutdown` those about runs.
- `SchedulerLoops` is `collectLoop`, `scrapeOnce`, `sendLoop` and the throttle's methods in the code's
  own form, over the array-backed `Buffer`; each run of that code is proved to be a schedule of the
  step system.
- `BatchBuffer` has the queue as functions on sequences and as the in-place code. `Throttle` has the
  rate halving at two granularities: a method at a time, and an atomic operation at a time.
- `Backoff`, `Sinks`, `Ingest`, `Registry`, `Labels`, `Exposition` and `MetricsPage`, `Semver` with
  `VersionSyntax` and `Precedence`, and `Updater` follow the source files of the same concern. `Text`
  and `Int64` model the library operations they use.
- Where a method is proved against a function, another theorem says what the function means in terms
  of its input: by position, by count, or by the exact condition with the numbers of the source.

## Where the code does not do what its comments say

- `Push` may evict the batch that is being sent; `Pop` then removes a newer one that was not sent
  (`PopRemovesTheSentBatch` says exactly when). The overflow counter still comes out right
  (`EveryBatchIsAccountedFor`), but with room for one batch only, the newest can be lost
  (`NewestAlwaysSafeIff`, `EvictedInFlight`). A drain loses a batch exactly when one was evicted while
  its Send was under way and that Send succeeded (`DrainDelivers`, `DrainCanLoseABatch`).
- A 429 delay is not a floor of the wait (`RetryAfterIsFloor`, `RetryAfterIsNotFloor`); half of it, up
  to five minutes, is (`RateLimitIsHalfKept`). Without a header the delay is five seconds and not the
  minimal back-off (`EveryRetryAfter`). A delay above 9223372036 seconds wraps around
  (`DeltaSeconds`).
- The back-off is capped at 300 seconds; the comment on `nextBackoff` says 60 (`PlainStreak`).
- `drain.complete` is also reached when the sender dies of a fatal answer during the drain; the buffer
  is empty then if and only if no Send was fatal (`CountersAddUpAtExit`, `FatalDrainLeavesABatch`).
- A `DrainTimeout` of zero does not disable the drain (`ConfigOf`).
- An engagement of the throttle can be lost when it falls between two atomic operations of a tick
  (`EngagementCanBeLost`; `EngagementLastsIff` says exactly when it lasts); that no two consecutive
  ticks are skipped holds all the same.
- Build metadata is ignored except after blanks: a text that ends in blanks and has no metadata yet
  parses differently when metadata is appended (`MetadataIsIgnored`).
- Pre-releases are compared as text, which differs from section 11 of SemVer 2.0.0; the code says so
  for `rc.10`, and `IsNewerFollowsSection11` says for which versions.

## Model

| member | source | states |
|---|---|---|
| PipelineSafety.EveryBatchIsAccountedFor | internal/scheduler/scheduler.go:533-605 | in every reachable state the pushed batches neither buffered nor delivered number DroppedOverflow, exactly one less between a nil Send of an evicted batch and its Pop; delivery order is strictly increasing |
| PipelineSafety.CountersAddUpAtExit | internal/scheduler/scheduler.go:322-392 | on every exit path of Run, ScrapesOK = BatchesSent + DroppedOverflow + buffered; ScrapesOK counts the pushes, BatchesSent the nil Sends and BatchesFailed the retriable refusals; after drain.complete the buffer is empty iff no Send was fatal |
| PipelineShutdown.FatalDrainLeavesABatch | internal/scheduler/scheduler.go:371-379 | a schedule, for every capacity, that reaches drain.complete with a batch left, because the sender died of a fatal answer |
| PipelineSafety.PopRemovesTheSentBatch | internal/scheduler/scheduler.go:545-579 | after a nil Send, the head that Pop removes is the batch that was sent iff the overflow counter has not moved since the Peek |
| PipelineSafety.NewestAlwaysSafeIff | internal/scheduler/buffer.go:82-143 | in all reachable states the newest batch is buffered or delivered, iff the capacity is at least 2 |
| PipelineSafety.EvictedInFlight | internal/scheduler/buffer.go:82-143 | a schedule with capacity 1 in which the newest batch is lost unsent |
| PipelineSafety.NoWakeupIsLost | internal/scheduler/scheduler.go:545-570 | a sender blocked on a non-empty buffer has a token or is about to get one; after shutdownSend closes or sendCtx is cancelled it can always step |
| PipelineSafety.ShutdownNeverSticks | internal/scheduler/scheduler.go:310-329 | no state between the start of shutdown and the return of Run is a deadlock |
| PipelineSafety.RunReportsFatal | internal/scheduler/scheduler.go:296-339 | Run returns non-nil iff some Send returned an error that wraps ErrFatal, whatever else it wraps, and both loops have ended then |
| PipelineSafety.AnswersComeInBlocks | internal/scheduler/scheduler.go:572-642 | without overflow the answers split per batch, in push order, into refusals and one acceptance; the last block may be open or fatal |
| PipelineSafety.SleepFollowsTheStreak | internal/scheduler/scheduler.go:607-642 | a sleeping sender's back-off b is a function of the failures since the last success and lies in [1s, 300s]; the sleeps it may choose are exactly [0, b] after a plain failure and [floor(b/2), 2 floor(b/2)] after a 429 |
| PipelineShutdown.CancelledSenderStops | internal/scheduler/scheduler.go:533-605 | after sendCtx is cancelled, under any schedule: at most one more Send starts, at most six more sender steps, and a sender that is not done can step |
| PipelineShutdown.DrainEnds | internal/scheduler/scheduler.go:353-393 | from the close of shutdownSend on, the sender's steps are bounded by the buffer length and the number of refusals, and it is never stuck |
| PipelineShutdown.DrainsUnlessFatal | internal/scheduler/scheduler.go:316-329 | shutdownSend is closed before Run returns iff a drain is configured and no fatal error is recorded when Run looks; otherwise Run never returns through drain.complete |
| PipelineShutdown.FatalSkipsDrain | internal/scheduler/scheduler.go:296-329 | a fatal error recorded before Run looks: under any schedule nothing more is sent, there is no drain, and Run can only return the error |
| PipelineShutdown.DeadlineCutsDrain | internal/scheduler/scheduler.go:380-392 | the deadline can fire in every draining state, and once Run has acted on it, at most eight more moves change anything, whatever the sink answers |
| PipelineShutdown.RunReturns | internal/scheduler/scheduler.go:314-392 | once the collector has ended, the state-changing moves of the whole agent are bounded by the buffer length and the number of refusals, and one is possible until Run has returned |
| PipelineShutdown.DrainDelivers | internal/scheduler/scheduler.go:371-392 | a sender that ends by itself leaves an empty buffer; it has delivered exactly the waiting batches in FIFO order iff no batch was evicted while its Send was under way and then succeeded, be its Pop still to come or not; otherwise exactly the head is lost |
| PipelineShutdown.DrainCanLoseABatch | internal/scheduler/scheduler.go:371-379 | a schedule through both kinds of failing states to a nil return with a batch neither delivered nor buffered |
| PipelineInvariants.RunKeepsInv | internal/scheduler/scheduler.go:253-393 | every schedule of all goroutines keeps the conjunction of the invariants: balance of pushes and counters, order of deliveries, a full buffer after an eviction under a Send, no lost wakeup, the order of shutdown, the shape of the trace, the back-off |
| PipelineInvariants.LogShapeKept | internal/scheduler/scheduler.go:572-642 | every step keeps the per-batch shape of the trace |
| Pipeline.ConfigOf | internal/scheduler/scheduler.go:190-204 | a positive BufferBatches is the capacity and five otherwise, and the drain is disabled only by a negative timeout |
| SchedulerLoops.Scheduler.ScrapeOnce | internal/scheduler/scheduler.go:487-518 | the code makes exactly the collector's moves for this scrape; a scrape with samples pushes one batch, counts itself and leaves a token, an empty one changes nothing |
| SchedulerLoops.Scheduler.TakeTicks | internal/scheduler/scheduler.go:416-428 | for any ticks: the verdicts are those of the throttle's specification, and pushes and ScrapesOK grow by the number of ticks that are not skipped and bring samples |
| SchedulerLoops.Scheduler.CollectLoop | internal/scheduler/scheduler.go:406-429 | by collector moves of the step system only: the first scrape and each tick that is not skipped push one batch if they bring samples, and no other tick does; the loop stops after them iff the context is cancelled |
| SchedulerLoops.Scheduler.ShouldSkipTick | internal/scheduler/scheduler.go:437-455 | the code computes the next state and the verdict of the specification |
| SchedulerLoops.Scheduler.EngageThrottle | internal/scheduler/scheduler.go:468-481 | the code extends the window and resets the alternation only on first engagement |
| SchedulerLoops.Scheduler.SendHead | internal/scheduler/scheduler.go:572-642 | one attempt with the sink's own answer enters the log; an accepted head, and no other, leaves the buffer; fatal takes precedence and counts nothing; a positive dropped_quota, and nothing else, engages the throttle |
| SchedulerLoops.Scheduler.SendRound | internal/scheduler/scheduler.go:536-642 | one round sends iff the context is alive and the buffer is not empty; what it does to the log, the buffer, the counters and the throttle is determined by the answer; it ends the loop with an error iff the answer is fatal |
| SchedulerLoops.Scheduler.SendLoop | internal/scheduler/scheduler.go:533-643 | from any state of the contexts and channels, by sender moves of the step system only: the log grows by the sink's answers, each used once and in order, up to a fatal one, which is what ends the loop with an error; delivered batches leave the buffer from its head and nothing else does; a loop that is neither cancelled nor killed ends, or waits, on an empty buffer; the throttle is engaged as the answers call for |
| SchedulerLoops.Scheduler.AwaitData | internal/scheduler/scheduler.go:546-570 | whichever of the three cases is ready and taken, the code follows the step system, and it waits iff none is ready |
| SchedulerLoops.Scheduler.AfterDelivery | internal/scheduler/scheduler.go:573-592 | Pop and the counter update follow the step system |
| SchedulerLoops.Scheduler.SleepWithJitter | internal/scheduler/scheduler.go:651-661 | for any draw the sleep is one of the possible sleeps for this back-off |
| SchedulerLoops.Scheduler.AfterRefusal | internal/scheduler/scheduler.go:607-642 | the counter, the back-off and the sleep after a refusal follow the step system and the back-off rules |
| BatchBuffer.ReplayConserves | internal/scheduler/buffer.go:75-143 | for every sequence of calls: the queue is the newest stretch of the pushed batches within capacity, every batch is queued, popped or counted as dropped, and popped batches keep their order |
| BatchBuffer.Buffer.constructor | internal/scheduler/buffer.go:64-73 | an empty buffer over a zeroed array of the capacity |
| BatchBuffer.Buffer.Push | internal/scheduler/buffer.go:82-106 | the in-place code appends, evicting the oldest at capacity, counts the eviction, leaves a token, never reallocates and keeps unused slots zero; array and counter stay what the run of calls leaves |
| BatchBuffer.Buffer.Peek | internal/scheduler/buffer.go:116-123 | the oldest batch, if there is one |
| BatchBuffer.Buffer.Pop | internal/scheduler/buffer.go:129-143 | the in-place code removes and returns the oldest batch and zeroes the slot that became free |
| BatchBuffer.Buffer.Append | internal/scheduler/buffer.go:94-94 | append keeps the array when it has room and moves when it has none |
| Backoff.BackoffIsLargestDemand | internal/scheduler/scheduler.go:607-683 | after any mix of plain and 429 failures the back-off is the largest demand, each doubled at every later failure, cut at 300s; it stays in range and never falls in a streak |
| Backoff.PlainStreak | internal/scheduler/scheduler.go:668-683 | k plain failures give exactly min(2^(k-1), 300) seconds |
| Backoff.PlainStreakInFigures | internal/scheduler/scheduler.go:47-50 | one second after the first plain failure, two after the second, 300 from the tenth on |
| Backoff.SleepRange | internal/scheduler/scheduler.go:651-666 | the draw is legal, and the possible sleeps are exactly [0, b] or [floor(b/2), 2 floor(b/2)] |
| Backoff.RetryAfterIsFloor | internal/scheduler/sink.go:100-108 | the server's delay is a guaranteed floor iff the exponential back-off is at least twice as long |
| Backoff.RetryAfterIsNotFloor | internal/scheduler/scheduler.go:614-628 | a 429 that asks for ten minutes can be retried after 150 seconds |
| Throttle.HalfOfTheTicksAreSkipped | internal/scheduler/scheduler.go:431-481 | in an unexpired window, whatever the re-engagements, ticks alternate from a scrape and floor(n/2) of the first n are skipped |
| Throttle.WindowLastsAMinute | internal/scheduler/scheduler.go:437-481 | all ticks within 60 seconds of an engagement find the window open, and the first tick after it, without another engagement, finds it expired and restores the initial state |
| Throttle.ExpiryRestoresTheStart | internal/scheduler/scheduler.go:442-448 | after any run a closed window is the initial state, and an expired one becomes it |
| Throttle.NoTwoConsecutiveSkips | internal/scheduler/scheduler.go:437-481 | under every interleaving of single atomic operations no two consecutive ticks are both skipped |
| Throttle.UndisturbedTick | internal/scheduler/scheduler.go:437-455 | the atomic operations of one tick, undisturbed, are the method |
| Throttle.UndisturbedEngage | internal/scheduler/scheduler.go:468-481 | the atomic operations of one engagement, undisturbed, are the method |
| Throttle.EngagementLastsIff | internal/scheduler/scheduler.go:437-481 | an engagement lasts its minute under every interleaving of atomic operations iff no tick is about to clear the field when it happens |
| Throttle.EngagementCanBeLost | internal/scheduler/scheduler.go:442-470 | an interleaving from the initial state in which a fresh deadline is overwritten |
| Ingest.StatusTable | internal/ingest/http.go:203-332 | for every exchange, each with both directions: accepted iff marshalling failed or the status is 2xx or 4xx other than 404 and 429; fatal iff 404; a delay iff 429, that of its header, always positive and five seconds if the header is blank; a plain error iff 1xx, 3xx, 5xx or no response; a quota drop iff the JSON body of a 200 says so |
| Ingest.PostsComeInBlocks | internal/ingest/http.go:203-293 | in any run without overflow the posts come batch by batch in push order: unsettled answers, then one that settles; 2xx and 4xx other than 404 and 429 settle, 404 ends the trace |
| Ingest.OnlyA404StopsTheAgent | internal/ingest/http.go:247-255 | Run returns an error iff some post was answered with 404 |
| Ingest.DeltaSeconds | internal/ingest/http.go:339-369 | a delta-seconds header is taken at its word iff it is between 1 and 9223372036; the delay is always positive |
| Ingest.EveryRetryAfter | internal/ingest/http.go:339-378 | the delay of every header: five seconds for a blank, unparseable, past or non-positive one, the date's distance, or the number of seconds up to wrap-around; always positive |
| Ingest.RateLimitIsHalfKept | internal/ingest/http.go:257-258 | in every reachable state, after any 429, the sender sleeps at least half of the delay the sink made of it, counted up to 300s |
| Ingest.OutageSleeps | internal/ingest/http.go:217-291 | in every reachable state, after a post that failed without a 429, exactly the sleeps in [0, back-off] are possible, and k such posts in a row make the back-off min(2^(k-1), 300) seconds |
| Registry.Registry.Scrape | internal/collector/registry.go:75-102 | the metrics are the pure pipeline: concatenate, keep allowed names in order, merge labels with the sample's own winning; the errors are those of the collectors in order |
| Registry.Registry.ApplyAllowlist | internal/collector/registry.go:114-125 | the filter that overwrites its input computes the filtered prefix and leaves the rest alone |
| Registry.Registry.ApplyStaticLabels | internal/collector/registry.go:132-147 | every sample ends with the merged labels, its own winning, although samples may share a map; without static labels nothing changes |
| Registry.Registry.MergeInto | internal/collector/registry.go:140-144 | in any key order, own labels win |
| Registry.KeptIsFilter | internal/collector/registry.go:114-125 | filtering drops exactly the samples whose names are not allowed and keeps order and multiplicity; the empty allowlist keeps everything |
| Registry.ConcatAt | internal/collector/registry.go:79-88 | the samples of every collector, also of one that erred, stand as one block at the position given by the collectors before it, and nothing else is there |
| Registry.ErrorsAt | internal/collector/registry.go:79-84 | every error is reported once, with its collector, at the position given by the errors before it |
| Labels.ParseLabelsString | internal/config/load.go:326-341 | the loop computes the parse of the specification |
| Labels.ParseOfPrint | internal/config/load.go:322-341 | parsing undoes printing for all valid keys and values, with any padding and empty entries; the last duplicate wins |
| Labels.LastDuplicateWins | internal/config/load.go:339-339 | a key is in the result iff some entry has it, with the value of the last such entry |
| Labels.ParseAccepts | internal/config/load.go:326-341 | a string is accepted iff every entry is blank or has a '=' after its first character; the error names the first entry that does not; the empty-key error is unreachable |
| Labels.AcceptedIsWritten | internal/config/load.go:322-341 | the accepted strings are exactly those an operator can write as padded entries, and each means what its entries mean |
| Labels.ResultsRoundTrip | internal/config/load.go:322-341 | every result, printed in any order, parses to itself |
| Labels.ParseCSVList | internal/config/load.go:345-356 | the loop computes the list of the specification |
| Labels.CSVIsFilter | internal/config/load.go:343-356 | the result is exactly the non-empty trimmed parts, in order and with multiplicity |
| Labels.CSVRoundTrip | internal/config/load.go:343-356 | the entries are trimmed, non-empty and comma-free; every such list is recovered from its joined form |
| Exposition.WriteSample | internal/observ/metrics.go:148-167 | the writes add up to the printed line |
| Exposition.EscapedByCharacter | internal/observ/metrics.go:181-195 | escaping works character by character: what becomes of backslash, newline and quote in label values and in HELP text, and that everything else is kept |
| Exposition.ReadOfPrint | internal/observ/metrics.go:148-195 | a reader for format 0.0.4 recovers name, labels and value of any printed sample with well-formed names and arbitrary label values |
| Exposition.EscapingIsInjective | internal/observ/metrics.go:189-195 | different label values print differently, and without a raw newline |
| Exposition.QuotedTaken | internal/observ/metrics.go:189-195 | the closing quote is the first unescaped one, whatever the value contains |
| Exposition.HelpIsRecovered | internal/observ/metrics.go:181-187 | escaped HELP text can be unescaped |
| MetricsPage.WriteExposition | internal/observ/metrics.go:123-137 | the writes add up to the HELP, TYPE and sample lines of each metric and of the build info |
| MetricsPage.PageIsRead | internal/observ/metrics.go:116-195 | a line reader recovers exactly the printed lines, for arbitrary help texts and label values |
| MetricsPage.ExpositionIsRead | internal/observ/metrics.go:116-138 | the page the code writes is read back, whatever the version string is: HELP, TYPE and sample of every metric at its place, then those of vigil_agent_build_info with the version, or "dev", as its label |
| Semver.ParseSemver | internal/updater/semver.go:37-72 | the code computes the parse of the specification |
| Semver.ParseNumbers | internal/updater/semver.go:57-71 | three dot-separated numbers, or the error of the first bad segment |
| VersionSyntax.ParseAccepts | internal/updater/semver.go:35-72 | a text is accepted as the version v iff it is blanks, an optional "v", three dotted numbers of digits that fit in 64 bits, an optional non-empty pre-release without '+', optional metadata and blanks, that spell v; nothing else is accepted |
| Semver.ParseOfPrint | internal/updater/semver.go:37-72 | parsing undoes printing, with or without "v" and surrounding blanks |
| Semver.ParseOfPrintWithMetadata | internal/updater/semver.go:44-46 | parsing undoes printing with any appended metadata |
| Semver.ParsedVersionsRoundTrip | internal/updater/semver.go:37-72 | every parsed version has a text that parses to it |
| Semver.MetadataIsIgnored | internal/updater/semver.go:23-24 | appending "+metadata" leaves the result unchanged iff the text does not end in a blank, already has a '+', or its numbers do not parse |
| Semver.IsNewerIsStrictTotalOrder | internal/updater/semver.go:89-110 | triples decide in lexicographic order, then stable is above every pre-release, then text; this is irreflexive, transitive, and incomparable only when equal |
| Semver.LessIsFirstDifference | internal/updater/semver.go:108-108 | the text order: a proper prefix is less, and otherwise the first difference decides |
| Precedence.IsNewerFollowsSection11 | internal/updater/semver.go:74-110 | for all versions: agrees with section 11 of SemVer 2.0.0 iff the numbers differ, a side is stable, or the first identifiers that differ are ordered alike |
| Precedence.NumberPrecedesIsByValue | internal/updater/semver.go:81-84 | two digit strings are ordered by value as by length and then text, once leading zeros are gone |
| Precedence.OneWordsAreOrdered | internal/updater/semver.go:81-84 | single identifiers that are not numbers are always ordered alike |
| Precedence.TextOrderMisordersNumbers | internal/updater/semver.go:81-84 | rc.10 and rc.2 are compared the wrong way round |
| Updater.Updater.Run | internal/updater/updater.go:186-213 | the log is that of the replies received, one check a tick, and none when the running version does not parse |
| Updater.Updater.CheckOnce | internal/updater/updater.go:219-268 | a reply adds its raw tag as a line, and is remembered, iff it carries a version that parses, is newer than the running one and is not the remembered tag; otherwise nothing changes |
| Updater.LinesStep | internal/updater/updater.go:219-268 | for every run of replies and every next reply: exactly when it adds a line, and which |
| Updater.LinesAreNews | internal/updater/updater.go:248-267 | every line is strictly newer than the running version and was announced; the lines keep the order of the replies; no line repeats the one before; and every reply with a newer version has its line |

## Left out

- Scheduler fairness: selects and timers are free choices, so nothing is claimed about how soon a step happens.
- The throttle inside the step system: there a tick may be skipped at will, which covers every behaviour proved in `Throttle`.
- 64-bit wrap-around of the uint64 counters, which takes 2^64 batches.
- SchedulerLoops.Scheduler.CollectLoop: runs while the other goroutines stand still, its context included; the interleavings are those of `Pipeline`.
- SchedulerLoops.Scheduler.SendLoop: runs while the other goroutines stand still, so its context is cancelled from the start or not at all; the interleavings are those of `Pipeline`.
- The remaining statistics (ScrapesPartial, ScrapesEmpty, SamplesCollected, DroppedQuotaSamples, LastFlushUnix): they are counted beside the steps modelled here and influence none of them.
- Collecting the metrics, HTTP transport, redirects, JSON, HTTP dates and random numbers: each is a value the model takes as given.
- Batch header fields (timestamp, host, versions): copied unchanged.
- formatFloat, and the sorting of the metric families in the exposition: the page writer takes the table in order.
- Strings are sequences of Unicode characters; bytes that are not valid UTF-8 are not modelled.
- Wall-clock times before 1970 or beyond the range of UnixNano.
- YAML decoding, validation, the merge of file and environment, CLI, logging, the metrics server and packaging.
