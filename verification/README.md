# Verified model of the shared protocols and analytics loops

The services of this repository are small; what can go wrong in them is in the protocols that
they share (a circuit breaker, Redis streams with a dead-letter queue, expiring keys, bounded
histories) and in a few loops that carry arithmetic. This project models those parts in Dafny
and proves what they guarantee over every input and every run, with any number of callers,
crashes and Redis errors where the code has them. Where a guarantee that one would expect does
not hold, the exact condition under which it holds is proved instead, or a run that breaks it
is constructed.

`dafny verify dfyconfig.toml` checks the whole project.

## How the models are built

A protocol is a step function on values, a relation for its runs, and a class whose methods
have the fields, branches and loops of the source. The methods are proved to compute a function
of the old state, and that function to be steps of the machine; the theorems are about all runs
of the machine.

| module | what it models |
|---|---|
| `CircuitBreakers`, `HttpClients` | the circuit breaker under interleaved calls, and the retrying client on top of it |
| `Events`, `Deliveries`, `Pipelines`, `AnalyzerService` | mention events, their flat form, and the analyzer loop on Redis streams |
| `DeadLetters`, `DeadLetterRuns`, `RetryingBus` | retrying consumption, moves to the dead-letter queue and reprocessing |
| `ExpiringStores`, `RequestDedups`, `CheckThenSets`, `Collectors`, `IdempotencyCaches`, `IdempotencyOverlaps` | keys that expire, and the three ways the services deduplicate with them |
| `TokenQuotas`, `SeenIds`, `UndoRedo`, `AuditQueues` | bounded windows compared with the full history |
| `SpikeDetection`, `CompetitiveAnalysis`, `Retention` | analytics and retention loops |
| `Webhooks`, `Decimal`, `Utf8` | the signature header and its parser; Python's `str` and `int` on integers; encoding and decoding text |

## What the code does not do

These are results about the code as it is:

- A cancelled probe leaves the breaker HALF_OPEN for good (`CircuitBreakers.CancelledProbeWedges`);
  this is the only way to wedge it (`CircuitBreakers.WedgedExactlyWhenStranded`).
- With a threshold below one the state no longer follows the failure counter
  (`CircuitBreakers.StateMatchesCounter`).
- Server errors count as successes for the breaker (`HttpClients.ServerErrorsNeverOpen`).
- `consume_with_retry` promises retries and a dead-letter queue after `max_retries`, but a
  message that failed once is never handed out again (`DeadLetterRuns.FailedIsNeverRetried`),
  and since nothing counts failures it dead-letters nothing in any run, exactly if no producer
  publishes a retry count that reaches a limit in use (`DeadLetterRuns.NothingIsDeadLettered`).
- Runs with the analyzer's last-resort ack can lose a message, even one that had been a dead
  letter (`DeadLetterRuns.RescueLosesMessage`); runs without it cannot
  (`DeadLetterRuns.NothingLostExactlyWithoutRescue`, `DeadLetterRuns.LostExactlyWhen`). The step
  that takes the last copy may be a later one, such as the ack of another move whose letter was
  reprocessed meanwhile.
- Crashes, Redis errors and concurrent reprocessing duplicate messages; exactly which steps do is
  stated by `DeadLetterRuns.OneCopyExactlyWhen`.
- Of two changes in one render the value in between is recorded nowhere
  (`UndoRedo.SecondChangeInOneRenderLosesFirst`, `UndoRedo.NoneLostExactlyWhenCaptured`).
- The analyzer can drop a delivered message from both logs; exactly which steps do is stated by
  `Pipelines.UnloggedExactlyWhenForgotten`.
- The undo history is the recent part of an unlimited one only until an undo is refused
  (`UndoRedo.SimilarExactlyWhenNothingRefused`, `UndoRedo.FiftyFirstUndoRefused`).
- Two overlapping flushes are enough to hand audit events over out of order
  (`AuditQueues.InOrderExactlyWithoutOverlap`), and a batch that is put back gets no timer
  (`AuditQueues.WaitsWithoutTimerExactlyWhen`, `AuditQueues.FailedBatchWaitsWithoutTimer`).
- Spike detection accepts three days, but with its default threshold it can flag nothing below
  six (`SpikeDetection.DefaultThresholdNeedsSixDays`). Its documentation speaks of a rolling
  mean; the code uses the mean of the whole window, and so does the model.
- Comparing a project that has mentions with itself raises a KeyError
  (`CompetitiveAnalysis.FailsExactlyOnRepeatedProject`).
- A webhook timestamp of zero is taken for a missing one (`Webhooks.ZeroTimestampMeansNow`).
- A replayed response has another body than the first one when that was not well-formed UTF-8,
  and the media type `application/json` when the first one named none
  (`IdempotencyCaches.ReplayFidelity`).

## Model

| member | source | states |
|---|---|---|
| `CircuitBreakers.CircuitBreaker.constructor` | shared/circuit_breaker.py:34-47 | A new breaker is CLOSED with no failures and no permit. |
| `CircuitBreakers.CircuitBreaker.TryEnter` | shared/circuit_breaker.py:63-77 | The locked block before the call: admission, rejection and the move to HALF_OPEN. |
| `CircuitBreakers.CircuitBreaker.OnSuccess` | shared/circuit_breaker.py:79-88 | The locked block after a call that returned. |
| `CircuitBreakers.CircuitBreaker.OnFailure` | shared/circuit_breaker.py:89-96 | The locked block after a call that raised. |
| `CircuitBreakers.InvariantHolds` | shared/circuit_breaker.py:63-96 | In every interleaving, cancellations included, the permit is never left set between blocks and a circuit that is not CLOSED has counted at least the threshold. |
| `CircuitBreakers.StateMatchesCounter` | shared/circuit_breaker.py:79-96 | CLOSED means fewer failures than the threshold in every run if and only if the threshold is at least one. |
| `CircuitBreakers.ChangesExactlyWhen` | shared/circuit_breaker.py:63-96 | In every run the circuit closes exactly at a success that finds it HALF_OPEN, opens exactly at a failure that finds it HALF_OPEN or reaches the threshold, and becomes HALF_OPEN exactly at an entry after the recovery timeout. |
| `CircuitBreakers.CounterTells` | shared/circuit_breaker.py:79-96 | In every run the counter is the number of failures since the last success that found the circuit not OPEN, or since the start. |
| `CircuitBreakers.LastFailureTells` | shared/circuit_breaker.py:89-96 | No failure of a run is later than the remembered one, and a circuit that is not CLOSED remembers one that happened. |
| `CircuitBreakers.AdmitsExactlyWhen` | shared/circuit_breaker.py:63-77 | In every run a call is admitted if and only if the circuit is CLOSED, or OPEN with every failure of the run at least the recovery timeout ago. |
| `CircuitBreakers.OneProbePerPeriod` | shared/circuit_breaker.py:72-77 | While HALF_OPEN, exactly one call has been admitted since the period began, and it is still in flight if and only if it was not cancelled, whatever late completions do. |
| `CircuitBreakers.CoolingPeriod` | shared/circuit_breaker.py:64-70 | Once a failure leaves the circuit OPEN, no call is admitted before the recovery timeout has passed. |
| `CircuitBreakers.WedgedExactlyWhenStranded` | shared/circuit_breaker.py:64-96 | A reachable state has a continuation that admits a call if and only if it is not HALF_OPEN without a call in flight. |
| `CircuitBreakers.NeverWedges` | shared/circuit_breaker.py:64-96 | Without cancellations every reachable state has a continuation that admits a call. |
| `CircuitBreakers.CancelledProbeWedges` | shared/circuit_breaker.py:72-96 | Under every configuration one cancelled probe can leave a state that never admits a call again. |
| `HttpClients.HttpClient.GetBreaker` | shared/http_client.py:103-106 | One breaker per service, created CLOSED at first use; the others are untouched. |
| `HttpClients.HttpClient.ResilientRequest` | shared/http_client.py:121-215 | A request leaves its service's breaker as the request function says and no other breaker changed. |
| `HttpClients.HttpClient.Retry` | shared/http_client.py:149-215 | The retry loop computes the request function of breaker, network and clock. |
| `HttpClients.RequestIsPath` | shared/http_client.py:149-215 | A request is a path of the breaker machine from wherever another path has led. It adds one entry for each attempt, followed by a success exactly if there was a response, of any status, and by a failure otherwise; there are as many completions as calls. |
| `HttpClients.SleepIsBounded` | shared/http_client.py:196-207 | At most `max` calls, and at most 0.5 * (2^(max-1) - 1) seconds of sleep, for every network and breaker. |
| `HttpClients.AllCallsRaise` | shared/http_client.py:149-215 | When every call raises: min(max, threshold - f) calls, then the last exception or the breaker's error; this holds if and only if the pause after the opening failure is shorter than the recovery timeout. |
| `HttpClients.ServerErrorsNeverOpen` | shared/http_client.py:155-183 | Only 5xx responses: all attempts are made, all sleeps taken, the last response raised, and the circuit stays CLOSED without failures. |
| `HttpClients.ResponsesKeepClosed` | shared/http_client.py:149-183 | On a CLOSED breaker, when every attempt gets a response of any status, the circuit stays CLOSED, and no failure is left once a call was made. |
| `HttpClients.SleepsExactly` | shared/http_client.py:196-209 | The sleep is the sum of the doubling delays after the calls that end in a timeout, a failed connection or a status from 500 to 599; the last call is among them only if the circuit rejects the next one. |
| `HttpClients.ReturnsExactlyWhen` | shared/http_client.py:176-183 | A response is returned if and only if the last call got one with a status outside 500 to 599. |
| `HttpClients.ResultTells` | shared/http_client.py:176-215 | What each way to end says about the attempts. |
| `Pipelines.StepNeverCopies` | services/analyzer_service/app/main.py:118-184 | The account of one worker step: what is delivered goes to the worker and the logs or is forgotten, and nothing is copied. |
| `Pipelines.StepKeepsInvariant` | services/analyzer_service/app/main.py:110-188 | Every step of every worker, with errors before or after each command and crashes, keeps the accounting invariant. |
| `Pipelines.InvariantHolds` | services/analyzer_service/app/main.py:110-188 | So it holds at every moment of every run. |
| `Pipelines.AckedIsAccountedFor` | services/analyzer_service/app/main.py:164-184 | An id is acked only after its analysed event or its dead-letter entry is in the log, or its move raised. |
| `Pipelines.PendingIsDeliveredUnacked` | shared/events.py:394-414 | The pending ids are exactly those delivered and not acked. |
| `Pipelines.LoggedAtMostOnce` | services/analyzer_service/app/main.py:110-188 | A raw message yields at most one analysed event or one dead-letter entry, never both. |
| `Pipelines.AnalyzedCarriesMention` | services/analyzer_service/app/main.py:58-102 | An analysed event in the log carries the published mention with every field unchanged. |
| `Pipelines.AnalysisOutcome` | services/analyzer_service/app/main.py:129-160 | A published mention yields the event with all its fields and the result of the first attempt, or of the second one after a transient error; otherwise it fails. |
| `Pipelines.AnalysedOnce` | services/analyzer_service/app/main.py:129-160 | In every run a message is analysed at most once. |
| `Pipelines.LoggedAsAnalysed` | services/analyzer_service/app/main.py:129-184 | In every run a message is in the analysed log only with the event that its analysis gave, and in the dead-letter log only if the analysis gave none. |
| `Pipelines.EachIsSomewhereOrForgotten` | services/analyzer_service/app/main.py:110-188 | In every run a delivered message is in one worker's hands or in one of the two logs, once, or some step has forgotten it, once. |
| `Pipelines.UnloggedExactlyWhenForgotten` | services/analyzer_service/app/main.py:112-188 | When all workers are idle, a delivered message is in neither log if and only if some read, publication, ack, move or crash of the run has forgotten it. |
| `Pipelines.AllDeliveredAreLogged` | services/analyzer_service/app/main.py:118-184 | When only the analysis can fail from some point of a run on, idle workers leave every message delivered since, unless it was trimmed, acked and in exactly one of the two logs. |
| `Pipelines.AllDeliveredAreAcked` | services/analyzer_service/app/main.py:164-184 | When moves to the dead-letter queue can fail too, but not their last-resort acks, those messages are still all acked. |
| `Pipelines.MentionIsLoggedAsAnalysed` | services/analyzer_service/app/main.py:118-184 | When only the analysis can fail, such a message is in the analysed log, with all fields of the published mention and the result, if the first attempt gave one or the second one did after a transient error; it is in the dead-letter log otherwise, and never in both. |
| `AnalyzerService.EventBus.Consume` | shared/events.py:394-409 | The next messages become pending; a raised error may come before or after that. |
| `AnalyzerService.EventBus.PublishBatch` | shared/events.py:488-496 | All events are appended at once or none is. |
| `AnalyzerService.EventBus.Ack` | shared/events.py:411-414 | A pending id becomes acked; a second ack does nothing. |
| `AnalyzerService.EventBus.AppendDead` | shared/events.py:458-459 | A dead-letter entry is appended, or not when the command raised first. |
| `AnalyzerService.ProcessOnce` | services/analyzer_service/app/main.py:110-188 | One iteration takes exactly the prescribed steps of the worker machine, from rest to rest, whatever the analysis and Redis do. |
| `AnalyzerService.IterationIsDetermined` | services/analyzer_service/app/main.py:110-188 | Its start and its environment determine the iteration, so no step can be skipped or swapped. |
| `AnalyzerService.IterationExtendsRun` | services/analyzer_service/app/main.py:110-188 | An iteration continues a run of the machine, so the theorems about runs hold after it. |
| `AnalyzerService.IterationLogsBatch` | services/analyzer_service/app/main.py:110-188 | While Redis works, an iteration reads the next messages, a batch or all there are, and leaves each of them, unless it was trimmed, acked and logged exactly once. |
| `AnalyzerService.AnalyzeAll` | services/analyzer_service/app/main.py:129-160 | The analysis loop partitions the batch into events to publish and failed messages, in order. |
| `AnalyzerService.AckAll` | services/analyzer_service/app/main.py:171-172 | The acknowledgement loop takes the prescribed steps; it stops at the first error. |
| `AnalyzerService.MoveAll` | services/analyzer_service/app/main.py:177-184 | The dead-letter loop takes the prescribed steps; a failed rescue ends the iteration. |
| `AnalyzerService.MoveOne` | services/analyzer_service/app/main.py:178-184 | One move and, when it raised, the last-resort ack. |
| `AnalyzerService.MoveToDlq` | shared/events.py:416-464 | The move writes the entry, then acks; a trimmed message is skipped silently, unless its lookup raises. |
| `Events.IntFieldReadsBack` | shared/events.py:367-383 | An integer field that was serialised reads back as the same integer. |
| `Events.AnalysisCopiesMention` | services/analyzer_service/app/main.py:58-102 | Flattening a mention and analysing its flat form copies all its fields, for every mention. |
| `Events.CutTells` | shared/events.py:63-65 | The text of a mention is cut to its first 5000 characters; all other fields stay. |
| `Events.MissingFieldsDefault` | services/analyzer_service/app/main.py:58-102 | A message without any fields is analysed with empty texts and zeros. |
| `Events.UnreadableNumberFails` | services/analyzer_service/app/main.py:58-102 | A numeric field that is there and cannot be read makes the analysis fail, whichever it is. |
| `DeadLetters.DispositionTells` | shared/events.py:523-551 | A failed message is dead-lettered if its retry count, zero by default, reads as a number that reaches the limit, stays pending if that is below, and leaves the loop if it cannot be read. |
| `DeadLetters.PrintedCount` | shared/events.py:523-529 | A printed count can be read and is out of retries if and only if it is at least the limit; so is a missing one with zero. |
| `DeadLetters.ResetTells` | shared/events.py:596-596 | Resetting changes the retry count to "0" and no other field. |
| `DeadLetters.RestoredTells` | shared/events.py:585-596 | A structured letter restores to its decoded original, or to all its fields when that cannot be decoded; an older one to its fields without a leading underscore; each with the retry count "0". |
| `DeadLetterRuns.RestoredFromLetter` | shared/events.py:446-456 | Restoring a letter written by a move gives the original body with its retry count set to "0". |
| `DeadLetterRuns.LettersOnce` | shared/events.py:583-583 | A reprocessing reads every letter that was not deleted exactly once and no deleted one. |
| `DeadLetterRuns.LettersInOrder` | shared/events.py:583-583 | It reads them in the order of the stream. |
| `DeadLetterRuns.StepBalances` | shared/events.py:416-602 | The account of one step: living copies and half-done replacements before and after, with the copies that it rescues or duplicates. |
| `DeadLetterRuns.StepKeepsSound` | shared/events.py:416-602 | Every step keeps the bodies and the roots of all copies and letters. |
| `DeadLetterRuns.CopiesAccountedFor` | shared/events.py:416-602 | In every run, with any agents, errors and crashes: the living copies of a message and those taken by last-resort acks are one, plus one for each half-done replacement, plus one for each step that duplicated it. |
| `DeadLetterRuns.LostExactlyWhen` | shared/events.py:416-602 | In every run a message is lost if and only if the last-resort ack has taken one copy, one for each half-done replacement and one for each duplication. |
| `DeadLetterRuns.OneCopyExactlyWhen` | shared/events.py:416-602 | In every run a message that nobody is moving has one living copy if and only if it was rescued as often as duplicated; rescued copies included, if and only if no step duplicated it. |
| `DeadLetterRuns.NothingLostExactlyWithoutRescue` | services/analyzer_service/app/main.py:177-184 | Over all runs with any agents, errors and crashes, every published message stays undelivered or pending, handled, or a dead letter if and only if the last-resort ack is not used. |
| `DeadLetterRuns.LostOnlyAfterRescue` | services/analyzer_service/app/main.py:177-184 | A message is lost only in a run in which a last-resort ack took a pending copy of it after a move that wrote nothing. |
| `DeadLetterRuns.LostExactlyWhenRescued` | services/analyzer_service/app/main.py:177-184 | In such a run a message that nobody is moving is lost if and only if a last-resort ack took its copy after a move that wrote nothing. |
| `DeadLetterRuns.RescueLosesMessage` | services/analyzer_service/app/main.py:177-184 | A run in which a message that had been dead-lettered and reprocessed is lost. |
| `DeadLetterRuns.BodiesSurvive` | shared/events.py:440-460 | Every copy of a message is the body as published or with its retry count set to "0", and every letter gives it back. |
| `DeadLetterRuns.ExactlyOneCopy` | shared/events.py:416-602 | Without crashes, with one reprocessor at a time, and when moves, reads, and handler acks and republications without effect are all that fails, a message that nobody is moving has exactly one copy, unless that one was rescued. |
| `DeadLetterRuns.StepsExtendRun` | shared/events.py:506-602 | Steps from where a run ends continue it, so what every run keeps holds after each call. |
| `DeadLetterRuns.AbandonedForever` | shared/events.py:404-404 | A pending message in nobody's hands stays so for ever, since only new messages are read. |
| `DeadLetterRuns.HeldOnceHolds` | shared/events.py:404-409 | Whatever fails, a message is in the hands of one agent at most. |
| `DeadLetterRuns.FailedIsNeverRetried` | shared/events.py:522-551 | A message left pending after a failure is never handled, dead-lettered or acked afterwards. |
| `DeadLetterRuns.FirstFailureDies` | shared/events.py:522-536 | A message whose count reaches the limit is a dead letter after its first failure, when Redis works. |
| `DeadLetterRuns.NothingIsDeadLettered` | shared/events.py:523-534 | For any set of published bodies and of limits in use, the dead-letter stream stays empty in every run if and only if no published body has a retry count that reaches a limit in use. |
| `RetryingBus.EventBus.Consume` | shared/events.py:521-521 | The next messages are taken, at most `count`, unless the read raises before it took effect. |
| `RetryingBus.EventBus.ConsumeOne` | shared/events.py:522-551 | One message is handled and acked, dead-lettered or left pending, for every fate of the commands; an unreadable retry count leaves the loop. |
| `RetryingBus.FailureDeadLettersExactly` | shared/events.py:522-551 | When the handler fails and Redis works, a message whose count prints the number r, or has none and r is zero, is moved to the dead-letter stream if r reaches the limit, and otherwise nothing changes. |
| `RetryingBus.EventBus.ConsumeWithRetry` | shared/events.py:506-551 | A call computes the steps of its batch in order and ends at the first exception. |
| `RetryingBus.SmoothBatchIsConsumed` | shared/events.py:506-551 | When Redis works and retry counts are numbers, the handled messages are acked, those without retries left become letters in batch order, the others stay pending, and nothing else changes. |
| `RetryingBus.CallsTakeTheFirst` | shared/events.py:521-583 | A batch is the next undelivered messages in order, and a reprocessing takes the first letters; fewer than `count` only if there are no more. |
| `RetryingBus.ConsumeCallReaches` | shared/events.py:506-551 | A call is a sequence of steps of the machine. |
| `RetryingBus.EventBus.MoveToDlq` | shared/events.py:416-464 | A move appends the letter of the message and then acks it; on an error it stops in between. |
| `RetryingBus.EventBus.ReprocessOne` | shared/events.py:586-599 | One letter is published again and then deleted; on an error it stops in between. |
| `RetryingBus.EventBus.ReprocessDlq` | shared/events.py:568-602 | A call reprocesses the first `count` letters in order, ends at the first exception and otherwise returns their number. |
| `RetryingBus.ReprocessedInOrder` | shared/events.py:585-599 | A prefix of the letters is published in their order and all of it, but for one letter perhaps, deleted; it is all of them when nothing raised. |
| `RetryingBus.OriginalsComeBack` | shared/events.py:585-598 | In every state of a run all letters can be restored, each to its message as first published with the retry count "0". |
| `RetryingBus.ReprocessCallReaches` | shared/events.py:568-602 | A call is a sequence of steps of the machine. |
| `RequestDedups.CheckIdempotency` | shared/request_dedup.py:41-76 | SET NX decides; a taken key is read back and its value interpreted; any Redis error turns into "proceed", even after the SET took effect. |
| `RequestDedups.CheckIsClaimThenReadBack` | shared/request_dedup.py:58-76 | A check that meets no error is a claim of the machine, followed by a read-back when the key was taken. |
| `RequestDedups.ProceedsExactlyWhen` | shared/request_dedup.py:41-76 | A check answers "proceed" if and only if there is no key, the key is free, Redis fails at one of the commands, or the stored value is neither the pending mark nor a number. |
| `RequestDedups.StoreResponseStatus` | shared/request_dedup.py:79-97 | The printed status replaces the value with a new TTL, unless the command fails before taking effect; no key, no write. |
| `RequestDedups.StoreTellsLastWrite` | shared/request_dedup.py:58-97 | In every interleaving a key holds what its last write stored. |
| `RequestDedups.ProceedsAreApart` | shared/request_dedup.py:58-76 | Two requests with one key that are told to proceed are at least a TTL apart. |
| `RequestDedups.ProceedsExactlyWhenFree` | shared/request_dedup.py:62-63 | A claim proceeds if and only if no earlier write of the key is still live. |
| `RequestDedups.StatusWasStored` | shared/request_dedup.py:66-73 | A status other than the in-flight 409 is the one stored last for that key, not yet expired. |
| `RequestDedups.ReadBackNeverProceeds` | shared/request_dedup.py:66-76 | Reading a taken key back never falls through to "proceed". |
| `RequestDedups.ReadBackTells` | shared/request_dedup.py:66-73 | A read-back answers with the status that the last write of its key stored, while that is live; it answers 409 after the mark of a pending request or an expired write. |
| `RequestDedups.RepetitionGetsStatus` | shared/request_dedup.py:41-97 | Repeating a request within the TTL of its stored status answers with that status. |
| `CheckThenSets.AtMostNPerWindow` | services/collector_service/app/main.py:91-98 | With N tasks a key is written at most N times in the TTL that starts at one of its writes. |
| `CheckThenSets.BoundIsReached` | services/collector_service/app/main.py:204-207 | N tasks can write a key N times in one TTL. |
| `CheckThenSets.OneTaskWritesOncePerTtl` | services/collector_service/app/main.py:91-98 | With one task two writes of a key are at least a TTL apart. |
| `CheckThenSets.CheckSeesRecentWrites` | services/collector_service/app/main.py:94-96 | A mention is skipped if and only if its key was written less than a TTL ago. |
| `Collectors.Collector.Admit` | services/collector_service/app/main.py:94-98 | A mention is emitted if and only if its key is absent, and then the key is written; without Redis it always is emitted. |
| `Collectors.Collector.Deduplicate` | services/collector_service/app/main.py:91-98 | The loop emits, in order, the mentions that the deduplication of the keys lets through, and leaves the keys as that says. |
| `Collectors.DeduplicationFollowsProtocol` | services/collector_service/app/main.py:91-98 | That deduplication is a path of the check-then-set protocol: it checks the key of every mention and writes exactly the keys of those emitted. |
| `Collectors.KeysTellMentionsApart` | services/collector_service/app/main.py:94-94 | Mentions share a key if and only if platform and source id are the same, since no platform name has a colon. |
| `IdempotencyCaches.IdempotencyMiddleware.Dispatch` | shared/idempotency.py:87-141 | The reply and the store after a request, for every branch. |
| `IdempotencyCaches.IdempotencyMiddleware.ProcessAndCache` | shared/idempotency.py:143-180 | The handler's response is returned, and cached unless the write fails. |
| `IdempotencyCaches.StoreTellsLastRun` | shared/idempotency.py:162-172 | What the store holds for a key is what the last handler run for it wrote. |
| `IdempotencyCaches.RunsExactlyWhenExpired` | shared/idempotency.py:108-141 | The handler runs if and only if no earlier run for the key was cached less than a TTL ago. |
| `IdempotencyCaches.AnsweredFromCache` | shared/idempotency.py:114-138 | Within a TTL of a run a request is replayed when its body has the same digest and rejected with 422 otherwise, without running the handler. |
| `IdempotencyCaches.KeysTellRequestsApart` | shared/idempotency.py:106-106 | Two requests share an entry if and only if they have the same Idempotency-Key. |
| `IdempotencyCaches.CachedExactlyWhen` | shared/idempotency.py:87-172 | Over an empty store the handler runs, and its response is cached for the TTL if and only if the request is a POST, PUT or PATCH with a key and Redis answers. |
| `IdempotencyCaches.CorruptEntryIsReplaced` | shared/idempotency.py:116-121 | An entry that is not JSON is deleted; the handler runs and its response is cached in its place, other keys untouched. |
| `IdempotencyCaches.ReplayFidelity` | shared/idempotency.py:134-167 | The replay has the same status; the same body if and only if it is well-formed UTF-8; the same media type if and only if one was named, and "application/json" otherwise. |
| `Utf8.DecodeThenEncode` | shared/idempotency.py:164-164 | Decoding bytes with replacement and encoding the text again gives the same bytes if and only if they have the UTF-8 syntax of section 4 of RFC 3629. |
| `Utf8.EncodeThenDecode` | shared/idempotency.py:134-138 | Encoded text is well-formed UTF-8 and decodes to itself. |
| `Utf8.DecodeSplits` | shared/idempotency.py:164-164 | Well-formed bytes are decoded independently of what follows them. |
| `Utf8.DecodeMarksDamage` | shared/idempotency.py:164-164 | Text decoded from bytes that are not well-formed contains the replacement character. |
| `IdempotencyOverlaps.DispatchIsTwoSteps` | shared/idempotency.py:108-180 | A request with nobody in between is its GET followed by its SETEX, with the replies and the store of the middleware. |
| `IdempotencyOverlaps.StepFollowsProtocol` | shared/idempotency.py:108-172 | Every GET, SETEX or failure of overlapping requests is a step of the check-then-set protocol. |
| `IdempotencyOverlaps.OverlappingRunsAreBounded` | shared/idempotency.py:108-172 | With N requests in flight, at most N handler runs for one key are cached in the TTL that starts with one of them, in every interleaving. |
| `IdempotencyOverlaps.OverlappingRunsReachBound` | shared/idempotency.py:140-172 | For every N, request and response there is a run with N of them. |
| `TokenQuotas.QuotaTracker.Prune` | src/nlp/llm_insights.py:52-56 | Exactly the records of the last hour stay, out of everything ever recorded. |
| `TokenQuotas.QuotaTracker.Record` | src/nlp/llm_insights.py:58-59 | The record is appended to the project's history; other projects are unchanged. |
| `TokenQuotas.QuotaTracker.TokensUsed` | src/nlp/llm_insights.py:61-63 | The answer is the sum over the full history in the last hour: pruning never changes it. |
| `TokenQuotas.QuotaTracker.WithinBudget` | src/nlp/llm_insights.py:65-73 | The gate opens if and only if that sum is below the quota. |
| `TokenQuotas.Insights.RecordUsage` | src/nlp/llm_insights.py:155-181 | Both ledgers take the usage, whatever overlapping calls recorded, and lifetime totals stay those of the history; records stay gated when no other call came in between. |
| `TokenQuotas.Insights.CallClaude` | src/nlp/llm_insights.py:183-225 | If the gate opens, the call ends as its attempts do and records the usage of the answered one; otherwise nothing is recorded. The ledgers of the project stay gated and in agreement, those of the others as they were. |
| `TokenQuotas.Insights.Retry` | src/nlp/llm_insights.py:199-225 | The loop ends at attempt k, after errors that are retried, with an answer, with an error that is not retried or at the third attempt; its time is that of k attempts and of the doubling delays between them. |
| `TokenQuotas.EndIsDetermined` | src/nlp/llm_insights.py:199-225 | There is one such k, result, end and usage for every API and start. |
| `TokenQuotas.AnyHourWithinQuota` | src/nlp/llm_insights.py:61-73 | For gated calls one after the other, the tokens of any hour are at most the quota minus one plus those of the last call. |
| `TokenQuotas.AfterAfter` | src/nlp/llm_insights.py:52-56 | Pruning at an earlier time does not change a later pruning or its sum. |
| `TokenQuotas.UsedIsLastHour` | src/nlp/llm_insights.py:52-63 | The sum that gates a call is over the tokens of the records that are less than an hour old, when none is from the future. |
| `SeenIds.DuplicateFilter.constructor` | src/collectors/base.py:165-180 | A new filter has seen nothing. |
| `SeenIds.DuplicateFilter.IsDuplicate` | src/collectors/base.py:165-180 | A duplicate is reported if and only if the id is among the last admitted ones; set and deque agree, without repeats, within capacity. |
| `SeenIds.DuplicateFilter.FilterAll` | src/collectors/base.py:165-180 | A whole stream gets the flags of the window function. |
| `SeenIds.ExactWithinCapacity` | src/collectors/base.py:173-180 | On a stream with no more distinct ids than the capacity, an id is flagged if and only if it occurred before. |
| `SeenIds.MissesBeyondCapacity` | src/collectors/base.py:173-176 | One distinct id more and a repetition is missed. |
| `SeenIds.ExactExactlyWithinCapacity` | src/collectors/base.py:165-180 | The filter is exact on all streams of at most d distinct ids if and only if d is at most the capacity. |
| `SeenIds.FlaggedExactlyWhenRecent` | src/collectors/base.py:171-180 | Whatever the stream: an admitted id that comes again is flagged if and only if at most as many ids as the capacity, itself included, were admitted from then on, so the oldest is evicted first. |
| `UndoRedo.Hook.Set` | frontend/src/hooks/useUndoRedo.ts:24-32 | A change cuts the past to 50 values and forgets the future. |
| `UndoRedo.Hook.Undo` | frontend/src/hooks/useUndoRedo.ts:34-43 | One value moves from the past to the present and the old present to the future. |
| `UndoRedo.Hook.Redo` | frontend/src/hooks/useUndoRedo.ts:45-54 | The reverse, without cutting the past. |
| `UndoRedo.HistoryIsBounded` | frontend/src/hooks/useUndoRedo.ts:24-54 | Past and future together never exceed 50 values, although redo does not cut, whatever presents the operations captured. |
| `UndoRedo.SimilarExactlyWhenNothingRefused` | frontend/src/hooks/useUndoRedo.ts:24-54 | Present and future equal the unlimited machine's, and the past is a suffix of its past, along a run if and only if no undo of the run is refused. |
| `UndoRedo.SimilarUnderCanUndo` | frontend/src/hooks/useUndoRedo.ts:34-36 | A caller that undoes only while there is a past never sees the limit. |
| `UndoRedo.FiftyFirstUndoRefused` | frontend/src/hooks/useUndoRedo.ts:26-36 | 51 changes and 51 undos do show the limit. |
| `UndoRedo.UndoRedoRestores` | frontend/src/hooks/useUndoRedo.ts:34-54 | k undos followed by k redos restore the history, and the other way round. |
| `UndoRedo.ChangeShows` | frontend/src/hooks/useUndoRedo.ts:24-54 | A change shows its value and leaves nothing to redo; undo shows the replaced value and redo the new one again. |
| `UndoRedo.NoneLostExactlyWhenCaptured` | frontend/src/hooks/useUndoRedo.ts:24-54 | Along a run, with any number of operations in one render, every replaced value can be brought back by the inverse operation if and only if every effective operation captured the current present. |
| `UndoRedo.BroughtBackExactlyWhenCaptured` | frontend/src/hooks/useUndoRedo.ts:24-54 | The same of one operation on any history. |
| `UndoRedo.CapturedRunIsOnePerRender` | frontend/src/hooks/useUndoRedo.ts:24-54 | Such a run equals the run with one operation in each render. |
| `UndoRedo.SecondChangeInOneRenderLosesFirst` | frontend/src/hooks/useUndoRedo.ts:24-32 | Of two changes in one render the first value is recorded nowhere. |
| `AuditQueues.AuditLog.Flush` | frontend/src/lib/auditLog.ts:61-81 | The queue becomes the batch that is sent, or is dropped without a token. |
| `AuditQueues.AuditLog.Audit` | frontend/src/lib/auditLog.ts:119-133 | The event is queued; the tenth one flushes, earlier ones start the timer. |
| `AuditQueues.AuditLog.OnTimer` | frontend/src/lib/auditLog.ts:91-97 | The timer is cleared and the queue flushed. |
| `AuditQueues.AuditLog.FlushAuditLog` | frontend/src/lib/auditLog.ts:138-144 | The timer is cancelled and the queue flushed. |
| `AuditQueues.AuditLog.OnSettled` | frontend/src/lib/auditLog.ts:71-81 | The batch has been handed over. |
| `AuditQueues.AuditLog.OnFailed` | frontend/src/lib/auditLog.ts:82-88 | The batch goes back to the front of the queue, or is dropped when 100 events wait. |
| `AuditQueues.EventsAreConserved` | frontend/src/lib/auditLog.ts:61-133 | In every run the audited events are, as a multiset, queued, on their way, handed over or dropped. |
| `AuditQueues.NothingWaitsAfterFlush` | frontend/src/lib/auditLog.ts:61-144 | After the timer, a hidden page, a call of flush or the tenth event the queue is empty; with a token every event that was not dropped before is on its way or handed over. |
| `AuditQueues.SendsExactlyWhen` | frontend/src/lib/auditLog.ts:61-144 | A batch is sent if and only if one of these flushes has a token and finds events, and then it is all of them in order; no other step takes events out of the queue. |
| `AuditQueues.DropsExactlyWhen` | frontend/src/lib/auditLog.ts:67-87 | A step drops events if and only if it flushes a nonempty queue without a token or a send fails with 100 or more events queued. |
| `AuditQueues.HandOverInAuditOrder` | frontend/src/lib/auditLog.ts:61-89 | When flushes do not overlap, events are handed over in the order of their audit. |
| `AuditQueues.InOrderExactlyWithoutOverlap` | frontend/src/lib/auditLog.ts:61-89 | All runs with at most k batches on their way hand over in audit order if and only if k is at most one. |
| `AuditQueues.OverlappingFlushesReorder` | frontend/src/lib/auditLog.ts:82-88 | A run with two batches on their way that loses the order. |
| `AuditQueues.WaitsWithoutTimerExactlyWhen` | frontend/src/lib/auditLog.ts:82-97 | Events wait without a timer if and only if a failed batch was put back without one and batches have only settled or failed since. |
| `AuditQueues.FailedBatchWaitsWithoutTimer` | frontend/src/lib/auditLog.ts:82-97 | A run in which they do. |
| `SpikeDetection.DetectSentimentSpikes` | src/analytics/sentiment_trends.py:139-167 | The loops compute the flagged days of the mean and standard deviation. |
| `SpikeDetection.DetectsExactly` | src/analytics/sentiment_trends.py:139-164 | A spike is reported if and only if it is one of at least three days with a score more than threshold standard deviations above or below the mean, with its date, score, deviation and direction. |
| `SpikeDetection.SpikesInOrder` | src/analytics/sentiment_trends.py:152-164 | Spikes are reported in the order of the days. |
| `SpikeDetection.SpikesAreFew` | src/analytics/sentiment_trends.py:144-164 | Chebyshev: spikes * threshold^2 is below the number of days. |
| `SpikeDetection.SamuelsonInequality` | src/analytics/sentiment_trends.py:144-155 | No score is further than sqrt(n - 1) standard deviations from the mean. |
| `SpikeDetection.NoSpikesAmongFewDays` | src/analytics/sentiment_trends.py:139-156 | No day is flagged when threshold^2 >= n - 1. |
| `SpikeDetection.DefaultThresholdNeedsSixDays` | src/analytics/sentiment_trends.py:109-156 | At the default threshold no window of three to five days has a spike. |
| `SpikeDetection.SpikesNeedLowThreshold` | src/analytics/sentiment_trends.py:144-156 | n days can never produce a spike if and only if threshold^2 >= n - 1. |
| `CompetitiveAnalysis.CompareSentiment` | src/analytics/competitive_analysis.py:117-156 | One summary per listed project from the folded rows, or a KeyError. |
| `CompetitiveAnalysis.FoldAddsUp` | src/analytics/competitive_analysis.py:118-135 | Folding rows gives, per project, the counts of the rows and their weighted score sum. |
| `CompetitiveAnalysis.FoldEqualsDirect` | services/competitive_service/app/main.py:247-259 | For every mention list and row order, the folded report equals counting and averaging directly. |
| `CompetitiveAnalysis.SummaryTells` | src/analytics/competitive_analysis.py:137-153 | The summary of a listed project has the counts of its mentions; its ratios times the total are the positive and negative counts, its average times the total is the sum of the scores; all are zero without mentions. |
| `CompetitiveAnalysis.FailsExactlyOnRepeatedProject` | src/analytics/competitive_analysis.py:137-153 | The comparison raises if and only if a project with mentions is listed twice. |
| `Retention.Service.DeleteFor` | services/audit_service/app/main.py:283-312 | The deletions under one policy and their row counts. |
| `Retention.Service.EnforceRetentionCleanup` | services/audit_service/app/main.py:256-354 | The tables after the clean-up and the summary it returns. |
| `Retention.Service.ExecuteRetention` | services/audit_service/app/main.py:680-748 | The endpoint deletes under the organisation's policy, or reports 404 and deletes nothing. |
| `Retention.CleanupIsExact` | services/audit_service/app/main.py:269-345 | A row is deleted if and only if it is strictly older than its organisation's cutoff; without a policy only audit logs are. |
| `Retention.AuditsStayFor` | services/audit_service/app/main.py:269-335 | An audit log stays if and only if it is at most as many times 86400 seconds old as the policy of its organisation, or the default, has days. |
| `Retention.ItemsStayFor` | services/audit_service/app/main.py:276-312 | A mention or report stays if and only if it is at most as old as the days of its kind in the policy of the organisation that owns its project; without one it stays. |
| `Retention.OnePolicyMore` | services/audit_service/app/main.py:276-312 | Policies act one after the other as they act together. |
| `Retention.TotalsCountDeletedRows` | services/audit_service/app/main.py:314-343 | The totals equal the numbers of rows that disappeared. |
| `Retention.SecondPassDeletesNothing` | services/audit_service/app/main.py:269-345 | A second pass at the same time deletes nothing. |
| `Retention.OrderOfPoliciesIsIrrelevant` | services/audit_service/app/main.py:272-276 | The order in which policies are fetched does not change the tables. |
| `Retention.AgreesWithExecute` | services/audit_service/app/main.py:694-733 | For an organisation with a policy the clean-up leaves the same rows as the endpoint. |
| `Retention.DetailAgreesWithExecute` | services/audit_service/app/main.py:735-748 | ... and reports the same numbers. |
| `Webhooks.ParsePrinted` | shared/webhook.py:97-117 | Parsing a printed header gives its timestamp and signature back. |
| `Webhooks.ContentIsInjective` | shared/webhook.py:95-95 | The signed bytes determine timestamp and payload. |
| `Webhooks.SignedIsAcceptedInTime` | shared/webhook.py:94-129 | For a nonzero timestamp, what was signed is accepted if and only if the clock is within the tolerance. |
| `Webhooks.ZeroTimestampMeansNow` | shared/webhook.py:94-94 | A zero timestamp is replaced by the current time. |
| `Webhooks.AcceptanceBindsPayload` | shared/webhook.py:114-129 | If the MAC tells the contents apart, a header is accepted for its own payload only. |
| `Webhooks.AcceptanceMeans` | shared/webhook.py:114-129 | A header is accepted if and only if all its comma-separated parts are assignments, the last "t" reads as a time within the tolerance and the last "sha256" is the MAC of that time and the payload. |
| `Webhooks.PartsTell` | shared/webhook.py:115-117 | The dictionary of the parts fails exactly on a part without "=", and the last part with a key decides its value. |
| `Webhooks.SplitFindsParts` | shared/webhook.py:115-115 | Splitting at commas finds parts without commas that join to the header. |
| `Decimal.ParseStr` | shared/webhook.py:95-116 | Reading back a printed integer gives the same integer, negative ones included. |
| `Decimal.ParseSigned` | shared/webhook.py:116-116 | A leading plus sign is read. |
| `Decimal.ParsePadded` | shared/webhook.py:116-116 | Blanks around a number are ignored. |

## Left out

- HttpClients.HttpClient.ResilientRequest: one request runs at a time; requests that share a breaker are covered by the machine in `CircuitBreakers` only.
- RequestDedups.CheckIdempotency: no other writer between its two commands; interleavings are in the machine beside it.
- RequestDedups.ProceedsAreApart: the machine has no Redis errors, which let any request proceed, and nobody else writes its keys, although the collector uses the same prefix.
- CheckThenSets.AtMostNPerWindow: Redis is up and answers; a key is written before its event is published, so that a failed publication suppresses the mention for a TTL is not stated.
- IdempotencyCaches.RunsExactlyWhenExpired: only for requests that do not overlap; overlapping ones have the bound of `IdempotencyOverlaps`.
- IdempotencyCaches.IdempotencyMiddleware.Dispatch: response headers, which the first response has and a replay has not (a content type that is only in the headers counts as unnamed); an error of the DELETE of a corrupt entry; cached JSON that is not an object.
- TokenQuotas.AnyHourWithinQuota: calls run one after the other, and the wall clock does not go back.
- Pipelines.AckedIsAccountedFor: a message trimmed before its delivery is still delivered in the model, and the output logs are whole histories without trimming.
- AnalyzerService.IterationExtendsRun: an iteration as a whole extends runs of a single worker; the steps of several workers interleave in `Pipelines`.
- Collectors.DeduplicationFollowsProtocol: the loop as a whole is a path of one task; the steps of several tasks interleave in `CheckThenSets`.
- DeadLetterRuns.NothingLostExactlyWithoutRescue: no trimming of the streams by MAXLEN, which deletes old messages and letters.
- DeadLetterRuns.CopiesAccountedFor: the dead-letter stream starts empty; letters in the older flat format are restored by `DeadLetters.Restored` but have no run theorem.
- RetryingBus.EventBus.MoveToDlq: without trimming the message is always found; the fields of a dead letter other than the original message are an arbitrary flat map, and its time stamp comes from outside.
- RetryingBus.ConsumeCallReaches: the call as a whole runs alone; its steps interleave with those of others in the machine.
- UndoRedo.SimilarExactlyWhenNothingRefused: one operation per render; `UndoRedo.CapturedRunIsOnePerRender` says which other runs are covered.
- SpikeDetection.DetectSentimentSpikes: exact reals instead of floating point, the square root is given by its defining property, and the rounding of the reported numbers is left out.
- CompetitiveAnalysis.FoldEqualsDirect: exact reals; both sides share one rounding function; every mention has a score, although the column is nullable: with missing scores the folded mean weights a group's average by all its mentions and differs from the direct one.
- Retention.Service.EnforceRetentionCleanup: each organisation has at most one policy, as the schema demands, and nobody else writes the tables meanwhile.
- Webhooks.AcceptanceMeans: HMAC-SHA256 is an arbitrary function to 64 hexadecimal digits; digits outside ASCII, which `int` also reads, and its refusal of more than 4300 digits are left out.
- AuditQueues.DropsExactlyWhen: reading the token does not throw; where a browser denies storage access it would, after the queue was emptied, and the batch would be lost.
- Events.IntFieldReadsBack: raw mentions have integers and texts only; the serialised forms of booleans, dictionaries and floating-point numbers, and the flat form of an analysed event, are left out.
- The backoff delays of `consume_with_retry`, connection handling and consumer-lag reports of the event bus: no effect on the streams.
- `compute_share_of_voice`, the bucket pivot of `compute_sentiment_over_time` and the engagement comparison: the same kind of regrouping as `compare_sentiment`.
- `sign_payload` and `verify_signature` for dictionaries: they depend on the text that `json.dumps` prints.
- `gdpr_purge`, role tables, configuration defaults and score clamps: they would only add easy members.
- The enrichment and audit consumers: they ack in `finally` whatever happens.
- Collectors' HTTP and parsing code, the NLP models, FastAPI routing, JWT decoding, migrations, React rendering, the service worker, logging and health checks: foreign libraries and input/output.
