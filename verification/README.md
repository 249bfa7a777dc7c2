# Verified model of devkit-go's protocols and exact arithmetic

devkit-go is a Go toolkit for services. Under its client wrappers lie small concurrent
protocols and integer computations that its users rely on. This project models them and
proves what they guarantee, over every run, every interleaving and every input.

`dafny verify dfyconfig.toml` checks everything.

## How the model is laid out

Each file is one module, named after what it models.

- Protocols. The object the source mutates is a class whose methods are its critical
  sections; each is proved equal to a function of the old state (`Gate`, `Expire`,
  `AdmitStep`, `Release`, `Await`, `Swap`, `Recorded`, `Add`). The same functions are the
  steps of a state machine over all goroutines. What such a function decides is also said
  without it, in the source's own constants, and runs show what can be reached. An invariant
  is proved of every step, and the theorems are about every reachable state, or about every
  run. Timers, contexts and foreign calls are steps that may happen at any time, or
  parameters that may have any value.
- Sequential code with effects. Methods with the source's loops, proved against functions
  of their inputs; what the code promises is then proved of these functions. How foreign
  code behaves is a parameter, usually called `World`.
- Arithmetic. `Int64` gives Go's wrap-around, truncating division and shifts on unbounded
  integers; every computation that can wrap says so.

| file | models |
|---|---|
| ResponseRace, ResponseHeads, ResponseRuns | handler and timeout goroutines racing for one response, any nesting depth |
| HandlerVoice, WholeTimeout, EarlyAnswer, AfterReturn | what of that race reaches the wire: the handler's words, the 408, early answers, late writes |
| DrainProtocol, UnitOfWork | transaction tracking, shutdown, and one unit of work with panics |
| Redelivery, ConfirmPairing, SafeRedelivery | settling and republishing deliveries, pairing publishes with confirms, and both together |
| Scheduler, WorkerManager | overlap policies, the lifecycle, and the stop that waits for all |
| RequestGauge, PoolScraper, ShutdownOrder | telemetry conservation and ordered shutdown |
| HealthChecks | bounded fan-out |
| RetryTransport, KafkaRetry | the two retry engines |
| Money, SemanticVersions, ConventionalCommits, Releases | exact arithmetic, text forms, versioning |
| Int64, Decimal, Text, Options, Counting, Filtering | vocabulary shared by the others |

## Where the code does less than it seems to promise

Each item is a theorem that says exactly when the promise is kept, or a run that breaks it.

- The RabbitMQ backoff doubles from 100ms to 30s for the counters 0 to 36 and, by luck of
  the wrap-around, for 38, 44, 46 and 51 to 54. At every other counter from 37 on it is zero
  or negative, and the retry is immediate (`Redelivery.BackoffExact`), as it is for a counter
  below zero (`Redelivery.NegativeCountsDoNotWait`).
- A RabbitMQ retry limit of 2^31 or more is never reached, because the counter travels as an
  int32: a failing message can come back any number of times (`Redelivery.EndlessChain`).
- After a publish timeout on a channel, each later publish reads the confirm of an earlier
  message; the lag is exactly the number of timeouts so far (`ConfirmPairing.ConfirmLag`),
  and a nacked message can be reported as published (`ConfirmPairing.NackReportedAsAck`).
- A shutdown waits for the first Commit or Rollback of each transaction only. A call can be
  inside the adapter while that is closed exactly if it is not the only one issued on its
  transaction (`DrainProtocol.OverlapExactly`), and a unit of work issues more than one exactly
  if the commit does not succeed or the rollback after a function error panics
  (`UnitOfWork.UnitOfWork.Do`).
- A request goroutine that has lost the race returns while the handler is still writing
  (`AfterReturn.ReturnedTooEarly`). After that the wire can still grow exactly if some
  goroutine may write and no timeout has closed its way (`AfterReturn.WireAfterReturn`).
- A unit of work bumps one of its two counters once, unless the rollback issued by its
  recover block panics, in which case none moves (`UnitOfWork.UnitOfWork.Do`).
- So a failed delivery can be acknowledged while its republished copy is nacked, which loses
  the message; it takes an earlier timeout on the channel (`SafeRedelivery.ProcessOverChannel`,
  `SafeRedelivery.LoseMessage`).
- Without a timeout wrapper, the 500 of the recover block carries the headers the handler had
  set; under one it never does (`ResponseRuns.ForeignHeaderExactly`).
- A transaction whose Commit and Rollback calls all panic is never released: the shutdown times
  out and the adapter stays open (`DrainProtocol.AbandonedBlocksClose`).
- A Kafka message that has failed for good, without reaching the dead-letter queue, is passed
  over exactly if a later message of its partition is committed
  (`KafkaRetry.Consumer.PassedOverExactly`).
- The error of commits that do not parse depends on their order exactly if their errors differ
  (`Releases.OrderIrrelevantExactly`).
- A Kafka configuration with no retries never calls the handler and dead-letters and commits
  every message (`KafkaRetry.ZeroRetriesSkipTheHandler`). The record of a panicking message
  claims MaxRetries attempts with a history of one (`KafkaRetry.Consumer.ProcessMessage`).
- The Kafka backoffs are min(base * 2^(i-1), max) for good exactly if 0 <= base <= max and
  either the base is zero or twice the maximum fits int64 (`KafkaRetry.BackoffExact`).
- With the greatest maxBodySize the read limit wraps, and a retried request is sent with an
  empty body (`RetryTransport.BufferBody`).
- `Money.Multiply` by zero is a division by zero (`Money.MultiplyExact`).
- `Percentage.Multiply` by a negative factor fails for all but zero per cent, and for that
  too unless the factor is below -2^53 (`Money.MultiplyPercentageExact`); a multiplication by
  minus one is always refused (`Money.MinusOneRefused`).
- A version bump whose number is the int64 maximum wraps, and the candidate is then rejected
  by its order check (`Releases.ResolvedIsAdmitted`).
- A wait statistic more than 2^63 below its running maximum wraps the scraper's difference, and
  what it has added then differs from the maximum for good (`PoolScraper.Run`).

## Model

| member | source | states |
|---|---|---|
| ResponseRace.TimeoutWriter.WriteHeader | pkg/http_server/chi_server/middleware.go:354-365 | The section under the mutex is the gate of the protocol for a status line: it passes only an unwritten and not timed-out response, and then flushes the private headers into the map below. |
| ResponseRace.TimeoutWriter.Write | pkg/http_server/chi_server/middleware.go:367-381 | The same for bytes: refused after a timeout, flushing headers only for the first write. |
| ResponseRace.TimeoutWriter.FlushHeaders | pkg/http_server/chi_server/middleware.go:385-390 | The range loop overlays the private map on the one below, whatever the iteration order. |
| ResponseRace.TimeoutWriter.TimeOut | pkg/http_server/chi_server/middleware.go:282-297 | The timeout goroutine wins exactly against an unwritten response, and a win closes the writer for the handler. |
| ResponseRace.StepPreserves | pkg/http_server/chi_server/middleware.go:494-544 | Every step of any goroutine at any nesting depth keeps the invariant: whose headers and bytes may be where, who may still write, and in which order goroutines start and die. |
| ResponseHeads.StepKeepsHeads | pkg/http_server/chi_server/middleware.go:282-297 | Every step keeps what makes a 408 come whole: its head meets only writers nobody has taken, and stops only at the wire or at a wrapper that has timed out. |
| ResponseRuns.SingleAuthor | pkg/http_server/chi_server/middleware.go:323-381 | In every reachable state the whole response comes from one author, with at most one status line and nothing before it. |
| ResponseRuns.StatusByAuthor | pkg/http_server/chi_server/middleware.go:34-77 | A timeout wrapper's status is 408 and the recover block's is 500; if the handler wrote anything, everything on the wire is the handler's, so neither is added. |
| HandlerVoice.HandlerSaidIt | pkg/http_server/chi_server/middleware.go:354-381 | In every run, whatever stands on the wire in the handler's name, its status line with that status included, the handler was about to write at an earlier moment. |
| HandlerVoice.HandlerHeard | pkg/http_server/common/response_writer.go:31-39 | At every depth, for every status and header key, a reachable state whose wire is exactly that status line of the handler, over exactly that header of the handler. |
| ResponseRuns.HeadersOfAuthor | pkg/http_server/chi_server/middleware.go:346-390 | Once a response under a timeout wrapper has begun, the wire's header map holds its author's headers only: nothing of a timed-out handler leaks. |
| ResponseRuns.ForeignHeaderExactly | pkg/http_server/chi_server/middleware.go:63-74 | At a given depth a response can begin over somebody else's header exactly if there is no timeout wrapper at all. |
| ResponseRuns.HeaderUnder500 | pkg/http_server/chi_server/middleware.go:36-74 | For every header key but the content type, a reachable state in which the recover block's 500 carries the handler's header. |
| EarlyAnswer.EarlyAnswerCovered | pkg/http_server/chi_server/middleware.go:262-301 | When code above a wrapper answers by itself, the state without the wrappers further in is reachable with that code as the handler, so everything proved of handlers holds for it. |
| ResponseRuns.PrivateHeaders | pkg/http_server/chi_server/middleware.go:323-330 | No header map is ever written by two goroutines, at any depth and at any two moments of a run. |
| ResponseRuns.WireGrows | pkg/http_server/common/response_writer.go:31-56 | Along every run the wire is only appended to, so the author of a response never changes. |
| ResponseRuns.TimeoutAnswered | pkg/http_server/chi_server/middleware.go:262-301 | For a timed-out wrapper with none outside it timed out, at any depth: once its goroutine is past the head, the wire begins with its 408 status line and holds nothing but its events. |
| WholeTimeout.TimeoutWhole | pkg/http_server/chi_server/middleware.go:282-300 | Once the outermost wrapper has timed out and is done, the response is exactly the 408 and its body, under the content type that wrapper has set. |
| ResponseRuns.PanicAnswered | pkg/http_server/chi_server/middleware.go:303-321 | When the recover block is done the client has an answer, all goroutines below have ended, and an unwritten response is exactly the 500 and its body. |
| WholeTimeout.RecoveredTyped | pkg/http_server/chi_server/middleware.go:63-74 | The 500 of the recover block goes out with a content type, under a timeout wrapper its own. |
| ResponseRuns.NoDeadlock | pkg/http_server/common/response_writer.go:47-56 | Locks held across nested writes never block each other in a circle: some write can always go on. |
| ResponseRuns.WritesNeverWait | pkg/http_server/chi_server/middleware.go:354-381 | In every reachable state no write waits for a lock another write holds. |
| AfterReturn.WireAfterReturn | pkg/http_server/chi_server/middleware.go:282-300 | Once the request goroutine has returned, the wire can still grow exactly if some goroutine may write and no timeout has closed its way to the wire. |
| AfterReturn.ReturnedTooEarly | pkg/http_server/chi_server/middleware.go:295-298 | A reachable state in which the request goroutine has returned and the handler, whose response has begun, is still at work. |
| DrainProtocol.TrackedTx.Finish | pkg/database/manager/manager.go:196-212 | The first Commit or Rollback that returns, with or without an error, releases the wait group, and no later one does; a panic releases nothing. |
| DrainProtocol.TrackedTx.Commit | pkg/database/manager/manager.go:202-206 | One more commit is issued on the transaction, with that effect. |
| DrainProtocol.TrackedTx.Rollback | pkg/database/manager/manager.go:208-212 | One more rollback is issued on the transaction, with that effect. |
| DrainProtocol.DbManager.BeginTx | pkg/database/manager/manager.go:174-194 | Refused after closing and undone when the adapter fails, both leaving the count as it was; otherwise a fresh transaction counted once. |
| DrainProtocol.DbManager.MarkClosed | pkg/database/manager/manager.go:226-228 | The first thing a shutdown does closes the manager and leaves the count alone. |
| DrainProtocol.StepPreserves | pkg/database/manager/manager.go:174-267 | Every step keeps the exact count and the order of shutdown, and once closed never raises the count. |
| DrainProtocol.CountIsExact | pkg/database/manager/manager.go:180-193 | In every reachable state the wait group counts begins in flight plus transactions none of whose Commit or Rollback calls has returned; it is never negative. |
| DrainProtocol.CountNeverRises | pkg/database/manager/manager.go:226-241 | From the moment the flag is set, the count never rises for the rest of the run. |
| DrainProtocol.CloseIsSafe | pkg/database/manager/manager.go:243-257 | The adapter is closed at most once, never after a drain timeout, and only with the manager closed, no begin in flight and every transaction released. |
| DrainProtocol.ShutdownAgrees | pkg/database/manager/manager.go:224-267 | All Shutdown calls return the same error, the timeout error after a drain timeout. |
| DrainProtocol.ResultIsCloses | pkg/database/manager/manager.go:254-264 | A Shutdown call that reports anything but the timeout error has waited for adapter.Close and reports what that returned. |
| DrainProtocol.ResultOfClose | pkg/database/manager/manager.go:259-266 | For every result of adapter.Close, a reachable state in which Shutdown has returned just that. |
| DrainProtocol.AbandonedBlocksClose | pkg/database/manager/manager.go:202-245 | A transaction on which nothing has been issued, or every call has panicked, keeps the adapter open, and a shutdown can only return the timeout error. |
| DrainProtocol.LoneCallIsOver | pkg/database/manager/manager.go:238-257 | A transaction with at most one call has none inside the adapter, nor before the once guard, when that is closed. |
| DrainProtocol.OverlapExactly | pkg/database/manager/manager.go:202-212 | There is a reachable state with the adapter being closed over a call of a transaction with n calls exactly if n is at least two. |
| DrainProtocol.LateRollbackOverlapsClose | pkg/database/manager/manager.go:208-257 | For every n from two on, a reachable state in which the adapter is being closed with all but the first of n calls inside it. |
| UnitOfWork.ReentrancyGuard.Enter | pkg/database/uow/uow.go:180-194 | A goroutine enters exactly if it is not inside already, and is inside afterwards. |
| UnitOfWork.ReentrancyGuard.Leave | pkg/database/uow/uow.go:196-203 | Removes this goroutine and no other. |
| UnitOfWork.UnitOfWork.Do | pkg/database/uow/uow.go:56-149 | For every mix of outcomes of function, commit and rollbacks, and any nested calls: which value, error or panic the call ends with, how far each counter and the wait group move, and how many Commit and Rollback calls are issued, case by case; the reentrancy set is restored, exactly one counter moves once unless the recovery itself panics, and the wait group is restored unless no Commit or Rollback ever returned. |
| UnitOfWork.UnitOfWork.Settle | pkg/database/uow/uow.go:120-149 | The part after the function: the value, the function's error, the commit's error or the panic it ends with, when the transaction is released, and how many commits and rollbacks were issued on it. |
| UnitOfWork.UnitOfWork.RunTx | pkg/database/uow/uow.go:93-131 | The deferred recover block adds its rollback and its counter exactly on a panic. |
| UnitOfWork.UnitOfWork.CallFn | pkg/database/uow/uow.go:59-66 | Every unit of work the function starts on the same goroutine is refused as nested and changes nothing. |
| Redelivery.Consumer.ProcessMessage | pkg/messaging/rabbitmq/consumer.go:316-393 | One settlement per delivery without autoAck and none with it, panics included; a failed delivery is acked exactly if its header value, of any of the three integer types or zero without one, is below the limit and each step of the republication succeeds, and then the copy carries that value plus one in 32 bits and is otherwise the same. |
| Redelivery.Consumer.RegisterHandler | pkg/messaging/rabbitmq/consumer.go:110-120 | Replaces what is registered under one key, also by a nil handler. |
| Redelivery.Consumer.FindHandler | pkg/messaging/rabbitmq/consumer.go:411-424 | The exact key wins over the wildcard even with a nil handler, which leaves the message without one. |
| Redelivery.Consumer.HandleError | pkg/messaging/rabbitmq/consumer.go:455-475 | At or above the limit the delivery is dead-lettered; below it, it is acked exactly if the copy went out. |
| Redelivery.Consumer.Requeue | pkg/messaging/rabbitmq/consumer.go:497-590 | The timer is set to the backoff of the counter; after it, each way a republication can fail dead-letters the delivery and publishes nothing. |
| Redelivery.Bumped | pkg/messaging/rabbitmq/consumer.go:525-541 | The counter read back from a republished copy is one more, through the int32 header. |
| Redelivery.RetryCountCarried | pkg/messaging/rabbitmq/consumer.go:611-626 | The counter is the header's value for each of the three integer types, and zero for a missing header or any other type. |
| Redelivery.ChainBound | pkg/messaging/rabbitmq/consumer.go:455-475 | With a limit below 2^31, a message is delivered at most as often as its starting counter r0 leaves, limit - r0 + 1 within 32 bits, always with the same body and routing key. |
| Redelivery.Deliveries | pkg/messaging/rabbitmq/consumer.go:611-626 | That number never exceeds limit - r0 + 1, or one above the limit, and equals it for counters within 32 bits. |
| Redelivery.LongestChain | pkg/messaging/rabbitmq/consumer.go:455-475 | The bound is attained from every starting counter. |
| Redelivery.FreshBound | pkg/messaging/rabbitmq/consumer.go:455-475 | A message that starts without the header is delivered at most max(0, limit) + 1 times for a limit below 2^31, and its copies carry 1, 2, 3 and so on as int32. |
| Redelivery.FreshLongest | pkg/messaging/rabbitmq/consumer.go:465-474 | That number is attained for every such message and limit. |
| Redelivery.EndlessChain | pkg/messaging/rabbitmq/consumer.go:527 | With a limit of 2^31 or more there are chains of every length from every counter below the limit. |
| Redelivery.BackoffExact | pkg/messaging/rabbitmq/consumer.go:592-605 | For every counter from zero on: the int64 computation equals min(100ms * 2^r, 30s) exactly up to 36 and at seven later counters, and is zero or negative otherwise. |
| Redelivery.DoublingMonotone | pkg/messaging/rabbitmq/consumer.go:593-604 | The intended backoff never falls as the counter grows. |
| ConfirmPairing.PublisherChannel.PublishWithConfirm | pkg/messaging/rabbitmq/channel_pool.go:243-272 | Each of the five answers exactly when: acked if the oldest unread verdict is an ack and the context has not won, timed out if the message went out and the context won or an open channel had nothing to read, and so on; each call reads at most the oldest verdict, and none if it fails early or times out. |
| ConfirmPairing.StepPreserves | pkg/messaging/rabbitmq/channel_pool.go:248-272 | Published messages are accounted for, one by one, by verdicts read, timeouts, cut-off calls and the caller now waiting. |
| ConfirmPairing.ConfirmLag | pkg/messaging/rabbitmq/channel_pool.go:263-271 | The confirm a call reads is its own message's exactly if no call has timed out before it, and otherwise lags by the number of timeouts. |
| ConfirmPairing.AnswerIsOwn | pkg/messaging/rabbitmq/channel_pool.go:263-268 | Before the first timeout, success means this very message was acked, and a reported nack on a live channel was this message's. |
| ConfirmPairing.UnreadIsTimeout | pkg/messaging/rabbitmq/channel_pool.go:263-271 | In every run a call that read no confirm reports a timeout, or a failed confirm on a channel that was shut down, and never success. |
| ConfirmPairing.UnreadBounded | pkg/messaging/rabbitmq/channel_pool.go:74-79 | Between calls the unread confirms number at most the timeouts so far. |
| ConfirmPairing.FalseSuccessExactly | pkg/messaging/rabbitmq/channel_pool.go:263-271 | A call with n timeouts before it can report success for a message the broker has nacked exactly if n is not zero. |
| ConfirmPairing.NackReportedAsAck | pkg/messaging/rabbitmq/channel_pool.go:269-271 | For every n from one on, a reachable state in which the call after n timeouts has done so. |
| SafeRedelivery.ProcessOverChannel | pkg/messaging/rabbitmq/consumer.go:565-590 | A failed delivery is acknowledged only if its republished copy is the one the broker has acked, unless an earlier call on that channel timed out. |
| SafeRedelivery.LoseMessage | pkg/messaging/rabbitmq/channel_pool.go:263-271 | After one timeout on the channel, a failed delivery acknowledged with its copy nacked: the message is lost. |
| Scheduler.JobList.Register | pkg/worker/job/scheduler.go:52-71 | Appends the job, unless the scheduler has started or the schedule is invalid. |
| Scheduler.JobList.Snapshot | pkg/worker/job/scheduler.go:73-78 | Start works on a copy of the jobs, and no job is registered after that. |
| Scheduler.AtomicBool.CompareAndSwap | pkg/worker/job/scheduler.go:99-101 | The flag is taken exactly if it was free. |
| Scheduler.FireExclusive | pkg/worker/job/scheduler.go:98-103 | The fired function runs its job exactly if the flag was free, and leaves the flag as it found it. |
| Scheduler.StepPreserves | pkg/worker/job/scheduler.go:80-120 | Every step of the cron loop and of any fired function keeps the flags and the wait group exact. |
| Scheduler.NoOverlap | pkg/worker/job/scheduler.go:97-103 | Along every run a job that does not allow overlap has at most one execution in flight, and its flag is taken exactly while an invocation holds it. |
| Scheduler.FiredDecides | pkg/worker/job/scheduler.go:83-104 | In every run a fired function of a job with policy 2 starts the job, and one of any other policy skips it exactly if another invocation of that job still holds the flag. |
| Scheduler.OverlapAllowed | pkg/worker/job/scheduler.go:84-88 | For every job with policy 2 and every n, a run with n executions of it in flight. |
| Scheduler.StopsWhenCancelled | pkg/worker/job/scheduler.go:115-119 | Once the context has ended and as long as jobs end, Start can always go on until it returns, without another firing. |
| Scheduler.FinishedMeansEnded | pkg/worker/job/scheduler.go:115-119 | When Start returns, every invocation has ended, detached ones included. |
| WorkerManager.ValidateNames | pkg/worker/manager.go:153-168 | Accepts exactly distinct names over jobs and consumers, and otherwise reports the first repeated one. |
| WorkerManager.LifeCell.CompareAndSwap | pkg/worker/manager.go:54 | The state word changes exactly if it held the expected value. |
| WorkerManager.StepPreserves | pkg/worker/manager.go:50-151 | Every step of Start, Stop, the scheduler, the consumers and their Stop calls keeps the invariant. |
| WorkerManager.LifeMoves | pkg/worker/manager.go:58-72 | The state goes idle, running, stopping, stopped, and back from running to idle only in a Start that failed with nothing launched. |
| WorkerManager.StopFindsCancel | pkg/worker/manager.go:98-108 | The Stop that wins finds the cancel function set and all goroutines launched. |
| WorkerManager.StartLaunchesAll | pkg/worker/manager.go:74-95 | For any jobs and any number of consumers, a reachable state in which Start has left the scheduler and every consumer at work. |
| WorkerManager.ErrorNeverBlocks | pkg/worker/manager.go:113-124 | A consumer's stop error always finds room in a channel that is still open. |
| WorkerManager.StopWaitsForAll | pkg/worker/manager.go:126-151 | When the winning Stop returns, the scheduler, every job execution, every consumer and every stop call have ended. |
| WorkerManager.StopNeverStuck | pkg/worker/manager.go:106-141 | As long as jobs, consumers and their Stop calls end, a Stop that has won can always go on until it returns, with its deadline over or not. |
| RequestGauge.RequestScope.constructor | pkg/observability/otel/http.go:87-112 | A started request is counted once, under its verb and its route, an empty one as "unknown". |
| RequestGauge.RequestScope.SetRoute | pkg/observability/otel/http.go:130-150 | An open request takes the trimmed route and its place in the gauge moves with it; an ended or blank one changes nothing. |
| RequestGauge.RequestScope.OnError | pkg/observability/otel/http.go:152-170 | An error is remembered exactly if the request is still open. |
| RequestGauge.RequestScope.Finish | pkg/observability/otel/http.go:172-204 | The first call takes the request off its label, counts it, and counts an error exactly if one was remembered or the status is 500 or more; later calls do nothing. |
| RequestGauge.GaugeExact | pkg/observability/otel/http.go:87-204 | For any number of scopes and any interleaving of their single metric calls, each label reads the number of requests now counted there. |
| RequestGauge.GaugeAtRest | pkg/observability/otel/http.go:87-204 | While no call is under way each label reads the number of open requests that carry it. |
| RequestGauge.AllFinished | pkg/observability/otel/http.go:190-199 | Once all have finished every label reads zero, each request has been counted once and each failed one is one error, those with an error remembered before their Finish among them. |
| RequestGauge.VerdictStable | pkg/observability/otel/http.go:175-182 | After the first Finish nothing changes a request's label or verdict. |
| PoolScraper.Run | pkg/database/internal/pool/metrics.go:77-111 | Over any samples: open and idle differences sum to the latest sample; the wait count and the nanoseconds added equal their running maxima exactly if no difference of theirs wrapped, and for fields that are never negative are the greatest sample; and the milliseconds always fall short of those nanoseconds by less than one per addition. |
| PoolScraper.Observe | pkg/database/internal/pool/metrics.go:86-110 | One tick keeps all of that. |
| PoolScraper.NonNegativeNeverWraps | pkg/database/internal/pool/metrics.go:100-110 | Statistics that are never negative do not wrap. |
| ShutdownOrder.ShutdownCoordinator.Register | pkg/observability/otel/shutdown.go:33-43 | Appends a named step unless shutdown has begun. |
| ShutdownOrder.ShutdownCoordinator.OrderedSteps | pkg/observability/otel/shutdown.go:110-136 | The map-based loops compute the stable sort by first position in the flush order, unlisted last, for repeated names in either list. |
| ShutdownOrder.ShutdownCoordinator.BeginShutdown | pkg/observability/otel/shutdown.go:59-74 | Only the first caller gets the plan, and it is the stable sort of what was registered by then. |
| ShutdownOrder.StableSortUnique | pkg/observability/otel/shutdown.go:121-135 | Being that stable sort determines the sequence. |
| ShutdownOrder.StableSortPermutes | pkg/observability/otel/shutdown.go:116-135 | A stable sort by rank loses and repeats no step. |
| ShutdownOrder.Execute | pkg/observability/otel/shutdown.go:83-108 | All flushes in order, then all shutdowns in order, whatever fails, and the joined error lists exactly the failures. |
| ShutdownOrder.FlushesInOrder | pkg/observability/otel/shutdown.go:86-93 | The flushes are those of the steps that have one, in the order of the plan. |
| ShutdownOrder.ShutsInOrder | pkg/observability/otel/shutdown.go:95-102 | The shutdowns are those of the steps that have one, in the order of the plan. |
| ShutdownOrder.FlushCount | pkg/observability/otel/shutdown.go:86-93 | Each step is flushed as often as it is in the plan, if it can be. |
| ShutdownOrder.ShutCount | pkg/observability/otel/shutdown.go:95-102 | Each step is shut down as often as it is in the plan, if it can be. |
| ShutdownOrder.StepPreserves | pkg/observability/otel/shutdown.go:45-81 | Any interleaving of callers and registrations keeps what has been called a beginning of the one full sequence. |
| ShutdownOrder.ShutdownOnce | pkg/observability/otel/shutdown.go:45-57 | Whoever returns finds each registered step flushed and shut down once per registration, flushes first, in stable order, and gets the error of the one execution. |
| ShutdownOrder.OneExecutor | pkg/observability/otel/shutdown.go:61-73 | No two calls ever run steps at the same time. |
| HealthChecks.Results.Record | pkg/http_server/common/health.go:91-105 | The section under the mutex stores one result and raises the flag exactly for an unhealthy one. |
| HealthChecks.StepPreserves | pkg/http_server/common/health.go:66-107 | Every step keeps slots, group and results exact. |
| HealthChecks.BoundedConcurrency | pkg/http_server/common/health.go:58-86 | In every interleaving no more check functions run than maxConcurrent. |
| HealthChecks.SlotsUsed | pkg/http_server/common/health.go:58-75 | For any names and slots, a reachable state with as many check functions running as there are slots and checks. |
| HealthChecks.ResultsComplete | pkg/http_server/common/health.go:109-111 | At the return the keys are the check names, each with its own result, and the flag is set exactly if some result is unhealthy. |
| HealthChecks.ReportedAsJudged | pkg/http_server/common/health.go:72-105 | In every run a check that gave up is reported unhealthy with the text "timeout", one that returned an error unhealthy with that error, and one that returned none healthy. |
| HealthChecks.EachJudged | pkg/http_server/common/health.go:72-92 | Every reported check has returned or given up before, and it gave up only after the context had ended. |
| HealthChecks.NeverStuck | pkg/http_server/common/health.go:72-86 | With a slot, or once the context has ended, some goroutine can always go on until the call returns. |
| RetryTransport.BuildConfig | pkg/httpclient/request_options.go:25-33 | The last option with a positive count decides, and without one retries stay off. |
| RetryTransport.Validate | pkg/httpclient/request_options.go:41-55 | Accepts exactly at most 10 attempts, a backoff from 0 to 10s, and a policy, and otherwise names the first of them that fails. |
| RetryTransport.DelayBounds | pkg/httpclient/transport_retry.go:101-114 | For an accepted configuration the product never overflows and the delays the draws give are exactly those in [0, min(backoff * 2^(attempt-1), 30s)). |
| RetryTransport.BufferBody | pkg/httpclient/transport_retry.go:137-159 | The body comes through whole or the first thing wrong is reported, for every maximum but the int64 maximum, for which it comes out empty. |
| RetryTransport.RoundTrip | pkg/httpclient/transport_retry.go:52-99 | At most max(1, maxAttempts) calls, all with one body, the request's own unless the limit wraps; retried exactly as policy, limit and context say; and the whole sequence of calls, drains, hooks and sleeps, event by event. |
| RetryTransport.PrepareRetry | pkg/httpclient/transport_retry.go:82-95 | Between two attempts the response is drained before anything else, also when the context has ended; only then come the hook and the sleep. |
| RetryTransport.LogMembers | pkg/httpclient/transport_retry.go:65-98 | What occurs in that sequence is exactly the calls made, the drains of responses not returned, and the hooks and sleeps of the rounds completed. |
| RetryTransport.LogInTurn | pkg/httpclient/transport_retry.go:72-97 | It occurs attempt after attempt, and in each attempt call, drain, hook, sleep, each once. |
| RetryTransport.CalledOnce | pkg/httpclient/transport_retry.go:65-98 | Each attempt up to the last is called once, in order and with the one body. |
| RetryTransport.SleptOnce | pkg/httpclient/transport_retry.go:93-97 | The drawn delay is slept once after each attempt that is followed by another or cut off during the sleep. |
| RetryTransport.DrainedOnce | pkg/httpclient/transport_retry.go:161-168 | Each response with a body that is not returned is drained exactly once, and the returned one never. |
| RetryTransport.HooksInOrder | pkg/httpclient/transport_retry.go:56-91 | The hook reports 0 and then exactly the retried attempts in order, each with its own reason. |
| KafkaRetry.NextBackoffExact | pkg/messaging/kafka/client.go:391-397 | One doubling is min(2 * current, max) exactly if it does not leave int64. |
| KafkaRetry.BackoffExact | pkg/messaging/kafka/consumer_dlq.go:28-71 | For every int64 base and maximum: all backoffs are min(base * 2^(i-1), max) exactly if 0 <= base <= max and the base is zero or twice the maximum fits int64. |
| KafkaRetry.BackoffClosedForm | pkg/messaging/kafka/consumer_dlq.go:67-71 | The closed form of the i-th backoff under that condition. |
| KafkaRetry.Consumer.GetOrCreateRetryState | pkg/messaging/kafka/consumer_dlq.go:128-147 | Returns the stored state if there is one, else stores a fresh one. |
| KafkaRetry.Consumer.HandleMessageWithRetry | pkg/messaging/kafka/consumer_dlq.go:20-75 | At most max(0, MaxRetries) runs, exactly that many if every attempt fails uninterrupted, and k for a first success at attempt k; done exactly if an attempt succeeded or the dead-letter hand-off of an exhausted message did; the record counts and numbers just those failures; no state is left behind. |
| KafkaRetry.Consumer.RetryLoop | pkg/messaging/kafka/consumer_dlq.go:27-74 | The loop itself, over every way attempts, sleeps and the context may end. |
| KafkaRetry.HistoryIntended | pkg/messaging/kafka/consumer_dlq.go:44-71 | In a good configuration the i-th failure of the record carries min(base * 2^(i-1), max). |
| KafkaRetry.Consumer.SendToDlq | pkg/messaging/kafka/consumer_dlq.go:77-126 | Without a strategy the message is lost with an error; otherwise the record is a copy of the state and the hand-off decides. |
| KafkaRetry.Consumer.ProcessWithDlq | pkg/messaging/kafka/new_consumer.go:396-420 | A commit is asked for exactly if the context lasts and every handler's message is safe; the first panic ends the loop. |
| KafkaRetry.Consumer.ProcessWithoutDlq | pkg/messaging/kafka/new_consumer.go:422-469 | The handlers are called once each and in order until the context ends or one panics, and a commit is asked for exactly if all are called and succeed. |
| KafkaRetry.Consumer.ProcessMessage | pkg/messaging/kafka/new_consumer.go:301-394 | Exactly when a message is committed and when a panic gets a record, which claims MaxRetries attempts with one history entry; never both. |
| KafkaRetry.Consumer.ProcessPartition | pkg/messaging/kafka/new_consumer.go:287-311 | A worker's messages of one partition in turn: the partition is read on from behind the last message that is committed. |
| KafkaRetry.Consumer.PassedOverExactly | pkg/messaging/kafka/new_consumer.go:406-419 | A message that is neither committed nor dead-lettered never comes back exactly if a later one is committed. |
| KafkaRetry.Consumer.NonePassedOver | pkg/messaging/kafka/new_consumer.go:412-419 | None is passed over exactly if every message before a committed one is committed or dead-lettered. |
| KafkaRetry.ZeroRetriesSkipTheHandler | pkg/messaging/kafka/consumer_dlq.go:30-74 | Without retries a message is safe exactly if the dead-letter queue takes it, whatever the handler would do. |
| KafkaRetry.SafeExact | pkg/messaging/kafka/consumer_dlq.go:30-74 | A message is safe exactly if some attempt below MaxRetries succeeds after failures only, or all fail and an enabled dead-letter strategy takes the record. |
| KafkaRetry.PanicsExact | pkg/messaging/kafka/consumer_dlq.go:30-41 | A handler's turn panics exactly if some attempt below MaxRetries panics after failures only. |
| KafkaRetry.SafeMeansCalled | pkg/messaging/kafka/consumer_dlq.go:37-41 | With at least one retry a safe message has had its handler called. |
| Money.NewMoney | pkg/vos/money.go:47-61 | Succeeds exactly for a known currency and an amount within 2^53, and says which of the two is wrong, the currency first. |
| Money.AddExact | pkg/vos/money.go:135-150 | Within 2^53, addition succeeds exactly when the true sum is within 2^53 and the currencies agree, and returns it. |
| Money.SubtractExact | pkg/vos/money.go:155-170 | The same for subtraction, which is the addition of the negated amount. |
| Money.AddThenSubtract | pkg/vos/money.go:135-170 | Subtraction undoes addition. |
| Money.NegateExact | pkg/vos/money.go:270-286 | Within 2^53 negation is exact and undoes itself, and the absolute value is that of the negated amount. |
| Money.MultiplyExact | pkg/vos/money.go:174-197 | For every factor but zero, the least int64 included, success exactly when the true product is within 2^53, and then that product; zero panics. |
| Money.MultiplyThenDivide | pkg/vos/money.go:174-211 | Division undoes multiplication. |
| Money.DivideExact | pkg/vos/money.go:202-211 | Division fails for zero alone, and otherwise gives the quotient nearest to the true one that is no larger in size. |
| Money.AddPercentageExact | pkg/vos/percentage.go:114-134 | Percentage sums and differences succeed exactly when they fit, and are exact. |
| Money.MultiplyPercentageExact | pkg/vos/percentage.go:138-145 | What is returned is exact; factors from zero on succeed exactly when the product fits, and negative ones only for zero per cent with a factor below -2^53. |
| Money.MinusOneRefused | pkg/vos/percentage.go:140-142 | Every percentage times minus one is refused although it fits. |
| Money.ApplyExact | pkg/vos/percentage.go:167-201 | The product over 100000 truncated toward zero; overflow exactly when the product's size exceeds the int64 maximum; the constructor's range check never fires. |
| Money.ScanValid | pkg/vos/money.go:350-405 | Whatever is scanned is a valid amount. |
| Money.ScanKinds | pkg/vos/money.go:350-405 | Null and a type that is neither text nor a number are refused, each with its own error, and a bare int64 is an amount in BRL. |
| Money.ScanOfText | pkg/vos/money.go:362-404 | A number, a colon and a currency code in capitals or small letters are read as that amount. |
| Money.ScanExact | pkg/vos/money.go:371-404 | Every accepted text is a number, a colon and a currency code. |
| Money.ScanOfValue | pkg/vos/money.go:342-404 | Storing and scanning gives an amount back exactly if it is valid. |
| Money.ScanNormalises | pkg/vos/money.go:382-404 | Scanning what an accepted value is stored as gives the same amount. |
| Decimal.ParseOfFormat | pkg/vos/money.go:345-391 | The text `%d` gives for any int64 is parsed back to it. |
| Decimal.ParseIntExact | pkg/vos/money.go:376-391 | What is accepted is an optional sign and digits whose value fits int64, and that value is returned. |
| Decimal.NumberOfConcat | pkg/vos/money.go:345-391 | Each digit counts with its power of ten. |
| SemanticVersions.GroupsExact | scripts/ci_release/domain/semantic_version.go:9 | The groups found are the groups of the pattern, and a match is unique. |
| SemanticVersions.ParseExact | scripts/ci_release/domain/semantic_version.go:25-51 | Accepts exactly the pattern with three numbers that fit int64. |
| SemanticVersions.ParseOfString | scripts/ci_release/domain/semantic_version.go:25-59 | Printing then parsing is the identity exactly for versions without a negative number. |
| SemanticVersions.StringOfParse | scripts/ci_release/domain/semantic_version.go:57-59 | Parsing then printing is the identity on every accepted text. |
| SemanticVersions.CompareIsTotalOrder | scripts/ci_release/domain/semantic_version.go:61-71 | Zero exactly on equal versions, antisymmetric and transitive. |
| SemanticVersions.CompareLexicographic | scripts/ci_release/domain/semantic_version.go:61-71 | Below exactly if the first number that differs is below. |
| SemanticVersions.BumpAbove | scripts/ci_release/domain/semantic_version.go:73-84 | A bump is above its base exactly if the bumped number is below the int64 maximum. |
| SemanticVersions.BumpMonotone | scripts/ci_release/domain/semantic_version.go:73-95 | The bump of higher rank is the greater version. |
| SemanticVersions.BumpLeast | scripts/ci_release/domain/semantic_version.go:73-84 | Below the int64 maximum a bump is the least version that raises its number and keeps those before it, so the later ones start from zero. |
| SemanticVersions.LeastUnique | scripts/ci_release/domain/semantic_version.go:73-84 | There is one such version only. |
| ConventionalCommits.ParseSubjectExact | scripts/ci_release/domain/conventional_commit.go:9 | The parser accepts exactly the subjects of the pattern and finds their one reading. |
| ConventionalCommits.ParseOfRender | scripts/ci_release/domain/conventional_commit.go:26-43 | Rendering a well-formed subject and parsing it gives it back. |
| Text.TrimmedBlanks | scripts/ci_release/domain/conventional_commit.go:113-121 | Trimming cuts off blanks only, and at the ends only. |
| Releases.ResolveNextVersion | scripts/ci_release/domain/conventional_commit.go:80-111 | v0.1.0 without a base; the error of the first commit that does not parse; else the base bumped by the highest increment any commit asks for. |
| Releases.HighestUnique | scripts/ci_release/domain/conventional_commit.go:132-143 | The highest increment is unique. |
| Releases.ResolvedIsGreatest | scripts/ci_release/domain/conventional_commit.go:85-110 | The resolved version is one of the commits' own bumps and the greatest of them. |
| Releases.ResolvedIsLeast | scripts/ci_release/domain/conventional_commit.go:80-111 | For commits that all parse and numbers below the int64 maximum: a breaking commit leads to the least version of a greater major number, else a feature to the least of a greater minor number, else a fix to the least with a greater patch number, and otherwise there is no version. |
| Releases.ClassifyExact | scripts/ci_release/domain/conventional_commit.go:26-74 | Which kinds, marks and footers ask for a major, minor, patch or no release, and which kinds are refused. |
| Releases.UnparsedIsInvalid | scripts/ci_release/domain/conventional_commit.go:26-43 | A subject outside the pattern, and no other commit, is an invalid one. |
| Releases.OrderIrrelevant | scripts/ci_release/domain/conventional_commit.go:88-104 | Permuting commits that all parse does not change the highest increment. |
| Releases.OrderIrrelevantExactly | scripts/ci_release/domain/conventional_commit.go:80-111 | The answer is the same for every order of the commits exactly if there is no base or all commits that do not parse have the same error. |
| Releases.FailedGateNames | scripts/ci_release/domain/release_candidate.go:79-96 | The result holds exactly the gates that have not passed, each named by its own flag, in the fixed order and so each once. |
| Releases.SectionMatches | scripts/ci_release/domain/release_candidate.go:41-65 | A section made for a version is unique, not blank and of that version. |
| Releases.SectionExact | scripts/ci_release/domain/release_candidate.go:41-65 | Which headings, bodies and counts make a section and what it holds; more than one occurrence is ambiguous. |
| Releases.RejectionExact | scripts/ci_release/domain/release_candidate.go:98-140 | Each refusal of a candidate exactly when, in the source's order, foreign notes and a first version other than v0.1.0 included; and admission exactly otherwise. |
| Releases.ResolvedIsAdmitted | scripts/ci_release/domain/release_candidate.go:98-140 | A candidate for the resolved version with its own section is admitted exactly if branch, gates and tag allow it and, with a base, the bumped number is below the int64 maximum. |

## Left out

- Network, broker, SQL driver, cron, OpenTelemetry and chi internals: they are callees that may answer anything their contract allows. cron's stop completes only when no fired function is running; the broker confirms in publish order.
- Real time: timers and contexts are steps that may happen at any moment, so nothing is said about how long anything takes.
- Floating point: `NewMoneyFromFloat`, `NewMoneyFromString`, the JSON forms and the float64 case of `Scan` are lossy near 2^53 and have no exact property.
- Connection handling: pool creation, reconnects and Kafka's client are a lookup that succeeds or fails.
- Logging, spans, histograms, option setters, the payload of problem responses and security headers: no property to prove.
- `pkg/nullable`, the nullable types of `pkg/vos`, `pkg/linq`, `pkg/events`, `pkg/encrypt`: their properties are easier than the ones here.
- ResponseRace.StepPreserves: a middleware that answers by itself is covered as the handler of a run with fewer wrappers, but headers that one sets before it calls on are not modelled, and the handler is assumed to write from its own goroutine only; the cleanup window is allowed to every wrapper, although `timeoutMiddleware` has none; status codes net/http rejects with a panic are not singled out.
- UnitOfWork.UnitOfWork.Do: calls of other goroutines do not interleave with it, and `runtime.Goexit` inside the function is not modelled.
- SafeRedelivery.ProcessOverChannel: the client is assumed to publish with confirms; without them a copy counts as published once it is sent.
- KafkaRetry.Consumer.ProcessPartition: one worker has the partition to itself, and every commit asked for is carried out.
- Redelivery.Consumer.ProcessMessage: a handler that settles the delivery itself, instrumentation that panics after the settlement, and settlements the broker refuses are not modelled.
- ConfirmPairing.PublisherChannel.PublishWithConfirm: a call whose publish fails is assumed to draw no confirm.
- Scheduler.StepPreserves: a job that panics, which takes the process down, is not modelled.
- WorkerManager.StopWaitsForAll: the errors Stop joins are counted but their values are not modelled.
- HealthChecks.StepPreserves: a check that panics and a negative maxConcurrent, which panics at the channel, are not modelled.
- PoolScraper.Run: the case without a metrics provider, in which nothing is emitted, is left out.
- ShutdownOrder.Execute: a flush or shutdown function that panics is not modelled.
- RetryTransport.RoundTrip: draining reads at most a fixed number of bytes before closing, and a body that never ends is not modelled.
- KafkaRetry.Consumer.HandleMessageWithRetry: no other worker is on the same topic, partition and offset, as in one run of a consumer group; two workers would share one retry state.
- KafkaRetry.Consumer.ProcessMessage: a commit is asked of the reader, which may itself fail.
- ConventionalCommits.ParseSubjectExact: texts are sequences of characters, so malformed UTF-8 is not modelled.
- Money.ScanOfValue: upper-casing covers the letters whose upper case is ASCII; the others stay outside every currency code either way.
- Releases.ResolvedIsAdmitted: the number of changelog occurrences is a count, so never negative.
- Releases.FailedGateNames: the gates are constructors here and not their names as text.
