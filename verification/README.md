# Verified model of the stateful cores of a MEV bot

The bot watches pending transactions and market data, filters them, evaluates strategies on them and
talks to unreliable endpoints.  Most of it is plumbing around I/O libraries.  The parts modelled here
keep state over a whole run, and what they are for are statements about whole runs:

- `RingBuffer.dfy`, `RingRuns.dfy`: the lock-free single-producer single-consumer ring, as interleaved atomic
  actions with stale index loads, refining a FIFO queue whose runs it all has; and the same ring in the hands
  of one thread.
- `SelectorCache.dfy`: the decoder cache with bulk eviction, against an unbounded map.
- `DecisionPath.dfy`, `PipelineDrops.dfy`, `PipelineProgress.dfy`, `ResultProvenance.dfy`, `PipelineOrder.dfy`:
  the three-stage worker pipeline with bounded channels as a transition system, when it drops a job, that it
  always comes to rest, where its results come from, and in which order they leave.
- `CircuitBreaker.dfy`, `BreakerLoad.dfy`: the three-state breaker, the retry loop around it, and the load
  that one or many failing clients can put through it.
- `RpcClient.dfy`: health marks, the choice of endpoint and its convergence.
- `RateLimiting.dfy`, `FilterEngine.dfy`, `FilterThroughput.dfy`: the rate limiter, the rule interpreter, and
  what a rate-limit rule lets through over many transactions.
- `StateManager.dfy`: chain head, kept headers, reorg log, pending transactions and nonces.
- `Subscriptions.dfy`, `Reconnection.dfy`, `MessageQueue.dfy`: the WebSocket session.
- `Histogram.dfy`: the percentile histogram that sorts its samples in place.
- `AccountPool.dfy`: the rotating account pool.
- `StableSort.dfy`, `Unions.dfy`, `Numerals.dfy`, `Basics.dfy`, `Options.dfy`, `Transactions.dfy`: what several
  of them share.

Objects whose methods update fields are classes; their methods are proved against functions of the old
state or of a ghost history, and the lemmas about those functions carry the promises.  The two
concurrent cores, the ring and the pipeline, are transition systems whose executions are arbitrary
sequences of atomic steps.  Clock readings, outcomes of remote calls, strategy results and what other
tasks do are arguments.  `f64` is `real`.

`dafny verify dfyconfig.toml` checks the whole project.

## Where the code departs from its comments

The model follows the code; for each departure there is an exact condition under which the comment holds
and a run in which it does not.

- `crates/mev-core/src/metrics.rs:429` says "Remove oldest sample".  Reading the statistics sorts the
  samples in place, so what is removed may be newer.  `Histogram.RemovesOldestExactly` gives the condition
  for whole runs, `Histogram.LatestAfterReadingExactly` for what one reading and later records leave;
  `Histogram.NewerSampleLost` and `Histogram.SecondRecordLosesNewer` are instances.
- `crates/mev-core/src/simulation_optimizer.rs:156` says "Find account with lowest usage count".  The
  front of the queue is taken, which is not the least used one while a round in which counts start over
  is under way: `AccountPools.LeastUsedExactly`, `AccountPools.NotLeastUsed`.
- `crates/mev-core/src/rpc_client.rs:83` says three consecutive errors.  The count is cumulative:
  `RpcClient.ConsecutiveExactly`, `RpcClient.ErrorsAccumulate`.
- `crates/mev-hyperliquid/src/websocket.rs:139` says that a connection of five minutes resets the failure
  count, but line 137 has just overwritten `last_success`: `Reconnection.ResetsAsIntendedExactly`,
  `Reconnection.StableConnectionForgetsNothing`.  The count then outgrows the 64 bits of the backoff:
  `Reconnection.CapIsExact`, `Reconnection.CapMissed`, `Reconnection.LostConnectionRetriedAtOnce`.
- `crates/mev-core/src/state_manager.rs:243` says that the map of pending transactions keeps its limit, but
  only what has expired is removed: `StateManagement.OverLimitExactly`, `StateManagement.TwoPendingOfOne`.
  A new transaction that overflows the map and has itself expired makes the look-up at line 250 panic:
  `StateManagement.StateManager.UpdatePendingTransaction`, `StateManagement.ExpiredOnArrival`.
- `crates/mev-core/src/state_manager.rs:210` keeps the limit on headers, but `initialize` appends without
  trimming: `StateManagement.LimitIsKeptExactly`, `StateManagement.InitializedTwice`.
- `crates/mev-core/src/optimization.rs:164` is called `evict_lru`, but a look-up does not refresh
  `last_used`: `SelectorCache.LeastRecentExactly`, and from the history before the insertion
  `SelectorCache.LeastRecentBeforehand`; `SelectorCache.JustUsedIsEvicted` is an instance.
- `crates/mev-mempool/src/filters.rs:81` says "Rate limit (max per second)", but tokens left over are spent
  in the same second as those of the refill: `RateLimiting.LimitHoldsExactly`, with the exact number in
  `RateLimiting.AdmittedExactly`; `RateLimiting.WindowBoundIsReached` is an instance.
- `crates/mev-mempool/src/filters.rs:328` says "Remove 0x prefix", before it is known that there is one:
  `Filtering.DataBytesExactly`, `Filtering.EmptyInputIsEnormous`.  The subtraction wraps around as in a
  release build.
- `crates/mev-hyperliquid/src/rpc_service.rs:99` checks whether the cooldown has elapsed with an unsigned
  difference, which wraps around when the system clock has been set back: `CircuitBreaker.CooldownElapsesExactly`,
  `CircuitBreaker.ClockSetBack`.

## Model

| member | source | states |
|---|---|---|
| `RingBuffer.ExecutionRefinesQueue` | crates/mev-core/src/optimization.rs:269-306 | under every interleaving of the atomic actions of one producer and one consumer, stale loads of the other index included, each action is a push at the back of a FIFO queue with room, a pop at its front, or invisible; what was popped is a prefix of what was pushed, and the queue stays below `capacity` |
| `RingRuns.EveryQueueRunHappens` | crates/mev-core/src/optimization.rs:269-306 | conversely, whatever is done to a FIFO queue with room for `capacity - 1` items, there is a run of the ring with exactly the same pushes, pops and refusals |
| `RingRuns.NeverStuck` | crates/mev-core/src/optimization.rs:269-306 | in every reachable state both threads can go on, and a load may return exactly the values of the other index from the newest one seen up to the current one |
| `RingBuffer.NothingLost` | crates/mev-core/src/optimization.rs:269-306 | in every reachable state the items popped, the item in the consumer's hand and the slots read off the buffer from head to tail are, in this order, exactly the items pushed |
| `RingBuffer.AccessesAreInBounds` | crates/mev-core/src/optimization.rs:277-298 | every raw slot access is inside the buffer; a push past the full check writes an empty slot, a pop past the empty check finds an item |
| `RingBuffer.RefusalsAreExact` | crates/mev-core/src/optimization.rs:269-276 | a push is handed back if and only if the ring was full as of the head value it loaded |
| `RingBuffer.EmptyPopsAreExact` | crates/mev-core/src/optimization.rs:288-294 | a pop returns nothing if and only if everything up to the tail value it loaded had been popped |
| `RingBuffer.PushEndsWithItsItem` | crates/mev-core/src/optimization.rs:269-286 | a push keeps its own item until it either publishes it or, on finding the ring full, hands it back |
| `RingBuffer.LengthUnderRaces` | crates/mev-core/src/optimization.rs:308-317 | `len` stays below `capacity` whatever index values its two loads see; the producer never gets less than the true size, the consumer never more, and two current values give it exactly |
| `RingBuffer.StepInv` | crates/mev-core/src/optimization.rs:269-306 | every enabled action keeps the invariant that ties indices, program counters and slots to the histories of pushes and pops |
| `RingBuffer.LengthOfSlots` | crates/mev-core/src/optimization.rs:308-317 | the two-branch difference of wrapped indices is the distance of the unwrapped positions |
| `RingBuffer.OptimizedRingBuffer.constructor` | crates/mev-core/src/optimization.rs:257-267 | a new ring of any capacity, zero included, is empty |
| `RingBuffer.OptimizedRingBuffer.TryPush` | crates/mev-core/src/optimization.rs:269-286 | used by one thread: appends the item exactly when fewer than `capacity - 1` are stored, otherwise stores nothing; panics if and only if the capacity is zero |
| `RingBuffer.OptimizedRingBuffer.TryPop` | crates/mev-core/src/optimization.rs:288-306 | used by one thread: removes and returns the first item, or nothing if and only if the ring is empty |
| `RingBuffer.OptimizedRingBuffer.Len` | crates/mev-core/src/optimization.rs:308-317 | the number of stored items, below `capacity` |
| `RingBuffer.OptimizedRingBuffer.IsEmpty` | crates/mev-core/src/optimization.rs:319-321 | true if and only if nothing is stored |
| `RingBuffer.OptimizedRingBuffer.IsFull` | crates/mev-core/src/optimization.rs:323-325 | true if and only if `capacity - 1` items are stored; false for capacity zero, where the subtraction wraps |
| `SelectorCache.HotAbiCache.GetDecoder` | crates/mev-core/src/optimization.rs:129-138 | a hit is the decoder most recently inserted for the selector into the unbounded map; hits and misses count exactly the look-ups that found and did not find one |
| `SelectorCache.HotAbiCache.InsertDecoder` | crates/mev-core/src/optimization.rs:140-162 | the new entry is added, and only if that makes more than 1000 the oldest tenth is removed; the size stays within 1000 and what stays agrees with the unbounded map |
| `SelectorCache.HotAbiCache.EvictLru` | crates/mev-core/src/optimization.rs:164-173 | removes exactly `len / 10` entries, none younger than one that stays, and changes no other |
| `SelectorCache.OldestFirst` | crates/mev-core/src/optimization.rs:165-166 | all entries, each once, in order of age |
| `SelectorCache.YoungEntriesSurvive` | crates/mev-core/src/optimization.rs:164-173 | an entry with at least a tenth of the entries strictly older than it is never evicted, however ties are broken |
| `SelectorCache.LeastRecentExactly` | crates/mev-core/src/optimization.rs:164-173 | eviction is by least recent use if and only if nothing evicted has been hit after the last use of something kept, whatever the order of ties and clock readings |
| `SelectorCache.LastUseInOrder` | crates/mev-core/src/optimization.rs:129-162 | with clock readings in order, the last use of an entry is the time of the last insertion or hit of its selector |
| `SelectorCache.LeastRecentBeforehand` | crates/mev-core/src/optimization.rs:140-173 | with distinct ages this is decided before the insertion: no entry of the oldest tenth has been hit after the last use of an entry outside of it |
| `SelectorCache.EvictedAreOldest` | crates/mev-core/src/optimization.rs:164-173 | with distinct ages exactly the entries with fewer older ones than a tenth go |
| `SelectorCache.JustUsedIsEvicted` | crates/mev-core/src/optimization.rs:129-173 | a run: in a full cache an entry is looked up and found, and the next insertion evicts it while one used earlier stays |
| `DecisionPath.ExactlyOnePlace` | crates/mev-core/src/decision_path.rs:356-696 | for any number of workers and any schedule, each accepted transaction is in exactly one of: a channel, a worker's hands, filtered out, dropped on the way into a channel, delivered; and nothing else is anywhere |
| `DecisionPath.ResultsAreUnique` | crates/mev-core/src/decision_path.rs:406-696 | no transaction yields two results, and one filtered out or dropped yields none |
| `PipelineProgress.AllEndExactly` | crates/mev-core/src/decision_path.rs:406-696 | under every schedule each accepted transaction has ended exactly once (filtered out, dropped or delivered) whenever no step but a submission is possible, if and only if every stage has a worker |
| `PipelineProgress.EveryTransactionEnds` | crates/mev-core/src/decision_path.rs:406-696 | with a worker at every stage, whenever no step but a submission is possible, each accepted transaction is exactly once among those filtered out, dropped and delivered |
| `PipelineProgress.NeverStuck` | crates/mev-core/src/decision_path.rs:406-696 | with a worker at every stage, a step other than a submission is possible if and only if there is work left |
| `PipelineProgress.TenStepsEach` | crates/mev-core/src/decision_path.rs:356-696 | under every schedule at most ten steps that change anything are taken for each accepted transaction, what is still to do included |
| `PipelineProgress.ComesToRest` | crates/mev-core/src/decision_path.rs:406-696 | every run can be continued without submissions until nothing is left to do, in no more steps than there is work |
| `DecisionPath.ExecutionFlow` | crates/mev-core/src/decision_path.rs:406-696 | in every reachable state no channel exceeds its capacity, everything travels unchanged, everything past the filter stage passed `fast_filter` and everything filtered out failed it |
| `PipelineDrops.DropsExactly` | crates/mev-core/src/decision_path.rs:356-696 | a step drops something at a channel if and only if it sends a job there (a filter worker only one that passes) and the channel holds as many jobs as its capacity |
| `PipelineDrops.SendGoes` | crates/mev-core/src/decision_path.rs:440-617 | a job that is sent is the last one in the channel afterwards if there was room, and is dropped and leaves the channel as it was otherwise |
| `PipelineDrops.SubmitsExactly` | crates/mev-core/src/decision_path.rs:356-386 | a submission is accepted if and only if the first channel holds fewer jobs than its capacity; it is then the last one there, and otherwise nothing changes |
| `PipelineDrops.DroppedWhenFull` | crates/mev-core/src/decision_path.rs:406-696 | whatever has been dropped in a run was sent, in some earlier step of it, to a channel that was full at that moment |
| `PipelineDrops.NothingDroppedAtEntry` | crates/mev-core/src/decision_path.rs:356-386 | in no run is anything dropped at the first channel |
| `PipelineDrops.NothingDroppedWithRoom` | crates/mev-core/src/decision_path.rs:406-696 | a channel that has always had room has dropped nothing |
| `PipelineDrops.TakesExactly` | crates/mev-core/src/decision_path.rs:416-600 | a worker takes the first job of its own channel and nothing else moves |
| `PipelineDrops.ConsumesExactly` | crates/mev-core/src/decision_path.rs:389-391 | the reader takes exactly the first result |
| `PipelineDrops.FiltersExactly` | crates/mev-core/src/decision_path.rs:424-460 | something is filtered out if and only if a filter worker finishes with a transaction that fails `fast_filter` |
| `PipelineDrops.FinishesExactly` | crates/mev-core/src/decision_path.rs:406-696 | a worker that finishes is free, and the others hold what they held |
| `ResultProvenance.ResultsAreTheirOwn` | crates/mev-core/src/decision_path.rs:424-617 | every result goes back to one submission that was filtered, simulated and bundled in this order, and carries exactly that transaction and the times and opportunities of those steps |
| `ResultProvenance.StepLocates` | crates/mev-core/src/decision_path.rs:356-696 | whatever is anywhere after a step was there for the same stage before it, or is what the step brought forth |
| `DecisionPath.ExecutionStats` | crates/mev-core/src/decision_path.rs:615-636 | in every reachable state mean latency times count is the sum of all accounted total times, opportunities likewise, and `transactions_processed` exceeds `processed_count` by exactly the workers between the two updates |
| `PipelineOrder.OrderExactly` | crates/mev-core/src/decision_path.rs:406-696 | with every stage staffed, results come out in the order of acceptance under every schedule if and only if every stage has one worker |
| `PipelineOrder.OneWorkerKeepsOrder` | crates/mev-core/src/decision_path.rs:406-696 | with one worker per stage results are delivered in the order of acceptance |
| `PipelineOrder.TwoWorkersCanReorder` | crates/mev-core/src/decision_path.rs:406-696 | with two workers at any stage, whatever the capacities, there is a run that delivers two results in the wrong order |
| `DecisionPath.StepPlaces` | crates/mev-core/src/decision_path.rs:356-696 | no step creates, loses or duplicates a transaction, except that an accepted submission appears once |
| `DecisionPath.LargeOrdersPass` | crates/mev-core/src/decision_path.rs:767-774 | an order-book transaction passes if and only if its value is a numeral that exceeds one ether and fits 128 bits |
| `DecisionPath.InterestingTargets` | crates/mev-core/src/decision_path.rs:759-785 | a known exchange always passes, and an unknown target if and only if its input is ten characters and something after them |
| `Numerals.ParseExactly` | crates/mev-core/src/decision_path.rs:769 | parsing with overflow checks at every digit reads exactly the numerals, with optional plus sign and leading zeros, whose positional value fits the type |
| `Numerals.ParseDecimal` | crates/mev-core/src/decision_path.rs:769 | parsing the decimal rendering of a number gives it back if and only if it fits the type |
| `Numerals.NumeralsExactly` | crates/mev-core/src/decision_path.rs:769 | a numeral is one or more digits, with or without a plus sign before them, and its value is that of the digits |
| `Numerals.DigitsExactly` | crates/mev-core/src/decision_path.rs:769 | the digits are the ten characters, each with its own value |
| `CircuitBreaker.HistoryDeterminesState` | crates/mev-hyperliquid/src/rpc_service.rs:93-178 | the counter is the number of failures recorded since the last success, and the breaker is closed if and only if that is below 5 |
| `CircuitBreaker.RefusesExactly` | crates/mev-hyperliquid/src/rpc_service.rs:97-115 | an open breaker refuses a request if and only if its time lies in the cooldown, so not before the opening time |
| `CircuitBreaker.CooldownElapsesExactly` | crates/mev-hyperliquid/src/rpc_service.rs:97-115 | it admits exactly from the end of the cooldown on if and only if the clock has not been set back before the opening time |
| `CircuitBreaker.ClockSetBack` | crates/mev-hyperliquid/src/rpc_service.rs:97-115 | opened at second 1000, it admits a request at second 999 |
| `CircuitBreaker.RefusedDuringCooldown` | crates/mev-hyperliquid/src/rpc_service.rs:93-178 | while open and inside the cooldown every request is refused, and failures neither extend the cooldown nor change the state |
| `CircuitBreaker.OpeningShuts` | crates/mev-hyperliquid/src/rpc_service.rs:93-178 | after opening or reopening at `t` nothing is admitted from `t` until `t + 30` unless a success is recorded, and the first request outside of that time is |
| `CircuitBreaker.FailingClientIsThrottled` | crates/mev-hyperliquid/src/rpc_service.rs:361-451 | whatever happened before, a sequential client whose operations all fail gets at most 5 + floor(T/30) calls admitted in any T seconds, with three attempts each |
| `BreakerLoad.FailingClientsAreThrottled` | crates/mev-hyperliquid/src/rpc_service.rs:93-178 | whatever happened before and however many calls are under way, k concurrent clients whose operations all fail get at most 4 + k·(1 + floor(T/30)) calls admitted in any T seconds, under every interleaving of admissions and recorded failures |
| `BreakerLoad.RunMeaning` | crates/mev-hyperliquid/src/rpc_service.rs:361-451 | over any such run the breaker is that of the requests and failures in their order, and the calls under way are those before and those admitted less those that have failed, never more than the clients |
| `BreakerLoad.AdmittedWithinAllowance` | crates/mev-hyperliquid/src/rpc_service.rs:93-178 | the same from any state of breaker and calls, with the allowance of that state |
| `BreakerLoad.AllowanceIsReached` | crates/mev-hyperliquid/src/rpc_service.rs:93-178 | from every state of breaker and calls there is a run of the clients that gets exactly that allowance admitted |
| `BreakerLoad.LoadBoundIsReached` | crates/mev-hyperliquid/src/rpc_service.rs:93-178 | from a new breaker k clients reach 4 + k·(1 + floor(T/30)) for all k and T |
| `CircuitBreaker.AdmittedWithinBudget` | crates/mev-hyperliquid/src/rpc_service.rs:93-178 | from any breaker state at most its budget of calls is admitted |
| `CircuitBreaker.BudgetIsReached` | crates/mev-hyperliquid/src/rpc_service.rs:93-178 | from every state some sequential failing client has exactly the budget admitted |
| `CircuitBreaker.FiveThenOnePerCooldown` | crates/mev-hyperliquid/src/rpc_service.rs:93-178 | from a closed breaker: the failures it still bears at once and then one call every 30 seconds are all admitted |
| `CircuitBreaker.Service.ShouldAllowRequest` | crates/mev-hyperliquid/src/rpc_service.rs:93-117 | the admission step on the three cells, for every reading of the clock: refused if and only if open and less than 30 seconds have elapsed; an admission by an open breaker makes it half-open |
| `CircuitBreaker.Service.RecordSuccess` | crates/mev-hyperliquid/src/rpc_service.rs:120-141 | closed with no failures and the opening time kept, from every state |
| `CircuitBreaker.Service.RecordFailure` | crates/mev-hyperliquid/src/rpc_service.rs:144-178 | one more failure; opens now if half-open, or if closed with five failures; otherwise state and opening time stay |
| `CircuitBreaker.Service.ExecuteWithRetry` | crates/mev-hyperliquid/src/rpc_service.rs:361-451 | a blocked call records nothing and makes no attempt; an admitted one stops at the first success or after three attempts and pauses 100 and 200 ms; a value is returned if and only if the call is admitted and some attempt has one, and leaves the breaker closed with no failures; an exhausted call is one failure, which opens it as of its end unless it was closed with fewer than four |
| `CircuitBreaker.AnsweredClientIsAdmitted` | crates/mev-hyperliquid/src/rpc_service.rs:361-451 | over any sequence of calls, a client whose calls are all answered is never refused by a closed breaker, whatever failures it still bore |
| `RpcClient.EndpointHealth.RecordSuccess` | crates/mev-core/src/rpc_client.rs:67-76 | healthy again, the measured time stored, error count kept, one more success |
| `RpcClient.EndpointHealth.RecordError` | crates/mev-core/src/rpc_client.rs:79-88 | one more error, unhealthy from the third error in all, otherwise unchanged |
| `RpcClient.HealthIsHistory` | crates/mev-core/src/rpc_client.rs:67-88 | an endpoint is healthy if and only if it has had fewer than three errors in all or its last outcome was a success; its counts are those of its errors and successes, and its time is that of its last answer |
| `RpcClient.ConsecutiveExactly` | crates/mev-core/src/rpc_client.rs:79-88 | the mark means three consecutive errors, except after three errors in all of which only the last one or two are consecutive |
| `RpcClient.ErrorsAccumulate` | crates/mev-core/src/rpc_client.rs:79-88 | three errors that are not consecutive mark an endpoint |
| `RpcClient.Best` | crates/mev-core/src/rpc_client.rs:153-173 | the first among the fastest healthy endpoints, and endpoint 0 if none is healthy |
| `RpcClient.OptimizedRpcClient.GetBestProvider` | crates/mev-core/src/rpc_client.rs:153-173 | the loop over the health records finds that endpoint |
| `RpcClient.OptimizedRpcClient.RecordOutcome` | crates/mev-core/src/rpc_client.rs:292-315 | changes the record of the endpoint tried and no other |
| `RpcClient.OptimizedRpcClient.CallWithRetry` | crates/mev-core/src/rpc_client.rs:175-216 | health records, endpoints tried and answer are those of the recursive specification of a call |
| `RpcClient.CallMeaning` | crates/mev-core/src/rpc_client.rs:175-216 | try by try: each goes to the endpoint that is best as of the outcomes before it, all but the last are refused, and the call is answered if and only if the last one is; it gives up after exactly the tries it has |
| `RpcClient.AnswerMovesChoice` | crates/mev-core/src/rpc_client.rs:153-173 | after an answer the next choice leaves the endpoint if a healthy one has a smaller time, and stays if all other healthy ones have greater times |
| `RpcClient.FirstAnswerMovesOn` | crates/mev-core/src/rpc_client.rs:67-173 | of two new endpoints the first is tried first, and the second as soon as the first has answered in any positive time |
| `RpcClient.ChoiceIsHealthy` | crates/mev-core/src/rpc_client.rs:153-173 | with a good endpoint around the choice is always healthy, so the fallback is never used |
| `RpcClient.CallConverges` | crates/mev-core/src/rpc_client.rs:175-216 | during a call each try of a bad endpoint is one error of its record, which never passes three |
| `RpcClient.BadEndpointsAreTriedThrice` | crates/mev-core/src/rpc_client.rs:175-216 | over any sequence of calls of a new client every bad endpoint is tried at most three times |
| `RpcClient.EnoughRetriesAnswer` | crates/mev-core/src/rpc_client.rs:175-216 | from any records, a call that may try more often than the bad endpoints can still fail is answered |
| `RpcClient.EveryCallIsAnswered` | crates/mev-core/src/rpc_client.rs:175-216 | with more than three attempts for each bad endpoint, every call in any sequence of calls of a new client is answered |
| `RpcClient.EnoughRetriesExactly` | crates/mev-core/src/rpc_client.rs:175-216 | new clients with a good endpoint and b bad ones, wherever these are, always get an answer if and only if they have more than 3·b attempts |
| `RpcClient.OutcomesAreRecorded` | crates/mev-core/src/rpc_client.rs:292-351 | a step of the concurrent system changes the record of the endpoint whose call or probe has ended, by exactly that outcome, and no other |
| `RpcClient.ConcurrentCallersConverge` | crates/mev-core/src/rpc_client.rs:153-351 | with k concurrent callers and the health checker, interleaved in any way, no bad endpoint is tried more than k + 2 times |
| `RpcClient.ConcurrentBoundIsReached` | crates/mev-core/src/rpc_client.rs:153-351 | there is a run of k callers in which a bad endpoint is tried k + 2 times |
| `RateLimiting.RateLimiter.constructor` | crates/mev-mempool/src/filters.rs:419-425 | a new limiter is full |
| `RateLimiting.RateLimiter.Allow` | crates/mev-mempool/src/filters.rs:427-436 | refills, then spends a token if there is one |
| `RateLimiting.RateLimiter.RefillTokens` | crates/mev-mempool/src/filters.rs:438-446 | full again if a second has passed since the last refill, otherwise unchanged |
| `RateLimiting.AdmittedUntil` | crates/mev-mempool/src/filters.rs:427-446 | from any state, admissions are at most the tokens in hand plus one full refill per whole second since the last one |
| `RateLimiting.AdmittedFromStart` | crates/mev-mempool/src/filters.rs:418-446 | at most max·(1 + floor(T)) requests are admitted in the first T seconds, for every call pattern |
| `RateLimiting.AdmittedExactly` | crates/mev-mempool/src/filters.rs:427-446 | in a half-open second, the first a requests before the refill get min(tokens, a) admissions and the others min(max, their number) |
| `RateLimiting.PerSecondExactly` | crates/mev-mempool/src/filters.rs:427-446 | the requests of a half-open second get at most the limit if and only if those two numbers together are within it |
| `RateLimiting.LimitHoldsExactly` | crates/mev-mempool/src/filters.rs:427-446 | no requests of a half-open second get more than the limit if and only if, when it begins, there are no tokens or no refill falls inside it |
| `RateLimiting.AdmittedInWindow` | crates/mev-mempool/src/filters.rs:427-446 | whatever was asked before, at most 2·max are admitted in a half-open second |
| `RateLimiting.WindowBoundIsReached` | crates/mev-mempool/src/filters.rs:427-446 | there are requests for which that bound is reached |
| `Filtering.FilterEngine.LoadRules` | crates/mev-mempool/src/filters.rs:140-163 | the rules become the stable sort by descending priority, and the limiters those of `Loaded` |
| `Filtering.LoadedRules` | crates/mev-mempool/src/filters.rs:140-145 | the loaded rules are a permutation in descending priority that keeps the order of equal priorities |
| `Filtering.LoadedLimiters` | crates/mev-mempool/src/filters.rs:152-160 | a name with a rate-limit rule gets a full limiter with the limit of the last such rule; other limiters stay |
| `Filtering.FilterEngine.EvaluateRule` | crates/mev-mempool/src/filters.rs:244-374 | a rule matches if and only if all its conditions hold, each as the rows below say, whatever lower-casing does |
| `Filtering.ValueRangeMeaning` | crates/mev-mempool/src/filters.rs:257-275 | a value range admits exactly the values between those of its bounds that it has; an unreadable value or lower bound counts as 0, an unreadable upper bound as none |
| `Filtering.DataBytesExactly` | crates/mev-mempool/src/filters.rs:328 | the computed size is the number of call data bytes if and only if the input has its prefix |
| `Filtering.DataSizeMeaning` | crates/mev-mempool/src/filters.rs:327-343 | an input of the prefix and n digits is within a size range if and only if n / 2 is within those of its bounds that it has |
| `Filtering.EmptyInputIsEnormous` | crates/mev-mempool/src/filters.rs:327-343 | the empty input passes every lower and fails every upper bound below the largest number |
| `Filtering.GasPriceMeaning` | crates/mev-mempool/src/filters.rs:277-295 | gas bounds in gwei admit exactly the prices in wei from the lower one up to, but not including, one gwei above the upper one; an unreadable price counts as 0 |
| `Filtering.TargetTypeMeaning` | crates/mev-mempool/src/filters.rs:296-300 | a list of target types, given by their names, admits exactly these types |
| `Filtering.NamesDiffer` | crates/mev-mempool/src/filters.rs:296-300 | distinct target types have distinct names |
| `Filtering.SignatureMeaning` | crates/mev-mempool/src/filters.rs:301-308 | an input that was not decoded matches no signature, a decoded one exactly the listed |
| `Filtering.ContractMeaning` | crates/mev-mempool/src/filters.rs:309-319 | a whitelist admits exactly the calls of contracts listed up to case, a blacklist exactly all others, contract creations included |
| `Filtering.SenderMeaning` | crates/mev-mempool/src/filters.rs:320-326 | a whitelist admits exactly the senders listed up to case, a blacklist exactly the others |
| `Filtering.TimeOfDayMeaning` | crates/mev-mempool/src/filters.rs:345-357 | the hours admitted are exactly those reached from start to end going round the clock |
| `Filtering.TimeOfDayBeyond` | crates/mev-mempool/src/filters.rs:345-357 | a start or end that no clock shows leaves only the other bound |
| `Filtering.PatternMeaning` | crates/mev-mempool/src/filters.rs:358-373 | a pattern matches if and only if the input is something, the pattern and something after it; without case, the same of the lower-cased texts |
| `Filtering.FilterEngine.ApplyAction` | crates/mev-mempool/src/filters.rs:182-231 | the action of a matching rule drops the transaction if and only if it rejects or its limiter is exhausted, and otherwise adds its tags and priority |
| `Filtering.FilterEngine.FilterTransaction` | crates/mev-mempool/src/filters.rs:166-241 | result, statistics and limiters are those of `Verdict`; processed = accepted + rejected + rate limited in every reachable state |
| `Filtering.VerdictMeaning` | crates/mev-mempool/src/filters.rs:166-241 | dropped if and only if some rule drops it, counted by the first such rule, after which no limiter is consulted; otherwise the priority of the last rule that sets one, the duplicate-free union of the tags and the names of the rules that fired |
| `Filtering.QuietRulesDoNothing` | crates/mev-mempool/src/filters.rs:173-182 | a rule that is disabled or has a condition that fails changes neither result nor limiters and drops nothing |
| `Filtering.FiringRulesAct` | crates/mev-mempool/src/filters.rs:182-231 | a rule that fires drops the transaction if and only if it rejects, or limits and finds no token after refilling; it touches no limiter but its own |
| `Filtering.DraftMeaning` | crates/mev-mempool/src/filters.rs:166-241 | rule by rule, an undropped transaction comes to that priority and those tags and names |
| `FilterThroughput.AcceptedSinceLoading` | crates/mev-mempool/src/filters.rs:140-241 | from the loading of a rate-limit rule on, over any sequence of transactions, at most max·(1 + floor(T)) of those on which a rule of its name fires are accepted in the first T seconds |
| `FilterThroughput.VerdictLimiters` | crates/mev-mempool/src/filters.rs:166-241 | the limiters that the next transaction finds are those of the rules up to the one that drops this one |
| `FilterThroughput.LimiterSees` | crates/mev-mempool/src/filters.rs:222-231 | during a pass the limiter of a name sees exactly the requests of the rules of that name that fire, in order |
| `Filtering.FirstDropIsFirst` | crates/mev-mempool/src/filters.rs:173-233 | the pass ends at the first rule that drops the transaction |
| `Filtering.PriorityIsLast` | crates/mev-mempool/src/filters.rs:185-219 | the priority is that of the last rule that sets one, 128 if none does |
| `Filtering.TagsAreUnion` | crates/mev-mempool/src/filters.rs:106-110 | a tag is on the result if and only if a tag rule that fired carries it |
| `Filtering.NamesAreUnion` | crates/mev-mempool/src/filters.rs:112-120 | a name is listed if and only if a rule of that name fired |
| `Unions.DistinctHasNoRepetitions` | crates/mev-mempool/src/filters.rs:106-120 | no tag and no rule name is listed twice |
| `Unions.DistinctKeepsElements` | crates/mev-mempool/src/filters.rs:106-120 | leaving out repetitions loses nothing |
| `Unions.DistinctKeepsOrder` | crates/mev-mempool/src/filters.rs:106-120 | what is kept is the first occurrences, in their order |
| `Unions.UnionIsDistinct` | crates/mev-mempool/src/filters.rs:106-120 | adding what is missing, list by list, is leaving repetitions out of all of them together |
| `Unions.ConcatSnoc` | crates/mev-mempool/src/filters.rs:106-120 | lists are joined in their order |
| `Filtering.FilterEngine.SetRuleEnabled` | crates/mev-mempool/src/filters.rs:400-409 | switches the first rule of that name and no other, and reports whether there is one |
| `Filtering.FilterEngine.ResetStats` | crates/mev-mempool/src/filters.rs:390-392 | clears the statistics |
| `StableSort.SortIsSorted` | crates/mev-mempool/src/filters.rs:143 | the library's sort: ascending keys, same elements |
| `StableSort.SortIsStable` | crates/mev-mempool/src/filters.rs:143 | equal keys keep their order |
| `StateManagement.StateManager.constructor` | crates/mev-core/src/state_manager.rs:126-135 | nothing has arrived, and the limits are those configured |
| `StateManagement.StateManager.Initialize` | crates/mev-core/src/state_manager.rs:139-156 | head, history and log are those of the headers so far and this one, which is not compared with its predecessor |
| `StateManagement.StateManager.UpdateBlockHeader` | crates/mev-core/src/state_manager.rs:170-220 | head, history and log are those of the headers so far and this one; an event is returned, and then logged, if and only if there was a head and the number does not exceed its number or the parent hash is not its hash |
| `StateManagement.StateManager.TrimHistory` | crates/mev-core/src/state_manager.rs:210-213 | the loop leaves the last `max_block_history` headers |
| `StateManagement.StateManager.DetectReorg` | crates/mev-core/src/state_manager.rs:335-400 | one event with the old and the new header is logged and returned |
| `StateManagement.ChainIsHistory` | crates/mev-core/src/state_manager.rs:139-220 | arrival by arrival, head, kept headers and log come to the latest header, the latest headers and one event per break |
| `StateManagement.ReorgLogIsExact` | crates/mev-core/src/state_manager.rs:170-220 | the log is, in order and one for one, the events of the breaking positions, each with the header before as old chain and common ancestor and the new header as new chain |
| `StateManagement.BreakingIsComplete` | crates/mev-core/src/state_manager.rs:183-192 | these positions are increasing and are exactly the updates whose number does not exceed the previous one or whose parent hash is not the previous hash |
| `StateManagement.HistoryIsLatest` | crates/mev-core/src/state_manager.rs:199-214 | the kept history is, element by element, the last headers that arrived; after an update there are exactly `max_block_history` of them, or all |
| `StateManagement.KeptAfterUpdate` | crates/mev-core/src/state_manager.rs:205-214 | how many headers an update keeps |
| `StateManagement.LimitIsKeptExactly` | crates/mev-core/src/state_manager.rs:139-214 | the limit holds if and only if nothing has arrived, an update came last, or there are not more arrivals than that |
| `StateManagement.InitializedTwice` | crates/mev-core/src/state_manager.rs:139-156 | with a limit of one, two initializations keep two headers |
| `StateManagement.QuietStretchIsChain` | crates/mev-core/src/state_manager.rs:170-220 | between headers where nothing was logged each parent hash is the hash before it and each number exceeds the one before it |
| `StateManagement.StateManager.UpdatePendingTransaction` | crates/mev-core/src/state_manager.rs:223-258 | a known transaction gets the new last-seen time and one more sighting and keeps its first; a new one is added and the map cleaned; the call aborts if and only if a new transaction overflows the map and has itself expired; otherwise every tracked nonce stays the highest ever inserted |
| `StateManagement.OverLimitExactly` | crates/mev-core/src/state_manager.rs:243-246 | a new transaction leaves the map above its limit if and only if more transactions than that have not expired |
| `StateManagement.AddedElements` | crates/mev-core/src/state_manager.rs:223-246 | what a new transaction leaves: everything, or if that exceeds the limit exactly what was first seen since the cutoff, each entry unchanged |
| `StateManagement.TwoPendingOfOne` | crates/mev-core/src/state_manager.rs:223-258 | a run: with a limit of one, two transactions stay |
| `StateManagement.ExpiredOnArrival` | crates/mev-core/src/state_manager.rs:223-258 | a run: with a limit of one, a second transaction that has expired makes the process abort |
| `StateManagement.StateManager.CleanupOldTransactions` | crates/mev-core/src/state_manager.rs:431-444 | the loop removes exactly what was first seen before the cutoff |
| `StateManagement.StateManager.CleanupExpiredTransactions` | crates/mev-core/src/state_manager.rs:447-459 | the same, returning how many; the nonces are untouched |
| `StateManagement.StateManager.GetCurrentNonce` | crates/mev-core/src/state_manager.rs:271-274 | the highest nonce ever inserted for the address, across clean-ups |
| `StateManagement.MaxNonceIsMaximum` | crates/mev-core/src/state_manager.rs:249-255 | that nonce bounds all inserted ones and, unless 0, is one of them |
| `Subscriptions.DistinctCoins` | crates/mev-hyperliquid/src/websocket.rs:61-107 | with distinct coins, in every state of a connection: at most three requests of each kind for each coin, any two five seconds apart, and none after its confirmation |
| `Subscriptions.ThreeSpacedRequests` | crates/mev-hyperliquid/src/websocket.rs:61-107 | the same for one coin, however often the others are configured |
| `Subscriptions.SendInv` | crates/mev-hyperliquid/src/websocket.rs:609-640 | sending a request that is due keeps the bound of three, the spacing and that nothing follows its confirmation |
| `Subscriptions.ConfirmInv` | crates/mev-hyperliquid/src/websocket.rs:91-97 | a confirmation keeps all of that |
| `Subscriptions.RetryIsDue` | crates/mev-hyperliquid/src/websocket.rs:61-78 | although both kinds share `last_attempt`, whatever should be retried is due |
| `Subscriptions.Connection.Open` | crates/mev-hyperliquid/src/websocket.rs:516-530 | a new connection starts from reset states, and its log is exactly the first requests of all pairs in their order |
| `Subscriptions.OpenedIsValid` | crates/mev-hyperliquid/src/websocket.rs:516-530 | that keeps every property of the session |
| `Subscriptions.Connection.SubscribeWithRetry` | crates/mev-hyperliquid/src/websocket.rs:590-606 | exactly the wanted requests of the pair are made, without the second if the first cannot be written |
| `Subscriptions.RequestsExactly` | crates/mev-hyperliquid/src/websocket.rs:590-606 | which requests those are for each of the four configurations of a pair |
| `Subscriptions.Connection.CollectRetries` | crates/mev-hyperliquid/src/websocket.rs:648-664 | exactly what is wanted, unconfirmed and due at the moment it is looked at is collected, once each, and everything is looked at |
| `Subscriptions.Connection.RetryFailedSubscriptions` | crates/mev-hyperliquid/src/websocket.rs:643-674 | exactly what was collected is requested, in order; afterwards every wanted and unconfirmed kind has had three requests, or its coin one less than five seconds before the round or later; every property of the session is kept |
| `Subscriptions.ResentServes` | crates/mev-hyperliquid/src/websocket.rs:643-674 | a round leaves nothing to be done |
| `Subscriptions.Connection.SendSubscription` | crates/mev-hyperliquid/src/websocket.rs:609-640 | the attempt is recorded for the coin and kind that is sent |
| `Subscriptions.Connection.HandleSubscriptionResponse` | crates/mev-hyperliquid/src/websocket.rs:677-701 | a successful response for a known coin and kind, and no other, confirms that kind and nothing else |
| `Reconnection.ReconnectionState.RecordSuccess` | crates/mev-hyperliquid/src/websocket.rs:136-156 | clears the degraded state, and the count only if the two clock readings in a row are five minutes apart |
| `Reconnection.ReconnectionState.RecordFailure` | crates/mev-hyperliquid/src/websocket.rs:159-171 | counts, and enters the degraded state at the limit |
| `Reconnection.ReconnectionState.GetBackoff` | crates/mev-hyperliquid/src/websocket.rs:197-212 | five minutes when degraded; otherwise `calculate_backoff(failures + 1)`, within the configured limits, while the product fits, and nothing from 64 failures on |
| `Reconnection.DegradedIsHistory` | crates/mev-hyperliquid/src/websocket.rs:136-171 | degraded if and only if the last event was a failure and the count has reached the limit |
| `Reconnection.FailuresAreNeverForgotten` | crates/mev-hyperliquid/src/websocket.rs:136-156 | the count is all failures ever if and only if no failure precedes a success whose two clock readings lie five minutes apart |
| `Reconnection.ResetsAsIntendedExactly` | crates/mev-hyperliquid/src/websocket.rs:139-148 | the count is that of the comment all along if and only if, at every success with a failure still counted, the two readings are five minutes apart just when the connection lasted that long |
| `Reconnection.StableConnectionForgetsNothing` | crates/mev-hyperliquid/src/websocket.rs:139-148 | after a connection of an hour a failure still counts |
| `Reconnection.BackoffIsClosedForm` | crates/mev-hyperliquid/src/types.rs:238-241 | when not degraded and the product fits, `get_backoff` is `calculate_backoff(failures + 1)`, the capped exact power, and lies within the configured limits |
| `Reconnection.FirstAttempts` | crates/mev-hyperliquid/src/types.rs:238-241 | attempts zero and one both wait the minimum, capped |
| `Reconnection.BackoffIsMonotone` | crates/mev-hyperliquid/src/websocket.rs:197-212 | more failures never shorten it |
| `Reconnection.FormsAgree` | crates/mev-hyperliquid/src/types.rs:238-241 | the two forms agree if and only if there has been a failure or the limits are the right way round |
| `Reconnection.CapIsExact` | crates/mev-hyperliquid/src/websocket.rs:203-210 | the backoff is the capped exact product if and only if that fits 64 bits, or there are fewer than 64 failures and `2^failures * (min mod 2^(64 - failures))` reaches the cap |
| `Reconnection.CapMissed` | crates/mev-hyperliquid/src/websocket.rs:203-210 | two seconds and 63 failures: no pause instead of the cap |
| `Reconnection.BackoffVanishes` | crates/mev-hyperliquid/src/websocket.rs:203-210 | from 64 failures on the power wraps and the backoff is 0 |
| `Reconnection.BackoffAfterFailure` | crates/mev-hyperliquid/src/websocket.rs:159-212 | over any history that ends in a failure: five minutes from the limit on, before that the capped exact power, if the product fits up to the limit |
| `Reconnection.LostConnectionRetriedAtOnce` | crates/mev-hyperliquid/src/websocket.rs:136-212 | after 64 failures in all, a connection that succeeds and is lost is retried without a pause, whatever the configuration |
| `Reconnection.SleepInSlices` | crates/mev-hyperliquid/src/websocket.rs:466-472 | the loop ends having slept exactly the backoff unless shutdown was seen, and then up to that look |
| `MessageQueues.MessageQueue.constructor` | crates/mev-hyperliquid/src/websocket.rs:228-234 | a new queue is empty |
| `MessageQueues.MessageQueue.Push` | crates/mev-hyperliquid/src/websocket.rs:237-252 | appends, dropping the oldest when full; the contents stay a suffix of everything pushed, and pushed = popped + dropped + queued |
| `MessageQueues.MessageQueue.Pop` | crates/mev-hyperliquid/src/websocket.rs:255-257 | takes the oldest, keeping both |
| `MessageQueues.WsService.ForwardNext` | crates/mev-hyperliquid/src/websocket.rs:825-839 | one turn of that loop: takes the oldest message and sends it, or ends with the queue empty or the message lost to a receiver that is gone |
| `MessageQueues.WsService.ProcessMessageQueue` | crates/mev-hyperliquid/src/websocket.rs:823-840 | forwards the queued messages in order until the receiver is gone; the message whose sending fails is lost, those behind it stay |
| `MessageQueues.WsService.HandleMessage` | crates/mev-hyperliquid/src/websocket.rs:710-820 | between messages the queue is empty and has dropped nothing; the forwarded sequence is the trade and order-book messages in order of arrival, all of them until the receiver closes; the counters are exact |
| `MessageQueues.WantedExactly` | crates/mev-hyperliquid/src/websocket.rs:710-820 | the wanted messages are, one for one, those of the arrivals at the wanted positions |
| `MessageQueues.WantedAtIsComplete` | crates/mev-hyperliquid/src/websocket.rs:740-790 | these positions are increasing and are exactly the texts that parse to a trade or an order book |
| `Histogram.LatencyHistogram.Record` | crates/mev-core/src/metrics.rs:426-433 | the new samples, and that recording into a histogram of size zero panics, leaving a poisoned lock that makes later calls no-ops where panics unwind |
| `Histogram.LatencyHistogram.GetStats` | crates/mev-core/src/metrics.rs:435-467 | sorts the samples in place and returns the statistics of the sorted samples, or zeros if there are none |
| `Histogram.SamplesAreRecorded` | crates/mev-core/src/metrics.rs:426-467 | after any mix of records and readings there are min(records, max_samples) samples, a sub-multiset of those recorded |
| `Histogram.UnreadIsLatest` | crates/mev-core/src/metrics.rs:426-433 | without readings the samples are exactly the last `max_samples` records |
| `Histogram.LastAt` | crates/mev-core/src/metrics.rs:426-433 | the last records are, element by element, those at the end of everything recorded |
| `Histogram.RisingIsLatest` | crates/mev-core/src/metrics.rs:426-467 | with readings anywhere too, if latencies never fall |
| `Histogram.RemovesOldestExactly` | crates/mev-core/src/metrics.rs:426-467 | over any run, the samples are the latest ones all along if and only if each sample that makes way for a record exceeds none of those that a reading has seen with it and that are still there |
| `Histogram.LatestAfterReadingExactly` | crates/mev-core/src/metrics.rs:426-467 | after any mix of events that has kept the latest samples, a reading and any number of records keep them if and only if none of the samples pushed out exceeds one that stays |
| `Histogram.ReadingKeepsLatestExactly` | crates/mev-core/src/metrics.rs:428-441 | the same for a single window |
| `Histogram.SamplesAreArranged` | crates/mev-core/src/metrics.rs:426-467 | as long as the condition holds, the samples are the latest ones, those that have been read in ascending order before the others |
| `Histogram.NewerSampleLost` | crates/mev-core/src/metrics.rs:428-430 | two records, a reading and a third record after which the second is gone and the first is not |
| `Histogram.SecondRecordLosesNewer` | crates/mev-core/src/metrics.rs:428-430 | a reading after which one record keeps the latest samples and a second one does not |
| `Histogram.MonitoringKeepsLargest` | crates/mev-core/src/metrics.rs:426-467 | read before every record, the histogram never loses anything larger than what it keeps, the newest sample aside |
| `Histogram.PercentilesAscend` | crates/mev-core/src/metrics.rs:441-454 | min ≤ median ≤ p95 ≤ p99 ≤ max |
| `Histogram.MeanOfSamples` | crates/mev-core/src/metrics.rs:456 | min ≤ mean ≤ max, and it is the mean of the samples in whatever order they were |
| `Histogram.StatsAreQuantiles` | crates/mev-core/src/metrics.rs:441-454 | at least the stated fraction of the samples is at most the median, p95 or p99, and at most that fraction is below it |
| `Histogram.PercentilesExactly` | crates/mev-core/src/metrics.rs:441-454 | p95 is the one sample with at most that fraction of the samples below it and more than that at or below it, and so is p99 |
| `Histogram.MedianIsMidpoint` | crates/mev-core/src/metrics.rs:441-450 | the values with half of the samples on either side form an interval, and the median is its midpoint |
| `AccountPools.AccountPool.constructor` | crates/mev-core/src/simulation_optimizer.rs:141-152 | the queue in its given order and every account unused |
| `AccountPools.AccountPool.GetAccount` | crates/mev-core/src/simulation_optimizer.rs:155-174 | call k returns account k mod n; the queue stays a rotation of the initial list and each usage count the closed form of the selections since the last reset; an empty pool gives nothing |
| `AccountPools.AccountPool.ResetUsage` | crates/mev-core/src/simulation_optimizer.rs:177-181 | all counts are 0 and the queue is where it was |
| `AccountPools.UsageIsCyclic` | crates/mev-core/src/simulation_optimizer.rs:160-170 | counting up to the limit and starting over at one is ((s − 1) mod max_reuse) + 1 |
| `AccountPools.RotatesOnce` | crates/mev-core/src/simulation_optimizer.rs:162-170 | moving the front to the back is the next rotation, and the front is account k mod n |
| `AccountPools.RotationIsFair` | crates/mev-core/src/simulation_optimizer.rs:155-174 | in any run of selections two distinct accounts are selected equally often, up to one |
| `AccountPools.TurnsInRun` | crates/mev-core/src/simulation_optimizer.rs:155-174 | how often an account is selected in a run: the whole rounds, and once more if the partial round reaches it |
| `AccountPools.LeastUsedExactly` | crates/mev-core/src/simulation_optimizer.rs:154-174 | the account taken has the lowest usage count if and only if its count is below the limit, all have had equally many turns since the reset, or the limit is at most one |
| `AccountPools.NotLeastUsed` | crates/mev-core/src/simulation_optimizer.rs:154-174 | with two accounts and a limit of two the sixth selection takes the more used one |

## Left out

- Network, HTTP, WebSocket framing, JSON, ABI decoding, persistence, Prometheus metrics and logging: only their outcomes appear, as arguments.
- Ring: the slot access is one atomic action; weak-memory effects beyond stale index loads, which respect the order one thread sees, and more than one producer or consumer are not modelled; a ring of capacity zero, into which every push panics, only for one thread.
- Cache: read and write locks make each method one step; the clock is read before the write lock is taken, so the times of insertions are arguments in any order; the tie order of the unstable map iteration is left open, and `get_stats` is a quotient of the two counters.
- `SelectorCache.LeastRecentBeforehand`: with equal ages the tie order decides what goes, so nothing is said before the insertion; `LeastRecentExactly` has no such limit.
- Pipeline: workers are steps on a value, not tasks; shutdown only stops a run early, so it adds no state; channels of capacity zero hand items over directly and are not modelled; the histogram call between the two counter updates is in `Histogram` instead.
- Circuit breaker: its methods are atomic steps; finer interleavings of the relaxed atomics are not covered, since state, counter and opening time are separate cells.  Times are whole seconds, and a difference that is negative wraps around as in a release build.
- `CircuitBreaker.FailingClientIsThrottled`, `BreakerLoad.FailingClientsAreThrottled`: the clock does not run backwards during the calls themselves; it may have done so before.
- `BreakerLoad.AllowanceIsReached`, `CircuitBreaker.BudgetIsReached`: the opening time is one that a 64-bit clock can show with a cooldown after it, and there is at least one client.
- `start_polling` in the same file skips polls while open without asking the breaker; nothing is claimed about it.
- RPC client: concurrency limits of cloned clients, success-rate statistics and the pause between attempts, on which no decision depends; response times of equal endpoints are arbitrary.
- Filters: a string's length counts its characters as bytes; filter timing; the rates in `get_stats`; `u64` overflow of the counters.
- `Reconnection.ReconnectionState.GetBackoff`: `u64` products and powers wrap as in a release build; a debug build panics; the `u32` failure counter does not overflow.
- `Reconnection.BackoffIsClosedForm`: requires `min <= max` and that the product fits; `FormsAgree`, `CapIsExact` and `BackoffVanishes` say what happens otherwise.
- State manager: the transactions marked as dropped by a reorg are those of an always empty list; transaction statuses, checkpoints and maintenance timers; a lock poisoned by the abort above ends the run.
- Subscriptions: the record of each coin is a value in the session's map; the main `select!` loop is not a method, any order of its calls is allowed; a coin configured several times is bounded by the number of its initial requests.
- Histogram: NaN samples, on which sorting panics, and rounding of the index products.
- Account pool: `u32` overflow of a usage count cannot happen below `max_reuse`.
- `crates/mev-mempool/src/backpressure.rs`, the averages of `decision_path_manager.rs`, `service_manager.rs`, liquidation stubs, mock strategies, generators and benchmarks.
