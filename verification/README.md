# Verified model of the framework's time, scheduling and concurrency core

A Dafny model of the hand-written state machines of a Go microservice framework, with proofs about whole runs:
the timing wheel, the rolling window and the SRE breaker on top of it, token and leaky buckets, the in-memory
rate-limit store and the limiter that degrades to a local one, the batching executor, single-flight and locked calls,
the consecutive-failure breaker, the discovery cache and the etcd watcher, the LRU cache, the middleware matcher,
and the path templates that three scanners read.

`dafny verify dfyconfig.toml` checks everything.

How the source is modelled:

- Code that updates objects is a class whose methods are proved equal to a step function on the object's value
  (`View()`); the laws over whole runs are lemmas about that step function. String and slice loops are loops.
- Concurrent protocols (`Executor`, `SyncX`, `TokenLimiter`) are step machines: every mutex section, compare-and-swap,
  channel operation or call out is one atomic step of one goroutine, any enabled step may come next, and the laws hold
  after every sequence of steps. `Goroutines` counts who is where.
- A clock reading is a parameter, one per operation (the discovery cache has one before and one after the registry call,
  so that the marks of one answer expire together);
  a random draw is a parameter in [0, 1). Floats are reals, integers are unbounded.
- Timer callbacks are an output: the tasks an operation runs.

| file | source |
|---|---|
| WheelSpec, TimingWheel | pkg/core/collection/timingwheel.go |
| RollingWindow | pkg/core/collection/rollingwindow.go |
| SreBreaker | pkg/resilience/breaker.go |
| TokenBucket | pkg/ratelimit/limiter.go |
| MemoryStore | pkg/ratelimit/store/memory/memory.go |
| TokenLimiter | pkg/ratelimit/tokenlimit.go |
| Executor | pkg/core/executors/periodicalexecutor.go, bulkexecutor.go |
| SyncX | pkg/core/syncx/singleflight.go, lockedcalls.go |
| EtcdWatcher | pkg/registry/etcd/discovery.go |
| CircuitBreaker | pkg/resiliency/breaker.go |
| PathTemplate, Scalars, FieldBinding, PathRoundTrip | pkg/codec/binding.go, pkg/server/service.go |
| Matcher | pkg/middleware/matcher/matcher.go |
| LruCache | pkg/core/collection/cache.go |
| DiscoveryCache | pkg/registry/cache/cache.go |

`Arithmetic`, `Lists` and `Wrappers` hold what several of them share.

## What does not hold of the code

Each item names the lemma or method that shows it happen and the one that says exactly when it does.

- A moved timer, or one set again while pending, may fire one whole revolution late or early. It fires on the requested
  tick if and only if `MovesOnTime`: the new slot is visited no earlier than the old one in the first branch, earlier in the
  second, always in the third (`WheelSpec.MovedFires`, `WheelSpec.SetAgainFires`). `WheelSpec.MovesCanMisfire` gives
  runs from a new wheel with either kind.
- `MoveTimer` with a delay shorter than the interval runs the task at once and keeps it scheduled, so that it runs again
  when it is due (`WheelSpec.HastyMoveFiresTwice`). These extra firings, exactly one for each such move of a pending
  key, are counted apart in `WheelSpec.TimersAreConserved`.
- Sweeping the store shows when a key's limits change between calls. A run shows nothing as long as no request meets a
  swept key with limits other than those of the bucket swept (`MemoryStore.AgreeingStoresAnswerAlike`); the first that
  does shows the sweep if and only if it asks for a number between the old burst and the new one
  (`MemoryStore.ChangeShowsIff`; for two requests, in terms of the requests alone, `MemoryStore.ChangingLimitsShowTheSweep`). Every change of the burst of a key that refills shows in some run
  (`MemoryStore.ChangedBurstShows`). With fixed limits it never shows, also for negative `n`, rate or burst.
- A put that does not decode leaves an older instance in the watcher's map (`EtcdWatcher.StaleInstanceStays`); over every
  run a key is wrong exactly then (`EtcdWatcher.WatcherAgreesUnlessSkipped`). If no snapshot has ever succeeded, the
  next decodable put writes into a nil map and panics (`EtcdWatcher.PanicsAfterFailedSnapshot`), and `Watcher.Next`
  panics in no other case.
- A single-flight caller may be given the result of a function that had returned before the caller came
  (`SingleFlight.StaleResultIsPossible`): exactly if the state it met had its key in the map with a call whose function
  had returned (`SingleFlight.StaleIffReturnedOnEntry`).
- A half-open breaker admits maxRequests + 1 requests (`CircuitBreakers.ProbeBoundIsMet`), in every episode exactly one
  more than it counts (`CircuitBreakers.OneProbeIsNotCounted`).
- The node TTL of the discovery cache takes effect once: until the registry answers again, the first lookup the
  cache serves after the expiry returns nothing at all (ids that repeat aside), and every other lookup returns the whole
  snapshot, expired or not, also after a registry error (`DiscoveryCaches.NodesVanishOnce`,
  `DiscoveryCaches.NodesDoVanish`).
- Bytes fields never survive a path: they are printed as a bracketed list of numbers and that text is read back.
  All other modelled kinds do (`Scalars.ScalarRoundTrip`).
- The three scanners part on a placeholder without a name (`PathRoundTrip.EmptyPlaceholderSplitsScanners`): pathFields
  skips it, ginStylePath gives gin a nameless parameter, BuildPath fails. pathFields and gin agree if and only if the
  template has none (`PathTemplates.SameFieldsUnlessNameless`).
- After `Close` the limiter may stay degraded with nobody probing (`TokenLimiters.CloseCanStrand`): exactly if a monitor
  has stopped because it saw the limiter closed (`TokenLimiters.StrandedIffStopped`).

Comments that the code does not follow, and the model does not either: ginStylePath says that "{}" is copied, but its
guard never applies to it; BuildPath says that an unknown placeholder is left verbatim, but returns an error.

## Model

| member | source | states |
|---|---|---|
| `WheelSpec.PlaceIsExact` | pkg/core/collection/timingwheel.go:189-194 | slot and revolution count together encode exactly the delay's whole number of steps |
| `WheelSpec.TickCountsDown` | pkg/core/collection/timingwheel.go:196-199 | on a tick a pending timer fires exactly if it is due in one tick; otherwise it stays, with its value, one tick closer, whichever of countdown, relocation or nothing the scan does to it |
| `WheelSpec.StepLeavesAlone` | pkg/core/collection/timingwheel.go:169-187 | an operation on other keys neither fires a timer nor changes when it is due |
| `WheelSpec.FiresOnDueTick` | pkg/core/collection/timingwheel.go:261-293 | over any run that leaves a pending key alone, it fires on exactly its due tick, once, with its value |
| `WheelSpec.SetFiresOnTime` | pkg/core/collection/timingwheel.go:201-215 | a key newly set with any positive delay fires on exactly the max(1, delay / interval)-th tick, over any run on other keys and any number of revolutions |
| `WheelSpec.RescheduleDue` | pkg/core/collection/timingwheel.go:217-241 | a rescheduled timer is due delay / interval ticks later if and only if `MovesOnTime`, a condition on the branch and on which of the two slots is visited first; otherwise one revolution late in the first branch and early in the second |
| `WheelSpec.MovedFires` | pkg/core/collection/timingwheel.go:217-293 | over any run that leaves the moved key alone it fires exactly once, on that tick, with its value; on the requested tick if and only if `MovesOnTime` |
| `WheelSpec.SetAgainFires` | pkg/core/collection/timingwheel.go:206-209 | a set on a pending key, then left alone, fires exactly once with the new value, on the requested tick if and only if `MovesOnTime`, otherwise one revolution off |
| `WheelSpec.HastyMoveFiresTwice` | pkg/core/collection/timingwheel.go:223-226 | a move by less than one interval runs the task at once, changes nothing, and the timer fires again on its due tick |
| `WheelSpec.MovesCanMisfire` | pkg/core/collection/timingwheel.go:227-235 | in runs from a new wheel of ten slots: after eight ticks, set for the fifth tick and moved to the first, a key fires on exactly the eleventh; set for the second and moved to the fifteenth, on exactly the fifth |
| `WheelSpec.AbsentNeverFires` | pkg/core/collection/timingwheel.go:243-250 | a key that is removed or was never set does not fire in any run until it is set again |
| `WheelSpec.TimersAreConserved` | pkg/core/collection/timingwheel.go:201-335 | over any run, per key: pending at first + fresh sets + hasty moves = fired + cancelled + still pending, so a key fires at most once per set |
| `WheelSpec.FiresWithLastSetValue` | pkg/core/collection/timingwheel.go:201-335 | over any run of a new wheel, whatever fires, on its tick, by a hasty move or by a drain, fires with the value of the last accepted set on its key |
| `WheelSpec.StepValid` | pkg/core/collection/timingwheel.go:201-335 | every operation keeps the slots and diffs within the ring |
| `TimingWheels.NewTimingWheel` | pkg/core/collection/timingwheel.go:79-83 | refused exactly if the interval or the number of slots is not positive or there is no function to run |
| `TimingWheels.TimingWheel.constructor` | pkg/core/collection/timingwheel.go:84-100 | an empty wheel about to visit slot 0, index and lists in agreement |
| `TimingWheels.TimingWheel.PushBack` | pkg/core/collection/timingwheel.go:252-259 | schedules the entry in its slot and points the index at it, whether or not the index held the key, and restores one live entry per indexed key |
| `TimingWheels.TimingWheel.GetPositionAndCircle` | pkg/core/collection/timingwheel.go:189-194 | the placement of the specification, of which `PlaceIsExact` speaks |
| `TimingWheels.TimingWheel.SetTask` | pkg/core/collection/timingwheel.go:201-215 | the mutable wheel with tombstones and shared entries refines the map of pending timers, for a new key and for a known one |
| `TimingWheels.TimingWheel.MoveTask` | pkg/core/collection/timingwheel.go:217-241 | refines the move on pending timers, the immediate run of a hasty move included; an unknown key changes nothing |
| `TimingWheels.TimingWheel.Reposition` | pkg/core/collection/timingwheel.go:227-240 | the three branches have the effect of `Reschedule` on the one key, and leave index and lists in agreement |
| `TimingWheels.TimingWheel.Replace` | pkg/core/collection/timingwheel.go:235-240 | the old entry becomes a tombstone, a new one takes its place under the same key, and index and lists agree again |
| `TimingWheels.TimingWheel.RemoveTask` | pkg/core/collection/timingwheel.go:243-250 | exactly this key is no longer pending, although its entry stays in the list |
| `TimingWheels.TimingWheel.VisitEntry` | pkg/core/collection/timingwheel.go:263-291 | one scan step drops a tombstone, counts down, relocates or fires exactly this timer, and goes on with the rest of the list |
| `TimingWheels.TimingWheel.ScanAndRunTasks` | pkg/core/collection/timingwheel.go:261-293 | the scan of a list that changes under it fires exactly the due timers, each once, and advances the others of this slot, each once |
| `TimingWheels.TimingWheel.OnTick` | pkg/core/collection/timingwheel.go:196-199 | refines the tick on pending timers; the tasks run are exactly those fired |
| `TimingWheels.TimingWheel.DrainAll` | pkg/core/collection/timingwheel.go:304-319 | hands out every pending timer exactly once and no removed one, and leaves nothing pending |
| `TimingWheels.TimingWheel.SetTimer` | pkg/core/collection/timingwheel.go:104-117 | a bad argument is told apart from a stopped wheel, and in both cases nothing changes; otherwise the wheel takes the set |
| `TimingWheels.TimingWheel.MoveTimer` | pkg/core/collection/timingwheel.go:120-130 | the same for a move, and a refused one runs nothing |
| `TimingWheels.TimingWheel.RemoveTimer` | pkg/core/collection/timingwheel.go:133-143 | a nil key is told apart from a stopped wheel, and in both cases nothing changes; otherwise exactly this key is cancelled |
| `RollingWindows.RollingWindow.constructor` | pkg/core/collection/rollingwindow.go:45-61 | an empty ring that agrees with an empty log, usable exactly if its interval is positive |
| `RollingWindows.RollingWindow.CurrentSpan` | pkg/core/collection/rollingwindow.go:92-98 | the whole epochs since the last update, at most the size |
| `RollingWindows.RollingWindow.ResetNext` | pkg/core/collection/rollingwindow.go:107-109 | empties exactly the next buckets on the ring |
| `RollingWindows.RollingWindow.UpdateOffset` | pkg/core/collection/rollingwindow.go:100-115 | moves the ring to the current epoch with every bucket still holding its epoch's additions of the log, after gaps of any length |
| `RollingWindows.RollingWindow.Add` | pkg/core/collection/rollingwindow.go:64-69 | the ring refines the log with the addition stamped by its epoch |
| `RollingWindows.RollingWindow.Reduce` | pkg/core/collection/rollingwindow.go:73-89 | visits, oldest first, the buckets of exactly the log's epochs in the window |
| `RollingWindows.SeesExactly` | pkg/core/collection/rollingwindow.go:73-89 | those buckets hold exactly the additions of the last `size` epochs, in order, without the current epoch's when it is ignored, however old the last update |
| `RollingWindows.FlatSpan` | pkg/core/collection/rollingwindow.go:159-163 | the buckets of consecutive epochs hold the log between them, nothing twice and nothing missing |
| `RollingWindows.CollectIsFold` | pkg/core/collection/rollingwindow.go:155-157 | whatever a bucket computes, it computes it from its epoch's additions alone |
| `SreBreakers.BucketCounts` | pkg/resilience/breaker.go:129-141 | a bucket's counters are the numbers of successes, failures and drops logged in its epoch, and its sum is their sum |
| `SreBreakers.TallyCounts` | pkg/resilience/breaker.go:242-255 | over any log and window, accepts is the number of successes, total that of successes, failures and drops, and the failing and working buckets are the epochs in which the log holds a failure and a success |
| `SreBreakers.RatioByTheFormula` | pkg/resilience/breaker.go:178-182 | the drop ratio times total + 1 is total - 5 - multiplier * accepts, the multiplier falling from k to 1.1 with the share of failing buckets |
| `SreBreakers.ProbabilityByTheFormula` | pkg/resilience/breaker.go:182-199 | a draw falls below the drop probability if and only if that excess is positive and draw * buckets * (total + 1) < excess * (buckets - working) |
| `SreBreakers.HundredFailures` | pkg/resilience/breaker.go:178-199 | a window of a hundred failures and nothing else drops exactly the draws below 95/101 |
| `SreBreakers.ProbabilityInRange` | pkg/resilience/breaker.go:176-203 | the drop probability is in [0, 1) for every window and every k |
| `SreBreakers.ProtectedNeverDrops` | pkg/resilience/breaker.go:178-185 | nothing is dropped while total - 5 <= 1.1 * accepts |
| `SreBreakers.ProbabilityRises` | pkg/resilience/breaker.go:176-199 | a window with as many requests, no more accepts, no fewer failing and no more working buckets never has a lower drop probability |
| `SreBreakers.FailureNeverHelps` | pkg/resilience/breaker.go:176-199 | relabelling any one logged success as a failure never lowers the drop probability, for every k |
| `SreBreakers.IdleWindowHeals` | pkg/resilience/breaker.go:234-240 | after one whole window without additions the drop ratio is not positive |
| `SreBreakers.SreBreaker.constructor` | pkg/resilience/breaker.go:157-173 | forty buckets where none are given, an empty window whose interval times the buckets falls short of the window by less than one bucket each, usable exactly if the window is at least as long as it has buckets |
| `SreBreakers.SreBreaker.History` | pkg/resilience/breaker.go:242-255 | the tally of the log's window, with no more working or failing buckets than there are |
| `SreBreakers.SreBreaker.WindowCounts` | pkg/resilience/breaker.go:242-255 | the history at any time is the counts of the log over the last `buckets` epochs, the current one included |
| `SreBreakers.SreBreaker.Accept` | pkg/resilience/breaker.go:176-203 | rejects if and only if no probe is due and the draw falls below the SRE formula on the counts of the log's window; lastPass moves exactly on a pass under pressure |
| `SreBreakers.SreBreaker.Healthy` | pkg/resilience/breaker.go:234-240 | exactly if the excess over the counts of the log's window is not positive; true after an idle window |
| `SreBreakers.SreBreaker.Begin` | pkg/resilience/breaker.go:205-209 | a call is rejected if and only if no probe is due and the draw falls below the SRE formula on the counts of the log's window, and only then leaves a drop in the log; other calls may come before it ends |
| `SreBreakers.SreBreaker.Finish` | pkg/resilience/breaker.go:211-224 | whatever came in between, the outcome is logged in the epoch in which the call ends |
| `SreBreakers.SreBreaker.DoReq` | pkg/resilience/breaker.go:205-229 | one call with nothing in between leaves exactly one result in the log: a drop when rejected, its outcome when admitted |
| `TokenBuckets.TokenBucket.constructor` | pkg/ratelimit/limiter.go:33-40 | a full bucket |
| `TokenBuckets.TokenBucket.AllowN` | pkg/ratelimit/limiter.go:47-63 | takes from the bucket as the specification does |
| `TokenBuckets.LevelIsLeastBudget` | pkg/ratelimit/limiter.go:47-63 | the level at a request is the least, over all earlier requests, of burst + rate * elapsed - granted since |
| `TokenBuckets.GrantedIffWithinEveryLaw` | pkg/ratelimit/limiter.go:47-63 | a request is granted if and only if, from every earlier request on, the grants and it stay within burst + rate * elapsed |
| `TokenBuckets.GrantsAreBounded` | pkg/ratelimit/limiter.go:47-63 | in any stretch of any run grants stay within burst + rate * elapsed, and the level within [0, burst] |
| `TokenBuckets.GrantsAreLawful` | pkg/ratelimit/limiter.go:47-63 | the answers alone obey the law: each is yes if and only if, from every earlier request on, what was given and it stay within burst + rate * elapsed |
| `TokenBuckets.ServeAll` | pkg/ratelimit/limiter.go:33-63 | a new bucket object's answers to any sequence of requests are the lawful ones |
| `LeakyBuckets.AdmissionIsBounded` | pkg/ratelimit/limiter.go:86-106 | over any run water stays within [0, capacity] and at most capacity + floor(elapsed / interval) are admitted since creation |
| `LeakyBuckets.WaterIsHighestLevel` | pkg/ratelimit/limiter.go:86-106 | the water a request finds is the highest, over all earlier requests, of what was admitted since less what has leaked since |
| `LeakyBuckets.AdmissionIsLawful` | pkg/ratelimit/limiter.go:86-106 | a request is admitted if and only if, from every earlier request on, the admissions less the whole intervals leaked stay below the capacity, each leak counted from the request of the last one |
| `LeakyBuckets.AllowAll` | pkg/ratelimit/limiter.go:77-106 | a new bucket object's answers to any requests in order are the lawful ones |
| `LeakyBuckets.LeakyBucket.constructor` | pkg/ratelimit/limiter.go:77-83 | an empty bucket |
| `LeakyBuckets.LeakyBucket.Allow` | pkg/ratelimit/limiter.go:86-106 | leaks whole intervals only and admits as the specification does |
| `MemoryStore.SweepingIsInvisible` | pkg/ratelimit/store/memory/memory.go:53-111 | every run with a monotone clock and fixed limits per key gets the same answers from the sweeping store as from one that never sweeps |
| `MemoryStore.AgreeingStoresAnswerAlike` | pkg/ratelimit/store/memory/memory.go:53-111 | a run in which no request meets a swept key with limits other than those of the bucket swept gets the same answers with and without sweeping, and leaves stores that still agree |
| `MemoryStore.RefilledIsFull` | pkg/ratelimit/store/memory/memory.go:104-110 | the sweep drops only buckets that are full again |
| `MemoryStore.AnsweredAlikeUnlessShown` | pkg/ratelimit/store/memory/memory.go:53-71 | from a swept and an unswept store that agree, any operation with any limits is answered alike if and only if it is not a request on a swept key for a number between the old burst and the new |
| `MemoryStore.ChangeShowsIff` | pkg/ratelimit/store/memory/memory.go:53-111 | in any run, whatever its limits, the answers up to and including the first operation that may clash differ if and only if that one is a request on a key swept by then, for a number between the burst it had and the new one |
| `MemoryStore.ChangingLimitsShowTheSweep` | pkg/ratelimit/store/memory/memory.go:53-111 | for any two requests on one key: the answers of a sweeping store differ if and only if the second comes when a sweep is due, the bucket has had time to refill, and the number lies between the two bursts |
| `MemoryStore.ChangedBurstShows` | pkg/ratelimit/store/memory/memory.go:60-64 | every change of the burst of a key that refills shows in some run of two requests |
| `MemoryStore.StoreIsTokenBuckets` | pkg/ratelimit/store/memory/memory.go:53-71 | over any run of the sweeping store each key is answered as by a token bucket of its own, whatever the other keys do |
| `MemoryStore.BucketAnswersByTheLaw` | pkg/ratelimit/store/memory/memory.go:119-126 | so a request is allowed if and only if the key's grants and it stay within burst + rate * elapsed since each earlier request |
| `MemoryStore.StoreIsLawful` | pkg/ratelimit/store/memory/memory.go:53-126 | over any run of the sweeping store, each key's answers alone obey the law of its rate and burst |
| `MemoryStore.CountNamesTheWindow` | pkg/ratelimit/store/memory/memory.go:74-88 | a count c says that the hit c - 1 places earlier opened the window, because the one before was over, and that all hits since came before its end |
| `MemoryStore.StoreIsCountingWindows` | pkg/ratelimit/store/memory/memory.go:74-88 | over any run of the sweeping store each hit on a key is answered with its place in its window |
| `MemoryStore.MemStore.constructor` | pkg/ratelimit/store/memory/memory.go:44-50 | an empty store |
| `MemoryStore.MemStore.TakeTokens` | pkg/ratelimit/store/memory/memory.go:53-71 | one step of the sweeping store |
| `MemoryStore.MemStore.IncrWindow` | pkg/ratelimit/store/memory/memory.go:74-88 | one step of the sweeping store |
| `MemoryStore.MemStore.CleanupLocked` | pkg/ratelimit/store/memory/memory.go:93-111 | within sixty seconds of the last sweep nothing changes; after that exactly the windows that are over and the buckets that have had time to refill go, and the time is noted |
| `MemoryStore.MemStore.SweepWindows` | pkg/ratelimit/store/memory/memory.go:99-103 | deletes exactly the windows that are over |
| `MemoryStore.MemStore.SweepBuckets` | pkg/ratelimit/store/memory/memory.go:106-110 | deletes exactly the buckets that have had time to refill |
| `TokenLimiters.StepKeepsInv` | pkg/ratelimit/tokenlimit.go:65-124 | every step of every interleaving keeps the counts of agents and of flagged monitors in line with alive and monitorStarted |
| `TokenLimiters.DownIffOneAgent` | pkg/ratelimit/tokenlimit.go:65-113 | in every reachable state there are never two recovery agents, and until Close the limiter is down if and only if there is one |
| `TokenLimiters.WinnerStartsMonitor` | pkg/ratelimit/tokenlimit.go:78-89 | the caller that wins the swap never finds a monitor started, so it always starts one |
| `TokenLimiters.RecoveryIsPossible` | pkg/ratelimit/tokenlimit.go:95-113 | from every reachable open state that is down there is an agent whose steps alone, with those of the monitor it has yet to start, bring the limiter back |
| `TokenLimiters.StrandedIffStopped` | pkg/ratelimit/tokenlimit.go:95-124 | over every run the limiter is down with nobody to bring it back if and only if some monitor has stopped on the closed channel |
| `TokenLimiters.CloseCanStrand` | pkg/ratelimit/tokenlimit.go:100-103 | a run from the start that ends so |
| `Executors.StepKeepsInv` | pkg/core/executors/periodicalexecutor.go:62-193 | every step of every interleaving keeps the tasks, the batches, the guard, the counters and the hand-overs in line |
| `Executors.NoTaskIsLostOrDuplicated` | pkg/core/executors/periodicalexecutor.go:62-142 | in every reachable state the tasks added are, in order, those of the batches taken and then of the container; every batch taken is in exactly one place: with a goroutine, in the channel, or executed; no batch is empty or over the limit |
| `Executors.AddTakesIffFull` | pkg/core/executors/periodicalexecutor.go:94-110 | an Add takes the batch, its own task included, if and only if that makes the container full |
| `Executors.SomeoneWillFlush` | pkg/core/executors/periodicalexecutor.go:94-142 | in every reachable state a non-empty container has a flusher looping, about to start or about to flush for the last time, a blocked Add has one looping or about to start, and there are never two |
| `Executors.QuitStrandsNobody` | pkg/core/executors/periodicalexecutor.go:180-193 | when a flusher may quit, nobody is sending, nothing is in the channel, and nobody waits for a confirmation |
| `Executors.QuietMeansAllExecuted` | pkg/core/executors/periodicalexecutor.go:112-142 | once no goroutine is left, everything added has been executed, each batch exactly once |
| `Executors.SomeoneCanMove` | pkg/core/executors/periodicalexecutor.go:62-142 | in every reachable state each goroutine can move, or waits for the channel or its confirmation on a flusher that can |
| `Executors.AddToContainer` | pkg/core/executors/periodicalexecutor.go:94-110 | the lock section of an Add on the bulk container does to its tasks exactly what the protocol's step does: same container, same batch taken, if any |
| `Executors.EmptyContainer` | pkg/core/executors/periodicalexecutor.go:70-77 | so does the lock section of a Flush, an empty batch being none |
| `Executors.BulkContainer.AddTask` | pkg/core/executors/bulkexecutor.go:76-79 | appends, and reports full exactly from maxTasks on |
| `Executors.BulkContainer.RemoveAll` | pkg/core/executors/bulkexecutor.go:85-89 | gives all tasks in order and leaves none |
| `SingleFlight.StepKeepsInv` | pkg/core/syncx/singleflight.go:40-80 | every step keeps callers, shared calls, map and results in line |
| `SingleFlight.OneExecutionPerKey` | pkg/core/syncx/singleflight.go:58-80 | in every reachable state at most one caller per key executes |
| `SingleFlight.ResultsAreShared` | pkg/core/syncx/singleflight.go:40-80 | every caller that has returned has the value of a call on its key that was in the map when it came, each finished call was executed by exactly one of its callers, and the execution was still running when the caller came if and only if it did not find it returned |
| `SingleFlight.ResultIsWhatFnReturned` | pkg/core/syncx/singleflight.go:72-80 | over every run, a caller is given what the function of its call's leader returned in one step of the run, and the leader came in with the caller's key |
| `SingleFlight.ExecutesUnlessKeyIsLed` | pkg/core/syncx/singleflight.go:58-70 | in every reachable state a caller that comes in executes its own function if and only if nobody leads a call on the same key |
| `SingleFlight.StaleIffReturnedOnEntry` | pkg/core/syncx/singleflight.go:58-80 | over every run, a caller is given the result of an execution that was over before it came if and only if the state in which it came in had its key in the map with a call whose function had returned |
| `SingleFlight.SomeoneCanMove` | pkg/core/syncx/singleflight.go:58-80 | no caller is stuck: it can move, or waits for a leader that can |
| `SingleFlight.StaleResultIsPossible` | pkg/core/syncx/singleflight.go:72-80 | a run in which a caller gets the result of a function that returned before the caller came |
| `LockedCalls.StepKeepsInv` | pkg/core/syncx/lockedcalls.go:26-53 | every step keeps the map, the wait groups and their owners in line |
| `LockedCalls.MutualExclusion` | pkg/core/syncx/lockedcalls.go:37-53 | in every reachable state at most one caller per key runs |
| `LockedCalls.EveryCallerRunsOnce` | pkg/core/syncx/lockedcalls.go:26-35 | a caller that has returned has run its own function exactly once, and none runs it twice |
| `LockedCalls.RunsUnlessKeyIsBusy` | pkg/core/syncx/lockedcalls.go:26-41 | in every reachable state a caller that looks runs at once if and only if nobody is busy with the same key |
| `LockedCalls.SomeoneCanMove` | pkg/core/syncx/lockedcalls.go:43-50 | no caller is stuck: it can move, or waits for a wait group whose owner can |
| `EtcdWatcher.AgreesUnlessSkipped` | pkg/registry/etcd/discovery.go:114-126 | patching a snapshot with a stream that starts before it: a key ends up as on the server if and only if its last event is not an undecodable put over an instance still held |
| `EtcdWatcher.WatcherConverges` | pkg/registry/etcd/discovery.go:57-146 | over every run of batches and resyncs, once the stream has caught up with the last snapshot and if every value decodes, the local map is the server's at the last revision consumed |
| `EtcdWatcher.WatcherAgreesUnlessSkipped` | pkg/registry/etcd/discovery.go:95-146 | the same key by key whatever decodes: over every run the watcher is right about a key if and only if the last event on it is not an undecodable put over an instance still held |
| `EtcdWatcher.StaleInstanceStays` | pkg/registry/etcd/discovery.go:118-121 | any decodable put before the snapshot and any undecodable one after it leave the old instance in the map |
| `EtcdWatcher.PanicsAfterFailedSnapshot` | pkg/registry/etcd/discovery.go:95-126 | a new watcher whose first read fails reports it, and panics on the next decodable put |
| `EtcdWatcher.Watcher.Next` | pkg/registry/etcd/discovery.go:95-128 | a snapshot first and after a broken watch, an error that changes nothing on a closed one, else the map patched by the events in order; panics exactly on a decodable put before any snapshot |
| `EtcdWatcher.Watcher.FullSnapshot` | pkg/registry/etcd/discovery.go:131-146 | the map holds each pair's own instance under its key, for the pairs that decode, and nothing else; a failed read changes nothing |
| `EtcdWatcher.Watcher.Snapshot` | pkg/registry/etcd/discovery.go:149-155 | lists every instance of the map once |
| `EtcdWatcher.SnapshotDecodes` | pkg/registry/etcd/discovery.go:138-144 | a map rebuilt from a listing of the server's map is that map decoded |
| `EtcdWatcher.Open` | pkg/registry/etcd/discovery.go:95-102 | the first call on a new watcher leaves the object in the state from which the runs of batches and resyncs start |
| `EtcdWatcher.Follow` | pkg/registry/etcd/discovery.go:103-128 | every later call does to the object what its batch or resync does within the server's history, so the convergence of runs is that of the object |
| `CircuitBreakers.RunKeepsInv` | pkg/resiliency/breaker.go:109-158 | in every interleaving of arrivals and completions: Closed means fewer than five failures in a row, otherwise exactly five |
| `CircuitBreakers.OpensOnFifthFailure` | pkg/resiliency/breaker.go:136-146 | a closed breaker admits everything and opens on exactly the completion that makes five failures in a row |
| `CircuitBreakers.OpensExactlyOnFifth` | pkg/resiliency/breaker.go:130-158 | in any run of a new breaker, however often it has opened and closed, it admits everything while closed and leaves that state on exactly the completion that makes five failures in a row since it last closed |
| `CircuitBreakers.OpenRejectsUntilTimeout` | pkg/resiliency/breaker.go:113-120 | until a request arrives after the timeout, nothing is admitted and nothing changes, whenever earlier requests complete |
| `CircuitBreakers.OneProbeIsNotCounted` | pkg/resiliency/breaker.go:113-127 | in every run a half-open episode has admitted one more than it has counted, so at most maxRequests + 1 |
| `CircuitBreakers.ProbeBoundIsMet` | pkg/resiliency/breaker.go:113-127 | maxRequests + 1 late arrivals are all admitted and the next one is not |
| `CircuitBreakers.FirstCompletionDecides` | pkg/resiliency/breaker.go:147-156 | the first completion while half-open opens or closes the breaker, whatever arrived before |
| `CircuitBreakers.CircuitBreaker.constructor` | pkg/resiliency/breaker.go:76-89 | a closed breaker with a clean record; a positive limit and timeout are kept, others become 1 and thirty seconds |
| `CircuitBreakers.CircuitBreaker.BeforeRequest` | pkg/resiliency/breaker.go:109-128 | the whole new state and the admission of the specification's arrival |
| `CircuitBreakers.CircuitBreaker.AfterRequest` | pkg/resiliency/breaker.go:130-158 | the whole new state of the specification's completion |
| `PathTemplates.TokensSpellTemplate` | pkg/codec/binding.go:136-156 | the placeholders and literals spell out the template again; no placeholder contains a closing brace, and no opening brace that one could close is a literal |
| `PathTemplates.OnlyReading` | pkg/codec/binding.go:136-156 | there is no other sequence of placeholders and literals like that |
| `PathTemplates.NameStandsBeforeGlob` | pkg/server/service.go:265-272 | what stands before the first '=' is the name for every scanner; gin is given it after '*' if there is a glob, after ':' else |
| `PathTemplates.PathFields` | pkg/codec/binding.go:136-156 | the names of those same placeholders, in order, without the empty ones |
| `PathTemplates.GinStylePath` | pkg/server/service.go:250-275 | those same placeholders in gin's notation, with everything else copied |
| `PathTemplates.SameFieldsUnlessNameless` | pkg/server/service.go:258-272 | gin is given the same names as pathFields if and only if no placeholder is nameless, and otherwise more |
| `PathRoundTrip.BuildPath` | pkg/codec/binding.go:37-65 | those same placeholders replaced by their fields' text, with an error exactly if one of them has none |
| `PathRoundTrip.NamelessNeverBuilds` | pkg/codec/binding.go:54-61 | a nameless placeholder makes BuildPath fail, unless a field has the empty name |
| `PathRoundTrip.EmptyPlaceholderSplitsScanners` | pkg/server/service.go:258-264 | on "{}": no field, gin's ":", and an error |
| `PathRoundTrip.BindPath` | pkg/codec/binding.go:22-30 | populates each named field from its parameter, in order, up to the first error |
| `PathRoundTrip.BindsIffEachDoes` | pkg/codec/binding.go:22-30 | binding succeeds if and only if each named field takes its parameter, whatever the message holds |
| `Scalars.IntRoundTrip` | pkg/codec/binding.go:226-245 | a printed integer within the range of its kind reads back as itself |
| `Scalars.PrintsDecimal` | pkg/codec/binding.go:103-110 | a number is printed as digits whose places add up to it, without a leading zero, after a minus sign if negative |
| `Scalars.ReadsDecimal` | pkg/codec/binding.go:226-237 | a text is read as an integer if and only if it is digits after at most one sign, whose value is within the kind's range |
| `Scalars.ReadsNatural` | pkg/codec/binding.go:238-249 | a text is read as an unsigned integer if and only if it is digits whose value is within the kind's range |
| `Scalars.ReadsBool` | pkg/codec/binding.go:220-225 | exactly the twelve texts that are read as a boolean |
| `Scalars.PrintsByteList` | pkg/codec/binding.go:115-116 | a byte string is printed as decimal numbers in brackets, separated by spaces |
| `Scalars.ScalarRoundTrip` | pkg/codec/binding.go:97-118 | parsing what was printed gives the value back if and only if the kind is not bytes |
| `FieldBinding.FieldStringLoads` | pkg/codec/binding.go:71-93 | a dotted name is printed as the scalar found under its path of nested fields |
| `FieldBinding.UnsetPrintsEmpty` | pkg/codec/binding.go:89-91 | an unset field, however deep, is printed as the empty string |
| `FieldBinding.FindIsExact` | pkg/codec/binding.go:73-76 | a name finds the first field so named, else the first whose JSON name it is, else nothing |
| `FieldBinding.UnknownField` | pkg/codec/binding.go:77-79 | an unknown field is an error when printing and is ignored when binding |
| `FieldBinding.DottedNamesDescend` | pkg/codec/binding.go:80-85 | a dotted name is split at its first dot, and the rest is looked up in the message field named before it |
| `FieldBinding.PopulateStores` | pkg/codec/binding.go:162-184 | populating a dotted name stores the parsed scalar under that path, making the messages between, and fails exactly if the text does not parse |
| `FieldBinding.LoadStored` | pkg/codec/binding.go:204-211 | what is stored is there, except that a zero value without explicit presence counts as unset |
| `FieldBinding.StoreElsewhere` | pkg/codec/binding.go:204-211 | and leaves every path that leads elsewhere alone |
| `FieldBinding.ScalarPathsDiverge` | pkg/codec/binding.go:162-184 | two names of scalar fields lead to the same field or part somewhere, so binding one never spoils another |
| `PathRoundTrip.PathRoundTrips` | pkg/codec/binding.go:22-65 | building a path from a message, routing it by segment under gin's form of the template and binding it into any message restores every field the template names, nested ones included |
| `Matchers.WalkIsLongestFirst` | pkg/middleware/matcher/matcher.go:79-94 | any order by length alone walks along the operation's own prefixes from the longest to the shortest |
| `Matchers.OrderDoesNotMatter` | pkg/middleware/matcher/matcher.go:69-94 | so two orders of map iteration give the same middlewares |
| `Matchers.Matcher.RebuildSorted` | pkg/middleware/matcher/matcher.go:69-75 | exactly the prefixes, each once, longest first, in whatever order of iteration |
| `Matchers.Matcher.Use` | pkg/middleware/matcher/matcher.go:46-49 | appends to the defaults and nothing else |
| `Matchers.Matcher.Add` | pkg/middleware/matcher/matcher.go:52-65 | appends to exactly the prefix or the exact selector named, and keeps the order admissible |
| `Matchers.Matcher.Match` | pkg/middleware/matcher/matcher.go:79-94 | defaults, then the exact match, then one entry for every registered prefix of the operation, from the operation itself down to the empty one |
| `LruCaches.LimitedIsMostRecent` | pkg/core/collection/cache.go:196-208 | a list that drops its last key over the limit holds exactly the most recently used distinct keys |
| `LruCaches.HoldsTheMostRecent` | pkg/core/collection/cache.go:93-106 | over any run of sets and gets the cache holds exactly the most recently used distinct keys up to its limit, in order |
| `LruCaches.HeldUnlessOvertaken` | pkg/core/collection/cache.go:71-106 | over any run of sets, gets and deletes, a key just used and then left alone is still held if and only if at no time as many other keys as the limit came before it |
| `LruCaches.HoldsTheLastSet` | pkg/core/collection/cache.go:71-106 | over any run of sets, gets and deletes, a held key has the value of the last set on it, a deleted one is not held, and one just set is |
| `LruCaches.RunSound` | pkg/core/collection/cache.go:71-151 | every run keeps the data keys equal to the listed keys, each once, at most the limit |
| `LruCaches.Cache.constructor` | pkg/core/collection/cache.go:187-194 | an empty cache |
| `LruCaches.Cache.SetWithExpire` | pkg/core/collection/cache.go:93-98 | list, element index and data, with the callback from the list into the data, refine the ideal cache |
| `LruCaches.Cache.DoGet` | pkg/core/collection/cache.go:142-151 | returns the value exactly if held, and a hit alone makes the key most recent |
| `LruCaches.Cache.Delete` | pkg/core/collection/cache.go:71-75 | exactly this key is gone from list, index and data, although the callback deletes it a second time |
| `LruCaches.Cache.Touch` | pkg/core/collection/cache.go:196-208 | the key comes first, the others keep their order, and the last goes exactly over the limit |
| `LruCaches.Cache.RemoveOldest` | pkg/core/collection/cache.go:216-220 | exactly the last key is gone from list, index and data |
| `LruCaches.Cache.RemoveElement` | pkg/core/collection/cache.go:222-227 | exactly the element's key is gone from list, index and data |
| `LruCaches.Cache.ValidIsSound` | pkg/core/collection/cache.go:153-157 | agreement of list, index and data is soundness of the ideal cache |
| `DiscoveryCaches.ResultsComeFromTheLastSuccess` | pkg/registry/cache/cache.go:113-153 | over any run a result is a sub-list of the registry's latest answer, and an error is returned if and only if the registry has just failed and there is no instance to fall back on |
| `DiscoveryCaches.RegistryIsSpared` | pkg/registry/cache/cache.go:159-201 | over any run the registry is asked neither within the TTL of a success nor within the retry interval of an attempt while a non-empty snapshot is held |
| `DiscoveryCaches.AsksIff` | pkg/registry/cache/cache.go:113-201 | over any run a lookup asks the registry if and only if it does not come within the TTL of an earlier success nor, while the last success gave instances, within the retry interval of an earlier attempt; one that asks and is answered returns that answer |
| `DiscoveryCaches.PruneIsExact` | pkg/registry/cache/cache.go:172-188 | pruning keeps exactly the unexpired instances, in order, and deletes exactly the expired marks of listed ones |
| `DiscoveryCaches.NodesVanishOnce` | pkg/registry/cache/cache.go:113-188 | over any run, until the next success: a lookup returns the whole snapshot, also after a registry error, unless it is the first one served from the cache after the expiry, and that one returns only ids that repeat |
| `DiscoveryCaches.ExpiredNodesComeBack` | pkg/registry/cache/cache.go:172-188 | over any run, until the next success: an answer of distinct nodes is gone as a whole from the first lookup served after its expiry, and back in every later one |
| `DiscoveryCaches.NodesDoVanish` | pkg/registry/cache/cache.go:180-186 | three lookups of one node: there, gone, there again |
| `DiscoveryCaches.DiscoveryCache.constructor` | pkg/registry/cache/cache.go:81-95 | nothing is known of any name |
| `DiscoveryCaches.DiscoveryCache.Fetch` | pkg/registry/cache/cache.go:113-153 | the four maps of the cache refine one entry per name, and no other name changes |
| `DiscoveryCaches.DiscoveryCache.Record` | pkg/registry/cache/cache.go:142-151 | an answer is kept with its expiry and one mark per id, all of the same time; no other name changes |
| `DiscoveryCaches.DiscoveryCache.PruneExpiredNodes` | pkg/registry/cache/cache.go:172-188 | the loop that deletes marks while it goes refines `Prune`, and no other name changes |

## Left out

- The timing wheel's goroutine and its select over channels, and the workers that run drained tasks.
- Re-entrant timer callbacks, and with them the expiry timers of the cache; its read-through Take and statistics.
- A second clock reading inside updateOffset; floating-point rounding and int64 overflow everywhere.
- PeriodicalExecutor.Wait and the completion of a spawned execution; the chunk, delay and less executors.
- Panics inside the callers' functions: single-flight, locked calls, the consecutive-failure breaker.
- The value a locked call returns: it is its own function's, and the model counts executions only.
- The token limiter's answers, from the store or from the local bucket; only who is alive and who probes is modelled.
- The executor, single-flight, locked calls and the limiter as classes: interleavings need steps on values.
- `PathRoundTrip.BuildPath`: a placeholder that names a message field that is set, or an enum field with an unknown number, is an error here; the library prints the first as its own text format and panics on the second.
- `PathRoundTrip.BindPath`: repeated fields, which the source fills from a comma-separated list, and float kinds are not modelled.
- Map fields and BindQuery.
- `MemoryStore.ChangeShowsIff`: up to the first clash; after a clash that does not show, the stores hold two different token buckets for the key, and their later answers are those of two limiters with different settings.
- URL escaping and gin's own router: routing is segment by segment.
- `PathRoundTrip.PathRoundTrips`: templates whose placeholders are whole segments without a glob, fields of any modelled kind but bytes whose text is not empty and has no slash; gin's wildcard form swallows the rest of the path.
- `LruCaches.HoldsTheMostRecent`: runs without deletes; runs with them are the business of `LruCaches.HeldUnlessOvertaken`.
- Deep copies of discovered instances, the status map of the discovery cache, and the single-flight in front of it.
- The cache without a limit (emptyLru), which has no recency order.
- Clients of etcd, consul, eureka, nacos, polaris and kubernetes; Redis scripts and broker; servers, tracing, metrics and options.
- mr, hedge and the adaptive shedder: they rest on channel closing, panics or CPU sampling.
- Code generators and templates: text emission with only easy facts.
