# Verification of the caching proxy

A Dafny model of the proxy's stateful core and proofs about every run of it.

| part | state machine or specification | imperative code | theorems |
|---|---|---|---|
| write-behind pipeline | `WriteBehind` | `WriteBehindWorker` | `WriteBehind`, `WriteBehindProgress`, `WriteBehindFifo`, `WriteBehindOrder`, `WriteBehindExact`, `WorkerRefines` |
| cache service | `CacheService` | `CacheServer` (over the `Router` object) | `GetOutcomes`, `SetOutcomes`, `DeleteOutcomes`, `WorkerOutcomes`, `Provenance`, `LocalContents`, `ServiceOrder`, `ReadYourWrites`, `OversizedReads`, `SequentialReads`, `DeletedKeys`, `ServerReads` |
| circuit breaker | `CircuitBreaker` (functions), `CircuitInterleaving` (N callers) | `CircuitBreaker` (classes) | `CircuitRuns`, `CircuitInterleaving`, `CircuitHistory`, `CircuitRecovery` |
| health checks | `Health` | `HealthChecker` | `Health`, `HealthOutcomes`, `Offering` |
| routing | `Routing` | `Router` | `Routing`, `RouteDecisions` |
| load balancing | `Balance` | `LoadBalancer` | `Balance`, `FairShares` |
| versioned stores | `Stores`, `VersionedReads` | `Stores` (classes) | `StoreHistories`, `StoreRuns`, `NamedVersions`, `VersionedReads`, `AtomicCalls`, `ExactVersions`, `Lifetimes` |

`OneGoroutine` and `StateReads` hold what the theorems about a request left alone share.

Concurrency is modelled by total step functions: an action that is not enabled, or an answer that store and
router could not give, leaves the state alone, so a run is any sequence of actions and a theorem about all
sequences is a theorem about all interleavings. Code that changes fields is written as classes whose methods
are proved equal to a step, a run, or a specification function. What the outside world answers (stores,
probes, clocks, random draws) is a parameter.

## Where the code and its own description differ

The model follows the code; each difference is a theorem with the exact condition.

- The configuration offers blacklist rules, but they keep no key away from any backend (`Routing.BlacklistsChangeNothing`).
- An oversized value is meant to bypass the local cache, but the local cache is itself a routed backend; the limit holds exactly when the router cannot answer it (`LocalContents.LimitHoldsIff`).
- Writes without a matching hint or rule go by weight, reads by map order (`Routing.AgreeIff`). So in sequential use a completed Set within the size limit is sure to be read back exactly when a hint or rule leads past the local cache, or nothing else leaves the router a choice (`ReadYourWrites.ReadsBackIff`).
- A Set above the size limit does not clear the value the local cache has: it is sure to be read back exactly when, besides, the local cache has none or is passed by (`OversizedReads.BigReadsBackIff`).
- Until it is delivered, a write-behind value need be nowhere but in the queue: where the router never answers the local cache, it can be read back at any moment exactly when that cache neither refuses, loses nor hides it (`SequentialReads.ReadsBehindIff`). In any state, what a Get answers is decided by the local cell and the read routes (`GetOutcomes.ReadsIff`).
- A deleted key comes back exactly when a request, a backfill, a queued write or a retry was still on its way to write it (`DeletedKeys.StaysGoneIff`).
- A protocol ping sets the healthy flag itself and so bypasses the thresholds (`Health.FlagFollowsEvictionIff`).
- The half-open path of `Allow` does not look at the state again, so two callers can get a call through an open breaker (`CircuitInterleaving.AdmitsWhileOpenIff`); a success threshold above the half-open limit plus one leaves the breaker rejecting forever (`CircuitRuns.StuckIff` for calls in sequence, `CircuitRecovery.DeadlockIff` for N interleaved callers).
- The cache service never reports a failure to its breakers, so they never reject (`CircuitRuns.NeverTripsUntold`, `CircuitInterleaving.NeverTripsUntold`). That is why the breaker does not appear in `CacheService`.
- On a fixed routing there are four ways for write-behind to end otherwise than write-through of the same Sets in their order: a retry (`WriteBehindExact.RetryReorders`), the fallback of a full queue (`FallbackReorders`), a Set that passes the queue by, being oversized or of another mode (`PassReorders`), and a routing hint, which the worker does not know (`HintIsLost`). Without them it never does (`WriteBehindExact.AlwaysRefinesIff`).
- After an expiry the in-memory store goes on counting versions where redis starts again (`StoreRuns.StoresAgree`); a Delete lets an in-flight Get answer a version below its value's (`VersionedReads.SoundIff`); and a Get reports another version than its value's exactly where the cache refuses a write or applies it late, or calls overlap (`ExactVersions.ExactIff`).
- A user key that is another key followed by ":version" breaks the pairing of redis keys (`StoreRuns.PairedIff`) and what their versions say (`NamedVersions.RedisVersionIff`).
- A threshold left at zero in the breaker's configuration breaks the meaning of its counters (`CircuitRuns.CountersTellIff`).
- A health check that is under way while its backend is unregistered can evict the id after it is gone (`HealthChecker.UnregisterDuringCheck`).
- Where its 64-bit counter wraps, round-robin is fair only for numbers of backends that divide 2^64 (`Balance.AlwaysFairIff`).
- Installing rules drops all hint routes (`Router.Router.SetRules`).

## Model

| member | source | states |
|---|---|---|
| WriteBehind.Conservation | internal/cache/cache.go:323-480 | In every interleaving each accepted write is in exactly one of queue, batch, sleeping retries, delivered, given up, and nothing else is in any of them |
| WriteBehind.StepConserves | internal/cache/cache.go:408-480 | No single step of request, worker or retry goroutine copies or loses an item |
| WriteBehind.FateOfAWrite | internal/cache/cache.go:443-480 | A write is delivered iff one attempt succeeded and given up iff exactly four attempts failed; never more attempts than that |
| WriteBehind.PendingIsGenuine | internal/cache/cache.go:443-480 | Every pending item still carries the accepted entry, and its retry counter, in 0..3, is the number of its failed attempts |
| WriteBehind.DrainNeverBlocks | internal/cache/cache.go:408-433 | In every reachable state the queue holds at most 10000 items, the batch at most 100 before the drain, and a drain about to receive finds an item |
| WriteBehindFifo.FirstInFirstTried | internal/cache/cache.go:408-480 | In every interleaving, whatever fails and whenever retries wake: the items attempted, then the batch, then the queue are the items sent to the queue in their order, and what is delivered, given up, asleep or written is what the logged attempts and the bypassing writes make it |
| WriteBehindProgress.InternalStepFalls | internal/cache/cache.go:408-480 | A measure of remaining retries, location and worker phase falls at every step of the worker or a retry, in every phase including the drain |
| WriteBehindProgress.BoundedSteps | internal/cache/cache.go:408-480 | Once accepting stops, the pipeline takes at most 45 steps per pending item plus six, whatever the backends answer |
| WriteBehindProgress.StuckMeansFinished | internal/cache/cache.go:408-433 | A pipeline with no step left is empty when running and stopped when closed: it never deadlocks |
| WriteBehindProgress.EveryWriteSettles | internal/cache/cache.go:408-480 | Without Close, every accepted write is delivered or given up when no step is left |
| WriteBehindProgress.CloseAttemptsEverything | internal/cache/cache.go:410-420 | Whatever was in queue or batch when the worker took the stop branch has been attempted when it has stopped |
| WriteBehindProgress.UnfinishedAfterClose | internal/cache/cache.go:410-420 | Whatever is unfinished after the stop has failed at least once or was enqueued after the drain's last emptiness check |
| WriteBehindOrder.KeysRefineWriteThrough | internal/cache/cache.go:283-340 | For any set of keys without failed attempts or bypassing writes: deliveries follow acceptance, and after draining the backends hold on them what write-through would have left |
| WriteBehindOrder.RunRefinesWriteThrough | internal/cache/cache.go:283-340 | In a clean run delivered ++ batch ++ queue is the accepted sequence, and drained backends equal synchronous write-through |
| WriteBehindExact.AlwaysRefinesIff | internal/cache/cache.go:187-480 | On a fixed routing, drained write-behind equals write-through of all Sets in their order, each routed by its own hint, in every run and from any contents, iff no attempt may fail, no Set may find the queue full, none may pass the queue by, and no hint in use leads a key elsewhere |
| WriteBehindExact.RetryReorders | internal/cache/cache.go:464-472 | One failed attempt suffices for an older write to overwrite a newer one of the same key, with nothing given up |
| WriteBehindExact.FallbackReorders | internal/cache/cache.go:330-339 | A write that finds 10000 older writes of its key in the queue goes through at once, and the worker then stores the older value over it |
| WriteBehindExact.PassReorders | internal/cache/cache.go:209-216 | An oversized Set, or one of another mode, goes through at once although the queue has room, and the worker then stores the older value over it |
| WriteBehindExact.HintIsLost | internal/cache/cache.go:443-447 | The worker delivers a hinted Set to where its key goes without the hint |
| WriteBehindWorker.Worker.TryEnqueue | internal/cache/cache.go:330-339 | The non-blocking send takes a slot exactly when there is one |
| WriteBehindWorker.Worker.SendRetry | internal/cache/cache.go:451-454 | A retry goroutine's send is the wake step of the pipeline |
| WriteBehindWorker.Worker.ProcessItem | internal/cache/cache.go:443-480 | One attempt on one item is one step of the pipeline, for every outcome and retry count |
| WriteBehindWorker.Worker.ProcessBatch | internal/cache/cache.go:437-441 | A pass attempts each item of the batch once, in order, and is a run of the pipeline |
| WriteBehindWorker.Worker.OnReceive | internal/cache/cache.go:421-426 | Receiving appends, and the hundredth item flushes and resets the batch: exactly a receive, and then one attempt per item and the end of the batch |
| WriteBehindWorker.Worker.OnTick | internal/cache/cache.go:427-431 | A tick attempts the whole batch once and empties it, and does nothing else; on an empty batch it does nothing |
| WriteBehindWorker.Worker.Drain | internal/cache/cache.go:413-416 | The drain loop moves the whole queue behind the batch, in order, by one emptiness check and one receive per item and a last check |
| WriteBehindWorker.Worker.OnStop | internal/cache/cache.go:412-420 | Stopping drains, attempts batch and queue once each, in order, and nothing else, and ends stopped with an empty queue |
| WorkerRefines.FillAndClose | internal/cache/cache.go:323-441 | The worker object, filled with any entries, closed and drained without failures, leaves its backends as writing them through in order would |
| Provenance.EveryValueIsExplained | internal/cache/cache.go:83-399 | In every interleaving any stored, queued, retried, carried or answered value of k came from an earlier Set of k or from the initial stores |
| Provenance.StepFrom | internal/cache/cache.go:83-497 | No step of any request, backfill, worker, eviction, invalidation or rerouting invents a value |
| LocalContents.WriteThroughConfirmsFirst | internal/cache/cache.go:283-321 | In write-through-only runs every local value was first taken by a backend or read from one |
| LocalContents.LimitHoldsIff | internal/cache/cache.go:209-216 | The local cache stays within maxValueSize in every run iff no view in use lets the router answer the local cache |
| LocalContents.OversizedReachesLocal | internal/cache/cache.go:342-362 | A passthrough Set puts an oversized value into a routed local cache |
| ServiceOrder.PipeIsARun | internal/cache/cache.go:323-480 | In every interleaving of the service its pipeline is a run of the write-behind step system, namely of the queued Sets and the worker's steps |
| ServiceOrder.ServicePipeline | internal/cache/cache.go:323-480 | So in the service, too, each accepted write is in one place, delivered by one success or given up after four failures, and a drain never blocks |
| ServiceOrder.BehindRefinesThrough | internal/cache/cache.go:283-340 | However write-behind Sets, Gets, worker and local cache interleave: without failures and overflow, and while neither hints nor changes of the routing move a key, a drained service leaves in its backends what the same Sets leave in write-through mode, one after the other; and such a sequence of Sets exists |
| GetOutcomes.GetOutcome | internal/cache/cache.go:83-185 | In any state, a Get left alone ends at the local cache if that serves it, and otherwise along a read route: at the first backend that has the key, with a backfill of a hit within the limit unless the local cache is passed by, or with the last failure that is not KeyNotFound |
| GetOutcomes.GetHappensAlong | internal/cache/cache.go:122-185 | And it can end so along each of its read routes, whatever the stores answer |
| GetOutcomes.ReadsIff | internal/cache/cache.go:83-185 | In any state, in the middle of anything and whatever version is named: a Get left alone always answers v iff the store it ends at, the local cache or on every read route the first backend that serves it, holds v, and versioning is off, no version is named, or that store reports the one named |
| GetOutcomes.MismatchIff | internal/cache/cache.go:111-159 | It can be answered VersionMismatch iff versioning is on, it names a version, and a store it may end at reports another |
| SetOutcomes.SetOutcome | internal/cache/cache.go:187-362 | In any state, a Set left alone ends as its size, the version check, its own mode or else the default, and the room in the queue say: refused, queued, or at a backend the router may name, with the backend's answer and the local cache written first, afterwards or not at all |
| SetOutcomes.SetHappens | internal/cache/cache.go:187-362 | And it can end so at each backend the router may name |
| SetOutcomes.RefusedIff | internal/cache/cache.go:209-229 | A Set left alone is answered VersionMismatch iff it is within the size limit, asks for the check, names a version, and the local cache answers and holds the key under another one |
| SetOutcomes.BackfillOutcome | internal/cache/cache.go:153-157 | Whenever the backfill of a Get's hit or of a write-through runs, it gives its entry to the local cache and does nothing else |
| WorkerOutcomes.AttemptsIff | internal/cache/cache.go:437-472 | In any state of the service the worker makes an attempt iff it is in a pass with an item left, the attempt is on the first one, and it ends without a backend iff none is healthy, else at one the router may name without a hint |
| WorkerOutcomes.WritesArrive | internal/cache/cache.go:464-465 | What a worker step changes in the backends is exactly the writes that arrive by it |
| DeleteOutcomes.DeleteOutcome | internal/cache/cache.go:364-399 | In any state, a Delete left alone clears the local cell, whatever that cache answers, and then the cell of a backend the router may name, and gives that backend's answer |
| DeleteOutcomes.DeleteHappens | internal/cache/cache.go:364-399 | And it can end so at each backend the router may name |
| DeleteOutcomes.CompletesIff | internal/cache/cache.go:380-398 | It completes iff something is healthy and its backend answers, and fails with the backend's own error, or for want of one, otherwise |
| ReadYourWrites.ReadYourWrite | internal/cache/cache.go:243-321 | After a completed cache-aside or write-through Set within the size limit of a key whose writes and reads meet at one backend, the next version-free Get answers the value whatever the local cache evicted |
| ReadYourWrites.ReadsBackIff | internal/cache/cache.go:83-321 | In sequential runs with working backends, for every configuration, view, key and hint: every cache-aside or write-through Set within the size limit reads back iff the resolved backend is not the local cache, or nothing resolves and there is no healthy backend, or one besides a strictly lighter local cache |
| OversizedReads.BigReadsBackIff | internal/cache/cache.go:209-216 | A completed Set above the size limit reads back iff, under the same condition on the routing, the local cache may hold no earlier value of the key, or the Gets skip it and the router does not lead to it |
| SequentialReads.WriteBehindReadsBack | internal/cache/cache.go:323-340 | While the local cache takes what it is given, shows it at once and keeps it, and the router never answers it, a write-behind Set is readable before its delivery, while the worker delivers and backends fail, also when the full queue falls back to write-through |
| SequentialReads.ReadsBehindIff | internal/cache/cache.go:323-340 | Where the router never answers the local cache: every completed write-behind Set within the size limit can be read back at any moment iff the local cache neither refuses it nor loses or hides it afterwards |
| SequentialReads.DeleteForgets | internal/cache/cache.go:364-399 | After a completed routed Delete neither the local cache nor the routed backend holds the key, also while the worker goes on without a write of the key |
| DeletedKeys.StaysGoneIff | internal/cache/cache.go:364-480 | In every reachable state of a running service, a key that no store holds stays away, whatever else runs but a new Set of it, iff no request, backfill, queued write or retry is still to write it |
| SequentialReads.NoStaleVersion | internal/cache/cache.go:111-151 | In every interleaving a Get that names a version never answers an entry that was reported to it under another version |
| CacheServer.Server.Set | internal/cache/cache.go:187-241 | Set on the object is a run of its request in the step system, on every path, with the router's own answer |
| CacheServer.Server.RouteAndWrite | internal/cache/cache.go:283-362 | Routing and writing the backend, with the backfill of a successful write-through, is a run, and completes only if the backend took the value |
| CacheServer.Server.SetCacheAside | internal/cache/cache.go:243-281 | Cache-aside writes the local cache first and ignores its failure |
| CacheServer.Server.SetWriteBehind | internal/cache/cache.go:323-340 | Write-behind completes with the entry queued when there is room, and otherwise writes through with the queue unchanged |
| CacheServer.Server.Get | internal/cache/cache.go:83-185 | Get on the object is a run of its own request alone, over the router's read route in order, each backend giving its own answer, and changes no store |
| CacheServer.Server.Delete | internal/cache/cache.go:364-399 | Delete on the object is a run of its own request alone |
| CacheServer.Server.InvalidateLocal | internal/cache/cache.go:491-497 | An invalidation removes the key from the local cache only |
| ServerReads.SetThenGet | internal/cache/cache.go:83-321 | The object's own Set and Get of a safely routed key, with backfill and optional eviction in between, read back the written value |
| CircuitBreaker.Breaker.TryAllow | internal/circuit/circuitbreaker.go:85-120 | The nested locking code of Allow is one transition and one answer when calls are atomic |
| CircuitBreaker.Breaker.RecordSuccess | internal/circuit/circuitbreaker.go:122-142 | Reporting a success is the success transition in every state |
| CircuitBreaker.Breaker.RecordFailure | internal/circuit/circuitbreaker.go:144-171 | Reporting a failure is the failure transition in every state |
| CircuitBreaker.Manager.GetOrCreate | internal/circuit/circuitbreaker.go:51-83 | One breaker per id: later configurations are ignored, and without an enabled one there is no breaker |
| CircuitBreaker.Manager.RunGuarded | internal/circuit/circuitbreaker.go:211-225 | Execute asks, runs and reports; without a breaker it runs unguarded |
| CircuitRuns.CountersTellIff | internal/circuit/circuitbreaker.go:122-171 | failureCount is the trailing run of failures while closed and the threshold otherwise, successCount stays in range, trips lead closings by one exactly when not closed: in every run iff both thresholds are positive |
| CircuitRuns.EpisodeBound | internal/circuit/circuitbreaker.go:85-171 | With atomic calls a half-open episode admits one more call than halfOpenCalls, at most the limit plus one, and halfOpenCalls stays in 0..limit |
| CircuitRuns.OpenAdmitsAfterTimeout | internal/circuit/circuitbreaker.go:97-107 | An open breaker admits a call iff more than the timeout has passed since it opened |
| CircuitRuns.NeverTripsUntold | internal/cache/cache.go:259-267 | A breaker never told of a failure stays closed and admits every call |
| CircuitRuns.SequentialCounts | internal/circuit/circuitbreaker.go:211-225 | Between sequential calls in half-open, successCount is halfOpenCalls plus one |
| CircuitRuns.StuckIff | internal/circuit/circuitbreaker.go:108-117 | Sequential calls can leave the breaker rejecting forever iff the success threshold exceeds the half-open limit plus one |
| CircuitRuns.GoodCallsClose | internal/circuit/circuitbreaker.go:133-140 | Otherwise SuccessThreshold good calls after the timeout close it, from any open state |
| CircuitInterleaving.EpisodeBound | internal/circuit/circuitbreaker.go:85-120 | In every interleaving of N callers a half-open episode admits at most the limit of counted calls, at most one uncounted call per caller, so at most limit + N |
| CircuitHistory.StateMoves | internal/circuit/circuitbreaker.go:85-171 | In every schedule of N callers: closed opens at the threshold's number of failures in a row, open turns half-open only when more than the timeout has passed since the state changed, half-open opens at the first failure and closes at the threshold's number of successes since it opened, and nothing else changes the state |
| CircuitHistory.AsksAtOnce | internal/circuit/circuitbreaker.go:85-120 | A caller that nobody interrupts changes the breaker, and is admitted, as by the atomic Allow |
| CircuitHistory.CallsAtOnce | internal/circuit/circuitbreaker.go:211-225 | With its report it is one sequential Execute |
| CircuitInterleaving.AdmitsWhileOpenIff | internal/circuit/circuitbreaker.go:90-117 | Some interleaving admits a call while open iff there are two callers and half-open calls are allowed |
| CircuitInterleaving.NeverTripsUntold | internal/cache/cache.go:134-139 | In every interleaving without a reported failure the breaker stays closed and rejects nobody |
| CircuitRecovery.RunRecoverable | internal/circuit/circuitbreaker.go:85-171 | In every interleaving a half-open breaker has successes reported, or callers that may still report one, for every call counted in and the one that opened the episode |
| CircuitRecovery.DeadlockIff | internal/circuit/circuitbreaker.go:85-171 | N interleaved callers can reach a state from which no schedule admits a call iff the success threshold exceeds the half-open limit plus one |
| Health.EvictedIff | internal/health/healthchecker.go:154-209 | The counters evict exactly when enough consecutive failures ended somewhere and enough consecutive successes have not followed, for all thresholds |
| Health.CountersCountStreaks | internal/health/healthchecker.go:159-189 | The consecutive counters are the lengths of the streaks that end the history, and the totals add up to it |
| Health.EvictionsAndRecoveries | internal/health/healthchecker.go:169-202 | Evictions minus recoveries is one while evicted and zero otherwise |
| Health.TcpHealthyIff | internal/health/healthchecker.go:169-210 | A TCP-checked backend is healthy iff it is not evicted and started healthy or has passed a check |
| Health.FlagFollowsEvictionIff | internal/health/healthchecker.go:143-210 | The flag agrees with eviction after every history iff the check is TCP or both thresholds act as one |
| HealthOutcomes.EvictedByIff | internal/health/healthchecker.go:71-209 | After every history: evicted iff as many failures in a row as configured, three if none are, ended somewhere, and as many successes, two if none are, have not followed |
| HealthOutcomes.HealthyIff | internal/health/healthchecker.go:143-225 | A backend configured for TCP that has an address is healthy iff not evicted and healthy before; any other is what its last ping said |
| HealthOutcomes.CountersCount | internal/health/healthchecker.go:159-206 | The metrics count the results that evicted and readmitted the backend, the totals its passes and failures |
| HealthChecker.Checker.RegisterBackend | internal/health/healthchecker.go:57-114 | Registering is idempotent per id, needs an enabled configuration, and keeps it, zero thresholds standing for 3 and 2 |
| HealthChecker.Checker.UnregisterBackend | internal/health/healthchecker.go:116-126 | Unregistering forgets monitor and eviction of that id only, and an unknown id changes nothing |
| HealthChecker.Checker.FinishCheck | internal/health/healthchecker.go:128-210 | A finished check is one step of the monitor it began with, even if other checks of it finished meanwhile or its backend was unregistered, and touches no other backend |
| HealthChecker.Checker.CheckBackend | internal/health/healthchecker.go:128-210 | Begun and finished without interference, a check is one step of the history of the backend registered under the id |
| HealthChecker.UnregisterDuringCheck | internal/health/healthchecker.go:116-210 | A check under way while its backend is unregistered leaves the id evicted iff it is a failure that reaches the threshold |
| HealthChecker.Checker.IsEvicted | internal/health/healthchecker.go:262-266 | IsEvicted answers the question that the configured thresholds ask of the whole history, unless a check of an ended registration has finished late |
| HealthChecker.KeptIsHistory | internal/health/healthchecker.go:57-210 | In every state of a checker, flag, eviction, metrics and totals of a backend are said by its configuration and its history, unless a check of an ended registration has finished late |
| HealthChecker.TcpCheckedUnhealthyIffEvicted | internal/health/healthchecker.go:169-209 | In every state of a checker, flag, eviction and metrics of a TCP-checked backend agree, unless a check of an ended registration has finished late |
| Offering.EvictedIsNotOffered | internal/router/router.go:80-160 | Between eviction and readmission a TCP-checked backend is on no write or read route and in no load balancer choice, unless a check of an ended registration has finished late |
| Routing.ReadAndWriteAgree | internal/router/router.go:80-160 | A read route lists each healthy backend once, is empty iff a write errors, contains the write's backend, and starts with it when a hint or rule resolves |
| Routing.AgreeIff | internal/router/router.go:153-227 | The backend written is certain to be read first iff a hint or rule resolves or at most one backend is healthy |
| Routing.HighestPriorityWins | internal/router/router.go:98-117 | A backend reached through a rule comes from a matching rule, and no matching non-blacklist rule of higher priority named a healthy backend |
| Routing.BlacklistsChangeNothing | internal/router/router.go:100-102 | Dropping all blacklist rules changes no decision |
| Routing.HashRulesPartition | internal/router/router.go:169-175 | Hash rules of one modulus split the keys: each key matches exactly one remainder |
| RouteDecisions.RoutesIff | internal/router/router.go:163-183 | A rule names its backend iff it is exact and the key starts with its pattern less one star, is a wildcard or whitelist rule that the pattern matches, or a hash rule whose remainder the key's hash leaves; blacklist rules never do |
| RouteDecisions.ExactIff | internal/router/router.go:165-166 | An exact rule with a stem, or the stem and a star, applies to exactly the keys that start with the stem |
| RouteDecisions.LeavesIff | internal/router/router.go:169-175 | The remainder is that of the unsigned hash by the modulus read as unsigned, itself read as signed; modulus zero leaves none |
| RouteDecisions.WritesIff | internal/router/router.go:80-120 | A write may go to the first healthy backend that the hint or else the rules in order name, to any heaviest healthy one if they name none, and nowhere iff none is healthy |
| RouteDecisions.OneExactRule | internal/router/router.go:98-111 | With one exact rule to a healthy backend and no hint, that backend is resolved for exactly the keys with the stem |
| RouteDecisions.ReadsIff | internal/router/router.go:122-161 | A read route is a listing of the healthy backends, each once, in the order in which hint and rules first name them, with the unnamed ones last |
| Router.SortByPriority | internal/router/router.go:52-56 | The rules come out as a permutation in falling priority |
| Router.PatternIdsIff | internal/router/router.go:64-71 | A backend is listed for a pattern iff some rule of the strategy names it for that pattern |
| Router.Router.SetRules | internal/router/router.go:48-72 | Rules are installed in priority order, hint routes are dropped, and both pattern indexes list exactly their rules |
| Router.Router.GetBackend | internal/router/router.go:80-120 | GetBackend answers a healthy registered backend allowed by hints, rules and fallback, or errs |
| Router.Router.GetFallbackBackend | internal/router/router.go:214-227 | The fallback is a healthy backend of maximal weight, and an error iff none is healthy |
| Router.Router.GetBackendsForRead | internal/router/router.go:122-161 | The read route is the hint and rule prefix followed by the other healthy backends, without duplicates |
| Balance.ExactProportions | internal/router/loadbalancer.go:112-143 | Of all draws below the total weight, each position is chosen by exactly its weight's many, weights below one counting as one |
| LoadBalancer.WeightedRandom | internal/router/loadbalancer.go:112-143 | The two loops choose the position that owns the draw, and the final return is never reached |
| Balance.EveryRoundVisitsAll | internal/router/loadbalancer.go:103-110 | Any n consecutive tickets visit every position once |
| Balance.RoundRobinFair | internal/router/loadbalancer.go:103-110 | In every interleaving m finished calls give each position floor(m/n) or ceil(m/n), while the tickets do not wrap the counter or n divides its range |
| Balance.AlwaysFairIff | internal/router/loadbalancer.go:103-110 | Round-robin stays fair over every wrap of its counter iff n divides 2^64 |
| LoadBalancer.LoadBalancer.SetBackends | internal/router/loadbalancer.go:37-46 | The list becomes the healthy backends given, in order |
| FairShares.ListsHealthyPlaces | internal/router/loadbalancer.go:37-46 | The list kept is the subsequence of the healthy places, by strictly rising indices |
| FairShares.ListedAsGiven | internal/router/loadbalancer.go:93-101 | A healthy backend is listed as often as given, another not at all |
| FairShares.SharesOfGiven | internal/router/loadbalancer.go:112-143 | Of all draws each healthy backend given has its weight's many, at least one, for every time it was given, and the others none |
| FairShares.RotationShare | internal/router/loadbalancer.go:103-110 | In every interleaving of m finished calls each healthy backend has answered floor(m/n) or ceil(m/n) of them, n being the healthy ones, while the tickets do not wrap the counter or n divides its range |
| LoadBalancer.LoadBalancer.AddBackend | internal/router/loadbalancer.go:48-59 | A backend is appended iff it is healthy and its id is new, so ids stay unique |
| LoadBalancer.LoadBalancer.RemoveBackend | internal/router/loadbalancer.go:61-70 | The first entry with the id is removed in place, all others keep their order |
| LoadBalancer.LoadBalancer.Next | internal/router/loadbalancer.go:72-101 | Only healthy backends are answered, an error iff there is none, and each strategy picks its position |
| StoreRuns.PairedIff | internal/storage/redis/redis.go:137-173 | Value key and version key live and die together in every reachable state, faults and expiry included, iff no key in use is another one plus ":version" |
| StoreHistories.MemoryAnswers | internal/storage/memory/memory.go:99-152 | After any history, refusals, evictions and outages included: Get answers the last value written and not deleted or evicted since, until its lifetime or five minutes are over, under the number of Sets since the last Delete; KeyNotFound iff there is none, and BackendUnhealthy iff down |
| StoreHistories.RedisAnswers | internal/storage/redis/redis.go:99-173 | After any history, lost requests and answers included: the same, under the number of Sets since the last Delete or expiry |
| StoreHistories.MemoryWriteAnswers | internal/storage/memory/memory.go:123-152 | A Set is answered by whether the store is up and took it, a Delete by whether it is up |
| StoreHistories.RedisWriteAnswers | internal/storage/redis/redis.go:137-173 | Both fail iff the store is down or request or answer was lost |
| Lifetimes.LivesInMemory | internal/cache/cache.go:482-489 | A value that a Set brings to the memory store is answered for exactly the entry's own lifetime, else the request's, else the service's, else five minutes; above the size limit for the entry's own, else five minutes |
| Lifetimes.LivesInRedis | internal/storage/redis/redis.go:137-157 | And by redis, even if the answer was lost |
| StoreRuns.StoresAgree | internal/storage/memory/memory.go:99-152 | Redis and memory answer every Get alike but for the version, memory's being the Sets since the last Delete; the versions agree iff no Set since then came after an expiry |
| Stores.MemoryBackend.Get | internal/storage/memory/memory.go:99-121 | The object answers what the store function answers |
| Stores.MemoryBackend.Set | internal/storage/memory/memory.go:123-142 | The version is raised even when the cache refuses the value |
| Stores.MemoryBackend.Delete | internal/storage/memory/memory.go:144-152 | Value and version go together |
| Stores.RedisBackend.Get | internal/storage/redis/redis.go:99-135 | The two GETs of one transaction answer what the store function answers |
| Stores.RedisBackend.Set | internal/storage/redis/redis.go:137-157 | SET, INCR and EXPIRE of one transaction make the store function's step, with lost requests and lost answers told apart |
| Stores.RedisBackend.Delete | internal/storage/redis/redis.go:159-173 | The two DELs of one transaction remove both keys |
| VersionedReads.SoundIff | internal/storage/memory/memory.go:99-142 | Under concurrent Sets and Gets no answer's version is below its value's increment and versions never fall, whatever the cache delays, drops or expires, iff no run may delete the version |
| AtomicCalls.SetAtOnce | internal/storage/memory/memory.go:123-142 | Under concurrency, a Set whose steps nothing comes between leaves the values and versions that the atomic one leaves, taken or refused |
| AtomicCalls.GetAtOnce | internal/storage/memory/memory.go:99-121 | A Get likewise answers the atomic one's value and version, or nothing where that one answers KeyNotFound |
| AtomicCalls.DeleteAtOnce | internal/storage/memory/memory.go:144-152 | A Delete likewise |
| AtomicCalls.ExpireAtOnce | internal/storage/memory/memory.go:99-107 | An expiry under concurrency is the atomic store's eviction, and its waiting where no other key's time runs out |
| ExactVersions.ExactIff | internal/storage/memory/memory.go:99-152 | Under concurrent Sets, Gets and Deletes and any expiry, every Get reports the version its value was written under iff the cache refuses or drops no write, applies each at once, and no call overlaps another |
| NamedVersions.MemoryVersionIff | internal/storage/memory/memory.go:99-142 | With atomic calls and a cache that applies a write at once: a Get never reports a version below the one its value was written under, and always reports that one iff the cache never refuses a Set |
| NamedVersions.RedisVersionIff | internal/storage/redis/redis.go:99-157 | A Get always reports the version its value was written under, faults and expiry included, iff no key in use is another one plus ":version" |

## Left out

- HTTP handlers, middleware, start-up wiring, YAML loading, hot reload, logging and Prometheus registration: plumbing around the core.
- The HTTP and gRPC backends' request code: abstract cells whose answers are parameters; only their effect on the healthy flag is modelled, as `Ping`.
- Gossip and Pub/Sub transport: an incoming invalidation is the action `Invalidate`; nothing in the cache service publishes one.
- ristretto: a map that may drop, delay, evict or expire; its admission policy and cost accounting are not modelled.
- Pattern matching (`filepath.Match`, `regexp`), xxhash and FNV: arbitrary functions of their arguments; `HashKey`, `isBlacklisted` and `isWhitelisted` have no caller.
- The memory a Go `sort.Slice` leaves for equal priorities: any priority order is allowed by the contract.
- The worker's routing decision and its write are one step, while a request's are two.
- Default expiries: both stores use five minutes; the in-memory store's own setting for entries without an expiry is not modelled.
- Clocks: a breaker call reads the clock once when atomic and once per locked step when interleaved; ticker and sleep durations are arbitrary delays.
- Go data races: an unlocked read is taken to be atomic.
- Counter widths: version counters, metrics and weight sums do not wrap; the round-robin counter does, at 2^64.
- Redis time is in whole seconds; the client library's rounding of shorter expiries, server eviction and a version counter beyond 64 bits are not modelled.
- A ping's own write of the healthy flag is one step with the update that follows it; other checks and registrations may come between the start and the end of a check.
- Linearizable compare-and-set on versions: Set compares with the local cache and acts later, which the step system allows to interleave.
- Request contexts and their timeouts: a timed-out store call is a refused one that may have landed.
- A second `Close`, which panics in the original: no effect here.
- SequentialReads.WriteBehindReadsBack: assumes that a local Set is accepted and then visible, because a refusing or buffering cache promises nothing about the value (SequentialReads.ReadsBehindIff has the exact condition).
- ReadYourWrites.ReadsBackIff: a failed local Set is taken to leave its key absent, and backends answer, because what a store does with a refused write is its own matter (GetOutcomes.ReadsIff speaks of every state).
- Backends show a completed Set at once in `CacheService`; a memory store used as a second backend buffers its writes, which only `VersionedReads` models.
- NamedVersions.MemoryVersionIff: for atomic calls and a cache that applies writes at once, because ExactVersions.ExactIff has the general condition.
- Versions inside `CacheService` are what a store happens to report; what a reported version says about its value is proved of the two stores (`NamedVersions`, `VersionedReads`).
- CircuitRuns.EpisodeBound: for atomic calls only, because the interleaved bound is the separate CircuitInterleaving.EpisodeBound.
