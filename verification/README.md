# offlinepush: a verified model of its protocols

offlinepush pushes messages to devices while they are offline. A cron or manual task makes every
pod read the devices of the types it is responsible for and put one message per device on a
queue; consumers take the messages in batches and push them through providers that are rate
limited and guarded by circuit breakers; a Redis lease lets one pod at a time announce that it starts work.

This project models those protocols in Dafny and proves what they keep.

| file | what it models |
|---|---|
| `limiter.dfy` | the sliding-window script on a Redis sorted set, with key expiry |
| `failover.dfy` | the circuit breaker of a provider: one caller, runs, and all interleavings |
| `ratelimit.dfy` | one push over several providers, and runs of pushes |
| `redelivery.dfy` | the same push over providers that other callers use concurrently |
| `lock.dfy` | control flow of the lock controller: ticker, retry channel, retry counter, start and stop signals |
| `lease.dfy` | several lock controllers against one lease cell, in time: the invariant and the safety results |
| `lease_exact.dfy` | the runs that break mutual exclusion, the exact condition under which there are none, and the longest overlap |
| `hash.dfy` | the consistent-hash ring and the types a pod is responsible for |
| `claims.dfy` | when two pods claim the same type, and when none does: from their views, and through dropped updates |
| `registry.dfy` | the service registry as a log, its listings and events, and a pod's node view over its life |
| `devices.dfy` | keyset paging over a device table that may change between pages |
| `unordered.dfy` | the same paging with only what the query itself promises: no order, and no distinct IDs |
| `producer.dfy` | one task of one pod: intersect, read, send, count |
| `wire.dfy` | what the queue holds after a task: without the types, in any interleaving of them |
| `cluster.dfy` | one task of all pods, and accounting over tasks |
| `counter.dfy`, `consumer.dfy` | the counters and wait groups; concurrent batches over a shared worker pool |
| `common.dfy` | optional values and cardinality facts |

Objects whose methods update their fields are classes whose methods are proved against functions
of the old state; the results are lemmas about those functions. Concurrent parts are state
machines whose actions are the atomic steps of the code; a run is a sequence of enabled actions.
The inputs of the environment - clocks, answers of Redis, the database, the queue and the
providers, the scheduler - are parameters.

What the proofs found:

- **The shipped lock settings do not exclude two running pods.** With a refresh interval I, a refresh
  timeout T, an expiration E and a TryLock latency of at most d, two pods never run together
  exactly when 5T <= I and E >= d + I + 5T. The settings are I = 5 s, T = 300 ms and E = 6 s, and
  6 s is less than 5 s + 1.5 s. The longest overlap is just below 500 ms plus d, and 6.5 s at most. (The configuration has a
  timeout of 200 ms that the controller does not use; it passes 300 ms. The model follows the code.)
- The refresh loop can come to wait on its own full channel exactly when 5T > I, whatever the lease and
  the latency; it then runs for ever.
- A TryLock error that is neither "preempted" nor "canceled" starts a pod without a lock, and an unlock
  that takes effect after its caller gave it up frees the same pod's next lease, since the cell holds
  the pod's name: with either, two pods can run for every setting.
- A provider with a negative threshold delivers a message and reports an error, so that another one
  delivers it again. With a threshold that is not negative the same can happen under concurrency, exactly
  when pushes may overlap and there are at least threshold + 2 of them: threshold + 1 failing pushes are
  counted between a delivered push's two accesses to the count.
- An update of the responsible types is dropped when nobody is receiving. No type is ever claimed by two
  pods exactly when each is in the view of the last update the other received. A pod that registers
  between another's listing and its subscription is missing from that one's view until the second
  listing; after it, two live pods whose listings succeeded, and were not overtaken by later events,
  never claim the same type.
- Every type has a claimant exactly when some pods see themselves and nobody outside their group. So a
  name that has gone, in every pod's view, leaves types without a claimant; and if the second listing
  of a pod fails, that pod sets its nodes to none and its types have no claimant.
- Deleted pods stay in the node view until it is set anew: a delete event has no value and is
  turned into an event that is ignored.
- A listing reads by key prefix, so it includes the pods of any service whose name begins like the listed one's.
- The page query has no order. With an order and distinct IDs the paging is exact. Without them a device
  may be sent twice exactly when a page has an ID twice or does not end at its largest ID, and a row may
  be passed over exactly when a page lacks one between the cursor before it and the cursor after it.
- The page query selects the ID column only, so the sent device has no type: equal IDs of two types
  become equal messages, and nothing that reads the queue can tell the types.
- A batch one of whose messages the worker pool refuses never returns; any other batch always can.

Assumptions: a Redis key is gone strictly after its deadline, and may or may not be gone at the
deadline. The clocks of the clients and of the Redis server agree: a script that runs at once uses one
`now` for both. Timestamps of a key's answered calls do not decrease; a call that is given up may run
its script at once, later, or never. The lease is granted only when the cell is free, is kept up to and
including its expiry, and refresh and unlock act for the current owner only; a refresh or an unlock
given up by its caller may still take effect later. The safety results are about runs in which TryLock
fails only by being preempted or canceled and no unlock is given up while it is under way.
Local steps take no time. Each node has a fixed non-empty set of points on the circle, disjoint from
every other node's. Where a lemma says so (`IsPage`), the IDs of a type are distinct and a page comes back
in ascending ID order with nothing skipped; the database's unique index is not part of this model. A batch of messages is sent as a whole or not at all. Breakers start healthy.

## Model

| member | source | states |
|---|---|---|
| SlidingWindow.RedisLimiter.Limit | pkg/ratelimit/slide_window.lua:13-26 | one call of the script purges, counts, refuses or admits, and sets the deadline; no other key changes |
| SlidingWindow.RedisLimiter.Eval | pkg/ratelimit/slide_window.lua:13-26 | the same for a script that runs later than it was asked for: purge and entry go by the time of the call, expiry by the server's |
| SlidingWindow.ScriptRecounts | pkg/ratelimit/slide_window.lua:13-26 | a call refuses exactly when the full admission log has `threshold` entries in (now - window, now], and the sorted set goes on matching the log |
| SlidingWindow.ScriptCovers | pkg/ratelimit/redis_slide_window.go:26-28 | late scripts and lost answers leave the sorted set covering every admission still in the window, and an answer "not limited" that arrives means the window had room |
| SlidingWindow.ScriptForExactly | pkg/ratelimit/slide_window.lua:13-26 | a script asked for at one time and run at another forgets what is not younger than a window when it was asked for, enters that time if fewer than the threshold are left, and sets the deadline by the time it runs |
| SlidingWindow.ScriptForExpired | pkg/ratelimit/slide_window.lua:13-26 | after the key's deadline it starts from nothing |
| SlidingWindow.LateScriptMatches | pkg/ratelimit/slide_window.lua:13-26 | a late script leaves the sorted set matching the log of all entries, its own included |
| SlidingWindow.ExpiryUnobservable | pkg/ratelimit/slide_window.lua:15-24 | on every run with non-decreasing times, purging and key expiry (also at the deadline itself) change no answer: they are those of a limiter that keeps everything and recounts |
| SlidingWindow.WindowBound | pkg/ratelimit/slide_window.lua:13-25 | on every run, no interval (a, a + window] holds more than `threshold` admitted milliseconds |
| SlidingWindow.GreedyOptimalExactly | pkg/ratelimit/slide_window.lua:13-25 | at every moment the limiter has admitted at least as many milliseconds as any selection of the requests that keeps the bound, exactly when the window is positive or the threshold is not zero |
| Failover.FailoverPusher.Push | internal/component/pusher/failover.go:24-39 | a delivery clears the count, a failure raises it; above the threshold the provider is taken out, a recovery goroutine starts and the error is PusherError |
| Failover.FailoverPusher.MarkNotAvailable | internal/component/pusher/failover.go:41-61 | marks the provider unhealthy and starts one recovery goroutine, leaving the count alone |
| Failover.FailoverPusher.Ping | internal/component/pusher/failover.go:44-59 | one recovery round: ten answered pings in a row make the provider healthy and end the goroutine, a failed one starts over |
| Failover.CntIsTrailingFailures | internal/component/pusher/failover.go:26-33 | in every run of one caller the count is the number of pushes failed in a row |
| Failover.StreakIsTrailingPings | internal/component/pusher/failover.go:44-58 | a recovery goroutine's local count is its own pings answered in a row, and it has returned exactly when they are ten |
| Failover.EjectionExactly | internal/component/pusher/failover.go:34-42 | a healthy provider becomes unhealthy exactly by a failed push that makes the failing run exceed the threshold |
| Failover.ReportExactly | internal/component/pusher/failover.go:24-39 | after any history a push reports nil, the deadline error or the provider's own error as it came, unless a failure makes the failing run exceed the threshold: then PusherError |
| Failover.RecoveriesExactly | internal/component/pusher/failover.go:34-61 | exactly the failed pushes above the threshold start a recovery goroutine, one each |
| Failover.ReadmissionExactly | internal/component/pusher/failover.go:48-58 | an unhealthy provider becomes healthy exactly on the tenth answered ping in a row of one recovery goroutine |
| Failover.HalfOpenExactly | internal/component/pusher/failover.go:34-58 | healthy with a count above the threshold occurs exactly after a readmission that no push has followed |
| Failover.ProviderNeverLost | internal/component/pusher/failover.go:34-61 | in every interleaving of pushes and recovery goroutines, an unhealthy provider has a recovery goroutine that has not finished or a push about to start one |
| Failover.RecoveryAlwaysPossible | internal/component/pusher/failover.go:41-61 | from every reachable state answered pings alone lead to a healthy provider |
| Failover.UninterruptedPush | internal/component/pusher/failover.go:24-39 | the atomic steps of a push that nobody interrupts have the effect and the error of the object's Push |
| Failover.UninterruptedPing | internal/component/pusher/failover.go:44-59 | an answered or failed ping of a recovery goroutine, with the restoration after the tenth, has the effect of the object's Ping |
| Failover.TruthfulExactly | internal/component/pusher/failover.go:24-39 | over all interleavings with at most `pushes` pushes, at most `width` of them at once, a delivered push never reports PusherError exactly when pushes do not overlap or are at most threshold + 1 |
| Failover.DeliveredYetReportedFailed | internal/component/pusher/failover.go:26-36 | for every threshold that is not negative, a run of threshold + 2 pushes, two at once, in which a delivered push reports PusherError |
| RateLimitPush.RateLimitPusher.Push | internal/component/pusher/ratelimit.go:19-44 | the loop does the ten round-robin visits of the specification, whatever providers share an object or a name, stopping at the first success |
| RateLimitPush.RateLimitPusher.VisitProvider | internal/component/pusher/ratelimit.go:21-41 | one visit skips an unhealthy provider, asks the limiter, ignores a limiter failure whether or not the script ran, and pushes unless limited |
| RateLimitPush.AttemptExactly | internal/component/pusher/ratelimit.go:22-32 | a visit to a healthy provider hands the message over exactly when the limiter call failed or the admission log of its name has fewer than `rate` entries in the last interval; a call that failed unrun leaves the keys alone, any other enters the log exactly when there was room |
| RateLimitPush.UnhealthyIsSkipped | internal/component/pusher/ratelimit.go:22-24 | a visit to an unhealthy provider does nothing |
| RateLimitPush.MeanwhileExactly | internal/component/pusher/failover.go:43-60 | before a visit every provider goes through its own recovery pings in order, and late scripts run in order; nothing else happens |
| RateLimitPush.SucceedsExactly | internal/component/pusher/ratelimit.go:20-43 | a call returns nil exactly when for some k below 10, after the effects of the k visits before, provider k modulo the list length is healthy, not limited or the limiter failing, and answering |
| RateLimitPush.SucceedsByWindow | internal/component/pusher/ratelimit.go:20-43 | a call returns nil exactly when one of its ten visits finds its provider healthy and answering, and its name's window with room or the limiter call failing |
| RateLimitPush.FailsByWindow | internal/component/pusher/ratelimit.go:20-43 | it returns PusherError exactly when every provider was held up so in every one of its turns |
| RateLimitPush.FirstPushDelivers | internal/component/pusher/ratelimit.go:20-32 | with no keys yet, a positive rate and a first provider that is healthy and answers, a call makes one attempt, delivers and returns nil |
| RateLimitPush.AnsweredVisitExactly | internal/component/pusher/ratelimit.go:25-32 | while the limiter answers, a healthy provider is handed the message exactly when fewer than `rate` attempts on its name are in the last interval |
| RateLimitPush.FailsExactly | internal/component/pusher/ratelimit.go:20-43 | a call returns PusherError exactly when every provider of the list failed to serve in every one of its turns, i, n + i, 2n + i, ... below 10 |
| RateLimitPush.SingleDeliveryFrom | internal/component/pusher/ratelimit.go:20-43 | with thresholds that are not negative a call makes one delivery if it returns nil and none if it returns PusherError, and returns nothing else |
| RateLimitPush.SingleDeliveryExactly | internal/component/pusher/ratelimit.go:29-43 | that holds for all providers whose thresholds are at least `least` exactly when `least` is not negative |
| RateLimitPush.DeliveredTwice | internal/component/pusher/ratelimit.go:29-43 | for every negative threshold, a call over two such providers that delivers its message twice and returns PusherError |
| Redelivery.OneDeliveryExactly | internal/component/pusher/ratelimit.go:29-43 | over providers on which others push concurrently, calls make one delivery with nil and none with an error exactly when pushes on a provider do not overlap or are at most threshold + 1 |
| Redelivery.PossibleCallReports | internal/component/pusher/ratelimit.go:29-43 | over concurrent providers a call makes one delivery if it returns nil, and one more for every delivered push that was reported as failed |
| Redelivery.DeliveredAgain | internal/component/pusher/ratelimit.go:29-43 | for every threshold that is not negative, enough overlapping pushes let one call deliver its message twice |
| Redelivery.PushIsCall | internal/component/pusher/ratelimit.go:19-44 | a push with no other callers is such a call, with the same error and the same deliveries |
| RateLimitPush.DeliveriesAreSuccesses | internal/component/pusher/ratelimit.go:19-44 | over any run of calls there are as many deliveries as calls that returned nil |
| RateLimitPush.ProviderBudget | internal/component/pusher/ratelimit.go:25-30 | over any run of calls, the attempts let through by the limiter on a provider name use at most `rate` milliseconds in any window, also when failed calls have run their scripts at once or late |
| RateLimitPush.AllAttemptsChecked | internal/component/pusher/ratelimit.go:25-29 | with a limiter that never fails those are all the attempts |
| LockControl.LockController.AutoRefresh | internal/lock/lock.go:49-96 | the refresh loop with its retry channel and counter has the verdict of the specification on every order of ticks, retries and cancellation |
| LockControl.LockController.Run | internal/lock/lock.go:122-156 | the outer loop gives the specified signals round by round |
| LockControl.SignalsInTurn | internal/lock/lock.go:134-149 | in every run start, stop and unlock follow each other in turn |
| LockControl.LoopsExactly | internal/lock/lock.go:53-96 | from the input history alone: the loop still loops exactly when no input has ended or blocked it; its counter is then the retries since the last success, and a token is queued exactly when some refresh timed out with no retry since |
| LockControl.BlocksExactly | internal/lock/lock.go:59-66 | the loop blocks on its own channel exactly when, still looping, a tick's refresh times out although an earlier one timed out and no retry was taken in between |
| LockControl.RetriesBounded | internal/lock/lock.go:72-85 | however ticks and retries alternate, a loop that goes on has counted at most three retries |
| LockControl.VerdictExactly | internal/lock/lock.go:53-96 | the first input that does not continue the loop decides: the end gives the cancellation, a tick's timeout the block, anything else the failed refresh |
| LockControl.SelectableExactly | internal/lock/lock.go:53-72 | the orders of inputs these results are about are exactly those in which a retry is taken only while a token is queued |
| LockControl.SignalsExactly | internal/lock/lock.go:127-156 | from the rounds' histories alone: the controller applies again after a failed refresh and after nothing else, with three signals for each such round, and those of the first other round after them |
| LockControl.HoldsExactly | internal/lock/lock.go:133-150 | the lock is held on exactly in a round that got it and was neither cancelled, failed nor followed by another |
| LeaseProtocol.RunKeepsInv | internal/lock/lock.go:49-156 | every timed run of every number of pods keeps the invariant that ties tickers, chains of attempts and claims to the last extension of each lease |
| LeaseProtocol.OverlapBound | internal/lock/lock.go:57-95 | in every multi-pod run with 5T <= I, two pods have been running together for less than d + I + 5T - E and for at most I + 5T |
| LeaseProtocol.NoSelfBlock | internal/lock/lock.go:58-90 | if 5T <= I, no pod gets stuck, no tick waits beside a token, at most four retries are counted, and a chain of attempts is over five timeouts after its tick, with its last token taken after four |
| LeaseExact.MutualExclusionExactly | internal/lock/lock.go:49-156 | two or more pods are never both between start and stop exactly when 5T <= I and E >= d + I + 5T |
| LeaseExact.SelfBlockExactly | internal/lock/lock.go:58-66 | for every setting the loop can block itself exactly when 5T > I |
| LeaseExact.OverlapExactly | internal/lock/lock.go:49-156 | if 5T <= I, some run has two pods running together for k exactly when k < d + I + 5T - E and k <= I + 5T |
| LeaseExact.ShippedSettingsOverlap | config/dev.go:24-29 | the shipped settings with the hard-coded 300 ms allow two running pods for every latency, together for k ms exactly when k is below 500 plus the latency and at most 6500 |
| LeaseExact.BrokenTryOverlaps | internal/lock/lock.go:127-138 | for every setting, a run in which an unexpected TryLock error starts a pod beside the one that holds the lock |
| LeaseExact.LateUnlockOverlaps | internal/lock/lock.go:107-147 | for every setting, a run in which an unlock given up by its caller takes effect late, frees the same pod's next lease, and lets a second pod run beside it |
| LeaseProtocol.CaughtUpExactly | internal/lock/lock.go:101-112 | the ticker of a refused pod stays on its grid, its next tick is ahead, and a tick waits exactly if one has passed |
| LeaseProtocol.CancelStays | internal/lock/lock.go:86-117 | the cancellation may come at any time and stays |
| LeaseProtocol.BrokenTryStarts | internal/lock/lock.go:127-138 | a TryLock that fails in any other way starts the pod at once, without a lock |
| LeaseProtocol.CancelledCloses | internal/lock/lock.go:86-153 | a cancelled refresh loop unlocks what it owns, and its pod is closed |
| LeaseProtocol.ClosedIsOver | internal/lock/lock.go:150-153 | a closed pod does nothing any more |
| LeaseProtocol.EndsClosed | internal/lock/lock.go:116-132 | applying ends with the cancellation |
| ConsistentHashing.First | internal/component/hash.go:135 | of a non-empty set of points, the one no other precedes clockwise |
| ConsistentHashing.FirstInOrder | internal/component/hash.go:135 | it is the least point above the position if there is one, and the lowest point otherwise |
| ConsistentHashing.OwnerInOrder | internal/component/hash.go:135 | a key belongs to the node of the least ring point above its position, or of the lowest point if none is above |
| ConsistentHashing.ResponsibleInOrder | internal/component/hash.go:132-141 | the types come out in list order, each as often as it is listed |
| ConsistentHashing.ConsistentHash.constructor | internal/component/hash.go:28-43 | lists the nodes and builds the ring from them |
| ConsistentHashing.ConsistentHash.Hash | internal/component/hash.go:132-141 | collects the types whose node is the pod, in list order |
| ConsistentHashing.ConsistentHash.OnAddNode | internal/component/hash.go:102-110 | adds the node to the set, keeps the ring in step, and hands the new types to a receiver if there is one |
| ConsistentHashing.ConsistentHash.OnDelNode | internal/component/hash.go:112-120 | removes the node from the set, keeps the ring in step, and hands the new types to a receiver if there is one |
| ConsistentHashing.ConsistentHash.OnSetNodes | internal/component/hash.go:122-129 | replaces the ring and nothing but the ring |
| ConsistentHashing.ConsistentHash.SetNodes | internal/component/hash.go:151-158 | replaces node set and ring together |
| ConsistentHashing.ResponsibleExactly | internal/component/hash.go:132-141 | a type is in the result exactly when it is known and the ring gives it to the pod |
| ConsistentHashing.IncrementalEqualsRebuilt | internal/component/hash.go:102-129 | after any history of additions, deletions and resets the ring is the one built fresh from the node set |
| ConsistentHashing.NodesExactly | internal/component/hash.go:102-158 | a node is in the set exactly if the last addition, deletion or reset that mentions it says so, or none does and it was there |
| ConsistentHashing.OwnerExactly | internal/component/hash.go:135 | a key's node is the one whose own first point no other node's first point precedes |
| ConsistentHashing.AddMovesOnlyToAdded | internal/component/hash.go:102-105 | adding a node moves to it exactly the keys its first point comes first for, and moves nothing else |
| ConsistentHashing.DeleteMovesOnlyDeleted | internal/component/hash.go:112-115 | deleting a node moves the keys of that node only |
| ConsistentHashing.NoDoubleClaim | internal/component/hash.go:132-141 | two pods that are both in both views never both claim a type, however the views differ otherwise |
| ConsistentHashing.ExactlyOneOwner | internal/component/hash.go:132-141 | on one shared view every type has one responsible pod, a member of the view |
| Claims.NoDoubleClaimExactly | internal/component/hash.go:132-141 | whatever the ring's layout and the types, two pods never both claim a type exactly when each is in the other's view, as far as both claim anything at all |
| Claims.Follow | internal/component/hash.go:102-129 | any additions, deletions and resets, each received by the producer or dropped: the producer's types are those of the ring at the last update received |
| Claims.DroppedUpdatesExactly | internal/component/hash.go:106-109 | after any changes, received or dropped, two pods never both claim a type exactly when each is in the view of the other's last received update |
| Claims.DroppedJoinClaimsTwice | internal/component/hash.go:102-109 | when a pod joins, the types claimed twice are exactly those the older pod had and the new one now has, if the update was dropped, and none if it was received |
| Claims.AlwaysClaimedExactly | internal/component/hash.go:132-141 | on every layout every type has a claimant exactly when some pods each see themselves and, of all names, nobody outside their group |
| Claims.OneClaimantExactly | internal/component/hash.go:132-141 | no type is ever without a claimant or with two exactly when the pods that see themselves are some and each of them sees just those pods |
| Claims.StrangerLeavesUnclaimed | internal/component/hash.go:89-98 | a name that is no pod's, in the view of every pod, leaves types without a claimant on some layout |
| ServiceRegistry.Registry.Register | pkg/registry/etcd/etcd.go:41-53 | puts the instance under service/address |
| ServiceRegistry.Registry.UnRegister | pkg/registry/etcd/etcd.go:56-60 | deletes the key service/address |
| ServiceRegistry.Registry.ListService | pkg/registry/etcd/etcd.go:111-127 | returns the stored instances of the keys with the prefix, each key once and nothing else |
| ServiceRegistry.Perform | pkg/registry/etcd/etcd.go:41-60 | any registrations and unregistrations write the specified log |
| ServiceRegistry.StoredExactly | pkg/registry/etcd/etcd.go:41-60 | under a service and an address there is an instance with both exactly if the last such call was a registration |
| ServiceRegistry.ListingExactly | pkg/registry/etcd/etcd.go:111-127 | under service names without a slash, a listing has exactly the addresses whose last call was a registration, under the service or a longer name that begins like it |
| ServiceRegistry.ListingIsOwnExactly | pkg/registry/etcd/etcd.go:111-127 | that is the service's own addresses exactly when whatever is registered under such a longer name is registered under the service too |
| ServiceRegistry.RegistrationAdds | pkg/registry/etcd/etcd.go:41-53 | a registration makes its own address live and leaves the others as they were |
| ServiceRegistry.UnregistrationTakesAway | pkg/registry/etcd/etcd.go:56-60 | an unregistration takes away its own address and no other |
| ServiceRegistry.WatchNodes | internal/component/hash.go:84-99 | the watching loop turns put and delete events into additions and deletions, ignores the others, and keeps the ring in step |
| ServiceRegistry.ViewExactly | internal/component/hash.go:89-98 | an address is in the view exactly if it was there or was put, and no event has deleted it since |
| ServiceRegistry.DecodeExactly | pkg/registry/etcd/etcd.go:82-101 | an event without a value is unknown, one with a value is the put or the delete of its instance |
| ServiceRegistry.RawEventsExactly | pkg/registry/etcd/etcd.go:75-82 | a watch delivers one event for a put or an effective delete under its prefix, and a delete without a value |
| ServiceRegistry.MatchingExactly | pkg/registry/etcd/etcd.go:112 | a listing reads the keys that begin with the prefix |
| ServiceRegistry.ViewOnlyGrows | pkg/registry/etcd/etcd.go:82-101 | the events of a subscription only ever add the addresses put since it began: no delete reaches the view |
| ServiceRegistry.ConservativeCache | internal/component/hash.go:89-98 | with listing and subscription at one revision the view is the listing plus every address put since, contains every live pod, and equals the live listing exactly when none of those addresses has gone |
| ServiceRegistry.GapMissesExactly | internal/component/hash.go:38-48 | a subscription later than the listing misses exactly the live addresses put in between and not again |
| ServiceRegistry.Watch | internal/component/hash.go:45-100 | events one by one and listings that succeed or fail, in any order: the hash's nodes are those of the specification |
| ServiceRegistry.ViewFromLastListing | internal/component/hash.go:50-98 | whatever a pod has done, its view is what its last listing returned, or nothing if that failed, plus the addresses put in the events consumed since |
| ServiceRegistry.LiveInViewExactly | internal/component/hash.go:38-56 | a live address is in a pod's view exactly unless its last listing missed it: it failed and no put was heard since, or the address was put after it, before the events consumed since, and not again |
| ServiceRegistry.ListedAgainNeverBothClaim | internal/component/hash.go:50-56 | two live pods whose last listings succeeded and were not overtaken by their events never both claim a type |
| ServiceRegistry.UnseenUntilListedAgain | internal/component/hash.go:38-56 | for any two addresses, a pod registered between the other's listing and subscription is live, is not in the view, and is in it after the next listing |
| ServiceRegistry.ClaimedAfterListingExactly | internal/component/hash.go:50-56 | when all live pods have just listed again, every type has a claimant exactly when none of the listings failed |
| ServiceRegistry.NoDoubleClaimFromRegistry | internal/component/hash.go:38-141 | two pods live in both logs, over any listings and events of each, never both claim a type exactly when the last listing of neither missed the other, as far as both claim anything |
| DevicePaging.DeviceDAO.FindDevicesPage | internal/repository/dao/device.go:67-76 | asks for the type with the limit and the cursor, moves the cursor to the last row even on an error, and returns the rows of the type as the selected column leaves them |
| DevicePaging.DeviceExactly | internal/repository/repository.go:49-72 | a device is read with its ID and without its type |
| DevicePaging.PageUnique | internal/repository/dao/device.go:69-71 | the ordering hypothesis leaves one page for a table, a cursor and a limit |
| DevicePaging.PagingOverChangingTable | internal/component/producer.go:142-169 | over a table changed arbitrarily between pages, what is sent is strictly increasing, positive, up to the cursor, and misses no row present at every read up to the cursor - or at all, if some page was short |
| DevicePaging.FixedTableSendsFirst | internal/component/producer.go:142-169 | on a table that stays as it is, p pages send the first min(100p, num, available) positive IDs in order |
| DevicePaging.SentAtMost | internal/component/producer.go:143-148 | at most the wanted number is sent, and exactly it when and only when every page was full |
| DevicePaging.EnumerationExists | internal/repository/dao/device.go:69-71 | every table has the ascending list of its positive IDs the other results speak of |
| UnorderedPaging.OrderedPages | internal/repository/dao/device.go:69-71 | the ordering hypothesis implies what the query allows, distinct IDs and both conditions below |
| UnorderedPaging.SentOnceExactly | internal/repository/dao/device.go:69-74 | over changing tables whose rows may share IDs, no page has sent or can be followed by one that sends an ID twice - on the same table or on any other - exactly when no page has an ID twice and every page that may be followed ends at its largest ID |
| UnorderedPaging.PassedOverExactly | internal/repository/dao/device.go:69-74 | a page leaves every row it lacks within reach of the next page exactly when it has all rows between the cursors before and after it |
| UnorderedPaging.GaplessMissesNothing | internal/component/producer.go:142-169 | over changing tables, gapless pages miss nothing up to the cursor that was there all along |
| UnorderedPaging.NothingMissedExactly | internal/component/producer.go:142-169 | on a table that stays as it is, a session whose pages end at their largest ID has sent every row with a positive ID up to its cursor, as often as it is there, exactly when all its pages were gapless |
| UnorderedPaging.UnorderedPageSendsTwice | internal/repository/dao/device.go:69-74 | two allowed replies on a table of 101 rows that make a session send devices twice |
| UnorderedPaging.SharedIdSendsTwice | internal/repository/dao/device.go:14-21 | two rows of one type with one ID, on one allowed page that ends at its largest ID, are sent as the same device twice |
| Production.InterSetExactly | internal/component/producer.go:110 | the produced types are the common ones, each once |
| Production.Producer.ReadAndSend | internal/component/producer.go:138-171 | reads exactly num/100 pages, rounded up, with the specified limits and cursors unless an error ends it, and sends exactly the rows of the pages before the error |
| Production.MessageExactly | internal/component/producer.go:153-161 | a message carries the task's topic, the device's ID and no type |
| Production.QueriesExactly | internal/component/producer.go:142-150 | a session asks for pages of its own type, of a hundred rows or the rest, behind the last row before |
| Production.TaskAsksExactly | internal/component/producer.go:110-116 | a task asks for the pages of its types' sessions and for nothing else |
| Production.Producer.ProduceTypes | internal/component/producer.go:111-118 | every type is produced to its own end, and the group fails exactly when one of them does |
| Production.Producer.DoTask | internal/component/producer.go:102-125 | sends the deliveries of the common types and raises the hoped-for count by types times num only if no type failed |
| Production.Producer.OnResponsibleTypes | internal/component/producer.go:69-70 | the received types replace the old ones |
| Cluster.SessionOnFixedTable | internal/component/producer.go:138-170 | a session sends the first min(num, available) positive IDs, or the first min(100p, num, available) if an error ends it after p pages |
| Cluster.SendFirst | internal/component/producer.go:138-170 | on a table that stays as it is a session without an error appends one message for each of the first min(num, available) positive IDs in order, with the topic, that ID and no type |
| Cluster.OwnViewsExactlyOnce | internal/component/producer.go:110-116 | pods each on its own ring and view, any two of them in each other's view as far as they claim anything, deliver together, for every listed type that one of them claims, each of its first min(num, available) positive IDs exactly once, and nothing else |
| Cluster.ClusterWideExactlyOnce | internal/component/producer.go:110-116 | pods that share a view consisting of them deliver together, for every known and listed type, each of its first min(num, available) positive IDs exactly once and nothing else |
| Cluster.ProductionAccounting | internal/component/producer.go:118-121 | over any error-free tasks the hoped-for count covers the sent messages, with equality exactly when every page was full |
| Cluster.FullExactly | internal/component/producer.go:121 | on a table that stays as it is, that is when it has at least num positive IDs |
| WireContents.TellsAllExactly | internal/repository/dao/device.go:69-71 | for every choice of selected columns, the messages determine type and ID of what was delivered exactly when both columns are selected |
| WireContents.WireTellsIdsOnly | internal/component/producer.go:153-161 | with the columns the query selects, two productions are the same messages exactly when they have the same IDs in the same order |
| WireContents.ProduceForOtherTypes | internal/component/producer.go:102-125 | two producers that run the same task on different types and get the same replies leave the same messages and the same verdict |
| WireContents.NothingRecoversTypes | internal/component/producer.go:153-161 | no function of the queue's messages names the types of two tasks that differ in types only |
| WireContents.InterleavingIrrelevant | internal/component/producer.go:111-118 | however the concurrent sessions of a task interleave their pages, each type's devices are the same, as often and in the same order, as when the types are produced one after the other |
| WireContents.InterleavingSameQueue | internal/component/producer.go:111-118 | the queue holds the same messages, each as often, in every interleaving |
| Counting.Counter.IncrPushedCount | internal/component/counter.go:50-52 | raises the pushed count by one |
| Counting.Counter.AddHopeCount | internal/component/counter.go:58-60 | raises the hoped-for count by the given amount |
| Counting.Counter.Reset | internal/component/counter.go:42-44 | any event on the key clears both counts |
| BatchBarrier.Worker.Work | internal/component/worker.go:23-30 | one worked message raises the pushed count and lowers the wait group by one, in steps that each ask for the one before: pushed, counted, reported |
| BatchBarrier.UninterruptedWork | internal/component/worker.go:23-30 | the three worker steps of the interleavings, uninterrupted, are enabled one after the other and have that effect |
| BatchBarrier.BatchBarrierHolds | internal/component/consumer.go:82-94 | in every interleaving of batches and workers, a batch that has returned has had each of its messages worked by exactly one task |
| BatchBarrier.ReportedBatchWaits | internal/component/worker.go:25-26 | while a task is still to be reported its batch has not returned and its wait group is positive |
| BatchBarrier.ReturnedAreCounted | internal/component/counter.go:50-52 | with no reset the pushed count already contains every message of every returned batch, and nothing that was not submitted |
| BatchBarrier.ReturnsExactly | internal/component/consumer.go:84-94 | from every reachable state some continuation lets a batch return, exactly when the pool has refused none of its messages |
| BatchBarrier.NewBatchReturns | internal/component/consumer.go:82-94 | from every reachable state a batch of any size can begin, and can be brought to return |
| BatchBarrier.RefusedBlocks | internal/component/consumer.go:85-93 | any message still to be submitted can be refused, and no continuation then lets its batch return |
| BatchBarrier.Submit | internal/component/consumer.go:83-93 | the wait group starts at the number of messages, and the pool gets those it does not refuse, in order |
| BatchBarrier.TakenExactly | internal/component/consumer.go:85-93 | the pool gets exactly the messages it does not refuse |
| BatchBarrier.TakenInOrder | internal/component/consumer.go:85-93 | it gets them in order, each once |
| BatchBarrier.TakenFallsShort | internal/component/consumer.go:84-94 | the wait group exceeds what the pool gets by the number of refused messages |

## Left out

- HTTP handlers, dependency setup, logging, gauges, deployment and generated mocks: no protocol of their own.
- The partition map at the end of a consumed batch: it only feeds a log line.
- Cron delivery, the interceptor's switches, the retry strategy and the ID generator: not part of the modelled flows.
- `LockController.Stop`: it unlocks without announcing the stop, so the lock results are about runs that do not call it.
- Unexpected TryLock errors and late unlocks in the safety results: they break them, as BrokenTryOverlaps and LateUnlockOverlaps show.
- The lock service, etcd, Redis, the database, the queue and the worker pool beyond the contracts above: they are not part of this repository.
- The hash ring library's choice of points: its source is not part of this model; duplicates in a node list, which change that choice, are treated as one node.
- The listing two minutes after the start as a second writer racing with the events: a listing, or an event, takes effect in one step.
- Data races on unsynchronised fields: every read and every write is one step.
- Wrap-around of the 32-bit and 64-bit counters: integers are unbounded.
- JSON encoding: values are passed as they are, and a value that is not there is the only one that does not decode.
- RateLimitPush.RateLimitPusher.Push: a provider list that is empty makes offlinepush divide by zero, so the list is required to have an element.
- Production.Producer.ProduceTypes: the method produces the types one after the other, where offlinepush runs them concurrently; InterleavingIrrelevant is about every interleaving of their pages.
