# Verified model of the task scheduler and the distributed cache

This project models two parts of the Resilient Container Security and Compliance Engine in Dafny and proves what
they promise: the task scheduler (job queue, dispatcher, worker registry, heartbeat monitor and the supply of
workers) and the distributed cache (LRU cache, two-level cache with Redis, consistent hash ring and the client that
fails over along it). `dafny verify dfyconfig.toml` checks everything.

## How the model is built

The objects of the program are classes whose methods update their fields as the program does, with the program's
loops. Each method is proved equal to a function on the state of the object, and the theorems are about these
functions, over all runs.

| files | content |
|---|---|
| `Sequences`, `OrderedDicts` | filtered sequences, and Python's insertion-ordered dictionary |
| `LruCaches` | the LRU cache, inclusion, and protection from eviction |
| `LayerScanCaches`, `TwoLevelTheorems`, `RestartTheorems`, `CacheLifetimes` | the two-level cache; what it answers; what a restart changes; for how long it answers |
| `RingLabels`, `Sorting`, `HashRings`, `RingTheorems` | the hash ring, and what changes when nodes come and go |
| `CacheClients`, `FailoverTheorems`, `LookupsAmid`, `Comebacks`, `ClientRuns`, `WriteThrough` | the client: failover, nodes that come back during a lookup, when they make it fail, runs, write-through |
| `WorkerRegistries`, `WorkerBalance` | the registry, the selection of workers, and the balance it gives |
| `BalancedRuns` | the same balance over runs of the step machine |
| `JobQueues`, `RedisReclaims` | the in-memory queue, and the startup reclaim of the Redis queue |
| `Scheduling` | the scheduler as a step machine: actions, runs, reachable states |
| `JobAccounting`, `JobDepths`, `JobRecords` | where jobs are in every reachable state, what the depth says about them, and what their dictionaries say |
| `WorkerAccounting`, `DeadWorkers`, `HeartbeatTheorems`, `WorkerSupply` | the counters, the deaths and the number of workers |
| `SchedulerExamples` | runs that show where the scheduler does less than its documentation says |
| `Dispatchers`, `HeartbeatMonitors`, `SchedulerServices` | the objects whose methods are the steps of the machine |

The scheduler is asyncio code. An action of the machine is what one coroutine does between two points at which it
can be suspended, and every interleaving of actions is a run. Where one coroutine executes several actions in a row
without suspending, as in the reclaim and the handling that follow a kill, the machine also allows other actions in
between, so its theorems cover more runs than the program has; the runs in `SchedulerExamples` do not use this
freedom. A job's dictionary is shared by everyone that holds
the job: a reference is a job id, and one table holds the dictionaries. What the code does not record (reclaims,
finishes, jobs given to each worker, its completed and failed runs, deaths, replacements) is counted beside the state.

## What is assumed

- SHA-256 is an arbitrary function from strings to integers. The theorems about rings assume that the points of
  distinct pairs of node and replica number do not collide; that these pairs give distinct texts is proved.
- Readings of the clock are parameters, and the clock does not go backwards within one call of the cache (theorems
  that need more say so).
- Calls of the cache are atomic. In the theorems about both levels, Redis calls do not fail, one node owns its
  Redis, and the time to live is positive; SETEX with another one is an error that the cache ignores. Redis drops a
  key only after the time to live that it was given, so not before the payload expires.
- The order in which Redis lists keys or the in-flight hash is arbitrary.
- Each operation of the ring is atomic, and the lookups of one client do not overlap. Background threads may put
  nodes back on the ring at any time, also during a lookup: a lookup takes, for each of its requests, the nodes that
  come back before it. A node that comes back during a request is the same as one that comes back right after it
  (`LookupsAmid.RecoveryDuringRequest`).
- Node names are not empty where a theorem says so, because the client takes an empty name for no node.
- Ids of jobs and of workers are unused when they are generated. A run can fail only before its completion is
  recorded, because the notifications after it catch their own exceptions.

## Where the code and its documentation disagree

The model follows the code.

- `scheduler/scheduler_service.py:9` and `:141` promise one replacement for each dead worker. The handling of one
  death spawns as many workers as are missing (`SchedulerExamples.OneHandlingTwoReplacements`); what holds is that
  replacements never exceed deaths (`WorkerSupply.ReplacementIsBalanced`).
- `scheduler/heartbeat/monitor.py:55-57` describes a reclaim as handing the job to another worker. The old run is not
  cancelled, so a job can finish twice, and can be pending or marked as completed at the wrong time (`SchedulerExamples`).
  The last of these (`CompletedWhilePending`) needs a run that fails, so a scan that raises before
  `scheduler/dispatcher.py:112`; the scan of `worker_node.process_job` turns every `Exception` into a result.
  `JobAccounting.OnePlaceUntilReclaimed` says exactly when a job is in one place.
- `scheduler/workers/worker_registry.py:92-93` sets the load of a dead worker to 0, but a selection made before the
  death can raise it again (`SchedulerExamples.DeadWorkerAssigned`), though only once
  (`DeadWorkers.DeadWorkerGetsAtMostOneJob`) and exactly when the dispatch loop was waiting with that worker first
  in line (`DeadWorkers.DeadWorkerGetsAJobIffNextInLine`).
- The DELETE route of a cache node reports a deletion, but reaches the LRU only; with Redis the entry comes back
  (`TwoLevelTheorems.HttpDeleteExample`); `TwoLevelTheorems.HttpDeleteForgets` says exactly when it deletes.
- `cache/cache_common.py:257-260` promises that a restart is not a cold start. It changes no lookup by itself, but a
  later put can lose another key than with the old memory, since Redis may list the keys in another order
  (`RestartTheorems.RestartExample`);
  `RestartTheorems.PutKeepsAlike` says exactly when.
- `cache/worker_cache_client.py:23-24` promises that a lookup walks to the next available node. It gives up when a node
  that it has tried is put back and owns the key again, even if another node of the ring is up
  (`Comebacks.ComebackExample`). With a node of the ring up, a lookup can fail in this way if and only if some known
  node is down and owns the key when it is on the ring (`Comebacks.CanFailIffDownOwner`); when only nodes come back
  that it took off itself, it fails if and only if one does before the request to the first owner that answers
  (`Comebacks.OwnComebacksDecide`).
- The log message about a fallback node (`cache/worker_cache_client.py:40-41`) compares the node that answered with the
  owner of the key in the ring as it is then. This is the same node (`LookupsAmid.OwnerAtTheEndDecides`), unless a
  background thread has changed the ring during that very request; otherwise the message does not appear.

## Model

| member | source | states |
|---|---|---|
| `LruCaches.LRUCache.GetItem` | cache/cache_common.py:85-92 | A lookup returns the stored value or nothing, moves a hit to the recent end, and counts the hit or miss. |
| `LruCaches.LRUCache.PutItem` | cache/cache_common.py:94-103 | A write makes the item the most recent one and evicts the oldest item when there are now more than `capacity`; it returns the evicted key, which is gone. |
| `LruCaches.LRUCache.DeleteItem` | cache/cache_common.py:105-107 | A deletion removes the key and nothing else. |
| `LruCaches.Inclusion` | cache/cache_common.py:85-107 | For every trace of get, put and delete and capacities n <= m: the smaller cache is the larger one restricted to its keys, in the same recency order and with the same values, and the difference in size is at most that in room. |
| `LruCaches.LargerCapacityNeverMissesMore` | cache/cache_common.py:85-107 | No Belady anomaly: a larger capacity never turns a hit into a miss, and its order has the smaller order as a subsequence. |
| `LruCaches.CountersTally` | cache/cache_common.py:85-107 | Over every trace, the hits are the lookups that found their key, and the misses are the other lookups; puts and deletions count as neither. |
| `LruCaches.HeldWhenWritten` | cache/cache_common.py:94-103 | An item just written is protected from eviction by fewer than `capacity` other keys if and only if the capacity is positive. |
| `LruCaches.HeldAfterPut` | cache/cache_common.py:94-103 | Writing one of fewer than `capacity` other keys does not evict a protected item: the eviction order is by recency. |
| `LayerScanCaches.LayerScanCache.constructor` | cache/cache_common.py:136-146 | A new process on an existing Redis starts with the warmed LRU and zero counters. |
| `LayerScanCaches.LayerScanCache.WarmFromRedis` | cache/cache_common.py:257-308 | The loop over the listed keys: expired entries are deleted from Redis, the others put into the LRU, counted as restored or skipped. |
| `LayerScanCaches.LayerScanCache.GetScan` | cache/cache_common.py:150-189 | The two-level lookup with its branches: LRU hit, expired LRU entry, Redis hit that rehydrates, expired Redis entry, miss. |
| `LayerScanCaches.LayerScanCache.PutScan` | cache/cache_common.py:191-216 | The write-through with eviction; the evicted key also leaves Redis, unless it is the empty string, which Python takes for no key. |
| `LayerScanCaches.LayerScanCache.DeleteScan` | cache/cache_common.py:218-221 | A deletion reaches both levels. |
| `TwoLevelTheorems.RunCoherent` | cache/cache_common.py:150-221 | After every run of calls and restarts, each entry of the LRU has the same payload in Redis, and Redis keeps it until it expires. |
| `TwoLevelTheorems.GetIsRedisLookup` | cache/cache_common.py:150-189 | With two readings of the clock in one call, the answer is what Redis alone answers at one of them. |
| `TwoLevelTheorems.Transparency` | cache/cache_common.py:150-221 | After every run, a lookup at an instant answers what a lookup in the Redis map alone would answer. |
| `RestartTheorems.RestartTransparency` | cache/cache_common.py:257-308 | After every run, a restart with any new capacity and any listing of keys changes no answer to any later sequence of lookups and deletions. |
| `RestartTheorems.RestartTransparencyWithPuts` | cache/cache_common.py:191-308 | The same with later puts, as long as each put loses the same key with the new memory as with the old. |
| `RestartTheorems.PutKeepsAlike` | cache/cache_common.py:191-216 | Two nodes that answer alike go on doing so after the same put if and only if the put loses them the same key: the one that the full LRU evicts while Redis still answers it. |
| `RestartTheorems.RestartExample` | cache/cache_common.py:191-308 | A failing input: after a restart with the same room, warmed in another order, a put loses another key than in the old process. |
| `TwoLevelTheorems.WarmOrder` | cache/cache_common.py:279-297 | The warmed LRU holds exactly the last live keys in the order of the listing, and restored + skipped is the number of live keys. |
| `TwoLevelTheorems.WarmCounts` | cache/cache_common.py:268-308 | For a complete listing: restored + skipped is the number of unexpired entries, and the LRU holds min(capacity, that number). |
| `TwoLevelTheorems.HttpDeleteForgets` | cache/cache_node.py:84-87 | With or without Redis, after every run: the DELETE route makes the next lookup find nothing if and only if the node has no Redis or its Redis answers nothing for the key. |
| `TwoLevelTheorems.HttpDeleteForgetsNothing` | cache/cache_node.py:84-87 | With Redis the next lookup answers as if nothing had been deleted. |
| `TwoLevelTheorems.HttpDeleteExample` | cache/cache_node.py:84-87 | A failing input: put, DELETE, and the lookup still finds the value. |
| `TwoLevelTheorems.CountersTally` | cache/cache_common.py:158-189 | Each of the three counters: since the last restart, lookups answered by an unexpired item in memory, lookups answered otherwise, and lookups without an answer. |
| `CacheLifetimes.Freshness` | cache/cache_common.py:158-221 | With or without Redis: a returned value is the argument of the latest put of its key, no delete followed, and it has not expired; no read, rehydration or restart extends a lifetime. |
| `CacheLifetimes.PutStaysReadable` | cache/cache_common.py:150-216 | Until its expiry a written value is read back, while fewer than `capacity` other keys were touched and the key itself was neither written again nor deleted. |
| `CacheLifetimes.AnswerIsRemembered` | cache/cache_common.py:157-181 | What a lookup answers is then the most recent item in memory, also when it came from Redis. |
| `CacheLifetimes.MissLeavesNothing` | cache/cache_common.py:157-189 | After a lookup without an answer, the key is on neither level: expired entries are cleaned up. |
| `CacheLifetimes.PutDisplaces` | cache/cache_common.py:191-216 | A put adds its key to both levels and takes the displaced key from both, and no other key comes or goes; the exception is the empty key, which stays in Redis. |
| `CacheLifetimes.PutStores` | cache/cache_common.py:191-212 | What a put leaves for its key on both levels: the result with the time of the put and the expiry, in Redis for the time to live; no other item changes. |
| `CacheLifetimes.RunFits` | cache/cache_common.py:94-103 | Every reachable node holds at most its capacity. |
| `RingLabels.LabelInjective` | cache/cache_common.py:334-334 | The text that is hashed for a virtual replica determines the node and the number of the replica, even when node names contain the separator. |
| `RingLabels.DecimalIsPlain` | cache/cache_common.py:334-334 | The replica number is written in decimal digits without a leading zero. |
| `Sorting.BisectRight` | cache/cache_common.py:352-352 | The binary search of `bisect_right`: everything before the result is at most x, everything from it on is larger. |
| `HashRings.ConsistentHashRing.Add` | cache/cache_common.py:329-337 | Adding a node appends its points in a loop and sorts, so that the sorted list gains exactly these points; adding it again does nothing. |
| `HashRings.ConsistentHashRing.Remove` | cache/cache_common.py:339-346 | Removing a node drops its points in a loop and rebuilds the sorted list from the dictionary. |
| `HashRings.ConsistentHashRing.GetNode` | cache/cache_common.py:348-355 | The lookup finds the owner of the first point strictly after the hash, going around; it finds none exactly when the ring is empty. |
| `RingTheorems.AddCanonical` | cache/cache_common.py:329-337 | Adding keeps the ring canonical: strictly sorted points, exactly those of its nodes, each owned by its node. |
| `RingTheorems.RemoveCanonical` | cache/cache_common.py:339-346 | So does removing, although it rebuilds the list in another way. |
| `RingTheorems.Determined` | cache/cache_common.py:316-346 | A canonical ring is determined by its set of nodes alone. |
| `RingTheorems.HistoryIndependence` | cache/cache_common.py:329-346 | Two histories of additions and removals with the same surviving nodes leave the same ring. |
| `RingTheorems.AddRemoveIdentity` | cache/cache_common.py:329-346 | Adding a new node and removing it again is the identity. |
| `RingTheorems.RemoveAddIdentity` | cache/cache_common.py:329-346 | Removing a node and adding it back is the identity. |
| `RingTheorems.RingSize` | cache/cache_common.py:357-362 | The reported ring size is the number of nodes times the number of replicas. |
| `RingTheorems.OwnerIsSuccessor` | cache/cache_common.py:348-355 | The owner of a hash is the node of its clockwise successor point. |
| `RingTheorems.RemoveDisruptsLittle` | cache/cache_common.py:339-355 | Removing a node changes the owner of no key that it did not own, and it owns none afterwards. |
| `RingTheorems.AddDisruptsLittle` | cache/cache_common.py:329-355 | After adding a node, the owner of every key is its old owner or the new node. |
| `CacheClients.DistributedCacheClient.GetLayerScan` | cache/worker_cache_client.py:21-56 | The lookup loop on a ring to which background threads add nodes between the requests: ask the owner, and while it does not answer, take it off the ring and ask the new owner; give up on a node tried before, and after one request per known node. |
| `CacheClients.DistributedCacheClient.CheckAndReadd` | cache/worker_cache_client.py:106-117 | What the background thread does after its wait: a healthy node is added back. |
| `CacheClients.DistributedCacheClient.PutLayerScan` | cache/worker_cache_client.py:60-90 | The write to all known nodes: an error with the last message when none succeeded, otherwise the counts. |
| `CacheClients.SuccessesCount` | cache/worker_cache_client.py:68-90 | The count in the reply is the number of requests that succeeded, in every mixture of outcomes. |
| `FailoverTheorems.FailoverIsRingWalk` | cache/worker_cache_client.py:21-56 | While no node is put back: the nodes contacted are exactly the distinct owners met going clockwise from the key's hash, up to the first that answers; the ring loses exactly those that did not; as many tries as the ring has nodes suffice. |
| `FailoverTheorems.ErrorIffAllDown` | cache/worker_cache_client.py:54-56 | While no node is put back: the error is returned if and only if every node of the ring is down; otherwise the reply comes from a node of the ring. |
| `FailoverTheorems.RecoveryRestoresRing` | cache/worker_cache_client.py:98-117 | When all nodes that a lookup took off are added back, in any order, the ring is exactly what it was. |
| `ClientRuns.ClientRingCanonical` | cache/worker_cache_client.py:9-56 | After any lookups and recoveries, also recoveries during lookups, the ring is canonical and holds known nodes only. |
| `LookupsAmid.RecoveryDuringRequest` | cache/worker_cache_client.py:98-117 | A node that comes back during a request leaves the same ring as one that comes back right after it. |
| `LookupsAmid.OwnerAtTheEndDecides` | cache/worker_cache_client.py:29-56 | Whatever comes back during it, a lookup returns the reply of the node that owns the key in the ring at the end, if this node answers, and otherwise the error. |
| `LookupsAmid.HealthyLookupHits` | cache/worker_cache_client.py:29-56 | When only nodes that answer come back, a lookup fails exactly when all nodes then on the ring are down, and one node of the ring that is up is enough for a reply. |
| `Comebacks.CanFailIffDownOwner` | cache/worker_cache_client.py:29-56 | On a ring with a node that is up, some nodes put back during the lookup make it fail if and only if some known node is down and owns the key when it is on the ring; both sides of the condition are known before the call. |
| `Comebacks.OwnComebacksDecide` | cache/worker_cache_client.py:29-56 | On such a ring, when only nodes come back that the lookup took off itself: it fails if and only if one does so before the request to the first owner that answers. |
| `Comebacks.ComebackExample` | cache/worker_cache_client.py:29-56 | A failing input with three nodes: the first owner comes back while the second is asked, and the third, which is up, is never asked. |
| `ClientRuns.EveryLookup` | cache/worker_cache_client.py:21-56 | In every run of a client, with nodes that come back between and during lookups: the owner of the key in the ring at the end decides the outcome; while some ring node is up, the two conditions above say when the lookup can fail and when it does; without arrivals it is a ring walk. |
| `WriteThrough.WriteThroughReadsHit` | cache/worker_cache_client.py:60-90 | After a put with nodes_written = nodes_total, a failover lookup before the expiry returns the result if some ring node is up and only nodes that are up come back during it, whatever fewer than `capacity` other keys were touched on each node. |
| `WorkerRegistries.WorkerRegistry.RegisterWorker` | scheduler/workers/worker_registry.py:12-29 | Registration: a known worker keeps its counters and its place, and is alive again. |
| `WorkerRegistries.WorkerRegistry.Beat` | scheduler/workers/worker_registry.py:31-33 | A heartbeat of a registered worker sets its time stamp. |
| `WorkerRegistries.WorkerRegistry.SetLoad` | scheduler/workers/worker_registry.py:35-37 | The load is set, but not below 0. |
| `WorkerRegistries.WorkerRegistry.Assigned` | scheduler/workers/worker_registry.py:39-50 | An assignment raises load, assigned jobs and assigned events of the one worker. |
| `WorkerRegistries.WorkerRegistry.Completed` | scheduler/workers/worker_registry.py:52-65 | A completion lowers the load, but not below 0, and raises both completion counters. |
| `WorkerRegistries.WorkerRegistry.FailedOrRequeued` | scheduler/workers/worker_registry.py:67-73 | A failure lowers the load, but not below 0. |
| `WorkerRegistries.WorkerRegistry.Dead` | scheduler/workers/worker_registry.py:90-94 | A death sets the status and the load, and keeps the record. |
| `WorkerRegistries.WorkerRegistry.Available` | scheduler/workers/worker_registry.py:75-83 | The selection holds exactly the alive workers with a node, by increasing load. |
| `WorkerRegistries.AvailableWorkersSpec` | scheduler/workers/worker_registry.py:75-83 | The sort is stable: workers with the same load stay in the order of registration. |
| `WorkerRegistries.FirstIsLeastLoaded` | scheduler/dispatcher.py:24-37 | The worker that the dispatcher takes has the least load of all that can work; there is one unless none can. |
| `WorkerBalance.GreedyBalance` | scheduler/workers/worker_registry.py:75-83 | From k idle workers, n dispatches in a row, each to the first available worker, give every worker n / k jobs, and exactly n % k of them one more. |
| `BalancedRuns.RunsAreBalanced` | scheduler/dispatcher.py:22-67 | The same over every run of the step machine made of arriving jobs, heartbeats and the steps of the dispatch loop, where each selection precedes the wait for its job and n is the number of jobs taken. |
| `WorkerBalance.SpreadNeverGrows` | scheduler/workers/worker_registry.py:75-83 | From any start, dispatches in a row never make the spread of the loads larger than max(initial spread, 1). |
| `BalancedRuns.RunsDoNotSpread` | scheduler/dispatcher.py:22-67 | The same over every such run of the step machine. |
| `JobQueues.InMemoryJobQueue.EnqueueJob` | scheduler/queue/job_queue.py:186-198 | A new job gets its dictionary and goes to the end of the pending list. |
| `JobQueues.InMemoryJobQueue.DequeueJob` | scheduler/queue/job_queue.py:200-203 | The first pending job leaves the list and is recorded as in flight. |
| `JobQueues.InMemoryJobQueue.AssignJob` | scheduler/dispatcher.py:46-47 | The worker is written into the shared dictionary of the job, and nothing else changes. |
| `JobQueues.InMemoryJobQueue.RequeueJob` | scheduler/queue/job_queue.py:205-210 | The job loses its worker, goes to the end of the pending list and out of the in-flight record. |
| `JobQueues.InMemoryJobQueue.CompleteJob` | scheduler/queue/job_queue.py:212-215 | A job in flight is marked completed and leaves the record; for others nothing happens. |
| `JobQueues.InMemoryJobQueue.Stats` | scheduler/queue/job_queue.py:226-232 | The three numbers: pending copies, records in flight, and their sum, the depth. |
| `JobQueues.RequeueAllSpec` | scheduler/heartbeat/monitor.py:85-89 | Requeueing a list of jobs appends exactly these, in order, takes exactly these out of flight, and changes no other job. |
| `RedisReclaims.RedisJobQueue.ReclaimInFlight` | scheduler/queue/job_queue.py:151-169 | The startup reclaim on the Redis list and hash, to its end or to a crash at any point, also between a push and its delete. |
| `RedisReclaims.CrashSafeReclaim` | scheduler/queue/job_queue.py:151-169 | After any crashes and one complete run: nothing is in flight, the old pending list is a prefix of the new one, every in-flight job was appended and nothing else, and the extra copies are as many as crashes between push and delete. |
| `RedisReclaims.ReclaimedJobsArePending` | scheduler/queue/job_queue.py:164-168 | After the same crashes and run: each job that was in flight was appended under its own id, pending and without a worker, and every appended job is one of these. |
| `Dispatchers.Dispatcher.SelectWorkers` | scheduler/dispatcher.py:23-29 | The selection before the wait; without available workers the loop sleeps. |
| `Dispatchers.Dispatcher.TakeJob` | scheduler/dispatcher.py:31-51 | The job arrives and goes to the first worker selected before the wait, or back when that worker has no node. |
| `Dispatchers.Dispatcher.StartRun` | scheduler/dispatcher.py:65-67 | The run starts in the background, and the loop goes on. |
| `Dispatchers.Dispatcher.FinishRun` | scheduler/dispatcher.py:112-122 | Completion in queue and registry, in one step. |
| `Dispatchers.Dispatcher.FailRun` | scheduler/dispatcher.py:133-139 | The first half of a failure: the load goes down. |
| `Dispatchers.Dispatcher.RequeueFailed` | scheduler/dispatcher.py:146-152 | The second half: the job is requeued, and the load guard runs. |
| `Dispatchers.LoadGuard` | scheduler/dispatcher.py:148-152 | The guard at the end of a run is the identity: a load is never negative. |
| `Dispatchers.RoundIsDispatch` | scheduler/dispatcher.py:22-65 | A selection directly followed by a job is one greedy dispatch, the step of the balance theorems. |
| `WorkerAccounting.TakenJobIsAssigned` | scheduler/dispatcher.py:37-51 | In every reachable state a taken job is assigned to the worker selected before the wait; the requeue for a missing node never happens. |
| `JobAccounting.Conservation` | scheduler/dispatcher.py:22-152 | In every reachable state, job by job: pending copies + holders + finishes = acceptances + reclaims. |
| `JobAccounting.NothingIsLost` | scheduler/queue/job_queue.py:200-215 | Every accepted job is pending, in flight or finished, and every record in flight has a live holder. |
| `JobAccounting.DepthIsHonest` | scheduler/scheduler_service.py:80-83 | The reported depth is at least the number of accepted jobs that have not finished; so depth 0 means that all have finished. |
| `JobDepths.DepthIsBounded` | scheduler/scheduler_service.py:80-83 | Depth and finishes together are at most the acceptances and reclaims. |
| `JobDepths.DepthIsExact` | scheduler/scheduler_service.py:80-83 | While no job was reclaimed, the depth is exactly the number of accepted jobs that have not finished. |
| `JobAccounting.OnePlaceUntilReclaimed` | scheduler/dispatcher.py:69-146 | A job is in one place if and only if it was never reclaimed; then it is pending once, or in flight with one holder, or finished once. |
| `JobAccounting.BoundedBypass` | scheduler/queue/job_queue.py:186-209 | First in, first out over all continuations: the job at place p is pending at place p - k after k dequeues, and is the one taken by the (p+1)-th. |
| `JobRecords.ReclaimTakesHeldJobs` | scheduler/heartbeat/monitor.py:78-89 | The reclaim for a worker takes only jobs that this worker holds, and leaves none in flight in its name. |
| `JobRecords.CompletedMeansFinished` | scheduler/queue/job_queue.py:205-215 | A job marked as completed has finished; if it was never reclaimed, also the converse. |
| `WorkerAccounting.WorkersAreAccounted` | scheduler/workers/worker_registry.py:39-94 | In every reachable state, for every worker: jobs_assigned is the number of jobs it was given, jobs_completed the number of runs that completed on it; given = completed + failed + active; load <= active, and equal while it is alive; events mirror jobs. |
| `WorkerAccounting.ClampNeverFires` | scheduler/workers/worker_registry.py:63-73 | The clamp at 0 never takes effect on a worker that is alive: the end of a run lowers its load by exactly one. |
| `WorkerAccounting.DeadStaysDead` | scheduler/workers/worker_registry.py:90-94 | No continuation brings a dead worker back to life. |
| `DeadWorkers.DeadWorkerGetsAtMostOneJob` | scheduler/dispatcher.py:24-51 | Over all continuations a worker is given at most one job after its death, and only if the dispatch loop was waiting with it first in line; its load never counts anything else again. |
| `DeadWorkers.DeadWorkerIsGivenTheNextJob` | scheduler/dispatcher.py:24-51 | If the loop was so waiting, the next job that arrives is given to the dead worker, whose load becomes 1. |
| `DeadWorkers.DeadWorkerGetsAJobIffNextInLine` | scheduler/dispatcher.py:24-51 | Some continuation gives a job to the worker after its death if and only if the loop was waiting with it first in line as it died. |
| `HeartbeatMonitors.HeartbeatMonitor.CheckWorker` | scheduler/heartbeat/monitor.py:26-34 | A worker is declared dead if and only if it is alive and its last heartbeat is older than the time-out. |
| `HeartbeatMonitors.HeartbeatMonitor.ReclaimWorkerJobs` | scheduler/heartbeat/monitor.py:78-89 | The two loops of the in-memory reclaim: collect the jobs in flight that name the worker, then requeue them. |
| `HeartbeatTheorems.TimedOutExactlyWhenSilent` | scheduler/heartbeat/monitor.py:26-34 | Over all runs: no time-out within 10 seconds of the registration or any heartbeat of a worker, and after a longer silence an alive worker can be timed out at the next sweep. |
| `HeartbeatTheorems.InitialWorkersTimeOut` | scheduler/heartbeat/monitor.py:26-34 | The same for the initial workers, from the start of the service. |
| `SchedulerServices.SchedulerService.AliveWorkerCount` | scheduler/scheduler_service.py:64-73 | The loop over the records counts the alive workers. |
| `SchedulerServices.SchedulerService.SpawnOneWorker` | scheduler/scheduler_service.py:112-137 | A new worker registers, if and only if fewer than 20 are alive. |
| `SchedulerServices.SchedulerService.SpawnInitialWorkers` | scheduler/scheduler_service.py:362-369 | The start: one attempt per initial worker. |
| `SchedulerServices.SchedulerService.ReplaceWorkerIfNeeded` | scheduler/scheduler_service.py:139-186 | The handling of a death: skipped when handled before, marked as handled first, then one attempt per missing worker. |
| `SchedulerServices.SchedulerService.ScaleWorkers` | scheduler/scheduler_service.py:272-302 | Rejected when no slot is free; otherwise min(count, slots) workers register under the first ids, this number is reported, and no other worker changes. |
| `SchedulerServices.SchedulerService.KillWorker` | scheduler/scheduler_service.py:314-338 | The kill request up to the notification: unknown worker, worker already dead, or death. |
| `SchedulerServices.SchedulerService.AfterKill` | scheduler/scheduler_service.py:345-353 | The rest of the kill request: reclaim, then the handling of the death. |
| `WorkerSupply.AliveCountIsSize` | scheduler/scheduler_service.py:64-73 | The count over the records is the number of alive workers. |
| `WorkerSupply.ReplacementIsBalanced` | scheduler/scheduler_service.py:112-186 | In every reachable state: at most 20 are alive; replacements are at most deaths; alive workers and unhandled deaths together reach min(desired, 20), so the target is alive once all deaths are handled. |
| `WorkerSupply.FirstHandlingFills` | scheduler/scheduler_service.py:139-186 | The first handling of a death leaves max(alive before, min(desired, 20)) alive and spawns exactly the difference; a later one changes nothing. |
| `WorkerSupply.ScaleFills` | scheduler/scheduler_service.py:272-287 | In every reachable state a scale request leaves min(alive + count, 20) alive: exactly so many new workers register, alive and idle, and nobody else changes; it is rejected exactly when 20 are alive. |
| `WorkerSupply.StartFills` | scheduler/scheduler_service.py:362-369 | The service starts with min(desired, 20) workers, in the order of their ids. |
| `SchedulerExamples.PendingAfterFinish` | scheduler/heartbeat/monitor.py:78-89 | A reachable state in which a job is pending although it has finished: the run of a killed worker is not cancelled. |
| `SchedulerExamples.FinishedTwice` | scheduler/dispatcher.py:69-116 | A reachable state in which a job has finished twice. |
| `SchedulerExamples.CompletedWhilePending` | scheduler/queue/job_queue.py:212-215 | A reachable state in which a job is marked as completed and sits in the pending list. |
| `SchedulerExamples.DeadWorkerAssigned` | scheduler/dispatcher.py:24-51 | A reachable state in which a job was just assigned to a dead worker, which has a load again. |
| `SchedulerExamples.OneHandlingTwoReplacements` | scheduler/scheduler_service.py:139-186 | A reachable state in which the handling of one death spawns two workers. |

## Left out

- HTTP, the FastAPI routes as transport, WebSockets, the dashboard, logging and the notifications of the control
  plane: they matter only as points at which a coroutine can be suspended.
- The scan itself (Trivy, Docker, `worker_node.process_job`): a run ends at some time, well or badly.
- The rest of `RedisJobQueue`: completion without waiting, the requeue and the reclaim for one worker. The record of
  a job in flight is written before its `worker_id` is set, so the reclaim for one worker finds none, and a crash
  between the pop and the record loses the job; only the startup reclaim is modelled.
- Failing Redis calls, and several cache nodes on one Redis, where the eviction of one node deletes the key for all.
- Calls of the cache that interleave: the lock of the LRU protects single operations, not the two levels together.
- `RestartTheorems.RestartTransparency` and `TwoLevelTheorems.Transparency` speak of nodes with Redis; without it a
  restart forgets everything. Later puts can evict other keys from Redis; `RestartTransparencyWithPuts` has the condition.
- `LayerScanCaches.LayerScanCache.WarmFromRedis`: Redis answers all reads of the warming at the instant of its clock
  reading, although the later ones come after it.
- `WriteThrough.WriteThroughReadsHit`: the nodes are not restarted between the put and the lookup, since a restart
  without Redis forgets the result, and one with Redis may not have room for it.
- `JobQueues.InMemoryJobQueue.AssignJob`: the time stamp of the assignment, which no code of the scheduler reads.
- `JobQueues.InMemoryJobQueue.CompleteJob`: the result in the dictionary of the job, which no code of the scheduler reads.
- Lookups of one client that overlap, and ring operations of several threads that interleave inside.
- The time between heartbeats and sweeps, the sleeps, and the 15 seconds before a node is checked again: an action
  can happen whenever its guard allows it.
- The mirror of the completed jobs in `worker_node`, and the rounding of the hit ratio.
- `state_store.py`, `standby.py`, `resilience.py`, `log_monitor.py`, `docker_listener.py` and
  `cache/storage/lru_cache.py`, a second and simpler LRU: they would add easy members only.
