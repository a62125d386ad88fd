/** The scheduler service as an object: the supply of workers. Ids of new workers are parameters. */
module SchedulerServices {
  import opened Sequences
  import opened WorkerRegistries
  import opened Scheduling
  import opened WorkerAccounting
  import opened WorkerSupply
  import opened HeartbeatMonitors

  datatype KillAnswer = NotFound | AlreadyDead | Killed

  class SchedulerService {
    const registry: WorkerRegistry
    const monitor: HeartbeatMonitor
    var desiredWorkers: int
    var replacedDeadWorkers: set<string>

    constructor (registry: WorkerRegistry, monitor: HeartbeatMonitor, initialWorkers: int)
      requires monitor.registry == registry
      ensures this.registry == registry && this.monitor == monitor
      ensures desiredWorkers == initialWorkers && replacedDeadWorkers == {}
    {
      this.registry, this.monitor := registry, monitor;
      desiredWorkers, replacedDeadWorkers := initialWorkers, {};
    }

    method AliveWorkerCount() returns (count: nat)
      requires registry.Valid()
      ensures count == AliveCount(registry.workers)
    {
      var r := registry.workers;
      count := 0;
      for i := 0 to |r.order|
        invariant count == |Keep(r.order[..i], IsAlive(r))|
      {
        assert r.order[..i + 1] == r.order[..i] + [r.order[i]];
        KeepConcat(r.order[..i], [r.order[i]], IsAlive(r));
        if r.vals[r.order[i]].alive {
          count := count + 1;
        }
      }
      assert r.order[..|r.order|] == r.order;
    }

    method SpawnOneWorker(id: string, now: int) returns (spawned: bool)
      requires registry.Valid()
      modifies registry
      ensures registry.Valid() && registry.workers == SpawnOne(old(registry.workers), id, now)
      ensures spawned <==> AliveCount(old(registry.workers)) < MAX_WORKERS
    {
      var alive := AliveWorkerCount();
      if alive >= MAX_WORKERS {
        return false;
      }
      registry.RegisterWorker(id, true, now);
      return true;
    }

    method SpawnInitialWorkers(count: nat, ids: seq<string>, now: int)
      requires registry.Valid() && |ids| == count
      modifies registry
      ensures registry.Valid() && registry.workers == SpawnMany(old(registry.workers), ids, now)
    {
      for i := 0 to count
        invariant registry.Valid() && registry.workers == SpawnMany(old(registry.workers), ids[..i], now)
      {
        assert ids[..i + 1][..i] == ids[..i];
        var _ := SpawnOneWorker(ids[i], now);
      }
      assert ids[..count] == ids;
    }

    method ReplaceWorkerIfNeeded(dead: string, ids: seq<string>, now: int)
      requires registry.Valid() && Missing(registry.workers, desiredWorkers) <= |ids|
      modifies this`replacedDeadWorkers, registry
      ensures registry.Valid()
      ensures (registry.workers, replacedDeadWorkers)
           == Replace(old(registry.workers), old(replacedDeadWorkers), desiredWorkers, dead, ids, now)
    {
      hide AliveCount, SpawnOne;
      if dead in replacedDeadWorkers {
        return;
      }
      ghost var r := registry.workers;
      var alive := AliveWorkerCount();
      if alive >= desiredWorkers {
        assert SpawnMany(r, ids[..0], now) == r;
        replacedDeadWorkers := replacedDeadWorkers + {dead};
        return;
      }
      var missing := desiredWorkers - alive;
      replacedDeadWorkers := replacedDeadWorkers + {dead};
      for i := 0 to missing
        invariant replacedDeadWorkers == old(replacedDeadWorkers) + {dead}
        invariant registry.Valid() && registry.workers == SpawnMany(r, ids[..i], now)
      {
        assert ids[..i + 1][..i] == ids[..i];
        var _ := SpawnOneWorker(ids[i], now);
      }
    }

    /** The answer is None (HTTP 400) when no slot is free, and otherwise the number of spawned workers: as many
        as were asked for or as there are free slots. */
    method ScaleWorkers(count: nat, ids: seq<string>, now: int) returns (answer: Option<nat>)
      requires registry.Valid() && 1 <= count <= MAX_WORKERS && count <= |ids|
      modifies registry
      ensures registry.Valid()
      ensures var scaled := Scale(old(registry.workers), count, ids, now);
              && (answer == None <==> scaled == None)
              && registry.workers == if scaled.Some? then scaled.value else old(registry.workers)
      ensures var r, slots := old(registry.workers), MAX_WORKERS - AliveCount(old(registry.workers));
              var n := if slots <= 0 then 0 else if count < slots then count else slots;
              Fresh(ids, r) ==>
                && answer == (if slots <= 0 then None else Some(n))
                && AliveCount(registry.workers) == AliveCount(r) + n
                && registry.workers.order == r.order + ids[..n]
                && forall w :: w in r.vals ==> w in registry.workers.vals && registry.workers.vals[w] == r.vals[w]
    {
      hide AliveCount, SpawnOne;
      ghost var r := registry.workers;
      var alive := AliveWorkerCount();
      var slots := MAX_WORKERS - alive;
      if slots <= 0 {
        assert r.order + ids[..0] == r.order;
        return None;
      }
      var toSpawn := if count < slots then count else slots;
      var spawned := 0;
      for i := 0 to toSpawn
        invariant registry.Valid() && registry.workers == SpawnMany(r, ids[..i], now)
        invariant Fresh(ids, r) ==> spawned == i
      {
        assert ids[..i + 1][..i] == ids[..i];
        if Fresh(ids, r) {
          FreshPrefix(ids, i, r);
          SpawnManyCount(r, ids[..i], now);
        }
        var one := SpawnOneWorker(ids[i], now);
        if one {
          spawned := spawned + 1;
        }
      }
      answer := Some(spawned);
      if Fresh(ids, r) {
        SpawnedEffect(r, ids, count, now);
      }
    }

    /** The kill request up to the notification of the control plane */
    method KillWorker(worker: string, ids: seq<string>, now: int) returns (answer: KillAnswer)
      requires registry.Valid() && Missing(registry.workers, desiredWorkers) <= |ids|
      modifies this`replacedDeadWorkers, registry
      ensures registry.Valid()
      ensures answer == if worker !in old(registry.workers).vals then NotFound
                        else if old(registry.workers).vals[worker].alive then Killed else AlreadyDead
      ensures (registry.workers, replacedDeadWorkers) ==
        match answer
        case NotFound => (old(registry.workers), old(replacedDeadWorkers))
        case AlreadyDead => Replace(old(registry.workers), old(replacedDeadWorkers), desiredWorkers, worker, ids, now)
        case Killed => (MarkDead(old(registry.workers), worker), old(replacedDeadWorkers))
    {
      if worker !in registry.workers.vals {
        return NotFound;
      }
      if !registry.workers.vals[worker].alive {
        ReplaceWorkerIfNeeded(worker, ids, now);
        return AlreadyDead;
      }
      registry.Dead(worker);
      return Killed;
    }

    /** The rest of the kill request: the jobs are reclaimed, then the failure is handled. */
    method AfterKill(worker: string, ids: seq<string>, now: int)
      requires registry.Valid() && Missing(registry.workers, desiredWorkers) <= |ids|
      requires forall id :: id in monitor.queue.inFlight ==> id in monitor.queue.jobs
      modifies this`replacedDeadWorkers, registry, monitor.queue
      ensures registry.Valid()
      ensures monitor.queue.State() == ReclaimJobs(old(monitor.queue.State()), worker)
      ensures (registry.workers, replacedDeadWorkers)
           == Replace(old(registry.workers), old(replacedDeadWorkers), desiredWorkers, worker, ids, now)
    {
      monitor.ReclaimWorkerJobs(worker);
      ReplaceWorkerIfNeeded(worker, ids, now);
    }
  }
}
