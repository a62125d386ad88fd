/** The heartbeat monitor as an object over the queue and the registry that it shares. */
module HeartbeatMonitors {
  import opened Sequences
  import opened JobQueues
  import opened WorkerRegistries
  import opened Scheduling

  class HeartbeatMonitor {
    const queue: InMemoryJobQueue
    const registry: WorkerRegistry

    constructor (queue: InMemoryJobQueue, registry: WorkerRegistry)
      ensures this.queue == queue && this.registry == registry
    {
      this.queue, this.registry := queue, registry;
    }

    /** One worker of the sweep: it is declared dead if it is alive and its last heartbeat is too old. */
    method CheckWorker(worker: string, now: int) returns (dead: bool)
      requires registry.Valid() && worker in registry.workers.vals
      modifies registry
      ensures registry.Valid()
      ensures var i := old(registry.workers).vals[worker];
              dead <==> i.alive && now - i.lastHeartbeat > HEARTBEAT_TIMEOUT
      ensures registry.workers == if dead then MarkDead(old(registry.workers), worker) else old(registry.workers)
    {
      var info := registry.workers.vals[worker];
      if !info.alive {
        return false;
      }
      dead := now - info.lastHeartbeat > HEARTBEAT_TIMEOUT;
      if dead {
        registry.Dead(worker);
      }
    }

    method ReclaimWorkerJobs(worker: string)
      requires forall id :: id in queue.inFlight ==> id in queue.jobs
      modifies queue
      ensures queue.State() == ReclaimJobs(old(queue.State()), worker)
    {
      hide Keep, Requeue;
      ghost var q := queue.State();
      var ids: seq<string> := [];
      KeepNone(q.inFlight[..0], HeldBy(q, worker));
      for i := 0 to |queue.inFlight|
        invariant queue.State() == q
        invariant ids == Keep(q.inFlight[..i], HeldBy(q, worker))
      {
        var id := queue.inFlight[i];
        assert q.inFlight[..i + 1] == q.inFlight[..i] + [id];
        KeepAppend(q.inFlight[..i], id, HeldBy(q, worker));
        if queue.jobs[id].worker == Some(worker) {
          ids := ids + [id];
        }
      }
      assert q.inFlight[..|q.inFlight|] == q.inFlight;
      KeepMembers(q.inFlight, HeldBy(q, worker));
      for i := 0 to |ids|
        invariant queue.State() == RequeueAll(q, ids[..i])
      {
        assert ids[..i + 1][..i] == ids[..i];
        RequeueAllSpec(q, ids[..i]);
        assert ids[i] in ids;
        queue.RequeueJob(ids[i]);
      }
      assert ids[..|ids|] == ids;
    }
  }
}
