/** The dispatcher as an object over the queue and the registry that it shares: each method is one step of the
    dispatch loop or of a run, up to the next point of suspension. */
module Dispatchers {
  import opened Sequences
  import opened JobQueues
  import opened WorkerRegistries
  import opened Scheduling
  import opened WorkerBalance

  /** Every reference to a job refers to a job dictionary. */
  ghost predicate Referenced(x: Work) {
    && (forall id :: id in x.queue.pending || id in x.queue.inFlight ==> id in x.queue.jobs)
    && (x.loop.Reporting? ==> x.loop.job in x.queue.jobs)
    && (forall run :: run in x.runs ==> run.job in x.queue.jobs)
  }

  /** The guard that ends a run, update_load(max(0, load)), changes nothing: a load is never negative. */
  lemma LoadGuard(r: Registry, w: string)
    requires r.WellFormed()
    ensures w in r.vals ==> UpdateLoad(r, w, r.vals[w].load) == r
  {
  }

  /** A round in which nothing happens between the selection and the arrival of the job is one greedy dispatch. */
  lemma RoundIsDispatch(x: Work)
    requires WellFormed(x) && x.loop.Idle? && x.queue.pending != []
    requires AvailableWorkers(x.registry) != []
    ensures var y := Select(x);
            && y.loop.Waiting? && y.loop.workers != []
            && Take(y).registry == Dispatch(x.registry)
            && Take(y).loop == Reporting(x.queue.pending[0], AvailableWorkers(x.registry)[0])
  {
    AvailableWorkersSpec(x.registry);
    hide AvailableWorkers;
    assert AvailableWorkers(x.registry)[0] in AvailableWorkers(x.registry);
  }

  class Dispatcher {
    const queue: InMemoryJobQueue
    const registry: WorkerRegistry
    var loop: Dispatching
    var runs: seq<Run>

    ghost function Contents(): Work
      reads this, queue, registry
    {
      Work(queue.State(), registry.workers, loop, runs)
    }

    ghost predicate Valid()
      reads this, queue, registry
    {
      registry.Valid() && Referenced(Contents())
    }

    constructor (queue: InMemoryJobQueue, registry: WorkerRegistry)
      requires registry.Valid() && forall id :: id in queue.pending || id in queue.inFlight ==> id in queue.jobs
      ensures Valid() && this.queue == queue && this.registry == registry
      ensures Contents() == Work(queue.State(), registry.workers, Idle, [])
    {
      this.queue, this.registry, loop, runs := queue, registry, Idle, [];
    }

    method SelectWorkers()
      requires Valid() && loop.Idle?
      modifies this
      ensures Valid() && Contents() == Select(old(Contents()))
    {
      var workers := registry.Available();
      if workers != [] {
        loop := Waiting(workers);
      }
    }

    method TakeJob()
      requires Valid() && loop.Waiting? && loop.workers != [] && queue.pending != []
      modifies this, queue, registry
      ensures Valid() && Contents() == Take(old(Contents()))
    {
      ghost var before := Contents();
      var id := queue.DequeueJob();
      var worker := loop.workers[0];
      assert id in before.queue.pending;
      if worker !in registry.workers.vals || !registry.workers.vals[worker].hasNode {
        queue.RequeueJob(id);
        loop := Idle;
      } else {
        queue.AssignJob(id, worker);
        registry.Assigned(worker);
        loop := Reporting(id, worker);
      }
      TakeReferenced(before);
    }

    method StartRun()
      requires Valid() && loop.Reporting?
      modifies this
      ensures Valid() && Contents() == Start(old(Contents()))
    {
      runs := runs + [Run(loop.job, loop.worker, false)];
      loop := Idle;
    }

    method FinishRun(i: nat)
      requires Valid() && i < |runs| && !runs[i].failing
      modifies this, queue, registry
      ensures Valid() && Contents() == Finish(old(Contents()), i)
    {
      ghost var before := Contents();
      var run := runs[i];
      assert run in before.runs;
      queue.CompleteJob(run.job);
      registry.Completed(run.worker);
      runs := RemoveRun(runs, i);
      FinishReferenced(before, i);
    }

    method FailRun(i: nat)
      requires Valid() && i < |runs| && !runs[i].failing
      modifies this, registry
      ensures Valid() && Contents() == FailFirst(old(Contents()), i)
    {
      registry.FailedOrRequeued(runs[i].worker);
      runs := runs[i := runs[i].(failing := true)];
    }

    method RequeueFailed(i: nat)
      requires Valid() && i < |runs| && runs[i].failing
      modifies this, queue, registry
      ensures Valid() && Contents() == FailSecond(old(Contents()), i)
    {
      ghost var before := Contents();
      var run := runs[i];
      assert run in before.runs;
      queue.RequeueJob(run.job);
      GuardLoad(run.worker);
      runs := RemoveRun(runs, i);
      FailReferenced(before, i);
    }

    /** The guard at the end of every run, good or bad */
    method GuardLoad(worker: string)
      requires registry.Valid()
      modifies registry
      ensures registry.Valid() && registry.workers == old(registry.workers)
    {
      if worker in registry.workers.vals {
        LoadGuard(registry.workers, worker);
        registry.SetLoad(worker, if registry.workers.vals[worker].load < 0 then 0 else registry.workers.vals[worker].load);
      }
    }
  }

  lemma TakeReferenced(x: Work)
    requires WellFormed(x) && Referenced(x)
    requires x.loop.Waiting? && x.loop.workers != [] && x.queue.pending != []
    ensures Referenced(Take(x))
  {
    var q, id := x.queue, x.queue.pending[0];
    assert id in q.pending;
    assert forall j :: j in q.pending[1..] ==> j in q.pending;
    KeepMembers(Dequeue(q).inFlight, OtherThan(id));
  }

  lemma FinishReferenced(x: Work, i: nat)
    requires WellFormed(x) && Referenced(x) && i < |x.runs|
    ensures Referenced(Finish(x, i))
  {
    KeepMembers(x.queue.inFlight, OtherThan(x.runs[i].job));
    assert forall run :: run in RemoveRun(x.runs, i) ==> run in x.runs;
  }

  lemma FailReferenced(x: Work, i: nat)
    requires Referenced(x) && i < |x.runs|
    ensures Referenced(FailSecond(x, i))
  {
    assert x.runs[i] in x.runs;
    KeepMembers(x.queue.inFlight, OtherThan(x.runs[i].job));
    assert forall run :: run in RemoveRun(x.runs, i) ==> run in x.runs;
  }
}
