/** The counters of the workers, in every reachable state of the scheduler. */
module WorkerAccounting {
  import opened Sequences
  import opened OrderedDicts
  import opened JobQueues
  import opened WorkerRegistries
  import opened Scheduling

  // ----- The active runs of the workers: from the assignment until the run finishes or fails -----

  function WorkersOf(runs: seq<Run>): multiset<string>
    decreases |runs|
  {
    if runs == [] then multiset{}
    else WorkersOf(runs[..|runs| - 1]) + WorkerOf(runs[|runs| - 1])
  }

  function WorkerOf(run: Run): multiset<string> {
    if run.failing then multiset{} else multiset{run.worker}
  }

  function Active(x: Work): multiset<string> {
    WorkersOf(x.runs) + if x.loop.Reporting? then multiset{x.loop.worker} else multiset{}
  }

  lemma {:induction false} WorkersOfConcat(a: seq<Run>, b: seq<Run>)
    ensures WorkersOf(a + b) == WorkersOf(a) + WorkersOf(b)
    decreases |b|
  {
    if b == [] {
      assert a + b == a;
    } else {
      var before := b[..|b| - 1];
      assert (a + b)[..|a + b| - 1] == a + before;
      WorkersOfConcat(a, before);
    }
  }

  lemma WorkersOfOne(run: Run)
    ensures WorkersOf([run]) == WorkerOf(run)
  {
  }

  lemma WorkersOfSplit(runs: seq<Run>, i: nat)
    requires i < |runs|
    ensures WorkersOf(runs) == WorkersOf(RemoveRun(runs, i)) + WorkerOf(runs[i])
  {
    hide WorkersOf;
    var low, high := runs[..i], runs[i + 1..];
    assert runs == low + [runs[i]] + high;
    WorkersOfConcat(low + [runs[i]], high);
    WorkersOfConcat(low, [runs[i]]);
    WorkersOfConcat(low, high);
    WorkersOfOne(runs[i]);
  }

  lemma FailingRunIsNotActive(runs: seq<Run>, i: nat)
    requires i < |runs| && runs[i].failing
    ensures WorkersOf(RemoveRun(runs, i)) == WorkersOf(runs)
  {
    hide WorkersOf, RemoveRun;
    WorkersOfSplit(runs, i);
  }

  lemma FinishedRunIsActive(runs: seq<Run>, i: nat)
    requires i < |runs| && !runs[i].failing
    ensures WorkersOf(runs) == WorkersOf(RemoveRun(runs, i)) + multiset{runs[i].worker}
  {
    hide WorkersOf, RemoveRun;
    WorkersOfSplit(runs, i);
  }

  lemma RunThatFails(runs: seq<Run>, i: nat)
    requires i < |runs| && !runs[i].failing
    ensures WorkersOf(runs) == WorkersOf(runs[i := runs[i].(failing := true)]) + multiset{runs[i].worker}
  {
    hide WorkersOf;
    var failed := runs[i := runs[i].(failing := true)];
    WorkersOfSplit(runs, i);
    WorkersOfSplit(failed, i);
    assert RemoveRun(failed, i) == RemoveRun(runs, i);
  }

  // ----- The invariant -----

  /** The record of the worker `w` against what has happened. */
  ghost predicate Accounted(s: State, w: string) {
    var r, active, h := s.work.registry, Active(s.work)[w], s.history;
    && h.given[w] == h.completed[w] + h.failures[w] + active
    && if w in r.vals then
      var i := r.vals[w];
      && i.jobsAssigned == h.given[w] && i.jobsCompleted == h.completed[w]
      && i.load <= active
      && (i.alive ==> i.load == active)
      && i.eventsAssigned == i.jobsAssigned && i.eventsCompleted == i.jobsCompleted
      && i.hasNode
    else
      h.given[w] == 0
  }

  /** While the dispatch loop waits for a job, it has selected registered workers. */
  ghost predicate Selected(s: State) {
    s.work.loop.Waiting? ==>
      s.work.loop.workers != [] && forall w :: w in s.work.loop.workers ==> w in s.work.registry.vals
  }

  lemma SpawnOneAdds(r: Registry, id: string, now: int)
    requires r.WellFormed() && id !in r.vals
    ensures var s := SpawnOne(r, id, now);
            s == r || s == Dict(r.order + [id], r.vals[id := Info(now, true, 0, 0, 0, 0, 0, true)])
  {
  }

  /** Spawning leaves the registered workers as they are, and the new ones are alive, idle and unused. */
  lemma {:induction false} SpawnManyAdds(r: Registry, ids: seq<string>, now: int, w: string)
    requires r.WellFormed() && Fresh(ids, r)
    ensures var s := SpawnMany(r, ids, now);
            && (w in r.vals ==> w in s.vals && s.vals[w] == r.vals[w])
            && (w in s.vals && w !in r.vals ==> w in ids && s.vals[w] == Info(now, true, 0, 0, 0, 0, 0, true))
    decreases |ids|
  {
    if ids != [] {
      var before, last := ids[..|ids| - 1], ids[|ids| - 1];
      assert ids == before + [last];
      SpawnManyAdds(r, before, now, w);
      SpawnManyAdds(r, before, now, last);
      SpawnOneAdds(SpawnMany(r, before, now), last, now);
    }
  }

  lemma FreshPrefix(ids: seq<string>, n: nat, r: Registry)
    requires Fresh(ids, r) && n <= |ids|
    ensures Fresh(ids[..n], r)
  {
  }

  /** Spawning leaves a record as it is, or makes a new one. */
  ghost predicate SameRecord(r: Registry, s: Registry, w: string) {
    if w in r.vals then w in s.vals && s.vals[w] == r.vals[w]
    else w in s.vals ==> exists now :: s.vals[w] == Info(now, true, 0, 0, 0, 0, 0, true)
  }

  lemma HandleRecords(s: State, a: Action, w: string)
    requires Enabled(s, a) && (a.DoHandle? || a.DoScale?)
    ensures SameRecord(s.work.registry, Next(s, a).work.registry, w)
  {
    hide AvailableWorkers, AliveCount, SpawnMany;
    var r := s.work.registry;
    var n := if a.DoHandle? then Missing(r, s.desired)
             else if MAX_WORKERS - AliveCount(r) <= 0 then 0
             else if a.count < MAX_WORKERS - AliveCount(r) then a.count else MAX_WORKERS - AliveCount(r);
    FreshPrefix(a.ids, n, r);
    SpawnManyAdds(r, a.ids[..n], a.now, w);
  }

  lemma HandleAccounted(s: State, a: Action, w: string)
    requires Enabled(s, a) && (a.DoHandle? || a.DoScale?) && Accounted(s, w)
    ensures Accounted(Next(s, a), w)
  {
    hide Replace, Scale, WorkersOf;
    HandleRecords(s, a, w);
  }

  lemma TakeAccounted(s: State, w: string)
    requires Enabled(s, DoTake) && Accounted(s, w)
    ensures Accounted(Next(s, DoTake), w)
  {
    hide Dequeue, Requeue, Assign, WorkersOf;
  }

  /** What a completion does to the records. */
  lemma CompletionEffect(r: Registry, done: string, w: string)
    requires r.WellFormed()
    ensures var s := MarkCompleted(r, done);
            && (w in s.vals <==> w in r.vals)
            && (w in r.vals && w != done ==> s.vals[w] == r.vals[w])
            && (w in r.vals && w == done ==>
                  var i := r.vals[w];
                  s.vals[w] == i.(load := Lowered(i.load), jobsCompleted := i.jobsCompleted + 1,
                                  eventsCompleted := i.eventsCompleted + 1))
  {
  }

  lemma FinishAccounted(s: State, i: nat, w: string)
    requires Enabled(s, DoFinish(i)) && Accounted(s, w)
    ensures Accounted(Next(s, DoFinish(i)), w)
  {
    hide Complete, WorkersOf, RemoveRun, MarkCompleted;
    FinishedRunIsActive(s.work.runs, i);
    CompletionEffect(s.work.registry, s.work.runs[i].worker, w);
  }

  lemma FailFirstAccounted(s: State, i: nat, w: string)
    requires Enabled(s, DoFailFirst(i)) && Accounted(s, w)
    ensures Accounted(Next(s, DoFailFirst(i)), w)
  {
    hide WorkersOf, WorkerOf;
    RunThatFails(s.work.runs, i);
  }

  lemma FailSecondAccounted(s: State, i: nat, w: string)
    requires Enabled(s, DoFailSecond(i)) && Accounted(s, w)
    ensures Accounted(Next(s, DoFailSecond(i)), w)
  {
    hide Requeue, WorkersOf, RemoveRun, WorkerOf;
    FailingRunIsNotActive(s.work.runs, i);
  }

  lemma StartAccounted(s: State, w: string)
    requires Enabled(s, DoStart) && Accounted(s, w)
    ensures Accounted(Next(s, DoStart), w)
  {
    hide WorkersOf;
    var run := Run(s.work.loop.job, s.work.loop.worker, false);
    WorkersOfConcat(s.work.runs, [run]);
    WorkersOfOne(run);
  }

  lemma OtherAccounted(s: State, a: Action, w: string)
    requires Enabled(s, a) && Accounted(s, w)
    requires a.DoEnqueue? || a.DoSelect? || a.DoHeartbeat? || a.DoTimeOut? || a.DoKill? || a.DoReclaim?
    ensures Accounted(Next(s, a), w)
  {
    hide WorkersOf, AvailableWorkers, ReclaimJobs, Orphans, Enqueue;
  }

  lemma AccountedStep(s: State, a: Action, w: string)
    requires Enabled(s, a) && Accounted(s, w)
    ensures Accounted(Next(s, a), w)
  {
    hide *;
    match a
    case DoTake => TakeAccounted(s, w);
    case DoStart => StartAccounted(s, w);
    case DoFinish(i) => FinishAccounted(s, i, w);
    case DoFailFirst(i) => FailFirstAccounted(s, i, w);
    case DoFailSecond(i) => FailSecondAccounted(s, i, w);
    case DoHandle(_, _, _) => HandleAccounted(s, a, w);
    case DoScale(_, _, _) => HandleAccounted(s, a, w);
    case _ => OtherAccounted(s, a, w);
  }

  /** A dead worker stays dead, and no worker is forgotten. */
  lemma RecordStep(s: State, a: Action, w: string)
    requires Enabled(s, a) && w in s.work.registry.vals
    ensures var r := Next(s, a).work.registry;
            w in r.vals && (r.vals[w].alive ==> s.work.registry.vals[w].alive)
  {
    if a.DoHandle? || a.DoScale? {
      HandleRecords(s, a, w);
    }
    hide AvailableWorkers, ReclaimJobs, Orphans, Replace, Scale, Dequeue, Requeue, Assign, Complete;
  }

  lemma SelectedStep(s: State, a: Action)
    requires Enabled(s, a) && Selected(s)
    ensures Selected(Next(s, a))
  {
    if a.DoSelect? {
      AvailableWorkersSpec(s.work.registry);
    } else if a.DoHandle? || a.DoScale? {
      forall w | w in s.work.registry.vals ensures w in Next(s, a).work.registry.vals {
        RecordStep(s, a, w);
      }
    }
    hide Keep, SortByLoad, AvailableWorkers, ReclaimJobs, Replace, Scale, Dequeue, Requeue, Assign, Complete;
  }

  // ----- Over all runs -----

  lemma {:induction false} AccountedAlongRun(s: State, actions: seq<Action>, w: string)
    requires CanRun(s, actions) && Accounted(s, w)
    ensures Accounted(After(s, actions), w)
    decreases |actions|
  {
    hide Accounted, Enabled, Next;
    if actions != [] {
      var before := actions[..|actions| - 1];
      AccountedAlongRun(s, before, w);
      AccountedStep(After(s, before), actions[|actions| - 1], w);
    }
  }

  lemma {:induction false} SelectedAlongRun(s: State, actions: seq<Action>)
    requires CanRun(s, actions) && Selected(s)
    ensures Selected(After(s, actions))
    decreases |actions|
  {
    hide Selected, Enabled, Next;
    if actions != [] {
      var before := actions[..|actions| - 1];
      SelectedAlongRun(s, before);
      SelectedStep(After(s, before), actions[|actions| - 1]);
    }
  }

  lemma InitialAccounted(desired: int, ids: seq<string>, now: int, w: string)
    requires GoodStart(desired, ids)
    ensures Accounted(Initial(desired, ids, now), w)
  {
    hide SpawnMany;
    SpawnManyAdds(EmptyDict(), ids, now, w);
  }

  lemma ReachableWorkers(s: State, w: string)
    requires Reachable(s)
    ensures Accounted(s, w) && Selected(s)
  {
    hide Enabled, Next, SpawnMany, WorkersOf;
    var desired, ids, now, actions := RunTo(s);
    InitialAccounted(desired, ids, now, w);
    AccountedAlongRun(Initial(desired, ids, now), actions, w);
    SelectedAlongRun(Initial(desired, ids, now), actions);
  }

  /** For every worker: the counters are the jobs that it was given and the runs that completed on it; each job that
      it was given has completed, has failed or is active; the load is at most the active runs, and equal to them
      while the worker is alive; the event counters mirror the job counters. A worker that is not registered was
      never given a job. */
  lemma WorkersAreAccounted(s: State, w: string)
    requires Reachable(s)
    ensures s.history.given[w] == s.history.completed[w] + s.history.failures[w] + Active(s.work)[w]
    ensures var r, active := s.work.registry, Active(s.work)[w];
            if w in r.vals then
              && r.vals[w].jobsAssigned == s.history.given[w]
              && r.vals[w].jobsCompleted == s.history.completed[w]
              && r.vals[w].load <= active
              && (r.vals[w].alive ==> r.vals[w].load == active)
              && r.vals[w].eventsAssigned == r.vals[w].jobsAssigned
              && r.vals[w].eventsCompleted == r.vals[w].jobsCompleted
            else s.history.given[w] == 0
  {
    hide Reachable, Active;
    ReachableWorkers(s, w);
  }

  lemma RunIsActive(runs: seq<Run>, i: nat)
    requires i < |runs| && !runs[i].failing
    ensures WorkersOf(runs)[runs[i].worker] >= 1
  {
    hide WorkersOf;
    WorkersOfSplit(runs, i);
  }

  /** The clamp of the load at 0 never takes effect on a worker that is alive: the end of a run, good or bad,
      lowers its load by exactly one. */
  lemma ClampNeverFires(s: State, i: nat)
    requires Reachable(s) && Enabled(s, DoFinish(i))
    ensures var w := s.work.runs[i].worker;
            && w in s.work.registry.vals
            && (s.work.registry.vals[w].alive ==>
                  && s.work.registry.vals[w].load >= 1
                  && Next(s, DoFinish(i)).work.registry.vals[w].load == s.work.registry.vals[w].load - 1
                  && Next(s, DoFailFirst(i)).work.registry.vals[w].load == s.work.registry.vals[w].load - 1)
  {
    hide Reachable, WorkersOf, Complete;
    ReachableWorkers(s, s.work.runs[i].worker);
    RunIsActive(s.work.runs, i);
  }

  /** Every job that is taken is assigned to the first worker of the selection, even when this worker has died
      since; the requeue for want of a node is never taken. */
  lemma TakenJobIsAssigned(s: State)
    requires Reachable(s) && Enabled(s, DoTake)
    ensures Next(s, DoTake).work.loop == Reporting(s.work.queue.pending[0], s.work.loop.workers[0])
  {
    hide Reachable, WorkersOf, Dequeue, Assign, Requeue;
    ReachableWorkers(s, s.work.loop.workers[0]);
  }

  /** A worker that has died never comes back to life, whatever happens after. */
  lemma {:induction false} DeadStaysDead(s: State, more: seq<Action>, w: string)
    requires CanRun(s, more) && Dead(s.work.registry, w)
    ensures Dead(After(s, more).work.registry, w)
    decreases |more|
  {
    hide Enabled, Next;
    if more != [] {
      var before := more[..|more| - 1];
      DeadStaysDead(s, before, w);
      RecordStep(After(s, before), more[|more| - 1], w);
    }
  }
}
