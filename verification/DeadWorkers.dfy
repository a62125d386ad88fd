/** What the dispatcher still gives to a worker that has died. */
module DeadWorkers {
  import opened JobQueues
  import opened WorkerRegistries
  import opened Scheduling
  import opened WorkerAccounting

  /** The dispatch loop waits for a job that it will give to `w`. */
  predicate NextInLine(x: Work, w: string) {
    x.loop.Waiting? && x.loop.workers != [] && x.loop.workers[0] == w
  }

  /** A dead worker that had been given `given` jobs when it died, and is given at most `chances` after: its load
      counts the latter only. */
  ghost predicate Retired(s: State, w: string, given: nat, chances: nat) {
    && Dead(s.work.registry, w)
    && var i := s.work.registry.vals[w];
       && i.load <= i.jobsAssigned - given
       && i.jobsAssigned + (if NextInLine(s.work, w) then 1 else 0) <= given + chances
  }

  lemma RetiredStep(s: State, a: Action, w: string, given: nat, chances: nat)
    requires Enabled(s, a) && Retired(s, w, given, chances)
    ensures Retired(Next(s, a), w, given, chances)
  {
    if a.DoHandle? || a.DoScale? {
      HandleRecords(s, a, w);
    } else if a.DoSelect? {
      FirstIsLeastLoaded(s.work.registry);
    }
    hide AvailableWorkers, ReclaimJobs, Orphans, Replace, Scale, Dequeue, Requeue, Assign, Complete, RemoveRun;
  }

  lemma {:induction false} RetiredAlongRun(s: State, more: seq<Action>, w: string, given: nat, chances: nat)
    requires CanRun(s, more) && Retired(s, w, given, chances)
    ensures Retired(After(s, more), w, given, chances)
    decreases |more|
  {
    hide Retired, Enabled, Next;
    if more != [] {
      var before := more[..|more| - 1];
      RetiredAlongRun(s, before, w, given, chances);
      RetiredStep(After(s, before), more[|more| - 1], w, given, chances);
    }
  }

  /** A worker is given at most one job after its death, and this only when the dispatch loop was waiting with
      this worker first in line as it died; its load never counts anything else again. */
  lemma DeadWorkerGetsAtMostOneJob(s: State, death: Action, more: seq<Action>)
    requires (death.DoKill? || death.DoTimeOut?) && Enabled(s, death) && CanRun(Next(s, death), more)
    ensures var w := death.worker;
            var before, end := s.work.registry.vals[w], After(Next(s, death), more).work.registry;
            && w in end.vals
            && end.vals[w].jobsAssigned <= before.jobsAssigned + (if NextInLine(s.work, w) then 1 else 0)
            && end.vals[w].load <= end.vals[w].jobsAssigned - before.jobsAssigned
  {
    var w := death.worker;
    RetiredAlongRun(Next(s, death), more, w, s.work.registry.vals[w].jobsAssigned, if NextInLine(s.work, w) then 1 else 0);
  }

  // ----- When it is given one -----

  ghost predicate Longer(j: string, xs: set<string>) { forall x :: x in xs ==> |x| < |j| }

  /** Some id is not used yet. */
  lemma {:induction false} UnusedId(xs: set<string>) returns (j: string)
    ensures Longer(j, xs)
    decreases |xs|
  {
    if xs == {} {
      j := "";
    } else {
      var x :| x in xs;
      var k := UnusedId(xs - {x});
      j := k + x + "0";
      assert forall y :: y in xs ==> y == x || y in xs - {x};
    }
  }

  /** The dispatch loop that waits with the worker first in line gives it the next job, although it has died. */
  lemma DeadWorkerIsGivenTheNextJob(s: State, death: Action, j: string)
    requires Reachable(s) && (death.DoKill? || death.DoTimeOut?) && Enabled(s, death)
    requires NextInLine(s.work, death.worker) && j !in s.work.queue.jobs
    ensures var w, more := death.worker, [DoEnqueue(j), DoTake];
            CanRun(Next(s, death), more) &&
            var end := After(Next(s, death), more).work.registry;
            && w in end.vals
            && end.vals[w].jobsAssigned == s.work.registry.vals[w].jobsAssigned + 1
            && end.vals[w].load == 1
  {
    hide Reachable, WorkersOf;
    ReachableWorkers(s, death.worker);
    var t := Next(s, death);
    assert CanRun(t, []) && After(t, []) == t;
    Extend(t, [], DoEnqueue(j));
    Extend(t, [DoEnqueue(j)], DoTake);
    assert [] + [DoEnqueue(j)] == [DoEnqueue(j)];
    assert [DoEnqueue(j)] + [DoTake] == [DoEnqueue(j), DoTake];
  }

  /** `more` ends with `w` having been given more jobs than it had at `s`. */
  ghost predicate GivenMore(s: State, death: Action, w: string, more: seq<Action>)
    requires Enabled(s, death)
  {
    && CanRun(Next(s, death), more)
    && var end := After(Next(s, death), more).work.registry;
       w in s.work.registry.vals && w in end.vals && end.vals[w].jobsAssigned > s.work.registry.vals[w].jobsAssigned
  }

  /** A worker can be given a job after its death if and only if the dispatch loop was waiting with this worker
      first in line as it died. */
  lemma DeadWorkerGetsAJobIffNextInLine(s: State, death: Action)
    requires Reachable(s) && (death.DoKill? || death.DoTimeOut?) && Enabled(s, death)
    ensures (exists more :: GivenMore(s, death, death.worker, more)) <==> NextInLine(s.work, death.worker)
  {
    hide Reachable, Next;
    if NextInLine(s.work, death.worker) {
      var j := UnusedId(s.work.queue.jobs.Keys);
      assert j !in s.work.queue.jobs.Keys;
      DeadWorkerIsGivenTheNextJob(s, death, j);
      assert GivenMore(s, death, death.worker, [DoEnqueue(j), DoTake]);
    } else {
      forall more | CanRun(Next(s, death), more) ensures !GivenMore(s, death, death.worker, more) {
        DeadWorkerGetsAtMostOneJob(s, death, more);
      }
    }
  }
}
