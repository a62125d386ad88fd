/** What the dictionary of a job says, in every reachable state of the scheduler. */
module JobRecords {
  import opened Sequences
  import opened JobQueues
  import opened WorkerRegistries
  import opened Scheduling
  import opened JobAccounting

  /** The worker `w` holds the job `j`: it is about to run it, or runs it. */
  ghost predicate Holds(x: Work, j: string, w: string) {
    x.loop == Reporting(j, w) || exists run :: run in x.runs && run.job == j && run.worker == w
  }

  /** A job in flight names a worker that holds it. */
  ghost predicate Named(x: Work, j: string) {
    j in x.queue.inFlight ==>
      && j in x.queue.jobs
      && x.queue.jobs[j].worker.Some?
      && Holds(x, j, x.queue.jobs[j].worker.value)
  }

  /** A job that is marked as completed has finished; one that was never reclaimed is marked when it has. */
  ghost predicate Marked(s: State, j: string) {
    var q := s.work.queue;
    j in q.jobs ==>
      && (q.jobs[j].status == Done ==> s.history.finishes[j] >= 1)
      && (s.history.reclaims[j] == 0 && s.history.finishes[j] >= 1 ==> q.jobs[j].status == Done)
  }

  lemma RemovedRunElsewhere(x: Work, i: nat, j: string, w: string)
    requires i < |x.runs| && x.runs[i].job != j && Holds(x, j, w)
    ensures Holds(x.(runs := RemoveRun(x.runs, i)), j, w)
  {
    if x.loop != Reporting(j, w) {
      var run :| run in x.runs && run.job == j && run.worker == w;
      var k :| 0 <= k < |x.runs| && x.runs[k] == run;
      var rest := RemoveRun(x.runs, i);
      assert if k < i then rest[k] == run else rest[k - 1] == run;
      assert run in rest;
    }
  }

  lemma TakeNamed(s: State, j: string)
    requires Enabled(s, DoTake) && Named(s.work, j)
    requires forall id :: id in s.work.queue.pending ==> id in s.work.queue.jobs
    ensures Named(Next(s, DoTake).work, j)
  {
    hide MarkAssigned, Keep;
    var q := s.work.queue;
    var id := q.pending[0];
    assert id in q.pending;
    KeepMembers(Dequeue(q).inFlight, OtherThan(id));
  }

  lemma RunEndsNamed(s: State, a: Action, j: string)
    requires Enabled(s, a) && (a.DoFinish? || a.DoFailSecond?) && Named(s.work, j)
    ensures Named(Next(s, a).work, j)
  {
    hide MarkCompleted, Keep, RemoveRun;
    var x := s.work;
    KeepMembers(x.queue.inFlight, OtherThan(x.runs[a.run].job));
    if j in x.queue.inFlight && j != x.runs[a.run].job {
      RemovedRunElsewhere(x, a.run, j, x.queue.jobs[j].worker.value);
    }
  }

  lemma RunGoesOnNamed(s: State, a: Action, j: string)
    requires Enabled(s, a) && (a.DoStart? || a.DoFailFirst?) && Named(s.work, j)
    ensures Named(Next(s, a).work, j)
  {
    hide MarkFailedOrRequeued;
    var x, y := s.work, Next(s, a).work;
    if j in x.queue.inFlight && x.loop != Reporting(j, x.queue.jobs[j].worker.value) {
      var run :| run in x.runs && run.job == j && run.worker == x.queue.jobs[j].worker.value;
      var k :| 0 <= k < |x.runs| && x.runs[k] == run;
      assert y.runs[k] in y.runs;
    } else if a.DoStart? {
      assert y.runs[|x.runs|] in y.runs;
    }
  }

  lemma ReclaimNamed(s: State, w: string, j: string)
    requires Enabled(s, DoReclaim(w)) && Named(s.work, j)
    ensures Named(Next(s, DoReclaim(w)).work, j)
  {
    hide Keep, RequeueAll;
    RequeueAllSpec(s.work.queue, Orphans(s.work.queue, w));
  }

  lemma OtherNamed(s: State, a: Action, j: string)
    requires Enabled(s, a) && Named(s.work, j)
    requires a.DoEnqueue? || a.DoSelect? || a.DoHeartbeat? || a.DoTimeOut? || a.DoKill? || a.DoHandle? || a.DoScale?
    ensures Named(Next(s, a).work, j)
  {
    hide AvailableWorkers, Heartbeat, MarkDead, Replace, Scale;
  }

  lemma NamedStep(s: State, a: Action, j: string)
    requires Enabled(s, a) && Named(s.work, j)
    requires forall id :: id in s.work.queue.pending ==> id in s.work.queue.jobs
    ensures Named(Next(s, a).work, j)
  {
    hide *;
    match a
    case DoTake => TakeNamed(s, j);
    case DoStart => RunGoesOnNamed(s, a, j);
    case DoFailFirst(_) => RunGoesOnNamed(s, a, j);
    case DoFinish(_) => RunEndsNamed(s, a, j);
    case DoFailSecond(_) => RunEndsNamed(s, a, j);
    case DoReclaim(w) => ReclaimNamed(s, w, j);
    case _ => OtherNamed(s, a, j);
  }

  lemma RunHolds(runs: seq<Run>, i: nat)
    requires i < |runs|
    ensures JobsOf(runs)[runs[i].job] >= 1
  {
    hide JobsOf;
    JobsOfSplit(runs, i);
  }

  lemma RunEndsMarked(s: State, a: Action, j: string)
    requires Enabled(s, a) && (a.DoFinish? || a.DoFailSecond?)
    requires Balanced(s, j) && Traced(s, j) && Marked(s, j)
    ensures Marked(Next(s, a), j)
  {
    hide JobsOf, MarkCompleted, Keep, RemoveRun;
    RunHolds(s.work.runs, a.run);
  }

  lemma TakeMarked(s: State, j: string)
    requires Enabled(s, DoTake)
    requires Balanced(s, j) && Traced(s, j) && Marked(s, j)
    ensures Marked(Next(s, DoTake), j)
  {
    hide JobsOf, MarkAssigned, Keep;
    var q := s.work.queue;
    assert q.pending[0] in q.pending;
    assert multiset(q.pending)[q.pending[0]] >= 1;
  }

  lemma ReclaimMarked(s: State, w: string, j: string)
    requires Enabled(s, DoReclaim(w)) && Marked(s, j)
    ensures Marked(Next(s, DoReclaim(w)), j)
  {
    hide JobsOf, Keep, RequeueAll;
    RequeueAllSpec(s.work.queue, Orphans(s.work.queue, w));
  }

  lemma OtherMarked(s: State, a: Action, j: string)
    requires Enabled(s, a) && Marked(s, j) && Balanced(s, j) && Traced(s, j)
    requires !a.DoTake? && !a.DoFinish? && !a.DoFailSecond? && !a.DoReclaim?
    ensures Marked(Next(s, a), j)
  {
    hide JobsOf, AvailableWorkers, Heartbeat, MarkDead, Replace, Scale, MarkFailedOrRequeued;
  }

  lemma MarkedStep(s: State, a: Action, j: string)
    requires Enabled(s, a) && Marked(s, j) && Balanced(s, j) && Traced(s, j)
    ensures Marked(Next(s, a), j)
  {
    hide *;
    match a
    case DoTake => TakeMarked(s, j);
    case DoFinish(_) => RunEndsMarked(s, a, j);
    case DoFailSecond(_) => RunEndsMarked(s, a, j);
    case DoReclaim(w) => ReclaimMarked(s, w, j);
    case _ => OtherMarked(s, a, j);
  }

  // ----- Over all runs -----

  ghost predicate Recorded(s: State) {
    forall j :: Balanced(s, j) && Traced(s, j) && Named(s.work, j) && Marked(s, j)
  }

  lemma RecordedStep(s: State, a: Action)
    requires Enabled(s, a) && Recorded(s)
    ensures Recorded(Next(s, a))
  {
    forall id | id in s.work.queue.pending ensures id in s.work.queue.jobs {
      assert Traced(s, id);
    }
    hide Enabled, Next, Balanced, Traced, Named, Marked;
    forall j: string
      ensures Balanced(Next(s, a), j) && Traced(Next(s, a), j) && Named(Next(s, a).work, j) && Marked(Next(s, a), j)
    {
      JobStep(s, a, j);
      NamedStep(s, a, j);
      MarkedStep(s, a, j);
    }
  }

  lemma {:induction false} RecordedAlongRun(s: State, actions: seq<Action>)
    requires CanRun(s, actions) && Recorded(s)
    ensures Recorded(After(s, actions))
    decreases |actions|
  {
    hide Recorded, Enabled, Next;
    if actions != [] {
      var before := actions[..|actions| - 1];
      RecordedAlongRun(s, before);
      RecordedStep(After(s, before), actions[|actions| - 1]);
    }
  }

  lemma ReachableRecords(s: State)
    requires Reachable(s)
    ensures Recorded(s)
  {
    hide Enabled, Next, SpawnMany;
    var desired, ids, now, actions := RunTo(s);
    RecordedAlongRun(Initial(desired, ids, now), actions);
  }

  /** The reclaim of a dead worker's jobs takes only jobs that this worker holds, and leaves none in flight in
      its name. */
  lemma ReclaimTakesHeldJobs(s: State, w: string)
    requires Reachable(s) && Enabled(s, DoReclaim(w))
    ensures forall j :: j in Orphans(s.work.queue, w) ==> Holds(s.work, j, w)
    ensures var q := Next(s, DoReclaim(w)).work.queue;
            forall j :: j in q.inFlight ==> j in q.jobs && q.jobs[j].worker.Some? && q.jobs[j].worker != Some(w)
  {
    hide Reachable, JobsOf, Keep, RequeueAll;
    var q := s.work.queue;
    ReachableRecords(s);
    KeepMembers(q.inFlight, HeldBy(q, w));
    RequeueAllSpec(q, Orphans(q, w));
    forall j | j in q.inFlight
      ensures j in q.jobs && q.jobs[j].worker.Some? && Holds(s.work, j, q.jobs[j].worker.value)
    {
      assert Named(s.work, j);
    }
  }

  /** A job that is marked as completed has finished; as long as it was never reclaimed, also the converse. */
  lemma CompletedMeansFinished(s: State, j: string)
    requires Reachable(s) && j in s.work.queue.jobs
    ensures s.work.queue.jobs[j].status == Done ==> s.history.finishes[j] >= 1
    ensures s.history.reclaims[j] == 0 ==> (s.work.queue.jobs[j].status == Done <==> s.history.finishes[j] == 1)
  {
    hide Reachable;
    ReachableRecords(s);
    assert Marked(s, j);
    OnePlaceUntilReclaimed(s, j);
  }
}
