/** What the reported depth says about the jobs, in every reachable state of the scheduler. */
module JobDepths {
  import opened Sequences
  import opened JobQueues
  import opened WorkerRegistries
  import opened Scheduling
  import opened JobAccounting

  // ----- No job is twice in flight -----

  lemma RequeueKeepsDistinct(q: Queue, id: string)
    requires Distinct(q.inFlight)
    ensures Distinct(Requeue(q, id).inFlight) && Distinct(Complete(q, id).inFlight)
  {
    KeepDistinct(q.inFlight, OtherThan(id));
  }

  lemma DistinctStep(s: State, a: Action)
    requires Enabled(s, a) && Distinct(s.work.queue.inFlight)
    ensures Distinct(Next(s, a).work.queue.inFlight)
  {
    hide Keep, AvailableWorkers, MarkCompleted, MarkFailedOrRequeued, MarkDead, MarkAssigned, Heartbeat, Replace, Scale,
         Requeue, Complete, RequeueAll;
    var q := s.work.queue;
    match a
    case DoTake =>
      RequeueKeepsDistinct(Dequeue(q), q.pending[0]);
    case DoFinish(i) =>
      RequeueKeepsDistinct(q, s.work.runs[i].job);
    case DoFailSecond(i) =>
      RequeueKeepsDistinct(q, s.work.runs[i].job);
    case DoReclaim(w) =>
      RequeueAllSpec(q, Orphans(q, w));
    case _ =>
  }

  lemma {:induction false} DistinctAlongRun(s: State, actions: seq<Action>)
    requires CanRun(s, actions) && Distinct(s.work.queue.inFlight)
    ensures Distinct(After(s, actions).work.queue.inFlight)
    decreases |actions|
  {
    hide Enabled, Next, Distinct;
    if actions != [] {
      var before := actions[..|actions| - 1];
      DistinctAlongRun(s, before);
      DistinctStep(After(s, before), actions[|actions| - 1]);
    }
  }

  lemma InFlightIsDistinct(s: State)
    requires Reachable(s)
    ensures Distinct(s.work.queue.inFlight)
  {
    hide Enabled, Next, SpawnMany;
    var desired, ids, now, actions := RunTo(s);
    DistinctAlongRun(Initial(desired, ids, now), actions);
  }

  // ----- The depth -----

  lemma {:induction false} DistinctMultiset(s: seq<string>, x: string)
    requires Distinct(s)
    ensures multiset(s)[x] == if x in s then 1 else 0
  {
    if s != [] {
      assert s == [s[0]] + s[1..];
      assert s[0] !in s[1..];
      DistinctMultiset(s[1..], x);
    }
  }

  lemma SmallerMultiset(a: multiset<string>, b: multiset<string>)
    requires a <= b
    ensures |a| <= |b|
  {
    assert b == a + (b - a);
  }

  /** The depth and the finishes together are at most the acceptances and the reclaims. */
  lemma DepthIsBounded(s: State)
    requires Reachable(s)
    ensures Depth(s.work.queue) + |s.history.finishes| <= |s.work.queue.jobs.Keys| + |s.history.reclaims|
  {
    hide Reachable, Holders;
    var q := s.work.queue;
    InFlightIsDistinct(s);
    forall j: string ensures multiset(q.inFlight)[j] <= Holders(s.work)[j] {
      DistinctMultiset(q.inFlight, j);
      ReachableJobs(s, j);
    }
    SmallerMultiset(multiset(q.inFlight), Holders(s.work));
    Conservation(s);
    assert |multiset(q.pending) + Holders(s.work) + s.history.finishes|
        == |q.pending| + |Holders(s.work)| + |s.history.finishes|;
    assert |multiset(q.jobs.Keys) + s.history.reclaims| == |q.jobs.Keys| + |s.history.reclaims|;
  }

  /** Each unfinished job counts once, and nothing else does, as long as no job was reclaimed. */
  lemma DepthIsExact(s: State)
    requires Reachable(s) && s.history.reclaims == multiset{}
    ensures var unfinished := set j | j in s.work.queue.jobs && s.history.finishes[j] == 0;
            Depth(s.work.queue) == |unfinished|
  {
    hide Reachable, Holders;
    var q := s.work.queue;
    var unfinished := set j | j in q.jobs && s.history.finishes[j] == 0;
    var held := q.pending + q.inFlight;
    InFlightIsDistinct(s);
    forall j: string
      ensures multiset(held)[j] == if j in unfinished then 1 else 0
    {
      DistinctMultiset(q.inFlight, j);
      ReachableJobs(s, j);
      assert multiset(held) == multiset(q.pending) + multiset(q.inFlight);
    }
    assert multiset(held) == multiset(unfinished);
    assert |multiset(held)| == |held|;
  }
}
