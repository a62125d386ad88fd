/** Where the jobs are, in every reachable state of the scheduler: nothing is lost, nothing appears from nowhere,
    and every copy beyond the first is paid for by a reclaim. */
module JobAccounting {
  import opened Sequences
  import opened JobQueues
  import opened WorkerRegistries
  import opened Scheduling

  // ----- The holders of jobs: from the dequeue until the job finishes or is requeued -----

  function JobsOf(runs: seq<Run>): multiset<string>
    decreases |runs|
  {
    if runs == [] then multiset{}
    else JobsOf(runs[..|runs| - 1]) + multiset{runs[|runs| - 1].job}
  }

  function Holders(x: Work): multiset<string> {
    JobsOf(x.runs) + if x.loop.Reporting? then multiset{x.loop.job} else multiset{}
  }

  lemma {:induction false} JobsOfConcat(a: seq<Run>, b: seq<Run>)
    ensures JobsOf(a + b) == JobsOf(a) + JobsOf(b)
    decreases |b|
  {
    if b == [] {
      assert a + b == a;
    } else {
      var before := b[..|b| - 1];
      assert (a + b)[..|a + b| - 1] == a + before;
      JobsOfConcat(a, before);
    }
  }

  lemma JobsOfOne(run: Run)
    ensures JobsOf([run]) == multiset{run.job}
  {
  }

  lemma JobsOfSplit(runs: seq<Run>, i: nat)
    requires i < |runs|
    ensures JobsOf(runs) == JobsOf(RemoveRun(runs, i)) + multiset{runs[i].job}
  {
    hide JobsOf;
    var low, high := runs[..i], runs[i + 1..];
    assert runs == low + [runs[i]] + high;
    JobsOfConcat(low + [runs[i]], high);
    JobsOfConcat(low, [runs[i]]);
    JobsOfConcat(low, high);
    JobsOfOne(runs[i]);
  }

  lemma JobsOfReplace(runs: seq<Run>, i: nat, run: Run)
    requires i < |runs| && run.job == runs[i].job
    ensures JobsOf(runs[i := run]) == JobsOf(runs)
  {
    JobsOfSplit(runs, i);
    JobsOfSplit(runs[i := run], i);
    assert RemoveRun(runs[i := run], i) == RemoveRun(runs, i);
  }

  // ----- First in, first out -----

  /** All jobs that were ever appended are those that were taken, in this order, followed by the pending ones. */
  ghost predicate Fifo(s: State) {
    s.history.appended == s.history.dequeued + s.work.queue.pending
  }

  lemma FifoTake(s: State)
    requires Enabled(s, DoTake) && Fifo(s)
    ensures Fifo(Next(s, DoTake))
  {
    hide Keep, MarkAssigned;
    var q := s.work.queue;
    assert q.pending == [q.pending[0]] + q.pending[1..];
  }

  lemma FifoReclaim(s: State, w: string)
    requires Enabled(s, DoReclaim(w)) && Fifo(s)
    ensures Fifo(Next(s, DoReclaim(w)))
  {
    hide Keep, RequeueAll;
    RequeueAllSpec(s.work.queue, Orphans(s.work.queue, w));
  }

  lemma FifoStep(s: State, a: Action)
    requires Enabled(s, a) && Fifo(s)
    ensures Fifo(Next(s, a))
  {
    hide Keep, AvailableWorkers, MarkCompleted, MarkFailedOrRequeued, MarkDead, MarkAssigned, Heartbeat, Replace, Scale;
    var q := s.work.queue;
    if a.DoTake? {
      FifoTake(s);
    } else if a.DoReclaim? {
      FifoReclaim(s, a.worker);
    } else if a.DoEnqueue? {
      assert s.history.dequeued + (q.pending + [a.job]) == (s.history.dequeued + q.pending) + [a.job];
    } else if a.DoFailSecond? {
      var job := s.work.runs[a.run].job;
      assert s.history.dequeued + (q.pending + [job]) == (s.history.dequeued + q.pending) + [job];
    }
  }

  /** What was appended and what was taken is never forgotten. */
  lemma HistoryGrows(s: State, a: Action)
    requires Enabled(s, a)
    ensures s.history.appended <= Next(s, a).history.appended
    ensures s.history.dequeued <= Next(s, a).history.dequeued
  {
    hide Keep, AvailableWorkers, MarkCompleted, MarkFailedOrRequeued, MarkDead, MarkAssigned, Heartbeat, Replace, Scale,
         RequeueAll;
  }

  // ----- The counting law -----

  /** pending copies + holders + finishes = acceptances + reclaims, for the job `j` */
  ghost predicate Balanced(s: State, j: string) {
    multiset(s.work.queue.pending)[j] + Holders(s.work)[j] + s.history.finishes[j]
    == (if j in s.work.queue.jobs then 1 else 0) + s.history.reclaims[j]
  }

  /** A job in flight has a holder; an accepted job is pending, in flight or finished; others are nowhere. */
  ghost predicate Traced(s: State, j: string) {
    var q := s.work.queue;
    && (j in q.inFlight ==> Holders(s.work)[j] >= 1)
    && (j in q.jobs ==> j in q.pending || j in q.inFlight || s.history.finishes[j] >= 1)
    && (j !in q.jobs ==> j !in q.pending && Holders(s.work)[j] == 0)
  }

  /** The effect of a requeue on the job `j`. */
  lemma RequeueEffect(q: Queue, id: string, j: string)
    ensures var r := Requeue(q, id);
            && multiset(r.pending)[j] == multiset(q.pending)[j] + (if j == id then 1 else 0)
            && (j in r.inFlight <==> j in q.inFlight && j != id)
            && (j in r.jobs <==> j in q.jobs)
  {
    KeepMembers(q.inFlight, OtherThan(id));
  }

  lemma CompleteEffect(q: Queue, id: string, j: string)
    ensures var r := Complete(q, id);
            && r.pending == q.pending
            && (j in r.inFlight <==> j in q.inFlight && j != id)
            && (j in r.jobs <==> j in q.jobs)
  {
    KeepMembers(q.inFlight, OtherThan(id));
  }

  lemma DequeueEffect(q: Queue, j: string)
    requires q.pending != []
    ensures var r := Dequeue(q);
            && multiset(q.pending)[j] == multiset(r.pending)[j] + (if j == q.pending[0] then 1 else 0)
            && (j in r.inFlight <==> j in q.inFlight || j == q.pending[0])
            && r.jobs == q.jobs
  {
    assert q.pending == [q.pending[0]] + q.pending[1..];
  }

  lemma ReclaimEffect(q: Queue, w: string, j: string)
    ensures var r := ReclaimJobs(q, w);
            && multiset(r.pending)[j] == multiset(q.pending)[j] + multiset(Orphans(q, w))[j]
            && (j in r.inFlight <==> j in q.inFlight && j !in Orphans(q, w))
            && (j in r.jobs <==> j in q.jobs)
            && (j in Orphans(q, w) ==> j in q.inFlight && j in q.jobs)
  {
    RequeueAllSpec(q, Orphans(q, w));
    KeepMembers(q.inFlight, HeldBy(q, w));
  }

  lemma TakeStep(s: State, j: string)
    requires Enabled(s, DoTake) && Balanced(s, j) && Traced(s, j)
    ensures Balanced(Next(s, DoTake), j) && Traced(Next(s, DoTake), j)
  {
    hide Requeue, Dequeue, JobsOf, MarkAssigned;
    var q := s.work.queue;
    var id := q.pending[0];
    assert id in q.pending;
    DequeueEffect(q, j);
    RequeueEffect(Dequeue(q), id, j);
  }

  lemma FinishStep(s: State, i: nat, j: string)
    requires Enabled(s, DoFinish(i)) && Balanced(s, j) && Traced(s, j)
    ensures Balanced(Next(s, DoFinish(i)), j) && Traced(Next(s, DoFinish(i)), j)
  {
    hide Complete, JobsOf, MarkCompleted;
    CompleteEffect(s.work.queue, s.work.runs[i].job, j);
    JobsOfSplit(s.work.runs, i);
  }

  lemma FailStep(s: State, i: nat, j: string)
    requires Enabled(s, DoFailSecond(i)) && Balanced(s, j) && Traced(s, j)
    ensures Balanced(Next(s, DoFailSecond(i)), j) && Traced(Next(s, DoFailSecond(i)), j)
  {
    hide Requeue, JobsOf;
    RequeueEffect(s.work.queue, s.work.runs[i].job, j);
    JobsOfSplit(s.work.runs, i);
  }

  lemma ReclaimStep(s: State, w: string, j: string)
    requires Enabled(s, DoReclaim(w)) && Balanced(s, j) && Traced(s, j)
    ensures Balanced(Next(s, DoReclaim(w)), j) && Traced(Next(s, DoReclaim(w)), j)
  {
    hide ReclaimJobs, Orphans, JobsOf;
    ReclaimEffect(s.work.queue, w, j);
  }

  lemma StartStep(s: State, j: string)
    requires Enabled(s, DoStart) && Balanced(s, j) && Traced(s, j)
    ensures Balanced(Next(s, DoStart), j) && Traced(Next(s, DoStart), j)
  {
    hide JobsOf;
    var run := Run(s.work.loop.job, s.work.loop.worker, false);
    JobsOfConcat(s.work.runs, [run]);
    JobsOfOne(run);
  }

  lemma FailFirstStep(s: State, i: nat, j: string)
    requires Enabled(s, DoFailFirst(i)) && Balanced(s, j) && Traced(s, j)
    ensures Balanced(Next(s, DoFailFirst(i)), j) && Traced(Next(s, DoFailFirst(i)), j)
  {
    hide JobsOf, MarkFailedOrRequeued;
    JobsOfReplace(s.work.runs, i, s.work.runs[i].(failing := true));
  }

  lemma EnqueueStep(s: State, id: string, j: string)
    requires Enabled(s, DoEnqueue(id)) && Balanced(s, j) && Traced(s, j)
    ensures Balanced(Next(s, DoEnqueue(id)), j) && Traced(Next(s, DoEnqueue(id)), j)
  {
    hide JobsOf;
  }

  /** The other actions leave the jobs alone. */
  lemma OtherStep(s: State, a: Action, j: string)
    requires Enabled(s, a) && Balanced(s, j) && Traced(s, j)
    requires a.DoSelect? || a.DoHeartbeat? || a.DoTimeOut? || a.DoKill? || a.DoHandle? || a.DoScale?
    ensures Balanced(Next(s, a), j) && Traced(Next(s, a), j)
  {
    hide JobsOf, Keep, AvailableWorkers, MarkDead, Heartbeat, Replace, Scale;
  }

  lemma JobStep(s: State, a: Action, j: string)
    requires Enabled(s, a) && Balanced(s, j) && Traced(s, j)
    ensures Balanced(Next(s, a), j) && Traced(Next(s, a), j)
  {
    hide *;
    match a
    case DoEnqueue(id) => EnqueueStep(s, id, j);
    case DoTake => TakeStep(s, j);
    case DoStart => StartStep(s, j);
    case DoFinish(i) => FinishStep(s, i, j);
    case DoFailFirst(i) => FailFirstStep(s, i, j);
    case DoFailSecond(i) => FailStep(s, i, j);
    case DoReclaim(w) => ReclaimStep(s, w, j);
    case _ => OtherStep(s, a, j);
  }

  // ----- Over all runs -----

  lemma {:induction false} JobsAlongRun(s: State, actions: seq<Action>, j: string)
    requires CanRun(s, actions) && Balanced(s, j) && Traced(s, j)
    ensures Balanced(After(s, actions), j) && Traced(After(s, actions), j)
    decreases |actions|
  {
    hide Balanced, Traced, Enabled, Next;
    if actions != [] {
      var before := actions[..|actions| - 1];
      JobsAlongRun(s, before, j);
      JobStep(After(s, before), actions[|actions| - 1], j);
    }
  }

  lemma {:induction false} FifoAlongRun(s: State, actions: seq<Action>)
    requires CanRun(s, actions) && Fifo(s)
    ensures var t := After(s, actions);
            && Fifo(t)
            && s.history.appended <= t.history.appended
            && s.history.dequeued <= t.history.dequeued
    decreases |actions|
  {
    hide Fifo, Enabled, Next;
    if actions != [] {
      var before, last := actions[..|actions| - 1], actions[|actions| - 1];
      FifoAlongRun(s, before);
      FifoStep(After(s, before), last);
      HistoryGrows(After(s, before), last);
    }
  }

  lemma ReachableJobs(s: State, j: string)
    requires Reachable(s)
    ensures Balanced(s, j) && Traced(s, j)
  {
    hide Enabled, Next, SpawnMany;
    var desired, ids, now, actions := RunTo(s);
    JobsAlongRun(Initial(desired, ids, now), actions, j);
  }

  /** Conservation: pending copies, holders and finishes of all jobs together are their acceptances and reclaims. */
  lemma Conservation(s: State)
    requires Reachable(s)
    ensures multiset(s.work.queue.pending) + Holders(s.work) + s.history.finishes
         == multiset(s.work.queue.jobs.Keys) + s.history.reclaims
  {
    hide Reachable, JobsOf;
    forall j: string
      ensures (multiset(s.work.queue.pending) + Holders(s.work) + s.history.finishes)[j]
           == (multiset(s.work.queue.jobs.Keys) + s.history.reclaims)[j]
    {
      ReachableJobs(s, j);
    }
  }

  /** No job is lost, and no record is left behind in flight by a job that nobody holds. */
  lemma NothingIsLost(s: State, j: string)
    requires Reachable(s) && j in s.work.queue.jobs
    ensures j in s.work.queue.pending || j in s.work.queue.inFlight || s.history.finishes[j] >= 1
    ensures j in s.work.queue.inFlight ==> Holders(s.work)[j] >= 1
  {
    hide Reachable, Holders;
    ReachableJobs(s, j);
  }

  /** The reported depth is at least the number of accepted jobs that have not finished. */
  lemma DepthIsHonest(s: State)
    requires Reachable(s)
    ensures var unfinished := set j | j in s.work.queue.jobs && s.history.finishes[j] == 0;
            |unfinished| <= Depth(s.work.queue)
    ensures Depth(s.work.queue) == 0 ==> forall j :: j in s.work.queue.jobs ==> s.history.finishes[j] >= 1
  {
    hide Reachable, Holders;
    var q := s.work.queue;
    forall j | j in q.jobs ensures j in q.pending || j in q.inFlight || s.history.finishes[j] >= 1 {
      NothingIsLost(s, j);
    }
    var unfinished := set j | j in q.jobs && s.history.finishes[j] == 0;
    SubsetSize(unfinished, Elements(q.pending) + Elements(q.inFlight));
    ElementsSize(q.pending);
    ElementsSize(q.inFlight);
  }

  /** A job is in one place exactly as long as it was never reclaimed; and then the place is one of three. */
  lemma OnePlaceUntilReclaimed(s: State, j: string)
    requires Reachable(s) && j in s.work.queue.jobs
    ensures var q := s.work.queue;
            var pending, held, finished := multiset(q.pending)[j], Holders(s.work)[j], s.history.finishes[j];
            && (pending + held + finished == 1 <==> s.history.reclaims[j] == 0)
            && (s.history.reclaims[j] == 0 ==>
                  || (pending == 1 && held == 0 && j !in q.inFlight && finished == 0)
                  || (pending == 0 && held == 1 && j in q.inFlight && finished == 0)
                  || (pending == 0 && held == 0 && j !in q.inFlight && finished == 1))
  {
    hide Reachable, Holders;
    ReachableJobs(s, j);
  }

  /** First in, first out: as long as fewer jobs than the place of a pending job have been taken since, it is
      still pending, and when the next one is taken, it is this job. */
  lemma BoundedBypass(s: State, more: seq<Action>, p: nat)
    requires Reachable(s) && CanRun(s, more) && p < |s.work.queue.pending|
    ensures var t := After(s, more);
            var job, taken := s.work.queue.pending[p], |t.history.dequeued| - |s.history.dequeued|;
            && taken >= 0
            && (taken <= p ==> p - taken < |t.work.queue.pending| && t.work.queue.pending[p - taken] == job)
            && (taken > p ==> t.history.dequeued[|s.history.dequeued| + p] == job)
  {
    hide Enabled, Next, SpawnMany;
    var desired, ids, now, actions := RunTo(s);
    FifoAlongRun(Initial(desired, ids, now), actions);
    FifoAlongRun(s, more);
    var t, place := After(s, more), |s.history.dequeued| + p;
    assert s.history.appended[place] == s.work.queue.pending[p];
    assert t.history.appended[place] == s.history.appended[place];
  }
}
