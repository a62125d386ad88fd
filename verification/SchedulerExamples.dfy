/** Runs that show where the scheduler does less than its documentation says. */
module SchedulerExamples {
  import opened Sequences
  import opened OrderedDicts
  import opened JobQueues
  import opened WorkerRegistries
  import opened Scheduling
  import opened WorkerAccounting
  import opened WorkerSupply

  function NewWorker(): Info { Info(0, true, 0, 0, 0, 0, 0, true) }

  function OneWorker(w: string, i: Info): Registry { Dict([w], map[w := i]) }

  lemma OneWorkerAvailable(w: string, i: Info)
    ensures OneWorker(w, i).WellFormed()
    ensures i.alive && i.hasNode ==> AvailableWorkers(OneWorker(w, i)) == [w]
  {
    var r := OneWorker(w, i);
    assert [w][1..] == [];
    if CanWork(r)(w) {
      assert Keep([w], CanWork(r)) == [w] + Keep([], CanWork(r)) == [w];
      assert SortByLoad(r, [w]) == InsertByLoad(r, SortByLoad(r, []), w) == [w];
    }
  }

  lemma OneWorkerStart(w: string)
    ensures GoodStart(1, [w])
    ensures Initial(1, [w], 0).work.registry == OneWorker(w, NewWorker())
  {
    assert [w][..0] == [];
    assert SpawnMany(EmptyDict(), [], 0) == EmptyDict();
  }

  /** One job runs on the only worker, `a`. */
  lemma JobRunning(a: string, j: string) returns (s: State)
    ensures Reachable(s)
    ensures s.work.registry == OneWorker(a, Info(0, true, 1, 1, 0, 1, 0, true))
    ensures s.work.queue == Queue([], [j], map[j := Job(Pending, Some(a))])
    ensures s.work.loop == Idle && s.work.runs == [Run(j, a, false)]
    ensures s.desired == 1 && s.replaced == {} && s.history.finishes == multiset{}
  {
    hide AvailableWorkers, Reachable;
    OneWorkerStart(a);
    ReachableStart(1, [a], 0);
    s := Initial(1, [a], 0);
    OneWorkerAvailable(a, NewWorker());
    ReachableStep(s, DoSelect);
    s := Next(s, DoSelect);
    ReachableStep(s, DoEnqueue(j));
    s := Next(s, DoEnqueue(j));
    ReachableStep(s, DoTake);
    s := Next(s, DoTake);
    ReachableStep(s, DoStart);
    s := Next(s, DoStart);
  }

  lemma ReclaimOne(a: string, j: string)
    ensures var q := Queue([], [j], map[j := Job(Pending, Some(a))]);
            && Orphans(q, a) == [j]
            && ReclaimJobs(q, a) == Queue([j], [], map[j := Job(Pending, None)])
  {
    var q := Queue([], [j], map[j := Job(Pending, Some(a))]);
    KeepAll([j], HeldBy(q, a));
    KeepNone([j], OtherThan(j));
    assert [j][..0] == [];
    assert RequeueAll(q, [j]) == Requeue(RequeueAll(q, []), j) == Requeue(q, j);
    assert map[j := Job(Pending, Some(a))][j := Job(Pending, None)] == map[j := Job(Pending, None)];
  }

  /** The registry after the replacement of the dead worker `a` by `b`. */
  function Replaced(a: string, dead: Info, b: string): Registry {
    Dict([a, b], map[a := dead, b := NewWorker()])
  }

  lemma OnlyTheReplacementIsAvailable(a: string, dead: Info, b: string)
    requires a != b && !dead.alive
    ensures Replaced(a, dead, b).WellFormed()
    ensures AvailableWorkers(Replaced(a, dead, b)) == [b]
  {
    var r := Replaced(a, dead, b);
    KeepSplit([a], [b], CanWork(r));
    assert [a] + [b] == [a, b];
    assert [b][1..] == [];
    assert SortByLoad(r, [b]) == InsertByLoad(r, SortByLoad(r, []), b) == [b];
  }

  lemma ReplaceOne(a: string, dead: Info, b: string)
    requires a != b && !dead.alive
    ensures var r := OneWorker(a, dead);
            && r.WellFormed() && Fresh([b], r) && Missing(r, 1) == 1
            && Replace(r, {}, 1, a, [b], 0) == (Replaced(a, dead, b), {a})
  {
    var r := OneWorker(a, dead);
    KeepNone([a], IsAlive(r));
    assert [b][..1] == [b] && [b][..0] == [];
    assert SpawnMany(r, [], 0) == r;
    assert AliveCount(r) == 0;
    assert SpawnMany(r, [b], 0) == SpawnOne(r, b, 0) == Register(r, b, true, 0);
    assert Register(r, b, true, 0) == Dict([a] + [b], map[a := dead][b := NewWorker()]);
    assert [a] + [b] == [a, b];
    assert map[a := dead][b := NewWorker()] == map[a := dead, b := NewWorker()];
    assert SpawnMany(r, [b], 0) == Replaced(a, dead, b);
    assert [b][..Missing(r, 1)] == [b];
    var done: set<string> := {};
    assert done + {a} == {a};
  }

  /** The worker is killed and its job reclaimed, while the run goes on; the replacement follows at once. */
  lemma JobReclaimed(a: string, j: string) returns (s: State)
    ensures Reachable(s)
    ensures s.work.registry == OneWorker(a, Info(0, false, 0, 1, 0, 1, 0, true))
    ensures s.work.queue == Queue([j], [], map[j := Job(Pending, None)])
    ensures s.work.loop == Idle && s.work.runs == [Run(j, a, false)]
    ensures s.desired == 1 && s.replaced == {} && s.history.finishes == multiset{}
  {
    hide AvailableWorkers, Reachable, ReclaimJobs, Orphans;
    s := JobRunning(a, j);
    ReachableStep(s, DoKill(a));
    s := Next(s, DoKill(a));
    ReclaimOne(a, j);
    ReachableStep(s, DoReclaim(a));
    s := Next(s, DoReclaim(a));
  }

  /** The worker is killed, its job reclaimed and the worker replaced by `b`, while the run goes on. As in the
      program, nothing happens between the reclaim and the replacement. */
  lemma WorkerReplaced(a: string, b: string, j: string) returns (s: State)
    requires a != b
    ensures Reachable(s)
    ensures s.work.registry == Replaced(a, Info(0, false, 0, 1, 0, 1, 0, true), b)
    ensures s.work.queue == Queue([j], [], map[j := Job(Pending, None)])
    ensures s.work.loop == Idle && s.work.runs == [Run(j, a, false)] && s.history.finishes == multiset{}
  {
    hide AvailableWorkers, Reachable, Replace, Missing;
    s := JobReclaimed(a, j);
    ReplaceOne(a, s.work.registry.vals[a], b);
    ReachableStep(s, DoHandle(a, [b], 0));
    s := Next(s, DoHandle(a, [b], 0));
  }

  lemma ReplacedUpdate(a: string, dead: Info, b: string, now: Info)
    requires a != b
    ensures Replaced(a, dead, b).WellFormed()
    ensures Replaced(a, dead, b).Set(a, now) == Replaced(a, now, b)
  {
    assert map[a := dead, b := NewWorker()][a := now] == map[a := now, b := NewWorker()];
  }

  /** A job can be pending although it has finished: the run of a killed worker, which nobody cancels, completes
      after the job was reclaimed. */
  lemma PendingAfterFinish(a: string, b: string, j: string) returns (s: State)
    requires a != b
    ensures Reachable(s)
    ensures s.work.queue == Queue([j], [], map[j := Job(Pending, None)])
    ensures s.history.finishes == multiset{j}
    ensures s.work.registry == Replaced(a, Info(0, false, 0, 1, 1, 1, 1, true), b)
    ensures s.work.loop == Idle && s.work.runs == []
  {
    hide AvailableWorkers, Reachable, Replaced;
    s := WorkerReplaced(a, b, j);
    ReplacedUpdate(a, Info(0, false, 0, 1, 0, 1, 0, true), b, Info(0, false, 0, 1, 1, 1, 1, true));
    ReplacedRecord(a, Info(0, false, 0, 1, 0, 1, 0, true), b);
    ReachableStep(s, DoFinish(0));
    s := Next(s, DoFinish(0));
  }

  lemma ReplacedRecord(a: string, dead: Info, b: string)
    requires a != b
    ensures a in Replaced(a, dead, b).vals && Replaced(a, dead, b).vals[a] == dead
  {
  }

  /** The job that has finished is assigned once more. */
  lemma Redispatched(a: string, b: string, j: string) returns (s: State)
    requires a != b
    ensures Reachable(s)
    ensures s.work.loop == Reporting(j, b) && s.work.queue == Queue([], [j], map[j := Job(Pending, Some(b))])
    ensures s.work.runs == [] && s.history.finishes == multiset{j} && WellFormed(s.work)
  {
    hide AvailableWorkers, Reachable;
    s := PendingAfterFinish(a, b, j);
    OnlyTheReplacementIsAvailable(a, s.work.registry.vals[a], b);
    ReachableStep(s, DoSelect);
    s := Next(s, DoSelect);
    ReachableStep(s, DoTake);
    s := Next(s, DoTake);
  }

  /** A job can finish twice. */
  lemma FinishedTwice(a: string, b: string, j: string) returns (s: State)
    requires a != b
    ensures Reachable(s)
    ensures s.history.finishes[j] == 2
  {
    hide AvailableWorkers, Reachable, Replace, ReclaimJobs, Orphans, Complete;
    s := Redispatched(a, b, j);
    ReachableStep(s, DoStart);
    s := Next(s, DoStart);
    ReachableStep(s, DoFinish(0));
    s := Next(s, DoFinish(0));
  }

  /** A reclaimed job has two copies in the pending list once its first run fails as well. */
  lemma TwoCopies(a: string, b: string, j: string) returns (s: State)
    requires a != b
    ensures Reachable(s)
    ensures s.work.queue == Queue([j, j], [], map[j := Job(Pending, None)])
    ensures s.work.registry == Replaced(a, Info(0, false, 0, 1, 0, 1, 0, true), b)
    ensures s.work.loop == Idle && s.work.runs == []
  {
    hide AvailableWorkers, Reachable, Keep, Replaced;
    s := WorkerReplaced(a, b, j);
    ReplacedUpdate(a, Info(0, false, 0, 1, 0, 1, 0, true), b, Info(0, false, 0, 1, 0, 1, 0, true));
    ReplacedRecord(a, Info(0, false, 0, 1, 0, 1, 0, true), b);
    ReachableStep(s, DoFailFirst(0));
    s := Next(s, DoFailFirst(0));
    KeepNone([], OtherThan(j));
    ReachableStep(s, DoFailSecond(0));
    s := Next(s, DoFailSecond(0));
  }

  lemma SecondCopyTaken(a: string, b: string, j: string) returns (s: State)
    requires a != b
    ensures Reachable(s) && WellFormed(s.work)
    ensures s.work.loop == Reporting(j, b) && s.work.queue == Queue([j], [j], map[j := Job(Pending, Some(b))])
    ensures s.work.runs == []
  {
    hide AvailableWorkers, Reachable, Keep;
    s := TwoCopies(a, b, j);
    OnlyTheReplacementIsAvailable(a, s.work.registry.vals[a], b);
    ReachableStep(s, DoSelect);
    s := Next(s, DoSelect);
    assert [j, j][1..] == [j];
    ReachableStep(s, DoTake);
    s := Next(s, DoTake);
  }

  /** A job can be marked as completed while it sits in the pending list. */
  lemma CompletedWhilePending(a: string, b: string, j: string) returns (s: State)
    requires a != b
    ensures Reachable(s)
    ensures s.work.queue == Queue([j], [], map[j := Job(Done, Some(b))])
  {
    hide AvailableWorkers, Reachable, Keep;
    s := SecondCopyTaken(a, b, j);
    ReachableStep(s, DoStart);
    s := Next(s, DoStart);
    KeepNone([j], OtherThan(j));
    var q := Complete(s.work.queue, j);
    assert q.jobs == map[j := Job(Done, Some(b))];
    ReachableStep(s, DoFinish(0));
    s := Next(s, DoFinish(0));
  }

  /** A dead worker can be given a job: it was selected before it died. */
  lemma DeadWorkerAssigned(a: string, j: string) returns (s: State)
    ensures Reachable(s)
    ensures Dead(s.work.registry, a) && s.work.loop == Reporting(j, a) && s.work.registry.vals[a].load == 1
  {
    hide AvailableWorkers, Reachable;
    OneWorkerStart(a);
    ReachableStart(1, [a], 0);
    s := Initial(1, [a], 0);
    OneWorkerAvailable(a, NewWorker());
    ReachableStep(s, DoSelect);
    s := Next(s, DoSelect);
    ReachableStep(s, DoKill(a));
    s := Next(s, DoKill(a));
    ReachableStep(s, DoEnqueue(j));
    s := Next(s, DoEnqueue(j));
    ReachableStep(s, DoTake);
    s := Next(s, DoTake);
  }

  lemma TwoWorkersStart(a: string, b: string)
    requires a != b
    ensures GoodStart(2, [a, b])
    ensures var r := Initial(2, [a, b], 0).work.registry;
            r.WellFormed() && AliveCount(r) == 2 && AliveSet(r) == {a, b} && r.vals.Keys == {a, b}
  {
    hide AliveCount, SpawnMany;
    var none: Registry := EmptyDict();
    var r := SpawnMany(none, [a, b], 0);
    AliveCountIsSize(none);
    assert AliveSet(none) == {};
    SpawnManyCount(none, [a, b], 0);
    AliveCountIsSize(r);
    forall w | w in r.vals ensures w in {a, b} && r.vals[w].alive {
      SpawnManyAdds(none, [a, b], 0, w);
    }
    assert AliveSet(r) <= {a, b};
    assert {a, b} == AliveSet(r) + ({a, b} - AliveSet(r));
    assert r.vals.Keys == AliveSet(r);
  }

  lemma NothingToReclaim(q: Queue, w: string)
    requires q.inFlight == []
    ensures Orphans(q, w) == [] && ReclaimJobs(q, w) == q
  {
    KeepNone(q.inFlight, HeldBy(q, w));
  }

  /** The handling of one death can spawn two workers: another one has died and was not handled yet. */
  lemma OneHandlingTwoReplacements(a: string, b: string, c: string, d: string) returns (s: State)
    requires a != b && a != c && a != d && b != c && b != d && c != d
    ensures Reachable(s) && Enabled(s, DoHandle(a, [c, d], 0)) && s.history.replacements == 0
    ensures Next(s, DoHandle(a, [c, d], 0)).history.replacements == 2
  {
    hide Reachable, AliveCount, SpawnMany, DeadSet, AvailableWorkers, ReclaimJobs, Orphans, Replace;
    TwoWorkersStart(a, b);
    ReachableStart(2, [a, b], 0);
    s := Initial(2, [a, b], 0);
    assert a in AliveSet(s.work.registry) && b in AliveSet(s.work.registry);
    DeathCount(s.work.registry, a);
    ReachableStep(s, DoKill(a));
    s := Next(s, DoKill(a));
    DeathCount(s.work.registry, b);
    ReachableStep(s, DoKill(b));
    s := Next(s, DoKill(b));
    NothingToReclaim(s.work.queue, a);
    ReachableStep(s, DoReclaim(a));
    s := Next(s, DoReclaim(a));
    FirstHandlingFills(s, a, [c, d], 0);
  }
}
