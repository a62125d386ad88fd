/** The balance of the dispatch loop over runs of the scheduler in which no run ends and no worker dies or joins:
    jobs and heartbeats arrive at any time, and every selection is made before the wait for its job. */
module BalancedRuns {
  import opened Sequences
  import opened JobQueues
  import opened WorkerRegistries
  import opened WorkerBalance
  import opened Scheduling

  /** An action of the dispatch loop, the arrival of a job, or a heartbeat. */
  predicate Undisturbed(a: Action) { a.DoEnqueue? || a.DoSelect? || a.DoTake? || a.DoStart? || a.DoHeartbeat? }

  // ----- Registries that differ in their time stamps only -----

  ghost predicate SameButStamps(r: Registry, s: Registry) {
    && r.order == s.order
    && (forall w :: w in r.vals <==> w in s.vals)
    && (forall w :: w in r.vals ==> s.vals[w] == r.vals[w].(lastHeartbeat := s.vals[w].lastHeartbeat))
  }

  lemma {:induction false} SameInsertion(r: Registry, s: Registry, ws: seq<string>, w: string)
    requires SameButStamps(r, s)
    ensures InsertByLoad(r, ws, w) == InsertByLoad(s, ws, w)
  {
    assert LoadOf(r, w) == LoadOf(s, w);
    if ws != [] {
      assert LoadOf(r, ws[0]) == LoadOf(s, ws[0]);
      SameInsertion(r, s, ws[1..], w);
    }
  }

  lemma {:induction false} SameSorting(r: Registry, s: Registry, ws: seq<string>)
    requires SameButStamps(r, s)
    ensures SortByLoad(r, ws) == SortByLoad(s, ws)
  {
    if ws != [] {
      SameSorting(r, s, ws[1..]);
      SameInsertion(r, s, SortByLoad(r, ws[1..]), ws[0]);
    }
  }

  lemma SameSelection(r: Registry, s: Registry)
    requires SameButStamps(r, s)
    ensures AvailableWorkers(r) == AvailableWorkers(s)
  {
    assert forall w :: CanWork(r)(w) == CanWork(s)(w);
    KeepAgrees(r.order, CanWork(r), CanWork(s));
    SameSorting(r, s, Keep(r.order, CanWork(r)));
  }

  lemma SameWorkers(r: Registry, s: Registry)
    requires SameButStamps(r, s)
    ensures Workers(r) == Workers(s)
    ensures forall w :: LoadOf(r, w) == LoadOf(s, w)
  {
  }

  // ----- Along a run -----

  /** How many jobs were taken between two states of a run. */
  function Taken(s: State, t: State): int { |t.history.dequeued| - |s.history.dequeued| }

  /** The registry is that of `n` greedy dispatches, and a waiting loop has made the selection of the next one. */
  ghost predicate Follows(t: State, r: Registry, n: nat)
    requires r.WellFormed()
  {
    && WellFormed(t.work)
    && SameButStamps(DispatchMany(r, n), t.work.registry)
    && (t.work.loop.Waiting? ==>
          t.work.loop.workers == AvailableWorkers(DispatchMany(r, n)) && t.work.loop.workers != [])
  }

  /** A job that arrives for a selection that is still current completes a greedy dispatch. */
  lemma TakeFollows(t: State, r: Registry, n: nat)
    requires r.WellFormed() && Follows(t, r, n) && Enabled(t, DoTake)
    ensures Follows(Next(t, DoTake), r, n + 1)
  {
    var before, w := DispatchMany(r, n), t.work.loop.workers[0];
    AvailableWorkersSpec(before);
    assert w in AvailableWorkers(before);
    hide AvailableWorkers, Dequeue, Assign, Requeue, DispatchMany;
    AssignFollows(before, t.work.registry, w);
    DispatchOnce(r, n);
  }

  lemma DispatchOnce(r: Registry, n: nat)
    requires r.WellFormed()
    ensures AvailableWorkers(DispatchMany(r, n)) != [] ==>
      DispatchMany(r, n + 1) == MarkAssigned(DispatchMany(r, n), AvailableWorkers(DispatchMany(r, n))[0])
  {
  }

  lemma AssignFollows(r: Registry, s: Registry, w: string)
    requires r.WellFormed() && s.WellFormed() && SameButStamps(r, s) && w in r.vals
    ensures SameButStamps(MarkAssigned(r, w), MarkAssigned(s, w))
  {
  }

  lemma StepFollows(t: State, a: Action, r: Registry, n: nat)
    requires r.WellFormed() && Follows(t, r, n) && Enabled(t, a) && Undisturbed(a)
    ensures Follows(Next(t, a), r, n + if a.DoTake? then 1 else 0)
    ensures |Next(t, a).history.dequeued| == |t.history.dequeued| + if a.DoTake? then 1 else 0
  {
    hide AvailableWorkers, DispatchMany, Dequeue, Assign, Requeue, Enqueue, MarkAssigned, Heartbeat, SameButStamps;
    if a.DoTake? {
      TakeFollows(t, r, n);
    } else if a.DoSelect? {
      SameSelection(DispatchMany(r, n), t.work.registry);
    } else if a.DoHeartbeat? {
      BeatFollows(DispatchMany(r, n), t.work.registry, a.worker, a.now);
    }
  }

  lemma BeatFollows(r: Registry, s: Registry, w: string, now: int)
    requires s.WellFormed() && SameButStamps(r, s)
    ensures SameButStamps(r, Heartbeat(s, w, now))
  {
  }

  /** The dispatch loop has no outdated selection. */
  ghost predicate Current(x: Work) {
    x.loop.Waiting? ==> x.loop.workers == AvailableWorkers(x.registry) && x.loop.workers != []
  }

  ghost predicate UndisturbedRun(s: State, more: seq<Action>) {
    && WellFormed(s.work) && Current(s.work)
    && CanRun(s, more)
    && forall i :: 0 <= i < |more| ==> Undisturbed(more[i])
  }

  lemma LastOfRun(s: State, more: seq<Action>)
    requires CanRun(s, more) && more != []
    ensures var before := more[..|more| - 1];
            && CanRun(s, before) && Enabled(After(s, before), more[|more| - 1])
            && After(s, more) == Next(After(s, before), more[|more| - 1])
  {
    hide Enabled, Next;
  }

  lemma UndisturbedPrefix(s: State, more: seq<Action>)
    requires UndisturbedRun(s, more) && more != []
    ensures UndisturbedRun(s, more[..|more| - 1]) && Undisturbed(more[|more| - 1])
    ensures WellFormed(s.work) && CanRun(s, more) && CanRun(s, more[..|more| - 1])
    ensures Enabled(After(s, more[..|more| - 1]), more[|more| - 1])
    ensures After(s, more) == Next(After(s, more[..|more| - 1]), more[|more| - 1])
  {
    hide CanRun, Enabled, Next, Current, Undisturbed;
    LastOfRun(s, more);
  }

  lemma {:induction false} RunFollows(s: State, more: seq<Action>)
    requires UndisturbedRun(s, more)
    ensures Taken(s, After(s, more)) >= 0 && Follows(After(s, more), s.work.registry, Taken(s, After(s, more)))
    decreases |more|
  {
    hide UndisturbedRun, CanRun, Enabled, Next, Follows, Undisturbed;
    if more == [] {
      FollowsFromStart(s);
    } else {
      UndisturbedPrefix(s, more);
      var before := more[..|more| - 1];
      RunFollows(s, before);
      StepFollows(After(s, before), more[|more| - 1], s.work.registry, Taken(s, After(s, before)));
    }
  }

  lemma FollowsFromStart(s: State)
    requires UndisturbedRun(s, [])
    ensures Follows(s, s.work.registry, 0) && CanRun(s, []) && After(s, []) == s
  {
    hide AvailableWorkers;
  }

  lemma LevelButStamps(r: Registry, s: Registry, q: nat, c: nat)
    requires SameButStamps(r, s) && Level(r, q, c) && s.WellFormed()
    ensures Level(s, q, c)
  {
    SameWorkers(r, s);
    hide SameButStamps, Workers, LoadOf;
    assert Busier(r, q) == Busier(s, q);
  }

  /** There are `k` workers that can work, and all of them are idle. */
  ghost predicate AllIdle(r: Registry, k: nat) {
    k == |Workers(r)| > 0 && forall w :: w in Workers(r) ==> LoadOf(r, w) == 0
  }

  /** The `k` workers of `r` are still those of `s`, and share `n` jobs as evenly as possible. */
  ghost predicate Shared(r: Registry, s: Registry, n: nat, k: nat)
    requires k > 0
  {
    Workers(s) == Workers(r) && Level(s, n / k, n % k)
  }

  lemma SharedAfter(r: Registry, s: Registry, n: nat, k: nat)
    requires r.WellFormed() && s.WellFormed() && SameButStamps(DispatchMany(r, n), s) && AllIdle(r, k)
    ensures Shared(r, s, n, k)
  {
    hide Level, Workers, LoadOf, DispatchMany, SameButStamps;
    GreedyBalance(r, n, k);
    SameWorkers(DispatchMany(r, n), s);
    LevelButStamps(DispatchMany(r, n), s, n / k, n % k);
  }

  /** Greedy balance: from `k` idle workers and a loop that has no outdated selection, after any run in which `n` jobs
      are taken, no run ends, and no worker dies or joins, every load is n / k rounded down or up, and exactly
      n % k workers have the additional job. */
  lemma RunsAreBalanced(s: State, more: seq<Action>, k: nat)
    requires UndisturbedRun(s, more) && AllIdle(s.work.registry, k)
    ensures var t := After(s, more);
            Taken(s, t) >= 0 && Shared(s.work.registry, t.work.registry, Taken(s, t), k)
  {
    RunFollows(s, more);
    hide DispatchMany, AvailableWorkers, SameButStamps, Shared, AllIdle, Current, Undisturbed;
    SharedAfter(s.work.registry, After(s, more).work.registry, Taken(s, After(s, more)), k);
  }

  /** From any loads, such a run never makes the spread larger than it was, or than one. */
  lemma RunsDoNotSpread(s: State, more: seq<Action>, d: nat)
    requires UndisturbedRun(s, more) && SpreadAtMost(s.work.registry, d)
    ensures SpreadAtMost(After(s, more).work.registry, if d == 0 then 1 else d)
  {
    RunFollows(s, more);
    hide CanRun, UndisturbedRun, Workers, LoadOf, DispatchMany, AvailableWorkers, SameButStamps;
    var t := After(s, more);
    var n := Taken(s, t);
    SpreadNeverGrows(s.work.registry, d, n);
    SameWorkers(DispatchMany(s.work.registry, n), t.work.registry);
  }
}
