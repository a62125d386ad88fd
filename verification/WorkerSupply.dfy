/** How many workers are alive, in every reachable state of the scheduler: replacements never run away, and the
    supply never stays short. */
module WorkerSupply {
  import opened Sequences
  import opened OrderedDicts
  import opened JobQueues
  import opened WorkerRegistries
  import opened Scheduling
  import opened WorkerAccounting

  function AliveSet(r: Registry): set<string> { set w | w in r.vals && r.vals[w].alive }

  function DeadSet(r: Registry): set<string> { set w | w in r.vals && !r.vals[w].alive }

  /** How many workers the service tries to keep alive. */
  function Target(desired: int): int { if desired < MAX_WORKERS then desired else MAX_WORKERS }

  function Larger(a: int, b: int): int { if a < b then b else a }

  /** The count that the service makes by looking at all records is the number of alive workers. */
  lemma AliveCountIsSize(r: Registry)
    requires r.WellFormed()
    ensures AliveCount(r) == |AliveSet(r)|
  {
    var alive := Keep(r.order, IsAlive(r));
    KeepDistinct(r.order, IsAlive(r));
    KeepMembers(r.order, IsAlive(r));
    assert forall w :: w in alive <==> w in AliveSet(r);
    DistinctCount(alive, AliveSet(r));
  }

  /** The number of alive workers after an attempt to spawn `n` more. */
  function Filled(alive: nat, n: nat): nat {
    if alive >= MAX_WORKERS then alive else if alive + n < MAX_WORKERS then alive + n else MAX_WORKERS
  }

  lemma RegisterCount(r: Registry, id: string, now: int)
    requires r.WellFormed() && id !in r.vals
    ensures var s := Register(r, id, true, now);
            && AliveCount(s) == AliveCount(r) + 1
            && s.order == r.order + [id]
            && DeadSet(s) == DeadSet(r)
  {
    hide AliveCount;
    var s := Register(r, id, true, now);
    AliveCountIsSize(r);
    AliveCountIsSize(s);
    assert AliveSet(s) == AliveSet(r) + {id};
  }

  lemma SpawnOneCount(r: Registry, id: string, now: int)
    requires r.WellFormed() && id !in r.vals
    ensures var s := SpawnOne(r, id, now);
            && AliveCount(s) == Filled(AliveCount(r), 1)
            && s.order == r.order + (if AliveCount(r) < MAX_WORKERS then [id] else [])
            && DeadSet(s) == DeadSet(r)
  {
    hide AliveCount, Register, AliveSet, DeadSet;
    RegisterCount(r, id, now);
  }

  lemma {:induction false} SpawnManyCount(r: Registry, ids: seq<string>, now: int)
    requires r.WellFormed() && Fresh(ids, r)
    ensures var s := SpawnMany(r, ids, now);
            && AliveCount(s) == Filled(AliveCount(r), |ids|)
            && DeadSet(s) == DeadSet(r)
    decreases |ids|
  {
    hide AliveCount, DeadSet, SpawnOne;
    if ids != [] {
      FreshInit(r, ids);
      var before, last := ids[..|ids| - 1], ids[|ids| - 1];
      SpawnManyCount(r, before, now);
      SpawnManyAdds(r, before, now, last);
      SpawnOneCount(SpawnMany(r, before, now), last, now);
    }
  }

  lemma FreshInit(r: Registry, ids: seq<string>)
    requires Fresh(ids, r) && ids != []
    ensures Fresh(ids[..|ids| - 1], r) && ids[|ids| - 1] !in r.vals && ids[|ids| - 1] !in ids[..|ids| - 1]
  {
    assert ids == ids[..|ids| - 1] + [ids[|ids| - 1]];
  }

  lemma OneMore(order: seq<string>, ids: seq<string>, n: nat)
    requires ids != [] && n <= |ids| - 1
    ensures ids[..|ids| - 1][..n] == ids[..n]
    ensures n == |ids| - 1 ==> order + ids[..n] + [ids[n]] == order + ids[..n + 1]
  {
  }

  /** Spawning fills the free slots with workers of the first ids, which register in this order. */
  lemma {:induction false} SpawnManyOrder(r: Registry, ids: seq<string>, now: int)
    requires r.WellFormed() && Fresh(ids, r)
    ensures var n := Filled(AliveCount(r), |ids|) - AliveCount(r);
            0 <= n <= |ids| && SpawnMany(r, ids, now).order == r.order + ids[..n]
    decreases |ids|
  {
    hide AliveCount, DeadSet, SpawnOne, Fresh;
    if ids != [] {
      FreshInit(r, ids);
      var before, last := ids[..|ids| - 1], ids[|ids| - 1];
      SpawnManyOrder(r, before, now);
      SpawnManyCount(r, before, now);
      SpawnManyAdds(r, before, now, last);
      SpawnOneCount(SpawnMany(r, before, now), last, now);
      OneMore(r.order, ids, Filled(AliveCount(r), |before|) - AliveCount(r));
    }
  }

  // ----- The invariant -----

  /** The alive and the dead workers, by number: at most the maximum are alive; those alive and the deaths that
      were not handled yet reach the target; and every replacement is paid for by a death. */
  ghost predicate Supplied(s: State) {
    var r, target := s.work.registry, Target(s.desired);
    var alive := AliveCount(r);
    && alive <= MAX_WORKERS
    && s.replaced <= DeadSet(r)
    && alive + |DeadSet(r) - s.replaced| >= target
    && s.history.replacements + Larger(0, target - alive) <= s.history.deaths
  }

  /** An action that leaves the status of all workers as it is. */
  lemma SameStatus(r: Registry, t: Registry)
    requires r.WellFormed() && t.WellFormed() && r.vals.Keys == t.vals.Keys
    requires forall w :: w in r.vals ==> r.vals[w].alive == t.vals[w].alive
    ensures AliveCount(t) == AliveCount(r) && DeadSet(t) == DeadSet(r)
  {
    hide AliveCount;
    AliveCountIsSize(r);
    AliveCountIsSize(t);
    assert AliveSet(t) == AliveSet(r);
  }

  lemma KeepsStatus(s: State, a: Action, w: string)
    requires Enabled(s, a)
    requires !a.DoTimeOut? && !a.DoKill? && !a.DoHandle? && !a.DoScale?
    ensures var r, t := s.work.registry, Next(s, a).work.registry;
            (w in t.vals <==> w in r.vals) && (w in r.vals ==> r.vals[w].alive == t.vals[w].alive)
  {
    hide AvailableWorkers, Requeue, Dequeue, Assign, Complete, Enqueue, ReclaimJobs, Orphans, RemoveRun, WellFormed;
  }

  lemma OtherSupplied(s: State, a: Action)
    requires Enabled(s, a) && Supplied(s)
    requires !a.DoTimeOut? && !a.DoKill? && !a.DoHandle? && !a.DoScale?
    ensures Supplied(Next(s, a))
  {
    hide AliveCount, DeadSet, AvailableWorkers, Requeue, Dequeue, Assign, Complete, Enqueue, ReclaimJobs, Orphans, RemoveRun;
    forall w: string
      ensures w in Next(s, a).work.registry.vals <==> w in s.work.registry.vals
      ensures w in s.work.registry.vals ==>
                s.work.registry.vals[w].alive == Next(s, a).work.registry.vals[w].alive
    {
      KeepsStatus(s, a, w);
    }
    SameStatus(s.work.registry, Next(s, a).work.registry);
  }

  lemma DeathCount(r: Registry, w: string)
    requires r.WellFormed() && w in r.vals && r.vals[w].alive
    ensures var t := MarkDead(r, w);
            && AliveCount(t) == AliveCount(r) - 1
            && DeadSet(t) == DeadSet(r) + {w} && w !in DeadSet(r)
  {
    hide AliveCount;
    var t := MarkDead(r, w);
    AliveCountIsSize(r);
    AliveCountIsSize(t);
    assert AliveSet(t) == AliveSet(r) - {w};
  }

  lemma DeathSupplied(s: State, a: Action)
    requires Enabled(s, a) && Supplied(s)
    requires a.DoTimeOut? || a.DoKill?
    ensures Supplied(Next(s, a))
  {
    hide AliveCount, DeadSet, MarkDead;
    var r, w := s.work.registry, a.worker;
    DeathCount(r, w);
    assert DeadSet(r) + {w} - s.replaced == (DeadSet(r) - s.replaced) + {w};
  }

  /** What handling a death does: nothing the second time; the first time, the target is reached. */
  lemma Handling(r: Registry, replaced: set<string>, desired: int, dead: string, ids: seq<string>, now: int)
    requires r.WellFormed() && Fresh(ids, r) && Missing(r, desired) <= |ids|
    requires AliveCount(r) <= MAX_WORKERS
    ensures var t, done := Replace(r, replaced, desired, dead, ids, now).0, Replace(r, replaced, desired, dead, ids, now).1;
            if dead in replaced then t == r && done == replaced
            else
              && AliveCount(t) == Larger(AliveCount(r), Target(desired))
              && AliveCount(t) - AliveCount(r) <= |ids|
              && t.order == r.order + ids[..AliveCount(t) - AliveCount(r)]
              && |t.order| - |r.order| == AliveCount(t) - AliveCount(r)
              && DeadSet(t) == DeadSet(r)
              && done == replaced + {dead}
  {
    hide AliveCount, DeadSet, SpawnMany;
    FreshPrefix(ids, Missing(r, desired), r);
    var n := Missing(r, desired);
    SpawnManyCount(r, ids[..n], now);
    SpawnManyOrder(r, ids[..n], now);
    assert forall m :: 0 <= m <= n ==> ids[..n][..m] == ids[..m];
  }

  lemma DeadIsCounted(r: Registry, w: string)
    requires Dead(r, w)
    ensures w in DeadSet(r)
  {
  }

  lemma HandleSupplied(s: State, w: string, ids: seq<string>, now: int)
    requires Enabled(s, DoHandle(w, ids, now)) && Supplied(s)
    ensures Supplied(Next(s, DoHandle(w, ids, now)))
  {
    hide AliveCount, Replace, DeadSet, Missing, Fresh;
    DeadIsCounted(s.work.registry, w);
    Handling(s.work.registry, s.replaced, s.desired, w, ids, now);
    assert s.replaced + {w} <= DeadSet(s.work.registry);
  }

  lemma ScaleSupplied(s: State, count: nat, ids: seq<string>, now: int)
    requires Enabled(s, DoScale(count, ids, now)) && Supplied(s)
    ensures Supplied(Next(s, DoScale(count, ids, now)))
  {
    hide AliveCount, DeadSet, SpawnMany;
    var slots := MAX_WORKERS - AliveCount(s.work.registry);
    if slots > 0 {
      var n := if count < slots then count else slots;
      FreshPrefix(ids, n, s.work.registry);
      SpawnManyCount(s.work.registry, ids[..n], now);
    }
  }

  lemma SuppliedStep(s: State, a: Action)
    requires Enabled(s, a) && Supplied(s)
    ensures Supplied(Next(s, a))
  {
    hide *;
    match a
    case DoTimeOut(_, _) => DeathSupplied(s, a);
    case DoKill(_) => DeathSupplied(s, a);
    case DoHandle(w, ids, now) => HandleSupplied(s, w, ids, now);
    case DoScale(count, ids, now) => ScaleSupplied(s, count, ids, now);
    case _ => OtherSupplied(s, a);
  }

  // ----- Over all runs -----

  lemma {:induction false} SuppliedAlongRun(s: State, actions: seq<Action>)
    requires CanRun(s, actions) && Supplied(s)
    ensures Supplied(After(s, actions)) && After(s, actions).desired == s.desired
    decreases |actions|
  {
    hide Supplied, Enabled;
    if actions != [] {
      var before := actions[..|actions| - 1];
      SuppliedAlongRun(s, before);
      SuppliedStep(After(s, before), actions[|actions| - 1]);
    }
  }

  lemma InitialSupplied(desired: int, ids: seq<string>, now: int)
    requires GoodStart(desired, ids)
    ensures Supplied(Initial(desired, ids, now))
  {
    hide AliveCount, SpawnMany;
    var none: Registry := EmptyDict();
    AliveCountIsSize(none);
    assert AliveSet(none) == {} && DeadSet(none) == {};
    SpawnManyCount(none, ids, now);
  }

  /** Replacement never runs away and never leaves too few: at most the maximum are alive; replacements are at
      most the deaths; alive workers and deaths that still have to be handled together reach the target, so
      once every death was handled, the target is alive. */
  lemma ReplacementIsBalanced(s: State)
    requires Reachable(s)
    ensures var r, target := s.work.registry, Target(s.desired);
            var unhandled := DeadSet(r) - s.replaced;
            && AliveCount(r) <= MAX_WORKERS
            && s.history.replacements + Larger(0, target - AliveCount(r)) <= s.history.deaths
            && AliveCount(r) + |unhandled| >= target
            && (unhandled == {} ==> AliveCount(r) >= target)
  {
    hide Enabled, Next, SpawnMany, AliveCount, DeadSet;
    var desired, ids, now, actions := RunTo(s);
    InitialSupplied(desired, ids, now);
    SuppliedAlongRun(Initial(desired, ids, now), actions);
  }

  /** The first handling of a death fills up to the target and never beyond, so the number of new workers is one
      exactly when one is missing; any later handling changes nothing. */
  lemma FirstHandlingFills(s: State, w: string, ids: seq<string>, now: int)
    requires Reachable(s) && Enabled(s, DoHandle(w, ids, now))
    ensures var t := Next(s, DoHandle(w, ids, now));
            && (w in s.replaced ==> t == s)
            && (w !in s.replaced ==>
                  && AliveCount(t.work.registry) == Larger(AliveCount(s.work.registry), Target(s.desired))
                  && t.work.registry.order
                     == s.work.registry.order + ids[..AliveCount(t.work.registry) - AliveCount(s.work.registry)]
                  && t.history.replacements - s.history.replacements
                     == AliveCount(t.work.registry) - AliveCount(s.work.registry)
                  && w in t.replaced)
  {
    hide Reachable, AliveCount, Replace, DeadSet;
    ReplacementIsBalanced(s);
    Handling(s.work.registry, s.replaced, s.desired, w, ids, now);
  }

  /** A scale request is rejected exactly when no slot is free; otherwise as many workers as were asked for, or as
      there are free slots, register under the first ids, alive and idle, and nobody else changes. */
  lemma ScaleFills(s: State, count: nat, ids: seq<string>, now: int)
    requires Reachable(s) && Enabled(s, DoScale(count, ids, now))
    ensures var r, t := s.work.registry, Next(s, DoScale(count, ids, now)).work.registry;
            var alive := AliveCount(r);
            var n := if alive + count <= MAX_WORKERS then count else MAX_WORKERS - alive;
            && (Scale(r, count, ids, now).None? <==> alive == MAX_WORKERS)
            && AliveCount(t) == alive + n
            && t.order == r.order + ids[..n]
            && (forall w :: w in r.vals ==> w in t.vals && t.vals[w] == r.vals[w])
            && (forall w :: w in t.vals && w !in r.vals ==> t.vals[w] == Info(now, true, 0, 0, 0, 0, 0, true))
            && Next(s, DoScale(count, ids, now)).replaced == s.replaced
  {
    hide Reachable, AliveCount, SpawnMany, DeadSet;
    ReplacementIsBalanced(s);
    SpawnedEffect(s.work.registry, ids, count, now);
  }

  /** What `count` attempts to spawn add to the registry. */
  lemma SpawnedEffect(r: Registry, ids: seq<string>, count: nat, now: int)
    requires r.WellFormed() && Fresh(ids, r) && count <= |ids|
    requires AliveCount(r) <= MAX_WORKERS
    ensures var n := if AliveCount(r) + count <= MAX_WORKERS then count else MAX_WORKERS - AliveCount(r);
            var t := SpawnMany(r, ids[..n], now);
            && AliveCount(t) == AliveCount(r) + n
            && t.order == r.order + ids[..n]
            && (forall w :: w in r.vals ==> w in t.vals && t.vals[w] == r.vals[w])
            && (forall w :: w in t.vals && w !in r.vals ==> t.vals[w] == Info(now, true, 0, 0, 0, 0, 0, true))
  {
    hide AliveCount, SpawnMany, DeadSet;
    var n := if AliveCount(r) + count <= MAX_WORKERS then count else MAX_WORKERS - AliveCount(r);
    FreshPrefix(ids, n, r);
    SpawnManyCount(r, ids[..n], now);
    SpawnManyOrder(r, ids[..n], now);
    assert ids[..n][..n] == ids[..n];
    var t := SpawnMany(r, ids[..n], now);
    forall w | w in r.vals ensures w in t.vals && t.vals[w] == r.vals[w] {
      SpawnManyAdds(r, ids[..n], now, w);
    }
    forall w | w in t.vals && w !in r.vals ensures t.vals[w] == Info(now, true, 0, 0, 0, 0, 0, true) {
      SpawnManyAdds(r, ids[..n], now, w);
    }
  }

  /** The service starts with as many workers as are wanted, or as are allowed, in the order of their ids. */
  lemma StartFills(desired: int, ids: seq<string>, now: int)
    requires GoodStart(desired, ids)
    ensures var r := Initial(desired, ids, now).work.registry;
            var n := if |ids| <= MAX_WORKERS then |ids| else MAX_WORKERS;
            && AliveCount(r) == n && r.order == ids[..n]
            && (forall w :: w in r.vals ==> r.vals[w] == Info(now, true, 0, 0, 0, 0, 0, true))
  {
    hide AliveCount, SpawnMany, DeadSet;
    var none: Registry := EmptyDict();
    AliveCountIsSize(none);
    assert AliveSet(none) == {};
    SpawnManyCount(none, ids, now);
    SpawnManyOrder(none, ids, now);
    var r := Initial(desired, ids, now).work.registry;
    forall w | w in r.vals ensures r.vals[w] == Info(now, true, 0, 0, 0, 0, 0, true) {
      SpawnManyAdds(none, ids, now, w);
    }
  }
}
