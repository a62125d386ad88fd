/** When the monitor declares a worker dead, over all runs. */
module HeartbeatTheorems {
  import opened OrderedDicts
  import opened JobQueues
  import opened WorkerRegistries
  import opened Scheduling
  import opened WorkerAccounting

  predicate BeatOf(a: Action, w: string) { a.DoHeartbeat? && a.worker == w }

  /** The worker is registered, and its last heartbeat is the one at `t`, or a later one if there was another. */
  ghost predicate LastBeat(r: Registry, w: string, t: int, silent: bool) {
    && w in r.vals
    && r.vals[w].lastHeartbeat >= t
    && (silent ==> r.vals[w].lastHeartbeat == t)
  }

  lemma LastBeatStep(s: State, a: Action, w: string, t: int, silent: bool)
    requires Enabled(s, a) && LastBeat(s.work.registry, w, t, silent)
    requires BeatOf(a, w) ==> a.now >= t
    ensures LastBeat(Next(s, a).work.registry, w, t, silent && !BeatOf(a, w))
  {
    if a.DoHandle? || a.DoScale? {
      HandleRecords(s, a, w);
    }
    hide AvailableWorkers, ReclaimJobs, Orphans, Replace, Scale, Dequeue, Requeue, Assign, Complete, RemoveRun;
  }

  ghost predicate Silent(more: seq<Action>, w: string) { forall a :: a in more ==> !BeatOf(a, w) }

  lemma {:induction false} LastBeatAlongRun(s: State, more: seq<Action>, w: string, t: int)
    requires CanRun(s, more) && LastBeat(s.work.registry, w, t, true)
    requires forall a :: a in more && BeatOf(a, w) ==> a.now >= t
    ensures LastBeat(After(s, more).work.registry, w, t, Silent(more, w))
    decreases |more|
  {
    hide Enabled, Next, LastBeat, BeatOf;
    if more != [] {
      var before, last := more[..|more| - 1], more[|more| - 1];
      assert more == before + [last];
      assert Silent(more, w) <==> Silent(before, w) && !BeatOf(last, w);
      LastBeatAlongRun(s, before, w, t);
      LastBeatStep(After(s, before), last, w, t, Silent(before, w));
    }
  }

  /** The action stamps the worker with its time: a heartbeat, or the registration as a new worker. */
  ghost predicate Stamps(s: State, a: Action, w: string)
    requires Enabled(s, a)
  {
    && w in Next(s, a).work.registry.vals
    && (BeatOf(a, w) || ((a.DoHandle? || a.DoScale?) && w !in s.work.registry.vals))
  }

  lemma StampIsSet(s: State, a: Action, w: string)
    requires Enabled(s, a) && Stamps(s, a, w)
    ensures Next(s, a).work.registry.vals[w].lastHeartbeat == a.now
  {
    hide AvailableWorkers, AliveCount, SpawnMany;
    if !BeatOf(a, w) {
      var r := s.work.registry;
      var n := if a.DoHandle? then Missing(r, s.desired)
               else if MAX_WORKERS - AliveCount(r) <= 0 then 0
               else if a.count < MAX_WORKERS - AliveCount(r) then a.count else MAX_WORKERS - AliveCount(r);
      FreshPrefix(a.ids, n, r);
      SpawnManyAdds(r, a.ids[..n], a.now, w);
    }
  }

  /** No time-out comes within 10 seconds of the stamp `t`; after it, one can, unless there was another heartbeat
      or the worker is dead already. */
  ghost predicate TimedOutWhenSilent(end: State, w: string, t: int, silent: bool, now: int) {
    && w in end.work.registry.vals
    && (now - t <= HEARTBEAT_TIMEOUT ==> !Enabled(end, DoTimeOut(w, now)))
    && (silent && now - t > HEARTBEAT_TIMEOUT && end.work.registry.vals[w].alive ==> Enabled(end, DoTimeOut(w, now)))
  }

  lemma TimeOutFollowsLastBeat(s: State, w: string, more: seq<Action>, now: int)
    requires WellFormed(s.work) && CanRun(s, more) && w in s.work.registry.vals
    requires forall a :: a in more && BeatOf(a, w) ==> a.now >= s.work.registry.vals[w].lastHeartbeat
    ensures TimedOutWhenSilent(After(s, more), w, s.work.registry.vals[w].lastHeartbeat, Silent(more, w), now)
  {
    hide Next, CanRun;
    WellFormedAlongRun(s, more);
    LastBeatAlongRun(s, more, w, s.work.registry.vals[w].lastHeartbeat);
  }

  /** A worker is not declared dead within the time-out after its registration or any of its heartbeats; after it,
      it is, unless it has beaten again or is dead already. */
  lemma TimedOutExactlyWhenSilent(s: State, a: Action, w: string, more: seq<Action>, now: int)
    requires Reachable(s) && Enabled(s, a) && Stamps(s, a, w) && CanRun(Next(s, a), more)
    requires forall b :: b in more && BeatOf(b, w) ==> b.now >= a.now
    ensures TimedOutWhenSilent(After(Next(s, a), more), w, a.now, Silent(more, w), now)
  {
    ReachableStep(s, a);
    ReachableIsWellFormed(Next(s, a));
    StampIsSet(s, a, w);
    hide Enabled, Next, Reachable, TimedOutWhenSilent;
    TimeOutFollowsLastBeat(Next(s, a), w, more, now);
  }

  /** The same for the initial workers, from the start of the service. */
  lemma InitialWorkersTimeOut(desired: int, ids: seq<string>, start: int, w: string, more: seq<Action>, now: int)
    requires GoodStart(desired, ids) && w in Initial(desired, ids, start).work.registry.vals
    requires CanRun(Initial(desired, ids, start), more)
    requires forall b :: b in more && BeatOf(b, w) ==> b.now >= start
    ensures TimedOutWhenSilent(After(Initial(desired, ids, start), more), w, start, Silent(more, w), now)
  {
    hide Enabled, Next, SpawnMany, TimedOutWhenSilent;
    SpawnManyAdds(EmptyDict(), ids, start, w);
    TimeOutFollowsLastBeat(Initial(desired, ids, start), w, more, now);
  }
}
