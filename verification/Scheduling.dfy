/** The scheduler as a step machine. The scheduler is asyncio code, so a step is what one coroutine does
    between two points at which it can be suspended; every interleaving of steps is a run. */
module Scheduling {
  import opened Sequences
  import opened OrderedDicts
  import opened JobQueues
  import opened WorkerRegistries

  const MAX_WORKERS: int := 20
  const HEARTBEAT_TIMEOUT: int := 10

  // ----- The dispatch loop and the runs that it starts -----

  /** Where the dispatch loop stands: between two rounds; waiting for a job, with the workers that were selected
      before the wait; or reporting an assignment before it starts the run. */
  datatype Dispatching = Idle | Waiting(workers: seq<string>) | Reporting(job: string, worker: string)

  /** A started run; a failing one has lowered the load of its worker and has not requeued its job yet. */
  datatype Run = Run(job: string, worker: string, failing: bool)

  /** What the dispatcher works on. */
  datatype Work = Work(queue: Queue, registry: Registry, loop: Dispatching, runs: seq<Run>)

  ghost predicate WellFormed(x: Work) { x.registry.WellFormed() }

  function Select(x: Work): Work {
    var workers := AvailableWorkers(x.registry);
    if workers == [] then x else x.(loop := Waiting(workers))
  }

  /** The job arrives: it goes to the first of the workers selected before the wait, even if that one has died
      since. A worker without a node puts the job back. */
  function Take(x: Work): Work
    requires WellFormed(x)
    requires x.loop.Waiting? && x.loop.workers != [] && x.queue.pending != []
  {
    var id, w := x.queue.pending[0], x.loop.workers[0];
    var q := Dequeue(x.queue);
    if w in x.registry.vals && x.registry.vals[w].hasNode then
      Work(Assign(q, id, w), MarkAssigned(x.registry, w), Reporting(id, w), x.runs)
    else
      x.(queue := Requeue(q, id), loop := Idle)
  }

  function Start(x: Work): Work
    requires x.loop.Reporting?
  {
    x.(loop := Idle, runs := x.runs + [Run(x.loop.job, x.loop.worker, false)])
  }

  function RemoveRun(runs: seq<Run>, i: nat): seq<Run>
    requires i < |runs|
  {
    runs[..i] + runs[i + 1..]
  }

  function Finish(x: Work, i: nat): Work
    requires WellFormed(x) && i < |x.runs|
  {
    var run := x.runs[i];
    x.(queue := Complete(x.queue, run.job), registry := MarkCompleted(x.registry, run.worker), runs := RemoveRun(x.runs, i))
  }

  function FailFirst(x: Work, i: nat): Work
    requires WellFormed(x) && i < |x.runs|
  {
    var run := x.runs[i];
    x.(registry := MarkFailedOrRequeued(x.registry, run.worker), runs := x.runs[i := run.(failing := true)])
  }

  function FailSecond(x: Work, i: nat): Work
    requires i < |x.runs|
  {
    x.(queue := Requeue(x.queue, x.runs[i].job), runs := RemoveRun(x.runs, i))
  }

  // ----- The heartbeat monitor -----

  /** All jobs in flight whose dictionary names the dead worker go back to the pending list. */
  function Orphans(q: Queue, w: string): seq<string> { Keep(q.inFlight, HeldBy(q, w)) }

  function ReclaimJobs(q: Queue, w: string): Queue { RequeueAll(q, Orphans(q, w)) }

  // ----- The service -----

  function IsAlive(r: Registry): string -> bool { w => w in r.vals && r.vals[w].alive }

  function AliveCount(r: Registry): nat { |Keep(r.order, IsAlive(r))| }

  /** Registers a new worker with an unused id, unless as many are alive as are allowed. */
  function SpawnOne(r: Registry, w: string, now: int): (s: Registry)
    requires r.WellFormed()
    ensures s.WellFormed()
  {
    if AliveCount(r) >= MAX_WORKERS then r else Register(r, w, true, now)
  }

  /** As many attempts to spawn as there are ids. */
  function SpawnMany(r: Registry, ids: seq<string>, now: int): (s: Registry)
    requires r.WellFormed()
    ensures s.WellFormed()
    decreases |ids|
  {
    if ids == [] then r else SpawnOne(SpawnMany(r, ids[..|ids| - 1], now), ids[|ids| - 1], now)
  }

  /** How many workers the handling of a death asks for. */
  function Missing(r: Registry, desired: int): nat {
    if AliveCount(r) >= desired then 0 else desired - AliveCount(r)
  }

  /** The handling of a dead worker: nothing when it was handled before; otherwise it is marked as handled, and
      as many workers are spawned as are missing. */
  function Replace(r: Registry, replaced: set<string>, desired: int, dead: string, ids: seq<string>, now: int)
    : (s: (Registry, set<string>))
    requires r.WellFormed() && Missing(r, desired) <= |ids|
    ensures s.0.WellFormed()
  {
    if dead in replaced then (r, replaced)
    else (SpawnMany(r, ids[..Missing(r, desired)], now), replaced + {dead})
  }

  /** The scale request: HTTP 400 (None) when no slot is free, otherwise the new registry. */
  function Scale(r: Registry, count: nat, ids: seq<string>, now: int): (s: Option<Registry>)
    requires r.WellFormed() && count <= |ids|
    ensures s.Some? ==> s.value.WellFormed()
  {
    var slots := MAX_WORKERS - AliveCount(r);
    if slots <= 0 then None
    else Some(SpawnMany(r, ids[..if count < slots then count else slots], now))
  }

  // ----- The machine -----

  /** What has happened so far, which the code does not record: all jobs in the order in which they were
      appended to the pending list and taken from it; how often each was reclaimed and finished; how many jobs
      were given to each worker, and how many runs completed and failed on it; and how many workers died and
      were spawned as replacements. */
  datatype History = History(
    appended: seq<string>, dequeued: seq<string>, reclaims: multiset<string>, finishes: multiset<string>,
    given: multiset<string>, completed: multiset<string>, failures: multiset<string>, deaths: nat, replacements: int)

  datatype State = State(work: Work, desired: int, replaced: set<string>, history: History)

  datatype Action =
    | DoEnqueue(job: string)
    | DoSelect
    | DoTake
    | DoStart
    | DoFinish(run: nat)
    | DoFailFirst(run: nat)
    | DoFailSecond(run: nat)
    | DoHeartbeat(worker: string, now: int)
    | DoTimeOut(worker: string, now: int)
    | DoKill(worker: string)
    | DoReclaim(worker: string)
    | DoHandle(worker: string, ids: seq<string>, now: int)
    | DoScale(count: nat, ids: seq<string>, now: int)

  /** Ids of new workers: they were never used before. */
  ghost predicate Fresh(ids: seq<string>, r: Registry) {
    Distinct(ids) && forall w :: w in ids ==> w !in r.vals
  }

  ghost predicate Dead(r: Registry, w: string) { w in r.vals && !r.vals[w].alive }

  ghost predicate Enabled(s: State, a: Action) {
    var x := s.work;
    WellFormed(x) &&
    match a
    case DoEnqueue(job) => job !in x.queue.jobs
    case DoSelect => x.loop.Idle?
    case DoTake => x.loop.Waiting? && x.loop.workers != [] && x.queue.pending != []
    case DoStart => x.loop.Reporting?
    case DoFinish(i) => i < |x.runs| && !x.runs[i].failing
    case DoFailFirst(i) => i < |x.runs| && !x.runs[i].failing
    case DoFailSecond(i) => i < |x.runs| && x.runs[i].failing
    case DoHeartbeat(_, _) => true
    case DoTimeOut(w, now) =>
      w in x.registry.vals && x.registry.vals[w].alive && now - x.registry.vals[w].lastHeartbeat > HEARTBEAT_TIMEOUT
    case DoKill(w) => w in x.registry.vals && x.registry.vals[w].alive
    case DoReclaim(w) => Dead(x.registry, w)
    case DoHandle(w, ids, _) =>
      Dead(x.registry, w) && Fresh(ids, x.registry) && Missing(x.registry, s.desired) <= |ids|
    case DoScale(count, ids, _) =>
      1 <= count <= MAX_WORKERS && Fresh(ids, x.registry) && count <= |ids|
  }

  function Next(s: State, a: Action): State
    requires Enabled(s, a)
  {
    var x, h := s.work, s.history;
    match a
    case DoEnqueue(job) => s.(work := x.(queue := Enqueue(x.queue, job)), history := h.(appended := h.appended + [job]))
    case DoSelect => s.(work := Select(x))
    case DoTake =>
      var y, job := Take(x), x.queue.pending[0];
      s.(work := y, history := h.(
        dequeued := h.dequeued + [job],
        given := if y.loop.Reporting? then h.given + multiset{y.loop.worker} else h.given,
        appended := if y.loop.Reporting? then h.appended else h.appended + [job]))
    case DoStart => s.(work := Start(x))
    case DoFinish(i) =>
      s.(work := Finish(x, i), history := h.(
        finishes := h.finishes + multiset{x.runs[i].job},
        completed := h.completed + multiset{x.runs[i].worker}))
    case DoFailFirst(i) => s.(work := FailFirst(x, i), history := h.(failures := h.failures + multiset{x.runs[i].worker}))
    case DoFailSecond(i) => s.(work := FailSecond(x, i), history := h.(appended := h.appended + [x.runs[i].job]))
    case DoHeartbeat(w, now) => s.(work := x.(registry := Heartbeat(x.registry, w, now)))
    case DoTimeOut(w, _) => s.(work := x.(registry := MarkDead(x.registry, w)), history := h.(deaths := h.deaths + 1))
    case DoKill(w) => s.(work := x.(registry := MarkDead(x.registry, w)), history := h.(deaths := h.deaths + 1))
    case DoReclaim(w) =>
      var jobs := Orphans(x.queue, w);
      s.(work := x.(queue := ReclaimJobs(x.queue, w)),
         history := h.(appended := h.appended + jobs, reclaims := h.reclaims + multiset(jobs)))
    case DoHandle(w, ids, now) =>
      var (registry, replaced) := Replace(x.registry, s.replaced, s.desired, w, ids, now);
      s.(work := x.(registry := registry), replaced := replaced,
         history := h.(replacements := h.replacements + |registry.order| - |x.registry.order|))
    case DoScale(count, ids, now) =>
      var scaled := Scale(x.registry, count, ids, now);
      if scaled.None? then s else s.(work := x.(registry := scaled.value))
  }

  /** The service right after its start, with the initial workers. */
  function Initial(desired: int, ids: seq<string>, now: int): State {
    State(Work(EmptyQueue(), SpawnMany(EmptyDict(), ids, now), Idle, []), desired, {},
          History([], [], multiset{}, multiset{}, multiset{}, multiset{}, multiset{}, 0, 0))
  }

  /** The states that actions lead through, from the last to the first action. */
  ghost predicate CanRun(s: State, actions: seq<Action>)
    decreases |actions|, 0
  {
    actions == [] ||
    (CanRun(s, actions[..|actions| - 1]) && Enabled(After(s, actions[..|actions| - 1]), actions[|actions| - 1]))
  }

  ghost function After(s: State, actions: seq<Action>): State
    requires CanRun(s, actions)
    decreases |actions|, 1
  {
    if actions == [] then s
    else Next(After(s, actions[..|actions| - 1]), actions[|actions| - 1])
  }

  /** A start of the service: as many unused ids as workers are wanted. */
  ghost predicate GoodStart(desired: int, ids: seq<string>) {
    Distinct(ids) && |ids| == if desired < 0 then 0 else desired
  }

  /** The states that some run from some start ends in. */
  ghost predicate Reachable(s: State) {
    exists desired: int, ids: seq<string>, now: int, actions: seq<Action> ::
      && GoodStart(desired, ids)
      && CanRun(Initial(desired, ids, now), actions)
      && s == After(Initial(desired, ids, now), actions)
  }

  lemma RunTo(s: State) returns (desired: int, ids: seq<string>, now: int, actions: seq<Action>)
    requires Reachable(s)
    ensures GoodStart(desired, ids) && CanRun(Initial(desired, ids, now), actions)
    ensures s == After(Initial(desired, ids, now), actions)
  {
    hide Enabled, Next, Initial, GoodStart;
    desired, ids, now, actions :|
      && GoodStart(desired, ids)
      && CanRun(Initial(desired, ids, now), actions)
      && s == After(Initial(desired, ids, now), actions);
  }

  lemma {:induction false} WellFormedAlongRun(s: State, actions: seq<Action>)
    requires CanRun(s, actions) && WellFormed(s.work)
    ensures WellFormed(After(s, actions).work)
    decreases |actions|
  {
    hide Keep, AvailableWorkers, RequeueAll, AliveCount;
    if actions != [] {
      WellFormedAlongRun(s, actions[..|actions| - 1]);
    }
  }

  /** The registry of a reachable state is a dictionary, so this part of the guards never blocks an action. */
  lemma ReachableIsWellFormed(s: State)
    requires Reachable(s)
    ensures WellFormed(s.work)
  {
    hide Enabled, Next;
    var desired, ids, now, actions := RunTo(s);
    WellFormedAlongRun(Initial(desired, ids, now), actions);
  }

  lemma Extend(s: State, actions: seq<Action>, a: Action)
    requires CanRun(s, actions) && Enabled(After(s, actions), a)
    ensures CanRun(s, actions + [a]) && After(s, actions + [a]) == Next(After(s, actions), a)
  {
    hide Enabled, Next;
    assert (actions + [a])[..|actions + [a]| - 1] == actions;
  }

  lemma ReachableStep(s: State, a: Action)
    requires Reachable(s) && Enabled(s, a)
    ensures Reachable(Next(s, a))
  {
    hide Enabled, Next, Initial, GoodStart;
    var desired, ids, now, actions := RunTo(s);
    Extend(Initial(desired, ids, now), actions, a);
    assert Next(s, a) == After(Initial(desired, ids, now), actions + [a]);
  }

  lemma ReachableStart(desired: int, ids: seq<string>, now: int)
    requires GoodStart(desired, ids)
    ensures Reachable(Initial(desired, ids, now))
  {
    hide Enabled, Next, Initial, GoodStart;
    assert CanRun(Initial(desired, ids, now), []) && After(Initial(desired, ids, now), []) == Initial(desired, ids, now);
  }
}
