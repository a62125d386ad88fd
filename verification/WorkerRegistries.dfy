/** The registry of workers: an insertion-ordered dictionary of records that every mark updates. */
module WorkerRegistries {
  import opened Sequences
  import opened OrderedDicts

  datatype Info = Info(
    lastHeartbeat: int, alive: bool, load: nat,
    jobsAssigned: nat, jobsCompleted: nat, eventsAssigned: nat, eventsCompleted: nat,
    hasNode: bool)

  type Registry = Dict<Info>

  // ----- The marks, as functions on the registry -----

  /** Registers a worker; one that is registered again keeps its counters and is alive again. */
  function Register(r: Registry, w: string, hasNode: bool, now: int): (s: Registry)
    requires r.WellFormed()
    ensures s.WellFormed()
  {
    r.Set(w,
      if w in r.vals then r.vals[w].(lastHeartbeat := now, alive := true, hasNode := hasNode)
      else Info(now, true, 0, 0, 0, 0, 0, hasNode))
  }

  /** Changes the record of a registered worker, and nothing else. */
  function Update(r: Registry, w: string, info: Info): (s: Registry)
    requires r.WellFormed()
    ensures s.WellFormed()
  {
    if w in r.vals then r.Set(w, info) else r
  }

  function Heartbeat(r: Registry, w: string, now: int): (s: Registry)
    requires r.WellFormed()
    ensures s.WellFormed()
  {
    if w in r.vals then Update(r, w, r.vals[w].(lastHeartbeat := now)) else r
  }

  function UpdateLoad(r: Registry, w: string, load: int): (s: Registry)
    requires r.WellFormed()
    ensures s.WellFormed()
  {
    if w in r.vals then Update(r, w, r.vals[w].(load := if load < 0 then 0 else load)) else r
  }

  function MarkAssigned(r: Registry, w: string): (s: Registry)
    requires r.WellFormed()
    ensures s.WellFormed()
  {
    if w in r.vals then
      var i := r.vals[w];
      Update(r, w, i.(load := i.load + 1, jobsAssigned := i.jobsAssigned + 1, eventsAssigned := i.eventsAssigned + 1))
    else r
  }

  /** max(0, load - 1) */
  function Lowered(load: nat): nat { if load == 0 then 0 else load - 1 }

  function MarkCompleted(r: Registry, w: string): (s: Registry)
    requires r.WellFormed()
    ensures s.WellFormed()
  {
    if w in r.vals then
      var i := r.vals[w];
      Update(r, w, i.(load := Lowered(i.load), jobsCompleted := i.jobsCompleted + 1, eventsCompleted := i.eventsCompleted + 1))
    else r
  }

  function MarkFailedOrRequeued(r: Registry, w: string): (s: Registry)
    requires r.WellFormed()
    ensures s.WellFormed()
  {
    if w in r.vals then Update(r, w, r.vals[w].(load := Lowered(r.vals[w].load))) else r
  }

  function MarkDead(r: Registry, w: string): (s: Registry)
    requires r.WellFormed()
    ensures s.WellFormed()
  {
    if w in r.vals then Update(r, w, r.vals[w].(alive := false, load := 0)) else r
  }

  // ----- Selection -----

  function CanWork(r: Registry): string -> bool {
    w => w in r.vals && r.vals[w].alive && r.vals[w].hasNode
  }

  function LoadOf(r: Registry, w: string): nat { if w in r.vals then r.vals[w].load else 0 }

  /** Puts `w` in front of the first worker that does not have a smaller load. */
  function InsertByLoad(r: Registry, s: seq<string>, w: string): seq<string> {
    if s == [] || LoadOf(r, w) <= LoadOf(r, s[0]) then [w] + s
    else [s[0]] + InsertByLoad(r, s[1..], w)
  }

  /** list.sort(key=load), which is stable */
  function SortByLoad(r: Registry, s: seq<string>): seq<string> {
    if s == [] then [] else InsertByLoad(r, SortByLoad(r, s[1..]), s[0])
  }

  /** The alive workers that have a node, by increasing load. */
  function AvailableWorkers(r: Registry): seq<string> {
    SortByLoad(r, Keep(r.order, CanWork(r)))
  }

  ghost predicate SortedByLoad(r: Registry, s: seq<string>) {
    forall i, j :: 0 <= i < j < |s| ==> LoadOf(r, s[i]) <= LoadOf(r, s[j])
  }

  function HasLoad(r: Registry, load: nat): string -> bool { w => LoadOf(r, w) == load }

  lemma {:induction false} InsertByLoadSorts(r: Registry, s: seq<string>, w: string)
    requires SortedByLoad(r, s)
    ensures SortedByLoad(r, InsertByLoad(r, s, w))
    ensures forall x :: x in InsertByLoad(r, s, w) <==> x in s || x == w
    ensures |InsertByLoad(r, s, w)| == |s| + 1
  {
    if !(s == [] || LoadOf(r, w) <= LoadOf(r, s[0])) {
      InsertByLoadSorts(r, s[1..], w);
      var rest := InsertByLoad(r, s[1..], w);
      assert s == [s[0]] + s[1..];
      forall i | 0 <= i < |rest| ensures LoadOf(r, s[0]) <= LoadOf(r, rest[i]) {
        assert rest[i] in rest;
      }
    }
  }

  /** The insertion goes in front of the workers with the same load, and leaves the order of the others. */
  lemma {:induction false} InsertByLoadStable(r: Registry, s: seq<string>, w: string, load: nat)
    requires SortedByLoad(r, s)
    ensures Keep(InsertByLoad(r, s, w), HasLoad(r, load))
         == (if LoadOf(r, w) == load then [w] else []) + Keep(s, HasLoad(r, load))
  {
    if !(s == [] || LoadOf(r, w) <= LoadOf(r, s[0])) {
      InsertByLoadStable(r, s[1..], w, load);
    }
  }

  lemma {:induction false} SortByLoadSorts(r: Registry, s: seq<string>)
    ensures SortedByLoad(r, SortByLoad(r, s))
    ensures forall x :: x in SortByLoad(r, s) <==> x in s
    ensures |SortByLoad(r, s)| == |s|
  {
    if s != [] {
      SortByLoadSorts(r, s[1..]);
      InsertByLoadSorts(r, SortByLoad(r, s[1..]), s[0]);
      assert s == [s[0]] + s[1..];
    }
  }

  lemma {:induction false} SortByLoadStable(r: Registry, s: seq<string>, load: nat)
    ensures Keep(SortByLoad(r, s), HasLoad(r, load)) == Keep(s, HasLoad(r, load))
  {
    if s != [] {
      SortByLoadStable(r, s[1..], load);
      SortByLoadSorts(r, s[1..]);
      InsertByLoadStable(r, SortByLoad(r, s[1..]), s[0], load);
    }
  }

  /** The selection: exactly the workers that can work, by increasing load, and those with the same load in
      the order in which they registered. */
  lemma AvailableWorkersSpec(r: Registry)
    requires r.WellFormed()
    ensures var s := AvailableWorkers(r);
            && SortedByLoad(r, s)
            && (forall w :: w in s <==> CanWork(r)(w))
            && forall load: nat :: Keep(s, HasLoad(r, load)) == Keep(Keep(r.order, CanWork(r)), HasLoad(r, load))
  {
    var alive := Keep(r.order, CanWork(r));
    KeepMembers(r.order, CanWork(r));
    SortByLoadSorts(r, alive);
    forall load: nat ensures Keep(SortByLoad(r, alive), HasLoad(r, load)) == Keep(alive, HasLoad(r, load)) {
      SortByLoadStable(r, alive, load);
    }
  }

  /** The worker that the dispatcher takes: it can work, and none that can has a smaller load. */
  lemma FirstIsLeastLoaded(r: Registry)
    requires r.WellFormed()
    ensures var s := AvailableWorkers(r);
            if s == [] then forall w :: !CanWork(r)(w)
            else CanWork(r)(s[0]) && forall w :: CanWork(r)(w) ==> LoadOf(r, s[0]) <= LoadOf(r, w)
  {
    AvailableWorkersSpec(r);
    var s := AvailableWorkers(r);
    if s != [] {
      assert s[0] in s;
    }
  }

  // ----- The class -----

  /** At most the record of `w` differs, and no worker comes, goes or moves. */
  ghost predicate OnlyChanges(r: Registry, s: Registry, w: string) {
    && s.order == r.order && s.vals.Keys == r.vals.Keys
    && forall x :: x in r.vals && x != w ==> s.vals[x] == r.vals[x]
  }

  class WorkerRegistry {
    var workers: Registry

    ghost predicate Valid()
      reads this
    {
      workers.WellFormed()
    }

    constructor ()
      ensures Valid() && workers == EmptyDict()
    {
      workers := EmptyDict();
    }

    method RegisterWorker(w: string, hasNode: bool, now: int)
      requires Valid()
      modifies this
      ensures Valid() && workers == Register(old(workers), w, hasNode, now)
      ensures w in workers.vals && workers.vals[w].alive && workers.vals[w].lastHeartbeat == now
      ensures w in old(workers).vals ==>
        && OnlyChanges(old(workers), workers, w)
        && workers.vals[w] == old(workers).vals[w].(lastHeartbeat := now, alive := true, hasNode := hasNode)
      ensures w !in old(workers).vals ==>
        && workers.order == old(workers).order + [w]
        && workers.vals == old(workers).vals[w := Info(now, true, 0, 0, 0, 0, 0, hasNode)]
    {
      var load, given, finished := 0, 0, 0;
      var eventsAssigned, eventsCompleted := 0, 0;
      if w in workers.vals {
        var previous := workers.vals[w];
        load, given, finished := previous.load, previous.jobsAssigned, previous.jobsCompleted;
        eventsAssigned, eventsCompleted := previous.eventsAssigned, previous.eventsCompleted;
      }
      workers := workers.Set(w, Info(now, true, load, given, finished, eventsAssigned, eventsCompleted, hasNode));
    }

    method Beat(w: string, now: int)
      requires Valid()
      modifies this
      ensures Valid() && workers == Heartbeat(old(workers), w, now)
      ensures OnlyChanges(old(workers), workers, w)
      ensures w in workers.vals ==> workers.vals[w] == old(workers).vals[w].(lastHeartbeat := now)
    {
      if w in workers.vals {
        workers := workers.Set(w, workers.vals[w].(lastHeartbeat := now));
      }
    }

    method SetLoad(w: string, load: int)
      requires Valid()
      modifies this
      ensures Valid() && workers == UpdateLoad(old(workers), w, load)
      ensures OnlyChanges(old(workers), workers, w)
      ensures w in workers.vals ==>
        workers.vals[w] == old(workers).vals[w].(load := if load >= 0 then load else 0)
    {
      if w in workers.vals {
        workers := workers.Set(w, workers.vals[w].(load := if load < 0 then 0 else load));
      }
    }

    method Assigned(w: string)
      requires Valid()
      modifies this
      ensures Valid() && workers == MarkAssigned(old(workers), w)
      ensures OnlyChanges(old(workers), workers, w)
      ensures w in workers.vals ==>
        var i, j := old(workers).vals[w], workers.vals[w];
        && j.load == i.load + 1 && j.jobsAssigned == i.jobsAssigned + 1 && j.eventsAssigned == i.eventsAssigned + 1
        && j == i.(load := j.load, jobsAssigned := j.jobsAssigned, eventsAssigned := j.eventsAssigned)
    {
      if w in workers.vals {
        var info := workers.vals[w];
        info := info.(load := info.load + 1);
        info := info.(jobsAssigned := info.jobsAssigned + 1);
        info := info.(eventsAssigned := info.eventsAssigned + 1);
        workers := workers.Set(w, info);
      }
    }

    method Completed(w: string)
      requires Valid()
      modifies this
      ensures Valid() && workers == MarkCompleted(old(workers), w)
      ensures OnlyChanges(old(workers), workers, w)
      ensures w in workers.vals ==>
        var i, j := old(workers).vals[w], workers.vals[w];
        && (if i.load == 0 then j.load == 0 else j.load == i.load - 1)
        && j.jobsCompleted == i.jobsCompleted + 1 && j.eventsCompleted == i.eventsCompleted + 1
        && j == i.(load := j.load, jobsCompleted := j.jobsCompleted, eventsCompleted := j.eventsCompleted)
    {
      if w in workers.vals {
        var info := workers.vals[w];
        info := info.(load := Lowered(info.load));
        info := info.(jobsCompleted := info.jobsCompleted + 1);
        info := info.(eventsCompleted := info.eventsCompleted + 1);
        workers := workers.Set(w, info);
      }
    }

    method FailedOrRequeued(w: string)
      requires Valid()
      modifies this
      ensures Valid() && workers == MarkFailedOrRequeued(old(workers), w)
      ensures OnlyChanges(old(workers), workers, w)
      ensures w in workers.vals ==>
        var i, j := old(workers).vals[w], workers.vals[w];
        && (if i.load == 0 then j.load == 0 else j.load == i.load - 1)
        && j == i.(load := j.load)
    {
      if w in workers.vals {
        workers := workers.Set(w, workers.vals[w].(load := Lowered(workers.vals[w].load)));
      }
    }

    method Dead(w: string)
      requires Valid()
      modifies this
      ensures Valid() && workers == MarkDead(old(workers), w)
      ensures OnlyChanges(old(workers), workers, w)
      ensures w in workers.vals ==> workers.vals[w] == old(workers).vals[w].(alive := false, load := 0)
    {
      if w in workers.vals {
        var info := workers.vals[w];
        info := info.(alive := false);
        info := info.(load := 0);
        workers := workers.Set(w, info);
      }
    }

    method Available() returns (ids: seq<string>)
      requires Valid()
      ensures ids == AvailableWorkers(workers)
      ensures SortedByLoad(workers, ids)
      ensures forall w :: w in ids <==> w in workers.vals && workers.vals[w].alive && workers.vals[w].hasNode
    {
      var alive: seq<string> := [];
      for i := 0 to |workers.order|
        invariant alive == Keep(workers.order[..i], CanWork(workers))
      {
        var w := workers.order[i];
        assert workers.order[..i + 1] == workers.order[..i] + [w];
        KeepConcat(workers.order[..i], [w], CanWork(workers));
        if workers.vals[w].alive && workers.vals[w].hasNode {
          alive := alive + [w];
        }
      }
      assert workers.order[..|workers.order|] == workers.order;
      AvailableWorkersSpec(workers);
      ids := SortByLoad(workers, alive);
    }
  }
}
