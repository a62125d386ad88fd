/** The start-up reclaim of the Redis job queue: crashed at any point, any number of times, it loses no job. */
module RedisReclaims {
  import opened Sequences

  datatype Job = Job(id: string, status: string, worker: Option<string>)

  /** The Redis list of pending jobs and the Redis hash of jobs in flight. */
  datatype Store = Store(pending: seq<Job>, inFlight: map<string, Job>)

  /** A job as it is put back: pending, and without a worker. */
  function Reset(job: Job): Job { job.(status := "pending", worker := None) }

  function Push(s: Store, job: Job): Store { s.(pending := s.pending + [Reset(job)]) }

  function Drop(s: Store, id: string): Store { s.(inFlight := s.inFlight - {id}) }

  /** `order` lists the keys of the hash, as HGETALL may return them. */
  ghost predicate Lists(order: seq<string>, hash: map<string, Job>) {
    Distinct(order) && forall id :: id in order <==> id in hash
  }

  /** The store after the first `n` jobs of `order` were pushed to the list and dropped from the hash. */
  ghost function Moved(s: Store, order: seq<string>, n: nat): (r: Store)
    requires Lists(order, s.inFlight) && n <= |order|
  {
    if n == 0 then s
    else
      assert order[n - 1] in order;
      Drop(Push(Moved(s, order, n - 1), s.inFlight[order[n - 1]]), order[n - 1])
  }

  /** A run of the reclaim that crashed after moving `moved` jobs; with `half`, it had also pushed the next
      job, which it had not dropped yet. */
  datatype Crash = Crash(order: seq<string>, moved: nat, half: bool)

  ghost predicate Possible(s: Store, c: Crash) {
    Lists(c.order, s.inFlight) && if c.half then c.moved < |c.order| else c.moved <= |c.order|
  }

  ghost function AfterCrash(s: Store, c: Crash): Store
    requires Possible(s, c)
  {
    var r := Moved(s, c.order, c.moved);
    if c.half then
      assert c.order[c.moved] in c.order;
      Push(r, s.inFlight[c.order[c.moved]])
    else r
  }

  lemma MoveOne(s: Store, order: seq<string>, n: nat)
    requires Lists(order, s.inFlight) && n < |order|
    ensures order[n] in s.inFlight
    ensures Moved(s, order, n + 1).pending
         == Moved(s, order, n).pending + [Job(s.inFlight[order[n]].id, "pending", None)]
  {
    assert order[n] in order;
  }

  lemma {:induction false} MovedLength(s: Store, order: seq<string>, n: nat)
    requires Lists(order, s.inFlight) && n <= |order|
    ensures |Moved(s, order, n).pending| == |s.pending| + n
  {
    if n > 0 {
      MovedLength(s, order, n - 1);
      MoveOne(s, order, n - 1);
    }
  }

  /** The jobs that a reclaim moves go to the end of the list, in order, pending and without a worker. */
  lemma {:induction false} MovedEntry(s: Store, order: seq<string>, n: nat, i: nat)
    requires Lists(order, s.inFlight) && i < n <= |order|
    ensures |Moved(s, order, n).pending| == |s.pending| + n
    ensures order[i] in s.inFlight
    ensures Moved(s, order, n).pending[|s.pending| + i] == Job(s.inFlight[order[i]].id, "pending", None)
  {
    hide Moved;
    MovedLength(s, order, n - 1);
    MovedLength(s, order, n);
    MoveOne(s, order, n - 1);
    if i < n - 1 {
      MovedEntry(s, order, n - 1, i);
    }
  }

  /** The entries that a complete reclaim leaves. */
  lemma MovedEntries(s: Store, order: seq<string>)
    requires Lists(order, s.inFlight)
    ensures var r := Moved(s, order, |order|);
            && r.inFlight == map[] && |r.pending| == |s.pending| + |order|
            && forall i :: 0 <= i < |order| ==>
                 order[i] in s.inFlight && r.pending[|s.pending| + i] == Job(s.inFlight[order[i]].id, "pending", None)
  {
    MovedLength(s, order, |order|);
    MovedHash(s, order, |order|);
    assert order[..|order|] == order;
    hide Moved;
    forall i | 0 <= i < |order|
      ensures order[i] in s.inFlight
      ensures Moved(s, order, |order|).pending[|s.pending| + i] == Job(s.inFlight[order[i]].id, "pending", None)
    {
      MovedEntry(s, order, |order|, i);
    }
    assert Moved(s, order, |order|).inFlight == map[];
  }

  class RedisJobQueue {
    var pending: seq<Job>
    var inFlight: map<string, Job>

    function State(): Store
      reads this
    {
      Store(pending, inFlight)
    }

    constructor (store: Store)
      ensures State() == store
    {
      pending, inFlight := store.pending, store.inFlight;
    }

    /** Runs to its end, or crashes where `crash` says. */
    method ReclaimInFlight(order: seq<string>, crash: Option<Crash>)
      requires Lists(order, inFlight)
      requires crash.Some? ==> Possible(State(), crash.value) && crash.value.order == order
      modifies this
      ensures State() == match crash
        case Some(c) => AfterCrash(old(State()), c)
        case None => Moved(old(State()), order, |order|)
      ensures crash == None ==>
        && inFlight == map[] && |pending| == |old(pending)| + |order|
        && forall i :: 0 <= i < |order| ==>
             order[i] in old(inFlight) && pending[|old(pending)| + i] == Job(old(inFlight)[order[i]].id, "pending", None)
    {
      MovedEntries(State(), order);
      var jobs := inFlight;
      for i := 0 to |order|
        invariant crash.Some? ==> i <= crash.value.moved
        invariant State() == Moved(old(State()), order, i)
      {
        assert order[i] in order;
        if crash.Some? && i == crash.value.moved && !crash.value.half {
          return;
        }
        pending := pending + [Reset(jobs[order[i]])];
        if crash.Some? && i == crash.value.moved {
          return;
        }
        inFlight := inFlight - {order[i]};
      }
    }
  }

  // ----- What a reclaim keeps, crashed or not -----

  /** Nothing that was pending moved, every job in flight is still in flight or was appended, nothing else was
      appended, and there are `extra` copies more than jobs. */
  ghost predicate Carries(s: Store, t: Store, extra: nat) {
    && s.pending <= t.pending
    && (forall id :: id in t.inFlight ==> id in s.inFlight && t.inFlight[id] == s.inFlight[id])
    && (forall id :: id in s.inFlight ==> id in t.inFlight || Reset(s.inFlight[id]) in t.pending[|s.pending|..])
    && (forall j :: j in t.pending[|s.pending|..] ==> exists id :: id in s.inFlight && Reset(s.inFlight[id]) == j)
    && |t.pending| - |s.pending| + |t.inFlight| == |s.inFlight| + extra
  }

  lemma CarriesItself(s: Store)
    ensures Carries(s, s, 0)
  {
    assert s.pending[|s.pending|..] == [];
  }

  lemma CarriesCompose(s: Store, t: Store, u: Store, e: nat, f: nat)
    requires Carries(s, t, e) && Carries(t, u, f)
    ensures Carries(s, u, e + f)
  {
    var first, second := t.pending[|s.pending|..], u.pending[|t.pending|..];
    assert u.pending[|s.pending|..] == first + second;
  }

  lemma {:induction false} MovedHash(s: Store, order: seq<string>, n: nat)
    requires Lists(order, s.inFlight) && n <= |order|
    ensures var r := Moved(s, order, n);
            && (forall id :: id in r.inFlight <==> id in s.inFlight && id !in order[..n])
            && (forall id :: id in r.inFlight ==> r.inFlight[id] == s.inFlight[id])
    decreases n
  {
    if n > 0 {
      MovedHash(s, order, n - 1);
      assert order[..n] == order[..n - 1] + [order[n - 1]];
    }
  }

  lemma {:induction false} MovedCarries(s: Store, order: seq<string>, n: nat)
    requires Lists(order, s.inFlight) && n <= |order|
    ensures Carries(s, Moved(s, order, n), 0)
    decreases n
  {
    hide Carries;
    if n == 0 {
      CarriesItself(s);
    } else {
      var r, id := Moved(s, order, n - 1), order[n - 1];
      MovedCarries(s, order, n - 1);
      MovedHash(s, order, n - 1);
      assert id in order && id !in order[..n - 1];
      MoveCarries(r, id);
      CarriesCompose(s, r, Drop(Push(r, r.inFlight[id]), id), 0, 0);
    }
  }

  lemma MoveCarries(s: Store, id: string)
    requires id in s.inFlight
    ensures Carries(s, Drop(Push(s, s.inFlight[id]), id), 0)
  {
    var t := Drop(Push(s, s.inFlight[id]), id);
    assert t.pending[|s.pending|..] == [Reset(s.inFlight[id])];
    assert t.inFlight.Keys == s.inFlight.Keys - {id};
    assert |t.inFlight| == |t.inFlight.Keys| && |s.inFlight| == |s.inFlight.Keys|;
  }

  lemma PushCarries(s: Store, id: string)
    requires id in s.inFlight
    ensures Carries(s, Push(s, s.inFlight[id]), 1)
  {
    assert Push(s, s.inFlight[id]).pending[|s.pending|..] == [Reset(s.inFlight[id])];
  }

  lemma CrashCarries(s: Store, c: Crash)
    requires Possible(s, c)
    ensures Carries(s, AfterCrash(s, c), if c.half then 1 else 0)
  {
    MovedCarries(s, c.order, c.moved);
    MovedHash(s, c.order, c.moved);
    if c.half {
      var id := c.order[c.moved];
      assert id in c.order && id !in c.order[..c.moved];
      var r := Moved(s, c.order, c.moved);
      PushCarries(r, id);
      CarriesCompose(s, r, AfterCrash(s, c), 0, 1);
    }
  }

  ghost predicate AllPossible(s: Store, crashes: seq<Crash>)
    decreases |crashes|
  {
    crashes == [] || (Possible(s, crashes[0]) && AllPossible(AfterCrash(s, crashes[0]), crashes[1..]))
  }

  ghost function AfterCrashes(s: Store, crashes: seq<Crash>): Store
    requires AllPossible(s, crashes)
    decreases |crashes|
  {
    if crashes == [] then s else AfterCrashes(AfterCrash(s, crashes[0]), crashes[1..])
  }

  /** How many of the crashes fell between a push and its drop. */
  ghost function Halves(crashes: seq<Crash>): (n: nat)
    ensures n <= |crashes|
  {
    if crashes == [] then 0 else (if crashes[0].half then 1 else 0) + Halves(crashes[1..])
  }

  lemma {:induction false} CrashesCarry(s: Store, crashes: seq<Crash>)
    requires AllPossible(s, crashes)
    ensures Carries(s, AfterCrashes(s, crashes), Halves(crashes))
    decreases |crashes|
  {
    if crashes == [] {
      CarriesItself(s);
    } else {
      CrashCarries(s, crashes[0]);
      CrashesCarry(AfterCrash(s, crashes[0]), crashes[1..]);
      CarriesCompose(s, AfterCrash(s, crashes[0]), AfterCrashes(s, crashes),
        if crashes[0].half then 1 else 0, Halves(crashes[1..]));
    }
  }

  /** Crash-safe reclaim: after any crashes and one run to the end, nothing is in flight, the old pending list
      is a prefix of the new one, every job that was in flight has been appended and nothing else, and the
      extra copies are exactly as many as there were crashes between a push and its drop. */
  lemma CrashSafeReclaim(s: Store, crashes: seq<Crash>, order: seq<string>)
    requires AllPossible(s, crashes) && Lists(order, AfterCrashes(s, crashes).inFlight)
    ensures var f := Moved(AfterCrashes(s, crashes), order, |order|);
            && f.inFlight == map[]
            && s.pending <= f.pending
            && (forall id :: id in s.inFlight ==> Reset(s.inFlight[id]) in f.pending[|s.pending|..])
            && (forall j :: j in f.pending[|s.pending|..] ==> exists id :: id in s.inFlight && Reset(s.inFlight[id]) == j)
            && |f.pending| == |s.pending| + |s.inFlight| + Halves(crashes)
            && Halves(crashes) <= |crashes|
  {
    var t := AfterCrashes(s, crashes);
    CrashesCarry(s, crashes);
    MovedCarries(t, order, |order|);
    MovedHash(t, order, |order|);
    assert order[..|order|] == order;
    var f := Moved(t, order, |order|);
    CarriesCompose(s, t, f, Halves(crashes), 0);
    assert f.inFlight == map[];
  }

  /** The jobs that the crashes and the complete run have appended: each job that was in flight is there under its
      own id, pending and without a worker, and every appended job is one of these. */
  lemma ReclaimedJobsArePending(s: Store, crashes: seq<Crash>, order: seq<string>)
    requires AllPossible(s, crashes) && Lists(order, AfterCrashes(s, crashes).inFlight)
    ensures var f := Moved(AfterCrashes(s, crashes), order, |order|);
            && s.pending <= f.pending
            && (forall id :: id in s.inFlight ==> Job(s.inFlight[id].id, "pending", None) in f.pending[|s.pending|..])
            && (forall j :: j in f.pending[|s.pending|..] ==>
                  && j.status == "pending" && j.worker == None
                  && exists id :: id in s.inFlight && s.inFlight[id].id == j.id)
  {
    hide Moved, AfterCrashes;
    CrashSafeReclaim(s, crashes, order);
    var f := Moved(AfterCrashes(s, crashes), order, |order|);
    forall id | id in s.inFlight ensures Job(s.inFlight[id].id, "pending", None) in f.pending[|s.pending|..] {
      assert Reset(s.inFlight[id]) == Job(s.inFlight[id].id, "pending", None);
    }
  }
}
