/** How dispatching to the first available worker balances the load, while nothing else happens. */
module WorkerBalance {
  import opened WorkerRegistries

  /** One dispatch: the first available worker, if there is one, is given a job. */
  function Dispatch(r: Registry): (s: Registry)
    requires r.WellFormed()
    ensures s.WellFormed()
  {
    var workers := AvailableWorkers(r);
    if workers == [] then r else MarkAssigned(r, workers[0])
  }

  /** The registry after `n` dispatches in a row. */
  function DispatchMany(r: Registry, n: nat): (s: Registry)
    requires r.WellFormed()
    ensures s.WellFormed()
  {
    if n == 0 then r else Dispatch(DispatchMany(r, n - 1))
  }

  /** The workers that can be given jobs. */
  ghost function Workers(r: Registry): set<string> { set w | w in r.vals && CanWork(r)(w) }

  /** Those of them that have more than `q` jobs. */
  ghost function Busier(r: Registry, q: nat): set<string> { set w | w in Workers(r) && LoadOf(r, w) > q }

  /** Every worker has `q` jobs, but `c` of them, and not all, have one more. */
  ghost predicate Level(r: Registry, q: nat, c: nat) {
    && r.WellFormed()
    && (forall w :: w in Workers(r) ==> LoadOf(r, w) == q || LoadOf(r, w) == q + 1)
    && |Busier(r, q)| == c < |Workers(r)|
  }

  /** One dispatch gives one more job to a least loaded worker. */
  lemma DispatchChoosesLeast(r: Registry) returns (w: string)
    requires r.WellFormed() && Workers(r) != {}
    ensures w in Workers(r) && forall x :: x in Workers(r) ==> LoadOf(r, w) <= LoadOf(r, x)
    ensures var s := Dispatch(r);
            && Workers(s) == Workers(r)
            && LoadOf(s, w) == LoadOf(r, w) + 1
            && forall x :: x != w ==> LoadOf(s, x) == LoadOf(r, x)
  {
    FirstIsLeastLoaded(r);
    hide AvailableWorkers;
    var x :| x in Workers(r);
    assert CanWork(r)(x);
    w := AvailableWorkers(r)[0];
    var s := MarkAssigned(r, w);
    assert forall x :: x in s.vals <==> x in r.vals;
    assert forall x :: CanWork(s)(x) == CanWork(r)(x);
  }

  lemma NobodyToDispatchTo(r: Registry)
    requires r.WellFormed() && Workers(r) == {}
    ensures Dispatch(r) == r
  {
    FirstIsLeastLoaded(r);
    assert forall w :: CanWork(r)(w) ==> w in Workers(r);
  }

  /** A dispatch among workers that have `q` or `q + 1` jobs, where some have `q`. */
  lemma DispatchRaisesOne(r: Registry, q: nat) returns (w: string)
    requires r.WellFormed()
    requires forall x :: x in Workers(r) ==> LoadOf(r, x) == q || LoadOf(r, x) == q + 1
    requires exists x :: x in Workers(r) && LoadOf(r, x) == q
    ensures w in Workers(r) && w !in Busier(r, q)
    ensures var s := Dispatch(r);
            && Workers(s) == Workers(r)
            && Busier(s, q) == Busier(r, q) + {w}
            && Busier(s, q + 1) == {}
            && forall x :: x in Workers(s) ==> LoadOf(s, x) == q || LoadOf(s, x) == q + 1
  {
    w := DispatchChoosesLeast(r);
    hide Dispatch, CanWork, LoadOf;
    var s := Dispatch(r);
    assert LoadOf(r, w) == q;
  }

  lemma LevelRises(r: Registry, q: nat, c: nat)
    requires Level(r, q, c)
    ensures Workers(Dispatch(r)) == Workers(r)
    ensures if c + 1 < |Workers(r)| then Level(Dispatch(r), q, c + 1) else Level(Dispatch(r), q + 1, 0)
  {
    hide Dispatch, CanWork, LoadOf, Workers;
    var s := Dispatch(r);
    var x := Outsider(Busier(r, q), Workers(r));
    assert LoadOf(r, x) == q;
    var w := DispatchRaisesOne(r, q);
    if c + 1 == |Workers(r)| {
      SameSize(Busier(s, q), Workers(s));
    }
  }

  lemma Outsider(a: set<string>, b: set<string>) returns (x: string)
    requires a <= b && |a| < |b|
    ensures x in b && x !in a
  {
    assert b != a;
    assert b == a + (b - a);
    x :| x in b - a;
  }

  lemma SameSize(a: set<string>, b: set<string>)
    requires a <= b && |a| == |b|
    ensures a == b
  {
    assert b == a + (b - a);
    assert |b - a| == 0;
  }

  lemma DivStep(n: nat, k: nat)
    requires k > 0
    ensures if n % k + 1 < k then (n + 1) / k == n / k && (n + 1) % k == n % k + 1
            else (n + 1) / k == n / k + 1 && (n + 1) % k == 0
  {
    assert n == (n / k) * k + n % k;
    if n % k + 1 < k {
      DivUnique(n + 1, k, n / k, n % k + 1);
    } else {
      assert n + 1 == (n / k + 1) * k;
      DivUnique(n + 1, k, n / k + 1, 0);
    }
  }

  lemma DivUnique(m: nat, k: nat, q: nat, r: nat)
    requires k > 0 && r < k && m == q * k + r
    ensures m / k == q && m % k == r
  {
    var d := m / k - q;
    assert m == (m / k) * k + m % k;
    assert d * k == r - m % k;
    assert d > 0 ==> d * k >= k;
    assert d < 0 ==> d * k <= 0 - k;
  }

  lemma IdleIsLevel(r: Registry)
    requires r.WellFormed() && Workers(r) != {} && forall w :: w in Workers(r) ==> LoadOf(r, w) == 0
    ensures Level(r, 0, 0)
  {
    assert Busier(r, 0) == {};
  }

  /** Greedy balance: from idle, after `n` dispatches to `k` workers every load is n / k rounded down or up,
      and exactly n % k workers have the additional job. */
  lemma {:induction false} GreedyBalance(r: Registry, n: nat, k: nat)
    requires r.WellFormed() && k == |Workers(r)| > 0 && forall w :: w in Workers(r) ==> LoadOf(r, w) == 0
    ensures Workers(DispatchMany(r, n)) == Workers(r)
    ensures Level(DispatchMany(r, n), n / k, n % k)
  {
    hide Level, Workers, Dispatch, LoadOf;
    if n == 0 {
      IdleIsLevel(r);
      DivUnique(0, k, 0, 0);
    } else {
      GreedyBalance(r, n - 1, k);
      LevelRises(DispatchMany(r, n - 1), (n - 1) / k, (n - 1) % k);
      DivStep(n - 1, k);
    }
  }

  /** No two workers differ by more than `d` jobs. */
  ghost predicate SpreadAtMost(r: Registry, d: nat) {
    forall w, x :: w in Workers(r) && x in Workers(r) ==> LoadOf(r, w) <= LoadOf(r, x) + d
  }

  lemma SpreadStep(r: Registry, d: nat)
    requires r.WellFormed() && SpreadAtMost(r, d) && d > 0
    ensures SpreadAtMost(Dispatch(r), d)
  {
    if Workers(r) == {} {
      NobodyToDispatchTo(r);
    } else {
      var w := DispatchChoosesLeast(r);
      hide Dispatch, CanWork, LoadOf;
    }
  }

  /** From any start, dispatching never makes the spread larger than it was, or than one. */
  lemma {:induction false} SpreadNeverGrows(r: Registry, d: nat, n: nat)
    requires r.WellFormed() && SpreadAtMost(r, d)
    ensures SpreadAtMost(DispatchMany(r, n), if d == 0 then 1 else d)
  {
    if n > 0 {
      SpreadNeverGrows(r, d, n - 1);
      SpreadStep(DispatchMany(r, n - 1), if d == 0 then 1 else d);
    }
  }
}
