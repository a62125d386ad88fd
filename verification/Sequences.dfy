/** Option values and the few facts about filtered sequences that the other modules share. */
module Sequences {

  datatype Option<+T> = None | Some(value: T)

  ghost predicate Distinct<T>(s: seq<T>) {
    forall i, j :: 0 <= i < j < |s| ==> s[i] != s[j]
  }

  /** The elements of `s` that satisfy `p`, in their order in `s`. */
  function Keep<T>(s: seq<T>, p: T -> bool): seq<T> {
    if s == [] then []
    else (if p(s[0]) then [s[0]] else []) + Keep(s[1..], p)
  }

  function OtherThan<T(==)>(x: T): T -> bool { y => y != x }

  function MemberOf<T(==)>(xs: set<T>): T -> bool { y => y in xs }

  function Without<T(==)>(s: seq<T>, x: T): seq<T> { Keep(s, OtherThan(x)) }

  lemma {:induction false} KeepConcat<T(!new)>(a: seq<T>, b: seq<T>, p: T -> bool)
    ensures Keep(a + b, p) == Keep(a, p) + Keep(b, p)
  {
    if a == [] {
      assert a + b == b;
    } else {
      var first := if p(a[0]) then [a[0]] else [];
      assert (a + b)[0] == a[0] && (a + b)[1..] == a[1..] + b;
      KeepConcat(a[1..], b, p);
      assert first + (Keep(a[1..], p) + Keep(b, p)) == (first + Keep(a[1..], p)) + Keep(b, p);
    }
  }

  lemma KeepAppend<T(!new)>(s: seq<T>, x: T, p: T -> bool)
    ensures Keep(s + [x], p) == Keep(s, p) + if p(x) then [x] else []
  {
    KeepConcat(s, [x], p);
    assert [x][1..] == [];
  }

  lemma {:induction false} KeepMembers<T(!new)>(s: seq<T>, p: T -> bool)
    ensures forall x :: x in Keep(s, p) <==> x in s && p(x)
    ensures |Keep(s, p)| <= |s|
  {
    if s != [] {
      KeepMembers(s[1..], p);
      assert s == [s[0]] + s[1..];
    }
  }

  lemma {:induction false} KeepDistinct<T(!new)>(s: seq<T>, p: T -> bool)
    requires Distinct(s)
    ensures Distinct(Keep(s, p))
  {
    if s != [] {
      KeepDistinct(s[1..], p);
      KeepMembers(s[1..], p);
      assert forall i :: 0 <= i < |s[1..]| ==> s[1..][i] == s[i + 1];
      assert s[0] !in s[1..];
    }
  }

  lemma {:induction false} KeepCommutes<T(!new)>(s: seq<T>, p: T -> bool, q: T -> bool)
    ensures Keep(Keep(s, p), q) == Keep(Keep(s, q), p)
  {
    if s != [] {
      KeepCommutes(s[1..], p, q);
      KeepConcat(if p(s[0]) then [s[0]] else [], Keep(s[1..], p), q);
      KeepConcat(if q(s[0]) then [s[0]] else [], Keep(s[1..], q), p);
      assert Keep([s[0]], p) == if p(s[0]) then [s[0]] else [];
      assert Keep([s[0]], q) == if q(s[0]) then [s[0]] else [];
    }
  }

  /** Predicates that agree on the elements keep the same elements. */
  lemma {:induction false} KeepAgrees<T(!new)>(s: seq<T>, p: T -> bool, q: T -> bool)
    requires forall x :: x in s ==> p(x) == q(x)
    ensures Keep(s, p) == Keep(s, q)
  {
    if s != [] {
      assert s[0] in s && forall x :: x in s[1..] ==> x in s;
      KeepAgrees(s[1..], p, q);
    }
  }

  lemma {:induction false} KeepAll<T(!new)>(s: seq<T>, p: T -> bool)
    requires forall x :: x in s ==> p(x)
    ensures Keep(s, p) == s
  {
    if s != [] {
      assert s[0] in s && forall x :: x in s[1..] ==> x in s;
      KeepAll(s[1..], p);
    }
  }

  lemma {:induction false} KeepNone<T(!new)>(s: seq<T>, p: T -> bool)
    requires forall x :: x in s ==> !p(x)
    ensures Keep(s, p) == []
  {
    if s != [] {
      assert s[0] in s && forall x :: x in s[1..] ==> x in s;
      KeepNone(s[1..], p);
    }
  }

  /** Keeping one end of a list that the predicate splits. */
  lemma KeepSplit<T(!new)>(low: seq<T>, high: seq<T>, p: T -> bool)
    requires (forall x :: x in low ==> !p(x)) && forall x :: x in high ==> p(x)
    ensures Keep(low + high, p) == high
  {
    KeepConcat(low, high, p);
    KeepNone(low, p);
    KeepAll(high, p);
  }

  /** Taking `x` out of a list without repetitions shortens it by one, and leaves no `x`. */
  lemma {:induction false} WithoutLength<T(!new)>(s: seq<T>, x: T)
    requires Distinct(s)
    ensures Distinct(Without(s, x))
    ensures forall y :: y in Without(s, x) <==> y in s && y != x
    ensures |Without(s, x)| == |s| - (if x in s then 1 else 0)
  {
    KeepDistinct(s, OtherThan(x));
    KeepMembers(s, OtherThan(x));
    if s != [] {
      assert Distinct(s[1..]);
      WithoutLength(s[1..], x);
      assert s[0] !in s[1..];
      assert s == [s[0]] + s[1..];
    }
  }

  lemma {:induction false} WithoutHead<T(!new)>(s: seq<T>)
    requires Distinct(s) && s != []
    ensures Without(s, s[0]) == s[1..]
  {
    assert s[0] !in s[1..];
    KeepAll(s[1..], OtherThan(s[0]));
  }

  /** `a` is obtained from `b` by leaving elements out. */
  ghost predicate Subsequence<T>(a: seq<T>, b: seq<T>) {
    a == [] || (b != [] && ((a[0] == b[0] && Subsequence(a[1..], b[1..])) || Subsequence(a, b[1..])))
  }

  lemma {:induction false} KeepIsSubsequence<T(!new)>(s: seq<T>, p: T -> bool)
    ensures Subsequence(Keep(s, p), s)
  {
    if s != [] {
      KeepIsSubsequence(s[1..], p);
      assert p(s[0]) ==> Keep(s, p)[1..] == Keep(s[1..], p);
      assert !p(s[0]) ==> Keep(s, p) == Keep(s[1..], p);
    }
  }

  ghost function Elements<T(!new)>(s: seq<T>): set<T> { set x | x in s }

  lemma {:induction false} ElementsSize<T(!new)>(s: seq<T>)
    ensures |Elements(s)| <= |s|
  {
    if s == [] {
      assert Elements(s) == {};
    } else {
      ElementsSize(s[1..]);
      assert Elements(s) == {s[0]} + Elements(s[1..]);
    }
  }

  lemma SubsetSize<T>(a: set<T>, b: set<T>)
    requires a <= b
    ensures |a| <= |b|
  {
    assert b == a + (b - a);
  }

  lemma {:induction false} DistinctCount<T(!new)>(s: seq<T>, xs: set<T>)
    requires Distinct(s) && forall x :: x in s <==> x in xs
    ensures |s| == |xs|
  {
    if s == [] {
      assert xs == {};
    } else {
      assert s[0] in s && s[0] !in s[1..];
      assert s == [s[0]] + s[1..];
      DistinctCount(s[1..], xs - {s[0]});
    }
  }

  lemma {:induction false} DistinctSize<T(!new)>(s: seq<T>, xs: set<T>)
    requires Distinct(s) && forall x :: x in s ==> x in xs
    ensures |s| <= |xs|
    ensures |s| == |xs| ==> forall x :: x in xs ==> x in s
  {
    if s != [] {
      assert s[0] in s && s[0] !in s[1..];
      assert forall x :: x in s[1..] ==> x in s;
      DistinctSize(s[1..], xs - {s[0]});
    }
  }
}
