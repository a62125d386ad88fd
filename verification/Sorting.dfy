/** Sorted lists of integers: the library calls that the hash ring relies on. */
module Sorting {
  import opened Sequences

  ghost predicate Sorted(s: seq<int>) {
    forall i, j :: 0 <= i < j < |s| ==> s[i] <= s[j]
  }

  ghost predicate StrictlySorted(s: seq<int>) {
    forall i, j :: 0 <= i < j < |s| ==> s[i] < s[j]
  }

  function Insert(s: seq<int>, x: int): (r: seq<int>)
    ensures |r| == |s| + 1 && forall y :: y in r <==> y in s || y == x
  {
    if s == [] || x <= s[0] then [x] + s
    else
      assert s == [s[0]] + s[1..];
      [s[0]] + Insert(s[1..], x)
  }

  lemma {:induction false} InsertSorts(s: seq<int>, x: int)
    requires Sorted(s)
    ensures Sorted(Insert(s, x))
  {
    if !(s == [] || x <= s[0]) {
      InsertSorts(s[1..], x);
      var rest := Insert(s[1..], x);
      forall i | 0 <= i < |rest| ensures s[0] <= rest[i] {
        assert rest[i] in rest;
        assert rest[i] in s[1..] || rest[i] == x;
      }
    }
  }

  lemma {:induction false} InsertDistinct(s: seq<int>, x: int)
    requires Distinct(s) && x !in s
    ensures Distinct(Insert(s, x))
  {
    if !(s == [] || x <= s[0]) {
      assert s == [s[0]] + s[1..];
      assert s[0] !in s[1..];
      InsertDistinct(s[1..], x);
    }
  }

  lemma InsertKeepsStrict(s: seq<int>, x: int)
    ensures StrictlySorted(s) && x !in s ==> StrictlySorted(Insert(s, x))
  {
    if StrictlySorted(s) && x !in s {
      InsertSorts(s, x);
      InsertDistinct(s, x);
    }
  }

  /** list.sort() */
  function Sort(s: seq<int>): (r: seq<int>)
    ensures |r| == |s| && forall x :: x in r <==> x in s
  {
    if s == [] then []
    else
      assert s == [s[0]] + s[1..];
      Insert(Sort(s[1..]), s[0])
  }

  lemma {:induction false} SortSorts(s: seq<int>)
    ensures Sorted(Sort(s))
    ensures Distinct(s) ==> StrictlySorted(Sort(s))
  {
    if s != [] {
      assert s == [s[0]] + s[1..];
      assert Distinct(s) ==> s[0] !in s[1..];
      SortSorts(s[1..]);
      InsertSorts(Sort(s[1..]), s[0]);
      InsertKeepsStrict(Sort(s[1..]), s[0]);
    }
  }

  lemma {:induction false} InsertPermutes(s: seq<int>, x: int)
    ensures multiset(Insert(s, x)) == multiset(s) + multiset{x}
  {
    if !(s == [] || x <= s[0]) {
      InsertPermutes(s[1..], x);
      assert s == [s[0]] + s[1..];
    }
  }

  lemma {:induction false} SortPermutes(s: seq<int>)
    ensures multiset(Sort(s)) == multiset(s)
  {
    if s != [] {
      SortPermutes(s[1..]);
      InsertPermutes(Sort(s[1..]), s[0]);
      assert s == [s[0]] + s[1..];
    }
  }

  lemma SomeMember<T>(xs: set<T>) returns (x: T)
    requires xs != {}
    ensures x in xs
  {
    x :| x in xs;
  }

  lemma {:induction false} Least(xs: set<int>) returns (m: int)
    requires xs != {}
    ensures m in xs && forall x :: x in xs ==> m <= x
  {
    m := SomeMember(xs);
    if xs != {m} {
      var rest := xs - {m};
      assert xs == rest + {m};
      var n := Least(rest);
      m := if m < n then m else n;
    }
  }

  lemma LeastExists(xs: set<int>)
    requires xs != {}
    ensures exists m :: m in xs && forall x :: x in xs ==> m <= x
  {
    var m := Least(xs);
  }

  /** sorted(xs), for the keys of a dictionary */
  function SortedSet(xs: set<int>): (r: seq<int>)
    ensures forall x :: x in r <==> x in xs
  {
    if xs == {} then []
    else
      LeastExists(xs);
      var m :| m in xs && forall x :: x in xs ==> m <= x;
      [m] + SortedSet(xs - {m})
  }

  lemma {:induction false} SortedSetSorts(xs: set<int>)
    ensures StrictlySorted(SortedSet(xs))
  {
    if xs != {} {
      var r := SortedSet(xs);
      var rest := SortedSet(xs - {r[0]});
      SortedSetSorts(xs - {r[0]});
      assert r == [r[0]] + rest;
      forall i | 0 <= i < |rest| ensures r[0] < rest[i] {
        assert rest[i] in rest;
      }
    }
  }

  lemma TailMembers(s: seq<int>)
    requires StrictlySorted(s) && s != []
    ensures forall x :: x in s[1..] <==> x in s && x != s[0]
    ensures s[0] in s && forall x :: x in s ==> s[0] <= x
  {
    assert s == [s[0]] + s[1..];
    assert forall i :: 0 <= i < |s[1..]| ==> s[1..][i] == s[i + 1];
  }

  /** A set of points has one strictly sorted list. */
  lemma {:induction false} SortedListUnique(a: seq<int>, b: seq<int>)
    requires StrictlySorted(a) && StrictlySorted(b) && forall x :: x in a <==> x in b
    ensures a == b
  {
    assert a != [] ==> a[0] in a;
    assert b != [] ==> b[0] in b;
    if a != [] {
      TailMembers(a);
      TailMembers(b);
      SortedListUnique(a[1..], b[1..]);
      assert a == [a[0]] + a[1..] && b == [b[0]] + b[1..];
    }
  }

  /** CPython's bisect_right. */
  method BisectRight(a: seq<int>, x: int) returns (lo: nat)
    requires Sorted(a)
    ensures lo <= |a|
    ensures forall i :: 0 <= i < lo ==> a[i] <= x
    ensures forall i :: lo <= i < |a| ==> a[i] > x
  {
    lo := 0;
    var hi := |a|;
    while lo < hi
      invariant lo <= hi <= |a|
      invariant forall i :: 0 <= i < lo ==> a[i] <= x
      invariant forall i :: hi <= i < |a| ==> a[i] > x
    {
      var mid := (lo + hi) / 2;
      if x < a[mid] {
        hi := mid;
      } else {
        lo := mid + 1;
      }
    }
  }
}
