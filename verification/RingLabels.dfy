/** The labels `node#i` whose hashes are the points of a node on the ring. Distinct (node, i) pairs have
    distinct labels, so points can only collide when the hash function does. */
module RingLabels {

  /** The decimal digits of a replica number, as Python's f-string writes them. */
  function Decimal(i: nat): string {
    if i < 10 then ["0123456789"[i]] else Decimal(i / 10) + ["0123456789"[i % 10]]
  }

  function Label(node: string, i: nat): string {
    node + "#" + Decimal(i)
  }

  /** Reads a numeral back. */
  ghost function Numeral(s: string): int {
    if s == [] then 0 else Numeral(s[..|s| - 1]) * 10 + (s[|s| - 1] as int - '0' as int)
  }

  lemma {:induction false} DecimalReadsBack(i: nat)
    ensures Numeral(Decimal(i)) == i
    ensures '#' !in Decimal(i)
  {
    if i >= 10 {
      DecimalReadsBack(i / 10);
      assert Decimal(i)[..|Decimal(i)| - 1] == Decimal(i / 10);
    } else {
      assert Decimal(i)[..0] == [];
    }
  }

  /** A replica number is written as int() and str() do: in decimal digits, without a leading zero. */
  lemma {:induction false} DecimalIsPlain(i: nat)
    ensures Decimal(i) != [] && forall k :: 0 <= k < |Decimal(i)| ==> '0' <= Decimal(i)[k] <= '9'
    ensures |Decimal(i)| > 1 ==> Decimal(i)[0] != '0'
    ensures Decimal(i)[0] == '0' <==> i == 0
  {
    if i >= 10 {
      DecimalIsPlain(i / 10);
    }
  }

  lemma SplitAtLastHash(a: string, x: string, b: string, y: string)
    requires a + "#" + x == b + "#" + y && '#' !in x && '#' !in y
    ensures a == b && x == y
  {
    var s := a + "#" + x;
    assert s[|a|] == '#' && s[|b|] == '#';
    assert forall n :: |a| < n < |s| ==> s[n] == x[n - |a| - 1];
    assert forall n :: |b| < n < |s| ==> s[n] == y[n - |b| - 1];
    assert |a| == |b|;
    assert a == s[..|a|] && b == s[..|a|];
    assert x == s[|a| + 1..] && y == s[|a| + 1..];
  }

  lemma LabelInjective(a: string, i: nat, b: string, j: nat)
    requires Label(a, i) == Label(b, j)
    ensures a == b && i == j
  {
    DecimalReadsBack(i);
    DecimalReadsBack(j);
    SplitAtLastHash(a, Decimal(i), b, Decimal(j));
  }
}
