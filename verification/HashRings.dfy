/** The consistent hash ring: a map from points to nodes, and the sorted list of its points. */
module HashRings {
  import opened Sequences
  import opened RingLabels
  import opened Sorting

  /** The state of a ring object: its nodes, the owner of each point, and the points in order. */
  datatype Ring = Ring(nodes: set<string>, owner: map<int, string>, keys: seq<int>)

  function EmptyRing(): Ring { Ring({}, map[], []) }

  function Point(hash: string -> int, node: string, i: nat): int { hash(Label(node, i)) }

  // ----- The operations, as functions on the state of a ring -----

  /** The points of replicas 0 to n - 1, in the order in which `add_node` appends them. */
  function Points(hash: string -> int, node: string, n: nat): (r: seq<int>)
    ensures |r| == n && forall i :: 0 <= i < n ==> r[i] == Point(hash, node, i)
  {
    if n == 0 then [] else Points(hash, node, n - 1) + [Point(hash, node, n - 1)]
  }

  function Claim(owner: map<int, string>, hash: string -> int, node: string, n: nat): (r: map<int, string>)
    ensures forall h :: h in r <==> h in owner || h in Points(hash, node, n)
    ensures forall h :: h in r ==> r[h] == if h in Points(hash, node, n) then node else owner[h]
  {
    if n == 0 then owner else Claim(owner, hash, node, n - 1)[Point(hash, node, n - 1) := node]
  }

  function Release(owner: map<int, string>, hash: string -> int, node: string, n: nat): (r: map<int, string>)
    ensures forall h :: h in r <==> h in owner && h !in Points(hash, node, n)
    ensures forall h :: h in r ==> r[h] == owner[h]
  {
    if n == 0 then owner else Release(owner, hash, node, n - 1) - {Point(hash, node, n - 1)}
  }

  function AddNode(r: Ring, hash: string -> int, replicas: nat, node: string): Ring {
    if node in r.nodes then r
    else Ring(r.nodes + {node}, Claim(r.owner, hash, node, replicas), Sort(r.keys + Points(hash, node, replicas)))
  }

  function RemoveNode(r: Ring, hash: string -> int, replicas: nat, node: string): Ring {
    if node !in r.nodes then r
    else
      var owner := Release(r.owner, hash, node, replicas);
      Ring(r.nodes - {node}, owner, SortedSet(owner.Keys))
  }

  lemma RemovedNodes(r: Ring, hash: string -> int, replicas: nat, node: string)
    ensures RemoveNode(r, hash, replicas, node).nodes == r.nodes - {node}
    ensures Listed(r) ==> Listed(RemoveNode(r, hash, replicas, node))
  {
  }

  lemma AddedNodes(r: Ring, hash: string -> int, replicas: nat, node: string)
    ensures AddNode(r, hash, replicas, node).nodes == r.nodes + {node}
  {
  }

  /** The list of points is sorted and is the list of the points that have an owner. */
  ghost predicate Consistent(r: Ring) {
    && Sorted(r.keys)
    && forall h :: h in r.keys <==> h in r.owner
  }

  lemma OperationsKeepConsistent(r: Ring, hash: string -> int, replicas: nat, node: string)
    requires Consistent(r)
    ensures Consistent(AddNode(r, hash, replicas, node)) && Consistent(RemoveNode(r, hash, replicas, node))
  {
    SortSorts(r.keys + Points(hash, node, replicas));
    SortedSetSorts(Release(r.owner, hash, node, replicas).Keys);
  }

  /** Every listed point has an owner. */
  ghost predicate Listed(r: Ring) {
    forall p :: p in r.keys ==> p in r.owner
  }

  // ----- Walking clockwise -----

  function Above(h: int): int -> bool { p => p > h }

  function UpTo(h: int): int -> bool { p => p <= h }

  /** All points, in the order in which they are met going clockwise from `h`, around the end of the list. */
  function Clockwise(keys: seq<int>, h: int): seq<int> {
    Keep(keys, Above(h)) + Keep(keys, UpTo(h))
  }

  lemma ClockwiseMembers(keys: seq<int>, h: int)
    ensures forall p :: p in Clockwise(keys, h) <==> p in keys
  {
    KeepMembers(keys, Above(h));
    KeepMembers(keys, UpTo(h));
  }

  function Owners(owner: map<int, string>, points: seq<int>): (r: seq<string>)
    requires forall i :: 0 <= i < |points| ==> points[i] in owner
    ensures |r| == |points| && forall i :: 0 <= i < |r| ==> r[i] == owner[points[i]]
  {
    if points == [] then [] else [owner[points[0]]] + Owners(owner, points[1..])
  }

  /** The owners of the points met going clockwise from `h`. */
  function Route(r: Ring, h: int): (route: seq<string>)
    requires Listed(r)
    ensures |route| == |Clockwise(r.keys, h)|
    ensures forall i :: 0 <= i < |route| ==> Clockwise(r.keys, h)[i] in r.owner && route[i] == r.owner[Clockwise(r.keys, h)[i]]
  {
    ClockwiseListed(r, h);
    Owners(r.owner, Clockwise(r.keys, h))
  }

  lemma ClockwiseListed(r: Ring, h: int)
    requires Listed(r)
    ensures forall i :: 0 <= i < |Clockwise(r.keys, h)| ==> Clockwise(r.keys, h)[i] in r.owner
  {
    ClockwiseMembers(r.keys, h);
    forall i | 0 <= i < |Clockwise(r.keys, h)|
      ensures Clockwise(r.keys, h)[i] in r.owner
    {
      var p := Clockwise(r.keys, h)[i];
      assert p in Clockwise(r.keys, h);
      assert p in r.keys;
    }
  }

  /** The node responsible for hash `h`. */
  function Owner(r: Ring, h: int): Option<string>
    requires Listed(r)
  {
    var route := Route(r, h);
    if route == [] then None else Some(route[0])
  }

  /** `p` is the first of the points strictly after `h`, or, when there is none, the first of all points. */
  ghost predicate IsSuccessor(points: set<int>, h: int, p: int) {
    && p in points
    && if exists q :: q in points && q > h
       then p > h && forall q :: q in points && q > h ==> p <= q
       else forall q :: q in points ==> p <= q
  }

  /** Splitting a sorted list where the points go above `h` gives the clockwise order. */
  lemma ClockwiseIsRotation(keys: seq<int>, h: int, n: nat)
    requires n <= |keys|
    requires (forall i :: 0 <= i < n ==> keys[i] <= h) && (forall i :: n <= i < |keys| ==> keys[i] > h)
    ensures Clockwise(keys, h) == keys[n..] + keys[..n]
  {
    var low, high := keys[..n], keys[n..];
    assert forall p :: p in low ==> p <= h;
    assert forall p :: p in high ==> p > h;
    assert keys == low + high;
    KeepSplit(low, high, Above(h));
    KeepHead(low, high, h);
  }

  lemma KeepHead(low: seq<int>, high: seq<int>, h: int)
    requires (forall p :: p in low ==> p <= h) && forall p :: p in high ==> p > h
    ensures Keep(low + high, UpTo(h)) == low
  {
    KeepConcat(low, high, UpTo(h));
    KeepAll(low, UpTo(h));
    KeepNone(high, UpTo(h));
  }

  // ----- The class -----

  class ConsistentHashRing {
    const hash: string -> int
    const virtualReplicas: nat
    var ring: map<int, string>
    var sortedKeys: seq<int>
    var nodes: set<string>

    function State(): Ring
      reads this
    {
      Ring(nodes, ring, sortedKeys)
    }

    ghost predicate Valid()
      reads this
    {
      Consistent(State())
    }

    constructor (hash: string -> int, initial: seq<string>, virtualReplicas: nat)
      ensures this.hash == hash && this.virtualReplicas == virtualReplicas
      ensures Valid() && State() == AddAll(EmptyRing(), hash, virtualReplicas, initial)
    {
      this.hash := hash;
      this.virtualReplicas := virtualReplicas;
      ring, sortedKeys, nodes := map[], [], {};
      new;
      for i := 0 to |initial|
        invariant Valid() && State() == AddAll(EmptyRing(), hash, virtualReplicas, initial[..i])
      {
        assert initial[..i + 1][..i] == initial[..i];
        Add(initial[i]);
      }
      assert initial[..|initial|] == initial;
    }

    method Add(node: string)
      requires Valid()
      modifies this
      ensures Valid() && State() == AddNode(old(State()), hash, virtualReplicas, node)
      ensures node !in old(nodes) ==>
        multiset(sortedKeys) == multiset(old(sortedKeys)) + multiset(Points(hash, node, virtualReplicas))
    {
      OperationsKeepConsistent(State(), hash, virtualReplicas, node);
      if node in nodes {
        return;
      }
      nodes := nodes + {node};
      for i := 0 to virtualReplicas
        invariant nodes == old(nodes) + {node}
        invariant ring == Claim(old(ring), hash, node, i)
        invariant sortedKeys == old(sortedKeys) + Points(hash, node, i)
      {
        var h := hash(Label(node, i));
        ring := ring[h := node];
        sortedKeys := sortedKeys + [h];
      }
      SortPermutes(sortedKeys);
      sortedKeys := Sort(sortedKeys);
    }

    method Remove(node: string)
      requires Valid()
      modifies this
      ensures Valid() && State() == RemoveNode(old(State()), hash, virtualReplicas, node)
    {
      OperationsKeepConsistent(State(), hash, virtualReplicas, node);
      if node !in nodes {
        return;
      }
      nodes := nodes - {node};
      for i := 0 to virtualReplicas
        invariant nodes == old(nodes) - {node} && sortedKeys == old(sortedKeys)
        invariant ring == Release(old(ring), hash, node, i)
      {
        ring := ring - {hash(Label(node, i))};
      }
      sortedKeys := SortedSet(ring.Keys);
    }

    /** The node of the clockwise successor of the key's hash, or None when the ring is empty. */
    method GetNode(key: string) returns (node: Option<string>)
      requires Valid()
      ensures node == Owner(State(), hash(key))
      ensures node.None? <==> ring == map[]
      ensures node.Some? ==> exists p :: IsSuccessor(ring.Keys, hash(key), p) && ring[p] == node.value
    {
      RingIsListed(State());
      if ring == map[] {
        return None;
      }
      var h := hash(key);
      var idx := BisectRight(sortedKeys, h);
      ClockwiseIsRotation(sortedKeys, h, idx);
      SuccessorIndex(State(), h, idx);
      if idx == |sortedKeys| {
        idx := 0;
      }
      return Some(ring[sortedKeys[idx]]);
    }
  }

  lemma RingIsListedIfConsistent(r: Ring)
    ensures Consistent(r) ==> Listed(r)
  {
  }

  lemma RingIsListed(r: Ring)
    requires Consistent(r)
    ensures Listed(r) && (r.owner == map[] <==> r.keys == [])
  {
    assert r.keys != [] ==> r.keys[0] in r.keys;
    if r.owner != map[] {
      var p := SomeMember(r.owner.Keys);
      assert p in r.keys;
    }
  }

  /** The index that bisect_right finds, wrapped around, is that of the clockwise successor. */
  lemma SuccessorIndex(r: Ring, h: int, n: nat)
    requires Consistent(r) && r.keys != [] && n <= |r.keys|
    requires (forall i :: 0 <= i < n ==> r.keys[i] <= h) && (forall i :: n <= i < |r.keys| ==> r.keys[i] > h)
    ensures var p := r.keys[if n == |r.keys| then 0 else n];
            p in r.owner && IsSuccessor(r.owner.Keys, h, p)
  {
    var i := if n == |r.keys| then 0 else n;
    var p := r.keys[i];
    assert p in r.keys;
    forall q | q in r.owner
      ensures n == |r.keys| ==> p <= q <= h
      ensures n < |r.keys| && q > h ==> p <= q
    {
      assert q in r.keys;
      var j :| 0 <= j < |r.keys| && r.keys[j] == q;
    }
  }

  function AddAll(r: Ring, hash: string -> int, replicas: nat, nodes: seq<string>): Ring
    decreases |nodes|
  {
    if nodes == [] then r
    else AddNode(AddAll(r, hash, replicas, nodes[..|nodes| - 1]), hash, replicas, nodes[|nodes| - 1])
  }

  lemma AddNodeListed(r: Ring, hash: string -> int, replicas: nat, node: string)
    requires Listed(r)
    ensures Listed(AddNode(r, hash, replicas, node))
  {
  }

  lemma {:induction false} AddAllListed(r: Ring, hash: string -> int, replicas: nat, nodes: seq<string>)
    requires Listed(r)
    ensures Listed(AddAll(r, hash, replicas, nodes))
    ensures AddAll(r, hash, replicas, nodes).nodes == r.nodes + Elements(nodes)
    decreases |nodes|
  {
    if nodes != [] {
      AddAllListed(r, hash, replicas, nodes[..|nodes| - 1]);
      assert nodes == nodes[..|nodes| - 1] + [nodes[|nodes| - 1]];
    } else {
      assert Elements(nodes) == {};
    }
  }
}
