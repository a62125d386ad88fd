/** What holds of a hash ring after any sequence of additions and removals: its state is determined by its
    node set, and a change of one node moves only the keys of that node. */
module RingTheorems {
  import opened Sequences
  import opened RingLabels
  import opened Sorting
  import opened HashRings

  /** The hash function does not collide on the labels of these nodes. */
  ghost predicate CollisionFree(hash: string -> int, replicas: nat, nodes: set<string>) {
    forall a, b, i: nat, j: nat ::
      a in nodes && b in nodes && i < replicas && j < replicas && Point(hash, a, i) == Point(hash, b, j)
      ==> Label(a, i) == Label(b, j)
  }

  lemma PointsApart(hash: string -> int, replicas: nat, nodes: set<string>, a: string, b: string, h: int)
    requires CollisionFree(hash, replicas, nodes) && a in nodes && b in nodes
    requires h in Points(hash, a, replicas) && h in Points(hash, b, replicas)
    ensures a == b
  {
    var i :| 0 <= i < replicas && Points(hash, a, replicas)[i] == h;
    var j :| 0 <= j < replicas && Points(hash, b, replicas)[j] == h;
    assert Point(hash, a, i) == Point(hash, b, j);
    LabelInjective(a, i, b, j);
  }

  lemma PointsDistinct(hash: string -> int, replicas: nat, nodes: set<string>, a: string)
    requires CollisionFree(hash, replicas, nodes) && a in nodes
    ensures Distinct(Points(hash, a, replicas))
  {
    forall i, j | 0 <= i < j < replicas
      ensures Points(hash, a, replicas)[i] != Points(hash, a, replicas)[j]
    {
      if Point(hash, a, i) == Point(hash, a, j) {
        LabelInjective(a, i, a, j);
      }
    }
  }

  /** The ring has exactly the points of its nodes, each with its owner, in strictly increasing order. */
  ghost predicate Canonical(r: Ring, hash: string -> int, replicas: nat) {
    && OwnersRight(r.nodes, r.owner, hash, replicas)
    && StrictlySorted(r.keys)
    && forall h :: h in r.keys <==> h in r.owner
  }

  ghost predicate OwnersRight(nodes: set<string>, owner: map<int, string>, hash: string -> int, replicas: nat) {
    && (forall n, h :: n in nodes && h in Points(hash, n, replicas) ==> h in owner && owner[h] == n)
    && (forall h :: h in owner ==> owner[h] in nodes && h in Points(hash, owner[h], replicas))
  }

  lemma CanonicalIsListed(r: Ring, hash: string -> int, replicas: nat)
    requires Canonical(r, hash, replicas)
    ensures Consistent(r) && Listed(r)
  {
  }

  /** A new node's points are not on the ring. */
  lemma NewPointsFree(
      nodes: set<string>, owner: map<int, string>, hash: string -> int, replicas: nat, node: string, all: set<string>)
    requires OwnersRight(nodes, owner, hash, replicas) && CollisionFree(hash, replicas, all)
    requires nodes <= all && node in all && node !in nodes
    ensures forall h :: h in Points(hash, node, replicas) ==> h !in owner
  {
    forall h | h in Points(hash, node, replicas) ensures h !in owner {
      if h in owner {
        PointsApart(hash, replicas, all, owner[h], node, h);
      }
    }
  }

  lemma ClaimRight(nodes: set<string>, owner: map<int, string>, hash: string -> int, replicas: nat, node: string)
    requires OwnersRight(nodes, owner, hash, replicas)
    requires forall h :: h in Points(hash, node, replicas) ==> h !in owner
    ensures OwnersRight(nodes + {node}, Claim(owner, hash, node, replicas), hash, replicas)
  {
  }

  lemma AddCanonical(r: Ring, hash: string -> int, replicas: nat, node: string, all: set<string>)
    requires Canonical(r, hash, replicas) && CollisionFree(hash, replicas, all) && r.nodes <= all && node in all
    ensures Canonical(AddNode(r, hash, replicas, node), hash, replicas)
    ensures node !in r.nodes ==> |AddNode(r, hash, replicas, node).keys| == |r.keys| + replicas
  {
    if node !in r.nodes {
      var points := Points(hash, node, replicas);
      PointsDistinct(hash, replicas, all, node);
      NewPointsFree(r.nodes, r.owner, hash, replicas, node, all);
      ClaimRight(r.nodes, r.owner, hash, replicas, node);
      SortSorts(r.keys + points);
      assert Distinct(r.keys + points) by {
        forall i, j | 0 <= i < |r.keys| && 0 <= j < |points|
          ensures r.keys[i] != points[j]
        {
          assert r.keys[i] in r.keys && points[j] in points;
        }
      }
    }
  }

  lemma PointsStay(nodes: set<string>, hash: string -> int, replicas: nat, node: string, all: set<string>)
    requires CollisionFree(hash, replicas, all) && nodes <= all && node in nodes
    ensures forall n, h :: n in nodes - {node} && h in Points(hash, n, replicas) ==> h !in Points(hash, node, replicas)
  {
    forall n, h | n in nodes - {node} && h in Points(hash, n, replicas)
      ensures h !in Points(hash, node, replicas)
    {
      if h in Points(hash, node, replicas) {
        PointsApart(hash, replicas, all, n, node, h);
      }
    }
  }

  lemma ReleaseRight(nodes: set<string>, owner: map<int, string>, hash: string -> int, replicas: nat, node: string)
    requires OwnersRight(nodes, owner, hash, replicas)
    requires forall n, h :: n in nodes - {node} && h in Points(hash, n, replicas) ==> h !in Points(hash, node, replicas)
    ensures OwnersRight(nodes - {node}, Release(owner, hash, node, replicas), hash, replicas)
  {
    hide Points, Release;
  }

  lemma RemoveCanonical(r: Ring, hash: string -> int, replicas: nat, node: string, all: set<string>)
    requires Canonical(r, hash, replicas) && CollisionFree(hash, replicas, all) && r.nodes <= all
    ensures Canonical(RemoveNode(r, hash, replicas, node), hash, replicas)
  {
    if node in r.nodes {
      PointsStay(r.nodes, hash, replicas, node, all);
      ReleaseRight(r.nodes, r.owner, hash, replicas, node);
      SortedSetSorts(Release(r.owner, hash, node, replicas).Keys);
    }
  }

  /** The node set alone determines the ring. */
  lemma Determined(a: Ring, b: Ring, hash: string -> int, replicas: nat)
    requires Canonical(a, hash, replicas) && Canonical(b, hash, replicas) && a.nodes == b.nodes
    ensures a == b
  {
    assert forall h :: h in a.owner <==> h in b.owner;
    assert forall h :: h in a.owner ==> a.owner[h] == b.owner[h];
    assert a.owner == b.owner;
    SortedListUnique(a.keys, b.keys);
  }

  // ----- Histories -----

  datatype Change = Join(node: string) | Leave(node: string)

  function Apply(r: Ring, hash: string -> int, replicas: nat, change: Change): Ring {
    match change
    case Join(n) => AddNode(r, hash, replicas, n)
    case Leave(n) => RemoveNode(r, hash, replicas, n)
  }

  function Replay(hash: string -> int, replicas: nat, history: seq<Change>): Ring
    decreases |history|
  {
    if history == [] then EmptyRing()
    else Apply(Replay(hash, replicas, history[..|history| - 1]), hash, replicas, history[|history| - 1])
  }

  /** The nodes that joined and have not left since. */
  ghost function Members(history: seq<Change>): set<string>
    decreases |history|
  {
    if history == [] then {}
    else
      var before := Members(history[..|history| - 1]);
      match history[|history| - 1]
      case Join(n) => before + {n}
      case Leave(n) => before - {n}
  }

  ghost predicate Within(history: seq<Change>, universe: set<string>) {
    forall c :: c in history ==> c.node in universe
  }

  lemma {:induction false} ReplayCanonical(hash: string -> int, replicas: nat, history: seq<Change>, universe: set<string>)
    requires CollisionFree(hash, replicas, universe) && Within(history, universe)
    ensures var r := Replay(hash, replicas, history);
            Canonical(r, hash, replicas) && r.nodes == Members(history) && r.nodes <= universe
    decreases |history|
  {
    if history != [] {
      var before, last := history[..|history| - 1], history[|history| - 1];
      assert last in history && forall c :: c in before ==> c in history;
      ReplayCanonical(hash, replicas, before, universe);
      var r := Replay(hash, replicas, before);
      match last
      case Join(n) => AddCanonical(r, hash, replicas, n, universe);
      case Leave(n) => RemoveCanonical(r, hash, replicas, n, universe);
    }
  }

  /** History independence: two histories with the same surviving nodes leave the same ring. */
  lemma HistoryIndependence(hash: string -> int, replicas: nat, one: seq<Change>, two: seq<Change>, universe: set<string>)
    requires CollisionFree(hash, replicas, universe) && Within(one, universe) && Within(two, universe)
    requires Members(one) == Members(two)
    ensures Replay(hash, replicas, one) == Replay(hash, replicas, two)
  {
    ReplayCanonical(hash, replicas, one, universe);
    ReplayCanonical(hash, replicas, two, universe);
    Determined(Replay(hash, replicas, one), Replay(hash, replicas, two), hash, replicas);
  }

  /** Adding a new node and removing it again changes nothing. */
  lemma AddRemoveIdentity(r: Ring, hash: string -> int, replicas: nat, node: string, all: set<string>)
    requires Canonical(r, hash, replicas) && CollisionFree(hash, replicas, all) && r.nodes <= all && node in all
    requires node !in r.nodes
    ensures RemoveNode(AddNode(r, hash, replicas, node), hash, replicas, node) == r
  {
    hide CollisionFree, Canonical;
    AddCanonical(r, hash, replicas, node, all);
    var with := AddNode(r, hash, replicas, node);
    RemoveCanonical(with, hash, replicas, node, all);
    Determined(RemoveNode(with, hash, replicas, node), r, hash, replicas);
  }

  /** Removing a node and adding it back changes nothing. */
  lemma RemoveAddIdentity(r: Ring, hash: string -> int, replicas: nat, node: string, all: set<string>)
    requires Canonical(r, hash, replicas) && CollisionFree(hash, replicas, all) && r.nodes <= all
    requires node in r.nodes
    ensures AddNode(RemoveNode(r, hash, replicas, node), hash, replicas, node) == r
  {
    hide CollisionFree, Canonical;
    RemoveCanonical(r, hash, replicas, node, all);
    var without := RemoveNode(r, hash, replicas, node);
    AddCanonical(without, hash, replicas, node, all);
    Determined(AddNode(without, hash, replicas, node), r, hash, replicas);
  }

  /** A canonical ring has `replicas` points for each node. */
  lemma {:induction false} RingSize(r: Ring, hash: string -> int, replicas: nat, all: set<string>)
    requires Canonical(r, hash, replicas) && CollisionFree(hash, replicas, all) && r.nodes <= all
    ensures |r.keys| == |r.nodes| * replicas
    decreases |r.nodes|
  {
    if r.nodes == {} {
      assert forall h :: h !in r.owner;
      RingIsListed(r);
    } else {
      var node := SomeMember(r.nodes);
      var without := RemoveNode(r, hash, replicas, node);
      RemoveCanonical(r, hash, replicas, node, all);
      RingSize(without, hash, replicas, all);
      RemoveAddIdentity(r, hash, replicas, node, all);
      AddCanonical(without, hash, replicas, node, all);
      assert |r.nodes| == |without.nodes| + 1;
      assert (|without.nodes| + 1) * replicas == |without.nodes| * replicas + replicas;
    }
  }

  // ----- Minimal disruption -----

  function OwnedBy(owner: map<int, string>, nodes: set<string>): int -> bool {
    p => p in owner && owner[p] in nodes
  }

  /** Removing a node takes its points out of the list and leaves the order of the others. */
  lemma RemoveFilters(r: Ring, hash: string -> int, replicas: nat, node: string, all: set<string>)
    requires Canonical(r, hash, replicas) && CollisionFree(hash, replicas, all) && r.nodes <= all
    ensures RemoveNode(r, hash, replicas, node).keys == Keep(r.keys, OwnedBy(r.owner, r.nodes - {node}))
  {
    RemoveCanonical(r, hash, replicas, node, all);
    var p := OwnedBy(r.owner, r.nodes - {node});
    KeepMembers(r.keys, p);
    KeepStrict(r.keys, p);
    var without := RemoveNode(r, hash, replicas, node);
    forall h ensures h in without.keys <==> h in Keep(r.keys, p) {
      assert h in without.keys <==> h in without.owner;
    }
    SortedListUnique(without.keys, Keep(r.keys, p));
  }

  lemma {:induction false} KeepStrict(s: seq<int>, p: int -> bool)
    requires StrictlySorted(s)
    ensures StrictlySorted(Keep(s, p))
  {
    if s != [] {
      KeepStrict(s[1..], p);
      KeepMembers(s[1..], p);
      TailMembers(s);
      var rest := Keep(s[1..], p);
      forall i | 0 <= i < |rest| ensures s[0] < rest[i] {
        assert rest[i] in rest;
      }
    }
  }

  lemma {:induction false} OwnersFilter(
      owner: map<int, string>, smaller: map<int, string>, points: seq<int>, nodes: set<string>, node: string)
    requires forall i :: 0 <= i < |points| ==> points[i] in owner && owner[points[i]] in nodes
    requires forall h :: h in owner && owner[h] in nodes - {node} ==> h in smaller && smaller[h] == owner[h]
    ensures var kept := Keep(points, OwnedBy(owner, nodes - {node}));
            && (forall i :: 0 <= i < |kept| ==> kept[i] in smaller)
            && Owners(smaller, kept) == Without(Owners(owner, points), node)
  {
    if points != [] {
      OwnersFilter(owner, smaller, points[1..], nodes, node);
      var names := Owners(owner, points);
      assert names == [owner[points[0]]] + Owners(owner, points[1..]);
      assert names[1..] == Owners(owner, points[1..]);
    }
  }

  lemma ClockwiseFilters(keys: seq<int>, p: int -> bool, h: int)
    ensures Clockwise(Keep(keys, p), h) == Keep(Clockwise(keys, h), p)
  {
    KeepCommutes(keys, p, Above(h));
    KeepCommutes(keys, p, UpTo(h));
    KeepConcat(Keep(keys, Above(h)), Keep(keys, UpTo(h)), p);
  }

  /** Every node on a walk is a node of the ring. */
  lemma RouteOfNodes(r: Ring, hash: string -> int, replicas: nat, h: int)
    requires Canonical(r, hash, replicas)
    ensures Listed(r)
    ensures var walk := Clockwise(r.keys, h);
            forall i :: 0 <= i < |walk| ==> walk[i] in r.owner && r.owner[walk[i]] in r.nodes
    ensures forall i :: 0 <= i < |Route(r, h)| ==> Route(r, h)[i] in r.nodes
  {
    ClockwiseListed(r, h);
    var walk := Clockwise(r.keys, h);
    forall i | 0 <= i < |walk| ensures walk[i] in r.owner && r.owner[walk[i]] in r.nodes {
      var q := walk[i];
      assert q in r.owner && r.owner[q] in r.nodes;
    }
    forall i | 0 <= i < |Route(r, h)| ensures Route(r, h)[i] in r.nodes {
      assert Route(r, h)[i] == r.owner[walk[i]];
    }
  }

  lemma FirstPoint(hash: string -> int, node: string, replicas: nat)
    requires replicas > 0
    ensures Point(hash, node, 0) in Points(hash, node, replicas)
  {
    assert Points(hash, node, replicas)[0] == Point(hash, node, 0);
  }

  /** With at least one replica, every node of the ring is on every walk. */
  lemma NodeOnRoute(r: Ring, hash: string -> int, replicas: nat, h: int, n: string)
    requires Canonical(r, hash, replicas) && Listed(r) && replicas > 0 && n in r.nodes
    ensures n in Route(r, h)
  {
    var q := Point(hash, n, 0);
    FirstPoint(hash, n, replicas);
    assert q in r.owner && r.owner[q] == n;
    ClockwiseMembers(r.keys, h);
    var walk := Clockwise(r.keys, h);
    assert q in walk;
    var i :| 0 <= i < |walk| && walk[i] == q;
    assert Route(r, h)[i] == n;
  }

  /** Removing a node takes its name out of every clockwise walk, and changes nothing else in it. */
  lemma RemoveFiltersRoute(r: Ring, hash: string -> int, replicas: nat, node: string, h: int, all: set<string>)
    requires Canonical(r, hash, replicas) && CollisionFree(hash, replicas, all) && r.nodes <= all
    requires node in r.nodes
    ensures Listed(r) && Listed(RemoveNode(r, hash, replicas, node))
    ensures Route(RemoveNode(r, hash, replicas, node), h) == Without(Route(r, h), node)
  {
    var without := RemoveNode(r, hash, replicas, node);
    RemoveCanonical(r, hash, replicas, node, all);
    RemoveFilters(r, hash, replicas, node, all);
    ClockwiseFilters(r.keys, OwnedBy(r.owner, r.nodes - {node}), h);
    RouteOfNodes(r, hash, replicas, h);
    RemainingOwners(r, hash, replicas, node, all);
    OwnersFilter(r.owner, without.owner, Clockwise(r.keys, h), r.nodes, node);
  }

  lemma RemainingOwners(r: Ring, hash: string -> int, replicas: nat, node: string, all: set<string>)
    requires Canonical(r, hash, replicas) && CollisionFree(hash, replicas, all) && r.nodes <= all
    requires node in r.nodes
    ensures var left := RemoveNode(r, hash, replicas, node).owner;
            forall h :: h in r.owner && r.owner[h] in r.nodes - {node} ==> h in left && left[h] == r.owner[h]
  {
    PointsStay(r.nodes, hash, replicas, node, all);
    ReleaseRight(r.nodes, r.owner, hash, replicas, node);
  }

  /** Removing a node moves only the keys that it owned. */
  lemma RemoveDisruptsLittle(r: Ring, hash: string -> int, replicas: nat, node: string, h: int, all: set<string>)
    requires Canonical(r, hash, replicas) && CollisionFree(hash, replicas, all) && r.nodes <= all
    ensures Listed(RemoveNode(r, hash, replicas, node))
    ensures Owner(r, h) != Some(node) ==> Owner(RemoveNode(r, hash, replicas, node), h) == Owner(r, h)
    ensures node in r.nodes ==> Owner(RemoveNode(r, hash, replicas, node), h) != Some(node)
  {
    if node in r.nodes {
      RemoveFiltersRoute(r, hash, replicas, node, h, all);
      KeepMembers(Route(r, h), OtherThan(node));
      var left := Without(Route(r, h), node);
      assert left != [] ==> left[0] in left;
    }
  }

  /** Adding a node moves keys only to the new node. */
  lemma AddDisruptsLittle(r: Ring, hash: string -> int, replicas: nat, node: string, h: int, all: set<string>)
    requires Canonical(r, hash, replicas) && CollisionFree(hash, replicas, all) && r.nodes <= all && node in all
    ensures Listed(AddNode(r, hash, replicas, node))
    ensures Owner(AddNode(r, hash, replicas, node), h) in {Owner(r, h), Some(node)}
  {
    if node !in r.nodes {
      AddCanonical(r, hash, replicas, node, all);
      AddRemoveIdentity(r, hash, replicas, node, all);
      RemoveDisruptsLittle(AddNode(r, hash, replicas, node), hash, replicas, node, h, all);
    }
  }

  /** The node found for a hash is the one that owns the first point strictly after it, going around. */
  lemma OwnerIsSuccessor(r: Ring, hash: string -> int, replicas: nat, h: int, p: int)
    requires Canonical(r, hash, replicas) && IsSuccessor(r.owner.Keys, h, p)
    ensures Owner(r, h) == Some(r.owner[p])
  {
    var n := |Keep(r.keys, UpTo(h))|;
    KeepMembers(r.keys, Above(h));
    KeepMembers(r.keys, UpTo(h));
    KeepStrict(r.keys, Above(h));
    KeepStrict(r.keys, UpTo(h));
    var walk := Clockwise(r.keys, h);
    assert p in r.keys && p in walk;
    ClockwiseListed(r, h);
    assert walk[0] in walk && walk[0] in r.owner;
    var above, low := Keep(r.keys, Above(h)), Keep(r.keys, UpTo(h));
    if above != [] {
      assert walk[0] == above[0] && above[0] in above && p in above;
      TailMembers(above);
    } else {
      assert walk == low && p in low;
      TailMembers(low);
    }
    assert walk[0] == p;
  }
}
