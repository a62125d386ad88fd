/** Which nodes, put back during a lookup, make it fail although a node of the ring is up. */
module Comebacks {
  import opened Sequences
  import opened RingLabels
  import opened HashRings
  import opened RingTheorems
  import opened CacheClients
  import opened FailoverTheorems
  import opened LookupsAmid

  // ----- Owners in smaller rings -----

  /** The owner of a key keeps it in every smaller ring that still has this owner. */
  lemma {:induction false} OwnerInSmallerRing(
      r: Ring, small: Ring, hash: string -> int, replicas: nat, h: int, node: string, all: set<string>)
    requires Canonical(r, hash, replicas) && CollisionFree(hash, replicas, all) && r.nodes <= all
    requires Canonical(small, hash, replicas) && small.nodes <= r.nodes && node in small.nodes
    requires Listed(r) && Listed(small) && Owner(r, h) == Some(node)
    ensures Owner(small, h) == Some(node)
    decreases |r.nodes|
  {
    hide CollisionFree, Canonical, RemoveNode, Owner;
    if r.nodes == small.nodes {
      Determined(r, small, hash, replicas);
    } else {
      var other :| other in r.nodes && other !in small.nodes;
      RemoveDisruptsLittle(r, hash, replicas, other, h, all);
      RemoveCanonical(r, hash, replicas, other, all);
      RemovedNodes(r, hash, replicas, other);
      OwnerInSmallerRing(RemoveNode(r, hash, replicas, other), small, hash, replicas, h, node, all);
    }
  }

  /** The first node of a walk, and the ring without it. */
  lemma FirstOfWalk(r: Ring, hash: string -> int, replicas: nat, h: int, all: set<string>)
    requires Canonical(r, hash, replicas) && CollisionFree(hash, replicas, all) && r.nodes <= all && Listed(r)
    requires Encounters(Route(r, h), {}) != []
    ensures var walk := Encounters(Route(r, h), {});
            var left := RemoveNode(r, hash, replicas, walk[0]);
            && Owner(r, h) == Some(walk[0]) && walk[0] in r.nodes
            && Canonical(left, hash, replicas) && Listed(left) && left.nodes == r.nodes - {walk[0]}
            && Encounters(Route(left, h), {}) == walk[1..]
  {
    hide CollisionFree, Canonical, RemoveNode, Route;
    assert Route(r, h) != [];
    RestOfWalk(r, hash, replicas, h, all);
  }

  /** In every smaller ring that has one of the first `k` owners met on the walk, one of these owns the key. */
  lemma {:induction false} OwnerInPrefix(
      r: Ring, small: Ring, hash: string -> int, replicas: nat, h: int, k: nat, n: string, all: set<string>)
    requires Canonical(r, hash, replicas) && CollisionFree(hash, replicas, all) && r.nodes <= all && Listed(r)
    requires Canonical(small, hash, replicas) && small.nodes <= r.nodes && Listed(small)
    requires k <= |Encounters(Route(r, h), {})| && n in Encounters(Route(r, h), {})[..k] && n in small.nodes
    ensures Owner(small, h).Some? && Owner(small, h).value in Encounters(Route(r, h), {})[..k]
    decreases k
  {
    hide CollisionFree, Canonical, RemoveNode, Owner, Encounters, Route;
    var walk := Encounters(Route(r, h), {});
    FirstOfWalk(r, hash, replicas, h, all);
    if walk[0] in small.nodes {
      OwnerInSmallerRing(r, small, hash, replicas, h, walk[0], all);
      assert walk[0] in walk[..k];
    } else {
      var left := RemoveNode(r, hash, replicas, walk[0]);
      assert walk[1..][..k - 1] == walk[..k][1..];
      assert walk[..k] == [walk[0]] + walk[1..][..k - 1];
      OwnerInPrefix(left, small, hash, replicas, h, k - 1, n, all);
    }
  }

  // ----- Only nodes come back that the lookup took off -----

  /** Before request `i`, only nodes are put back that the earlier requests of this lookup have taken off. */
  ghost predicate OwnComebacks(arrivals: seq<seq<string>>, walk: seq<string>, k: nat) {
    forall i, n :: 0 <= i < |arrivals| && n in arrivals[i] ==> n in walk[..if k + i < |walk| then k + i else |walk|]
  }

  lemma OwnRest(arrivals: seq<seq<string>>, walk: seq<string>, k: nat)
    requires OwnComebacks(arrivals, walk, k) && arrivals != []
    ensures OwnComebacks(arrivals[1..], walk, k + 1)
  {
    forall i, n | 0 <= i < |arrivals[1..]| && n in arrivals[1..][i]
      ensures n in walk[..if k + 1 + i < |walk| then k + 1 + i else |walk|]
    {
      assert arrivals[1..][i] == arrivals[i + 1];
    }
  }

  /** Some element up to place `last` is not empty. */
  ghost predicate SomeArrival(arrivals: seq<seq<string>>, last: int) {
    exists i :: 0 <= i < |arrivals| && i <= last && arrivals[i] != []
  }

  lemma SomeArrivalRest(arrivals: seq<seq<string>>, last: nat)
    requires arrivals != [] && arrivals[0] == []
    ensures SomeArrival(arrivals, last) <==> SomeArrival(arrivals[1..], last - 1)
  {
    if SomeArrival(arrivals, last) {
      var i :| 0 <= i < |arrivals| && i <= last && arrivals[i] != [];
      assert arrivals[1..][i - 1] == arrivals[i];
    }
    if SomeArrival(arrivals[1..], last - 1) {
      var i :| 0 <= i < |arrivals[1..]| && i <= last - 1 && arrivals[1..][i] != [];
      assert arrivals[i + 1] == arrivals[1..][i];
    }
  }

  /** The ring `t` that is left of `r` after the first `k` owners were tried, in vain. */
  ghost predicate Left(t: Ring, r: Ring, hash: string -> int, replicas: nat, walk: seq<string>, k: nat) {
    k <= |walk| && Canonical(t, hash, replicas) && Listed(t) && t.nodes == r.nodes - Elements(walk[..k])
  }

  /** The next owner is the next node of the walk. */
  lemma NextOwner(r: Ring, t: Ring, hash: string -> int, replicas: nat, h: int, k: nat, all: set<string>)
    requires Canonical(r, hash, replicas) && CollisionFree(hash, replicas, all) && r.nodes <= all && Listed(r)
    requires Left(t, r, hash, replicas, Encounters(Route(r, h), {}), k) && k < |Encounters(Route(r, h), {})|
    ensures Owner(t, h) == Some(Encounters(Route(r, h), {})[k])
    ensures var left := RemoveNode(t, hash, replicas, Encounters(Route(r, h), {})[k]);
            Left(left, r, hash, replicas, Encounters(Route(r, h), {}), k + 1)
    ensures Elements(Encounters(Route(r, h), {})[..k + 1])
         == Elements(Encounters(Route(r, h), {})[..k]) + {Encounters(Route(r, h), {})[k]}
  {
    hide CollisionFree, Canonical, RemoveNode, Owner, Encounters, Route;
    var walk := Encounters(Route(r, h), {});
    WalkMembers(r, hash, replicas, h);
    var next := walk[k];
    assert next in walk && next !in walk[..k];
    assert walk[..k + 1] == walk[..k] + [next];
    OwnerInPrefix(r, t, hash, replicas, h, k + 1, next, all);
    OwnerOnRing(t, hash, replicas, h);
    RemoveCanonical(t, hash, replicas, next, all);
    RemovedNodes(t, hash, replicas, next);
  }

  /** A node that was tried is put back: it owns the key, or another one that was tried. */
  lemma TriedOwns(
      r: Ring, t: Ring, hash: string -> int, replicas: nat, h: int, k: nat, back: seq<string>, all: set<string>)
    requires Canonical(r, hash, replicas) && CollisionFree(hash, replicas, all) && r.nodes <= all && Listed(r)
    requires Left(t, r, hash, replicas, Encounters(Route(r, h), {}), k)
    requires back != [] && forall n :: n in back ==> n in Encounters(Route(r, h), {})[..k]
    ensures var ring := AddAll(t, hash, replicas, back);
            Listed(ring) && Owner(ring, h).Some? && Owner(ring, h).value in Encounters(Route(r, h), {})[..k]
  {
    hide CollisionFree, Canonical, AddAll, Owner, Encounters, Route;
    var walk := Encounters(Route(r, h), {});
    WalkMembers(r, hash, replicas, h);
    forall n | n in back ensures n in r.nodes {
      assert n in walk[..k] && n in walk;
    }
    RoundCanonical(t, hash, replicas, h, back, all);
    assert back[0] in back;
    OwnerInPrefix(r, AddAll(t, hash, replicas, back), hash, replicas, h, k, back[0], all);
  }

  /** One round, where `ring` is the ring with the arrivals. */
  lemma OneRound<R>(
      t: Ring, ring: Ring, hash: string -> int, replicas: nat, key: string, answers: map<string, R>, tried: set<string>,
      arrivals: seq<seq<string>>, node: string)
    requires Listed(t) && Listed(ring) && arrivals != [] && ring == AddAll(t, hash, replicas, arrivals[0])
    requires Owner(ring, hash(key)) == Some(node) && node != ""
    ensures var outcome := LookupAmid(t, hash, replicas, key, answers, tried, arrivals).outcome;
            var left := RemoveNode(ring, hash, replicas, node);
            && (node in tried ==> outcome == AllUnreachable)
            && (node !in tried && node in answers ==> outcome == Served(answers[node]))
            && (node !in tried && node !in answers ==>
                  && Listed(left)
                  && outcome == LookupAmid(left, hash, replicas, key, answers, tried + {node}, arrivals[1..]).outcome)
  {
    hide AddAll, Owner, RemoveNode;
    RemovedNodes(ring, hash, replicas, node);
  }

  lemma {:induction false} ComebackDecidesFrom<R>(
      r: Ring, t: Ring, hash: string -> int, replicas: nat, key: string, answers: map<string, R>, k: nat,
      arrivals: seq<seq<string>>, all: set<string>)
    requires Canonical(r, hash, replicas) && CollisionFree(hash, replicas, all) && r.nodes <= all && Listed(r)
    requires Left(t, r, hash, replicas, Encounters(Route(r, hash(key)), {}), k)
    requires var walk := Encounters(Route(r, hash(key)), {});
             var stop := FirstStop(walk, answers);
             && k <= stop < |walk| && walk[stop] != "" && stop - k < |arrivals|
             && OwnComebacks(arrivals, walk, k)
    ensures var walk := Encounters(Route(r, hash(key)), {});
            LookupAmid(t, hash, replicas, key, answers, Elements(walk[..k]), arrivals).outcome.AllUnreachable?
            <==> SomeArrival(arrivals, FirstStop(walk, answers) - k)
    decreases |arrivals|
  {
    hide CollisionFree, Canonical, RemoveNode, Owner, Encounters, Route, FirstStop, AddAll, OwnComebacks, LookupAmid,
         SomeArrival;
    var h := hash(key);
    var walk := Encounters(Route(r, h), {});
    var stop := FirstStop(walk, answers);
    WalkMembers(r, hash, replicas, h);
    OwnFirst(arrivals, walk, k);
    var ring := AddAll(t, hash, replicas, arrivals[0]);
    FirstArrival(arrivals, stop - k);
    if arrivals[0] != [] {
      TriedOwns(r, t, hash, replicas, h, k, arrivals[0], all);
      var node := Owner(ring, h).value;
      var i :| 0 <= i < k && walk[i] == node;
      OneRound(t, ring, hash, replicas, key, answers, Elements(walk[..k]), arrivals, node);
    } else {
      NothingBack(t, hash, replicas);
      NextOwner(r, t, hash, replicas, h, k, all);
      OnlyTried(walk, k);
      OneRound(t, t, hash, replicas, key, answers, Elements(walk[..k]), arrivals, walk[k]);
      if k < stop {
        OwnRest(arrivals, walk, k);
        SomeArrivalRest(arrivals, stop - k);
        ComebackDecidesFrom(r, RemoveNode(t, hash, replicas, walk[k]), hash, replicas, key, answers, k + 1, arrivals[1..],
          all);
      }
    }
  }

  lemma FirstArrival(arrivals: seq<seq<string>>, last: nat)
    requires arrivals != []
    ensures arrivals[0] != [] ==> SomeArrival(arrivals, last)
    ensures arrivals[0] == [] ==> !SomeArrival(arrivals, 0)
  {
  }

  lemma OwnFirst(arrivals: seq<seq<string>>, walk: seq<string>, k: nat)
    requires OwnComebacks(arrivals, walk, k) && arrivals != [] && k <= |walk|
    ensures forall n :: n in arrivals[0] ==> n in walk[..k]
  {
  }

  lemma NothingBack(t: Ring, hash: string -> int, replicas: nat)
    ensures AddAll(t, hash, replicas, []) == t
  {
  }

  lemma OnlyTried(walk: seq<string>, k: nat)
    requires Distinct(walk) && k < |walk|
    ensures walk[k] !in Elements(walk[..k])
  {
  }

  /** When only nodes come back that this lookup took off the ring, and some node of the ring is up, the lookup fails
      if and only if one of them comes back before the request to the first owner that answers. */
  lemma OwnComebacksDecide<R>(
      r: Ring, hash: string -> int, replicas: nat, key: string, answers: map<string, R>, arrivals: seq<seq<string>>,
      all: set<string>)
    requires Canonical(r, hash, replicas) && CollisionFree(hash, replicas, all) && r.nodes <= all && Listed(r)
    requires "" !in all && replicas > 0 && |r.nodes| <= |arrivals|
    requires exists n :: n in r.nodes && n in answers
    requires OwnComebacks(arrivals, Encounters(Route(r, hash(key)), {}), 0)
    ensures var walk := Encounters(Route(r, hash(key)), {});
            LookupAmid(r, hash, replicas, key, answers, {}, arrivals).outcome.AllUnreachable?
            <==> SomeArrival(arrivals, FirstStop(walk, answers))
  {
    hide CollisionFree, Canonical, Owner, Encounters, Route, FirstStop, LookupAmid, OwnComebacks, SomeArrival;
    var walk := Encounters(Route(r, hash(key)), {});
    WalkMembers(r, hash, replicas, hash(key));
    DistinctSize(walk, r.nodes);
    var n :| n in r.nodes && n in answers;
    assert n in walk;
    var i :| 0 <= i < |walk| && walk[i] == n;
    var stop := FirstStop(walk, answers);
    assert stop < |walk| && walk[stop] in walk;
    assert walk[..0] == [] && Elements(walk[..0]) == {};
    ComebackDecidesFrom(r, r, hash, replicas, key, answers, 0, arrivals, all);
  }

  // ----- Any known node may come back -----

  /** Some arrivals make the lookup fail. */
  ghost predicate CanFail<R>(
      r: Ring, hash: string -> int, replicas: nat, key: string, answers: map<string, R>, requests: nat, all: set<string>)
    requires Listed(r)
  {
    exists arrivals: seq<seq<string>> :: |arrivals| == requests && Known(arrivals, all)
      && LookupAmid(r, hash, replicas, key, answers, {}, arrivals).outcome.AllUnreachable?
  }

  /** The node `d` is down, and owns the key when it is on the ring. */
  ghost predicate DownOwner<R>(
      r: Ring, hash: string -> int, replicas: nat, key: string, answers: map<string, R>, d: string)
    requires Listed(r)
  {
    AddNodeListed(r, hash, replicas, d);
    d !in answers && Owner(AddNode(r, hash, replicas, d), hash(key)) == Some(d)
  }

  /** The node `d` is put back before each of `n` requests. */
  function Insisting(d: string, n: nat): (arrivals: seq<seq<string>>)
    ensures |arrivals| == n && forall i :: 0 <= i < n ==> arrivals[i] == [d]
  {
    if n == 0 then [] else [[d]] + Insisting(d, n - 1)
  }

  lemma OneBack(r: Ring, hash: string -> int, replicas: nat, d: string)
    ensures AddAll(r, hash, replicas, [d]) == AddNode(r, hash, replicas, d)
  {
    assert [d][..0] == [];
  }

  lemma InsistingFails<R>(
      r: Ring, hash: string -> int, replicas: nat, key: string, answers: map<string, R>, requests: nat, d: string,
      all: set<string>)
    requires Canonical(r, hash, replicas) && CollisionFree(hash, replicas, all) && r.nodes <= all && Listed(r)
    requires d in all && d != "" && requests >= 2 && DownOwner(r, hash, replicas, key, answers, d)
    ensures LookupAmid(r, hash, replicas, key, answers, {}, Insisting(d, requests)).outcome.AllUnreachable?
  {
    hide CollisionFree, Canonical, RemoveNode, AddNode, AddAll, Owner, LookupAmid;
    AddCanonical(r, hash, replicas, d, all);
    AddedNodes(r, hash, replicas, d);
    AddNodeListed(r, hash, replicas, d);
    var ring := AddNode(r, hash, replicas, d);
    RemoveAddIdentity(ring, hash, replicas, d, all);
    RemovedNodes(ring, hash, replicas, d);
    var left := RemoveNode(ring, hash, replicas, d);
    OneBack(r, hash, replicas, d);
    OneBack(left, hash, replicas, d);
    var arrivals := Insisting(d, requests);
    assert arrivals[0] == [d] && arrivals[1..] != [] && arrivals[1..][0] == [d];
    OneRound(r, ring, hash, replicas, key, answers, {}, arrivals, d);
    OneRound(left, ring, hash, replicas, key, answers, {} + {d}, arrivals[1..], d);
  }

  /** A lookup on a ring with a node that is up can fail, for some nodes put back during it, if and only if some known
      node is down and owns the key when it is on the ring. */
  lemma CanFailIffDownOwner<R>(
      r: Ring, hash: string -> int, replicas: nat, key: string, answers: map<string, R>, requests: nat, all: set<string>)
    requires Canonical(r, hash, replicas) && CollisionFree(hash, replicas, all) && r.nodes <= all && Listed(r)
    requires "" !in all && replicas > 0 && requests >= 2
    requires exists n :: n in r.nodes && n in answers
    ensures CanFail(r, hash, replicas, key, answers, requests, all)
            <==> exists d :: d in all && DownOwner(r, hash, replicas, key, answers, d)
  {
    hide CollisionFree, Canonical, LookupAmid, DownOwner;
    if d :| d in all && DownOwner(r, hash, replicas, key, answers, d) {
      InsistingFails(r, hash, replicas, key, answers, requests, d, all);
      assert Known(Insisting(d, requests), all);
    }
    if CanFail(r, hash, replicas, key, answers, requests, all) {
      var arrivals: seq<seq<string>> :| |arrivals| == requests && Known(arrivals, all)
        && LookupAmid(r, hash, replicas, key, answers, {}, arrivals).outcome.AllUnreachable?;
      var d := FirstOwnerIsDown(r, hash, replicas, key, answers, arrivals, all);
    }
  }

  lemma FirstOwnerIsDown<R>(
      r: Ring, hash: string -> int, replicas: nat, key: string, answers: map<string, R>, arrivals: seq<seq<string>>,
      all: set<string>) returns (d: string)
    requires Canonical(r, hash, replicas) && CollisionFree(hash, replicas, all) && r.nodes <= all && Listed(r)
    requires "" !in all && replicas > 0 && arrivals != [] && Known(arrivals, all)
    requires exists n :: n in r.nodes && n in answers
    requires LookupAmid(r, hash, replicas, key, answers, {}, arrivals).outcome.AllUnreachable?
    ensures d in all && DownOwner(r, hash, replicas, key, answers, d)
  {
    hide CollisionFree, Canonical, RemoveNode, AddNode, AddAll, Owner;
    KnownRest(arrivals, all);
    RoundCanonical(r, hash, replicas, hash(key), arrivals[0], all);
    var ring := AddAll(r, hash, replicas, arrivals[0]);
    d := Owner(ring, hash(key)).value;
    AddCanonical(r, hash, replicas, d, all);
    AddedNodes(r, hash, replicas, d);
    AddNodeListed(r, hash, replicas, d);
    OwnerInSmallerRing(ring, AddNode(r, hash, replicas, d), hash, replicas, hash(key), d, all);
  }

  // ----- One failing lookup -----

  /** A ring of three nodes with one replica each, met in this order from 0. */
  function ThreeNodes(a: string, b: string, c: string): Ring { Ring({a, b, c}, map[1 := a, 2 := b, 3 := c], [1, 2, 3]) }

  ghost predicate ThreePoints(hash: string -> int, a: string, b: string, c: string) {
    Point(hash, a, 0) == 1 && Point(hash, b, 0) == 2 && Point(hash, c, 0) == 3
  }

  lemma OnePoint(hash: string -> int, n: string)
    ensures Points(hash, n, 1) == [Point(hash, n, 0)]
  {
  }

  lemma ThreeNodesCanonical(hash: string -> int, a: string, b: string, c: string)
    requires ThreePoints(hash, a, b, c)
    ensures CollisionFree(hash, 1, {a, b, c}) && Canonical(ThreeNodes(a, b, c), hash, 1)
  {
    OnePoint(hash, a);
    OnePoint(hash, b);
    OnePoint(hash, c);
    hide Points, Point;
    assert OwnersRight({a, b, c}, map[1 := a, 2 := b, 3 := c], hash, 1);
  }

  lemma ThreeNodesRoute(a: string, b: string, c: string)
    ensures Listed(ThreeNodes(a, b, c)) && Route(ThreeNodes(a, b, c), 0) == [a, b, c]
  {
    var r := ThreeNodes(a, b, c);
    ClockwiseIsRotation(r.keys, 0, 0);
    assert Clockwise(r.keys, 0) == [1, 2, 3];
  }

  lemma ThreeNodesWalk(a: string, b: string, c: string)
    requires a != b && a != c && b != c
    ensures Listed(ThreeNodes(a, b, c))
    ensures Encounters(Route(ThreeNodes(a, b, c), 0), {}) == [a, b, c]
  {
    hide Route;
    ThreeNodesRoute(a, b, c);
    assert {a} + {b} == {a, b} && {} + {a} == {a};
    NewFirst(c, [], {a, b});
    NewFirst(b, [c], {a});
    NewFirst(a, [b, c], {});
    assert [c] + [] == [c] && [b] + [c] == [b, c] && [a] + [b, c] == [a, b, c];
  }

  lemma NewFirst(n: string, rest: seq<string>, seen: set<string>)
    requires n !in seen
    ensures Encounters([n] + rest, seen) == [n] + Encounters(rest, seen + {n})
  {
    assert ([n] + rest)[1..] == rest;
  }

  lemma StopsAtThird<R>(a: string, b: string, c: string, answers: map<string, R>)
    requires a != "" && b != "" && a !in answers && b !in answers && c in answers
    ensures FirstStop([a, b, c], answers) == 2
  {
    assert [a, b, c][1..] == [b, c] && [b, c][1..] == [c];
    assert FirstStop([b, c], answers) == 1 + FirstStop([c], answers);
  }

  function ExamplePoint(s: string): int {
    if s == "a#0" then 1 else if s == "b#0" then 2 else if s == "c#0" then 3 else 0
  }

  /** `a` and `b` are down and `c` is up; `a` is put back while `b` is being asked, and the lookup returns the
      error without asking `c`. */
  lemma ComebackExample()
    ensures Listed(ThreeNodes("a", "b", "c"))
    ensures var result :=
              LookupAmid(ThreeNodes("a", "b", "c"), ExamplePoint, 1, "k", map["c" := 7], {}, [[], [], ["a"]]);
            result.outcome == AllUnreachable && "c" in result.ring.nodes
  {
    hide LookupAmid, CollisionFree, Canonical, Encounters, Route;
    assert Label("a", 0) == "a#0" && Label("b", 0) == "b#0" && Label("c", 0) == "c#0";
    assert "a#0"[0] != "b#0"[0] && "a#0"[0] != "c#0"[0] && "b#0"[0] != "c#0"[0];
    assert |"k"| != |"a#0"| && |"k"| != |"b#0"| && |"k"| != |"c#0"|;
    ComebackOfThree(ExamplePoint, "k", "a", "b", "c");
  }

  lemma ComebackOfThree(hash: string -> int, key: string, a: string, b: string, c: string)
    requires ThreePoints(hash, a, b, c) && hash(key) == 0
    requires a != b && a != c && b != c && "" !in {a, b, c}
    ensures Listed(ThreeNodes(a, b, c))
    ensures var result := LookupAmid(ThreeNodes(a, b, c), hash, 1, key, map[c := 7], {}, [[], [], [a]]);
            result.outcome == AllUnreachable && c in result.ring.nodes
  {
    hide CollisionFree, Canonical, LookupAmid, Encounters, Route;
    var r, answers, arrivals := ThreeNodes(a, b, c), map[c := 7], [[], [], [a]];
    ThreeNodesCanonical(hash, a, b, c);
    ThreeNodesWalk(a, b, c);
    StopsAtThird(a, b, c, answers);
    assert c in r.nodes && |r.nodes| == 3;
    assert arrivals[2] != [] && [a, b, c][..2] == [a, b];
    assert OwnComebacks(arrivals, [a, b, c], 0);
    OwnComebacksDecide(r, hash, 1, key, answers, arrivals, {a, b, c});
    LookupAmidCanonical(r, hash, 1, key, answers, {}, arrivals, {a, b, c});
  }
}
