/** While no node is put back during a lookup, failover is a walk along the ring. */
module FailoverTheorems {
  import opened Sequences
  import opened HashRings
  import opened RingTheorems
  import opened CacheClients

  // ----- The walk -----

  /** The distinct names of a walk, in the order in which they are first met, without those already seen. */
  function Encounters(route: seq<string>, seen: set<string>): seq<string> {
    if route == [] then []
    else if route[0] in seen then Encounters(route[1..], seen)
    else [route[0]] + Encounters(route[1..], seen + {route[0]})
  }

  lemma {:induction false} EncountersMembers(route: seq<string>, seen: set<string>)
    ensures forall n :: n in Encounters(route, seen) <==> n in route && n !in seen
    ensures Distinct(Encounters(route, seen))
  {
    if route != [] {
      EncountersMembers(route[1..], seen);
      EncountersMembers(route[1..], seen + {route[0]});
      assert route == [route[0]] + route[1..];
    }
  }

  /** Taking a name out of the walk is the same as having seen it. */
  lemma {:induction false} EncountersWithout(route: seq<string>, node: string, seen: set<string>)
    ensures Encounters(Without(route, node), seen) == Encounters(route, seen + {node})
  {
    if route != [] {
      EncountersWithout(route[1..], node, seen);
      EncountersWithout(route[1..], node, seen + {route[0]});
      assert seen + {route[0]} + {node} == seen + {node} + {route[0]};
      var rest := Without(route[1..], node);
      if route[0] != node {
        assert Without(route, node) == [route[0]] + rest;
        assert Without(route, node)[1..] == rest;
      } else {
        assert Without(route, node) == rest;
      }
    }
  }

  /** The place of the first node that ends the walk: one that answers, or one with an empty name, which the
      code takes for no node. It is the length of the list when there is none. */
  function FirstStop<R>(nodes: seq<string>, answers: map<string, R>): (i: nat)
    ensures i <= |nodes|
    ensures forall j :: 0 <= j < i ==> nodes[j] != "" && nodes[j] !in answers
    ensures i < |nodes| ==> nodes[i] == "" || nodes[i] in answers
  {
    if nodes == [] || nodes[0] == "" || nodes[0] in answers then 0
    else 1 + FirstStop(nodes[1..], answers)
  }

  /** What a walk along `nodes` that stops at place `i` does to ring `r`. */
  ghost predicate IsWalk<R>(result: Lookup<R>, r: Ring, nodes: seq<string>, i: nat, answers: map<string, R>)
    requires i <= |nodes| && (i < |nodes| && nodes[i] != "" ==> nodes[i] in answers)
  {
    var answered := i < |nodes| && nodes[i] != "";
    && result.contacted == (if answered then nodes[..i + 1] else nodes[..i])
    && result.outcome == (if answered then Served(answers[nodes[i]]) else AllUnreachable)
    && result.ring.nodes == r.nodes - Elements(nodes[..i])
  }

  /** Without its first owner, a ring has the rest of the walk. */
  lemma RestOfWalk(r: Ring, hash: string -> int, replicas: nat, h: int, all: set<string>)
    requires Canonical(r, hash, replicas) && CollisionFree(hash, replicas, all) && r.nodes <= all
    requires Listed(r) && Route(r, h) != []
    ensures var node, nodes := Route(r, h)[0], Encounters(Route(r, h), {});
            var without := RemoveNode(r, hash, replicas, node);
            && node in r.nodes && nodes != [] && nodes[0] == node
            && without.nodes == r.nodes - {node}
            && Canonical(without, hash, replicas) && Listed(without)
            && Encounters(Route(without, h), {}) == nodes[1..]
  {
    var route := Route(r, h);
    var node := route[0];
    RouteOfNodes(r, hash, replicas, h);
    assert {} + {node} == {node};
    assert Encounters(route, {}) == [node] + Encounters(route[1..], {node});
    RemoveFiltersRoute(r, hash, replicas, node, h, all);
    RemoveCanonical(r, hash, replicas, node, all);
    EncountersWithout(route, node, {});
    assert Encounters(route, {node}) == Encounters(route[1..], {node});
  }

  /** Asking for the owner of `h` and removing it, again and again, yields `nodes` and then nothing. */
  ghost predicate Yields(r: Ring, hash: string -> int, replicas: nat, h: int, nodes: seq<string>)
    decreases |nodes|
  {
    && Listed(r)
    && if nodes == [] then Owner(r, h) == None
       else
         && Owner(r, h) == Some(nodes[0]) && nodes[0] in r.nodes
         && Yields(RemoveNode(r, hash, replicas, nodes[0]), hash, replicas, h, nodes[1..])
  }

  /** A ring yields the distinct owners met going clockwise. */
  lemma {:induction false} RingYieldsWalk(r: Ring, hash: string -> int, replicas: nat, h: int, all: set<string>)
    requires Canonical(r, hash, replicas) && CollisionFree(hash, replicas, all) && r.nodes <= all
    requires Listed(r)
    ensures Yields(r, hash, replicas, h, Encounters(Route(r, h), {}))
    decreases |r.nodes|
  {
    if Route(r, h) != [] {
      RestOfWalk(r, hash, replicas, h, all);
      var node := Route(r, h)[0];
      assert |r.nodes - {node}| == |r.nodes| - 1;
      RingYieldsWalk(RemoveNode(r, hash, replicas, node), hash, replicas, h, all);
    }
  }

  /** A lookup that contacts `nodes` in order until one answers. */
  ghost function WalkAlong<R>(
      r: Ring, hash: string -> int, replicas: nat, nodes: seq<string>, answers: map<string, R>): Lookup<R>
    decreases |nodes|
  {
    if nodes == [] || nodes[0] == "" then Lookup(AllUnreachable, r, [])
    else if nodes[0] in answers then Lookup(Served(answers[nodes[0]]), r, [nodes[0]])
    else Contacting(nodes[0], WalkAlong(RemoveNode(r, hash, replicas, nodes[0]), hash, replicas, nodes[1..], answers))
  }

  lemma {:induction false} FailoverFollows<R>(
      r: Ring, hash: string -> int, replicas: nat, key: string, answers: map<string, R>,
      tried: set<string>, tries: nat, nodes: seq<string>)
    requires Yields(r, hash, replicas, hash(key), nodes) && |nodes| <= tries && tried !! r.nodes
    ensures Failover(r, hash, replicas, key, answers, tried, tries) == WalkAlong(r, hash, replicas, nodes, answers)
    decreases |nodes|
  {
    hide RemoveNode, Owner;
    if nodes == [] || nodes[0] == "" || nodes[0] in answers {
      FailoverEnds(r, hash, replicas, key, answers, tried, tries);
    } else {
      var node := nodes[0];
      RemovedNodes(r, hash, replicas, node);
      FailoverRetries(r, hash, replicas, key, answers, tried, tries, node);
      FailoverFollows(RemoveNode(r, hash, replicas, node), hash, replicas, key, answers, tried + {node}, tries - 1, nodes[1..]);
    }
  }

  lemma {:induction false} WalkAlongIsWalk<R>(
      r: Ring, hash: string -> int, replicas: nat, nodes: seq<string>, answers: map<string, R>)
    requires Distinct(nodes) && forall n :: n in nodes ==> n in r.nodes
    ensures IsWalk(WalkAlong(r, hash, replicas, nodes, answers), r, nodes, FirstStop(nodes, answers), answers)
    decreases |nodes|
  {
    if nodes == [] || nodes[0] == "" || nodes[0] in answers {
      assert Elements(nodes[..0]) == {};
    } else {
      var without := RemoveNode(r, hash, replicas, nodes[0]);
      assert nodes[0] in nodes;
      assert forall n :: n in nodes[1..] ==> n in nodes && n != nodes[0];
      WalkAlongIsWalk(without, hash, replicas, nodes[1..], answers);
      WalkExtends(WalkAlong(without, hash, replicas, nodes[1..], answers), r, without, nodes[0], nodes, answers);
    }
  }

  lemma PrefixShift(nodes: seq<string>, i: nat)
    requires nodes != [] && i < |nodes|
    ensures nodes[..i + 1] == [nodes[0]] + nodes[1..][..i]
    ensures Elements(nodes[..i + 1]) == {nodes[0]} + Elements(nodes[1..][..i])
  {
  }

  /** A walk after one failed request is a walk with that request in front. */
  lemma WalkExtends<R>(
      rest: Lookup<R>, r: Ring, without: Ring, node: string, nodes: seq<string>, answers: map<string, R>)
    requires nodes != [] && nodes[0] == node && node != "" && node !in answers
    requires without.nodes == r.nodes - {node} && IsWalk(rest, without, nodes[1..], FirstStop(nodes[1..], answers), answers)
    ensures IsWalk(Contacting(node, rest), r, nodes, FirstStop(nodes, answers), answers)
  {
    var i := FirstStop(nodes[1..], answers);
    assert FirstStop(nodes, answers) == i + 1;
    PrefixShift(nodes, i);
    if i + 1 < |nodes| {
      assert nodes[1..][i] == nodes[i + 1];
      PrefixShift(nodes, i + 1);
    }
    hide FirstStop, Elements;
    assert Contacting(node, rest).ring.nodes == r.nodes - Elements(nodes[..i + 1]);
  }

  lemma {:induction false} WalkAlongCanonical<R>(
      r: Ring, hash: string -> int, replicas: nat, nodes: seq<string>, answers: map<string, R>, all: set<string>)
    requires Canonical(r, hash, replicas) && CollisionFree(hash, replicas, all) && r.nodes <= all
    ensures Canonical(WalkAlong(r, hash, replicas, nodes, answers).ring, hash, replicas)
    ensures WalkAlong(r, hash, replicas, nodes, answers).ring.nodes <= r.nodes
    decreases |nodes|
  {
    if !(nodes == [] || nodes[0] == "" || nodes[0] in answers) {
      RemoveCanonical(r, hash, replicas, nodes[0], all);
      RemovedNodes(r, hash, replicas, nodes[0]);
      hide Canonical, CollisionFree, RemoveNode;
      WalkAlongCanonical(RemoveNode(r, hash, replicas, nodes[0]), hash, replicas, nodes[1..], answers, all);
    }
  }

  /** Failover is a ring walk: the nodes contacted are exactly the distinct owners met going clockwise from
      the key's hash, up to the first one that answers; the ring loses exactly those that did not and stays
      canonical; and as many tries as the ring has nodes are enough. */
  lemma FailoverIsRingWalk<R>(
      r: Ring, hash: string -> int, replicas: nat, key: string, answers: map<string, R>, tries: nat, all: set<string>)
    requires Canonical(r, hash, replicas) && CollisionFree(hash, replicas, all) && r.nodes <= all
    requires Listed(r) && |r.nodes| <= tries
    ensures var result := Failover(r, hash, replicas, key, answers, {}, tries);
            var nodes := Encounters(Route(r, hash(key)), {});
            && IsWalk(result, r, nodes, FirstStop(nodes, answers), answers)
            && Canonical(result.ring, hash, replicas)
            && Distinct(nodes) && (forall n :: n in nodes ==> n in r.nodes)
            && (replicas > 0 ==> forall n :: n in r.nodes ==> n in nodes)
  {
    var h := hash(key);
    var nodes := Encounters(Route(r, h), {});
    WalkMembers(r, hash, replicas, h);
    DistinctSize(nodes, r.nodes);
    RingYieldsWalk(r, hash, replicas, h, all);
    FailoverFollows(r, hash, replicas, key, answers, {}, tries, nodes);
    WalkAlongIsWalk(r, hash, replicas, nodes, answers);
    WalkAlongCanonical(r, hash, replicas, nodes, answers, all);
  }

  lemma WalkMembers(r: Ring, hash: string -> int, replicas: nat, h: int)
    requires Canonical(r, hash, replicas) && Listed(r)
    ensures var nodes := Encounters(Route(r, h), {});
            && Distinct(nodes) && (forall n :: n in nodes ==> n in r.nodes)
            && (replicas > 0 ==> forall n :: n in r.nodes ==> n in nodes)
  {
    EncountersMembers(Route(r, h), {});
    RouteOfNodes(r, hash, replicas, h);
    forall n | n in r.nodes && replicas > 0 ensures n in Route(r, h) {
      NodeOnRoute(r, hash, replicas, h, n);
    }
  }

  /** A lookup fails exactly when every node of the ring is down; otherwise it returns the reply of a node of
      the ring that answers. (The code takes an empty node name for no node.) */
  lemma ErrorIffAllDown<R>(
      r: Ring, hash: string -> int, replicas: nat, key: string, answers: map<string, R>, tries: nat, all: set<string>)
    requires Canonical(r, hash, replicas) && CollisionFree(hash, replicas, all) && r.nodes <= all
    requires Listed(r) && |r.nodes| <= tries
    requires replicas > 0 && "" !in r.nodes
    ensures var outcome := Failover(r, hash, replicas, key, answers, {}, tries).outcome;
            && (outcome.AllUnreachable? <==> forall n :: n in r.nodes ==> n !in answers)
            && (outcome.Served? ==> exists n :: n in r.nodes && n in answers && outcome.reply == answers[n])
  {
    FailoverIsRingWalk(r, hash, replicas, key, answers, tries, all);
    var nodes := Encounters(Route(r, hash(key)), {});
    var i := FirstStop(nodes, answers);
    if i < |nodes| {
      assert nodes[i] in nodes;
    } else {
      assert forall n :: n in nodes ==> exists j :: 0 <= j < |nodes| && nodes[j] == n;
    }
  }

  // ----- Recovery after a lookup -----

  lemma {:induction false} AddAllCanonical(r: Ring, hash: string -> int, replicas: nat, nodes: seq<string>, all: set<string>)
    requires Canonical(r, hash, replicas) && CollisionFree(hash, replicas, all) && r.nodes <= all
    requires forall n :: n in nodes ==> n in all
    ensures var r' := AddAll(r, hash, replicas, nodes);
            Canonical(r', hash, replicas) && r'.nodes == r.nodes + Elements(nodes)
    decreases |nodes|
  {
    if nodes != [] {
      var before, last := nodes[..|nodes| - 1], nodes[|nodes| - 1];
      assert nodes == before + [last];
      AddAllCanonical(r, hash, replicas, before, all);
      AddCanonical(AddAll(r, hash, replicas, before), hash, replicas, last, all);
      assert Elements(nodes) == Elements(before) + {last};
    }
  }

  /** When the nodes that a lookup took off the ring are all added back, in any order, the ring is exactly
      what it was. */
  lemma RecoveryRestoresRing<R>(
      r: Ring, hash: string -> int, replicas: nat, key: string, answers: map<string, R>, tries: nat,
      recovered: seq<string>, all: set<string>)
    requires Canonical(r, hash, replicas) && CollisionFree(hash, replicas, all) && r.nodes <= all
    requires Listed(r) && |r.nodes| <= tries
    requires Elements(recovered) == r.nodes - Failover(r, hash, replicas, key, answers, {}, tries).ring.nodes
    ensures AddAll(Failover(r, hash, replicas, key, answers, {}, tries).ring, hash, replicas, recovered) == r
  {
    FailoverIsRingWalk(r, hash, replicas, key, answers, tries, all);
    AddingBack(r, Failover(r, hash, replicas, key, answers, {}, tries).ring, hash, replicas, recovered, all);
  }

  lemma AddingBack(r: Ring, left: Ring, hash: string -> int, replicas: nat, recovered: seq<string>, all: set<string>)
    requires Canonical(r, hash, replicas) && CollisionFree(hash, replicas, all) && r.nodes <= all
    requires Canonical(left, hash, replicas) && left.nodes <= r.nodes && Elements(recovered) == r.nodes - left.nodes
    ensures AddAll(left, hash, replicas, recovered) == r
  {
    assert forall n :: n in recovered ==> n in Elements(recovered);
    hide Canonical, CollisionFree;
    AddAllCanonical(left, hash, replicas, recovered, all);
    Determined(AddAll(left, hash, replicas, recovered), r, hash, replicas);
  }
}
