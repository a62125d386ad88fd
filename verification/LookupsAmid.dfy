/** Lookups during which background threads put nodes back on the ring. */
module LookupsAmid {
  import opened Sequences
  import opened HashRings
  import opened RingTheorems
  import opened CacheClients
  import opened FailoverTheorems

  /** Only these nodes are put back. */
  ghost predicate Known(arrivals: seq<seq<string>>, all: set<string>) {
    forall i, n :: 0 <= i < |arrivals| && n in arrivals[i] ==> n in all
  }

  lemma KnownRest(arrivals: seq<seq<string>>, all: set<string>)
    requires Known(arrivals, all) && arrivals != []
    ensures (forall n :: n in arrivals[0] ==> n in all) && Known(arrivals[1..], all)
  {
    forall i, n | 0 <= i < |arrivals[1..]| && n in arrivals[1..][i] ensures n in all {
      assert arrivals[1..][i] == arrivals[i + 1];
    }
  }

  lemma OwnerOnRing(r: Ring, hash: string -> int, replicas: nat, h: int)
    requires Canonical(r, hash, replicas)
    ensures Listed(r)
    ensures Owner(r, h).Some? ==> Owner(r, h).value in r.nodes
    ensures replicas > 0 && Owner(r, h).None? ==> r.nodes == {}
  {
    CanonicalIsListed(r, hash, replicas);
    RouteOfNodes(r, hash, replicas, h);
    forall n | n in r.nodes && replicas > 0 ensures n in Route(r, h) {
      NodeOnRoute(r, hash, replicas, h, n);
    }
  }

  /** One round of a lookup, from canonical ring to canonical ring. */
  lemma RoundCanonical(
      r: Ring, hash: string -> int, replicas: nat, h: int, back: seq<string>, all: set<string>)
    requires Canonical(r, hash, replicas) && CollisionFree(hash, replicas, all) && r.nodes <= all
    requires forall n :: n in back ==> n in all
    ensures var ring := AddAll(r, hash, replicas, back);
            && Canonical(ring, hash, replicas) && Listed(ring)
            && ring.nodes == r.nodes + Elements(back) && ring.nodes <= all
            && (Owner(ring, h).Some? ==>
                  var node := Owner(ring, h).value;
                  var left := RemoveNode(ring, hash, replicas, node);
                  && node in ring.nodes
                  && Canonical(left, hash, replicas) && Listed(left) && left.nodes == ring.nodes - {node})
            && (replicas > 0 && Owner(ring, h).None? ==> ring.nodes == {})
  {
    hide CollisionFree, Canonical, RemoveNode, AddAll, Owner;
    AddAllCanonical(r, hash, replicas, back, all);
    var ring := AddAll(r, hash, replicas, back);
    OwnerOnRing(ring, hash, replicas, h);
    if Owner(ring, h).Some? {
      var node := Owner(ring, h).value;
      RemoveCanonical(ring, hash, replicas, node, all);
      RemovedNodes(ring, hash, replicas, node);
    }
  }

  lemma {:induction false} LookupAmidCanonical<R>(
      r: Ring, hash: string -> int, replicas: nat, key: string, answers: map<string, R>, tried: set<string>,
      arrivals: seq<seq<string>>, all: set<string>)
    requires Canonical(r, hash, replicas) && CollisionFree(hash, replicas, all) && r.nodes <= all && Listed(r)
    requires Known(arrivals, all)
    ensures var result := LookupAmid(r, hash, replicas, key, answers, tried, arrivals);
            && Canonical(result.ring, hash, replicas) && Listed(result.ring) && result.ring.nodes <= all
            && forall n :: n in r.nodes && n in answers ==> n in result.ring.nodes
    decreases |arrivals|
  {
    hide CollisionFree, Canonical, RemoveNode, AddAll, Owner;
    if arrivals != [] {
      KnownRest(arrivals, all);
      RoundCanonical(r, hash, replicas, hash(key), arrivals[0], all);
      var ring := AddAll(r, hash, replicas, arrivals[0]);
      var node := Owner(ring, hash(key));
      if node.Some? && node.value != "" && node.value !in tried && node.value !in answers {
        LookupAmidCanonical(RemoveNode(ring, hash, replicas, node.value), hash, replicas, key, answers,
          tried + {node.value}, arrivals[1..], all);
      }
    }
  }

  lemma FewerLeft(all: set<string>, tried: set<string>, node: string)
    requires node in all && node !in tried
    ensures |all - (tried + {node})| == |all - tried| - 1
  {
    assert all - tried == (all - (tried + {node})) + {node};
  }

  lemma AllTried(all: set<string>, tried: set<string>)
    requires |all - tried| == 0
    ensures all <= tried
  {
    assert all - tried == {};
    assert forall n :: n in all && n !in tried ==> n in all - tried;
  }

  /** What a lookup returns, whatever comes back during it: the reply of the owner that the key has in the ring
      at the end, if this node answers, and otherwise the error. */
  lemma {:induction false} OwnerAtTheEndDecides<R>(
      r: Ring, hash: string -> int, replicas: nat, key: string, answers: map<string, R>, tried: set<string>,
      arrivals: seq<seq<string>>, all: set<string>)
    requires Canonical(r, hash, replicas) && CollisionFree(hash, replicas, all) && r.nodes <= all && Listed(r)
    requires Known(arrivals, all) && "" !in all
    requires tried !! answers.Keys && |all - tried| <= |arrivals|
    ensures var result := LookupAmid(r, hash, replicas, key, answers, tried, arrivals);
            Listed(result.ring) &&
            var owner := Owner(result.ring, hash(key));
            if owner.Some? && owner.value in answers then
              && result.outcome == Served(answers[owner.value])
              && result.contacted != [] && result.contacted[|result.contacted| - 1] == owner.value
            else result.outcome == AllUnreachable
    decreases |arrivals|
  {
    hide CollisionFree, Canonical, RemoveNode, AddAll, Owner;
    if arrivals == [] {
      AllTried(all, tried);
      OwnerOnRing(r, hash, replicas, hash(key));
    } else {
      KnownRest(arrivals, all);
      RoundCanonical(r, hash, replicas, hash(key), arrivals[0], all);
      var ring := AddAll(r, hash, replicas, arrivals[0]);
      var node := Owner(ring, hash(key));
      if node.Some? && node.value !in tried && node.value !in answers {
        FewerLeft(all, tried, node.value);
        OwnerAtTheEndDecides(RemoveNode(ring, hash, replicas, node.value), hash, replicas, key, answers,
          tried + {node.value}, arrivals[1..], all);
      }
    }
  }

  /** Only nodes that answer are put back. */
  ghost predicate Recovered<R>(arrivals: seq<seq<string>>, answers: map<string, R>) { Known(arrivals, answers.Keys) }

  /** All nodes on the ring are down. */
  ghost predicate NobodyAnswers<R>(r: Ring, answers: map<string, R>) { forall n :: n in r.nodes ==> n !in answers }

  lemma {:induction false} HealthyError<R>(
      r: Ring, hash: string -> int, replicas: nat, key: string, answers: map<string, R>, tried: set<string>,
      arrivals: seq<seq<string>>, all: set<string>)
    requires Canonical(r, hash, replicas) && CollisionFree(hash, replicas, all) && r.nodes <= all && Listed(r)
    requires Known(arrivals, all) && Recovered(arrivals, answers)
    requires "" !in all && replicas > 0
    requires tried !! answers.Keys && tried !! r.nodes && |all - tried| <= |arrivals|
    ensures var result := LookupAmid(r, hash, replicas, key, answers, tried, arrivals);
            result.outcome.AllUnreachable? ==> NobodyAnswers(result.ring, answers)
    decreases |arrivals|
  {
    hide CollisionFree, Canonical, RemoveNode, AddAll, Owner;
    if arrivals == [] {
      AllTried(all, tried);
    } else {
      KnownRest(arrivals, all);
      KnownRest(arrivals, answers.Keys);
      RoundCanonical(r, hash, replicas, hash(key), arrivals[0], all);
      var ring := AddAll(r, hash, replicas, arrivals[0]);
      assert ring.nodes !! tried;
      var node := Owner(ring, hash(key));
      if node.Some? && node.value !in answers {
        FewerLeft(all, tried, node.value);
        HealthyError(RemoveNode(ring, hash, replicas, node.value), hash, replicas, key, answers,
          tried + {node.value}, arrivals[1..], all);
      }
    }
  }

  /** When only nodes that answer come back, a lookup fails exactly when all nodes then on the ring are down, and it
      is answered as soon as one node of the ring is up. */
  lemma HealthyLookupHits<R>(
      r: Ring, hash: string -> int, replicas: nat, key: string, answers: map<string, R>, arrivals: seq<seq<string>>,
      all: set<string>)
    requires Canonical(r, hash, replicas) && CollisionFree(hash, replicas, all) && r.nodes <= all && Listed(r)
    requires Known(arrivals, all) && Recovered(arrivals, answers)
    requires "" !in all && replicas > 0 && |all| <= |arrivals|
    ensures var result := LookupAmid(r, hash, replicas, key, answers, {}, arrivals);
            && (result.outcome.AllUnreachable? <==> NobodyAnswers(result.ring, answers))
            && ((exists n :: n in r.nodes && n in answers) ==> result.outcome.Served?)
            && (result.outcome.Served? ==> exists n :: n in answers && result.outcome.reply == answers[n])
  {
    hide CollisionFree, Canonical, AddAll, Owner, LookupAmid;
    assert all - {} == all;
    HealthyError(r, hash, replicas, key, answers, {}, arrivals, all);
    OwnerAtTheEndDecides(r, hash, replicas, key, answers, {}, arrivals, all);
    LookupAmidCanonical(r, hash, replicas, key, answers, {}, arrivals, all);
    var result := LookupAmid(r, hash, replicas, key, answers, {}, arrivals);
    OwnerOnRing(result.ring, hash, replicas, hash(key));
  }

  lemma Commute(r: Ring, hash: string -> int, replicas: nat, node: string, back: string, all: set<string>)
    requires Canonical(r, hash, replicas) && CollisionFree(hash, replicas, all) && r.nodes <= all
    requires back in all && back != node
    ensures RemoveNode(AddNode(r, hash, replicas, back), hash, replicas, node)
         == AddNode(RemoveNode(r, hash, replicas, node), hash, replicas, back)
  {
    hide Canonical, CollisionFree, AddNode, RemoveNode;
    AddCanonical(r, hash, replicas, back, all);
    AddedNodes(r, hash, replicas, back);
    RemoveCanonical(r, hash, replicas, node, all);
    RemovedNodes(r, hash, replicas, node);
    var with, without := AddNode(r, hash, replicas, back), RemoveNode(r, hash, replicas, node);
    RemoveCanonical(with, hash, replicas, node, all);
    RemovedNodes(with, hash, replicas, node);
    AddCanonical(without, hash, replicas, back, all);
    AddedNodes(without, hash, replicas, back);
    assert RemoveNode(with, hash, replicas, node).nodes == AddNode(without, hash, replicas, back).nodes;
    Determined(RemoveNode(with, hash, replicas, node), AddNode(without, hash, replicas, back), hash, replicas);
  }

  /** A node that comes back during a request might as well come back right after it: the two orders of the
      change leave the same ring. (Putting back the node that is being asked changes nothing.) */
  lemma RecoveryDuringRequest(
      r: Ring, hash: string -> int, replicas: nat, node: string, back: string, all: set<string>)
    requires Canonical(r, hash, replicas) && CollisionFree(hash, replicas, all) && r.nodes <= all
    requires node in r.nodes && back in all
    ensures back != node ==>
      RemoveNode(AddNode(r, hash, replicas, back), hash, replicas, node)
      == AddNode(RemoveNode(r, hash, replicas, node), hash, replicas, back)
    ensures back == node ==> AddNode(r, hash, replicas, back) == r
  {
    if back != node {
      Commute(r, hash, replicas, node, back, all);
    }
  }
}
