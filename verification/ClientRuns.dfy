/** Whole runs of a client: lookups, and nodes that come back between and during them. */
module ClientRuns {
  import opened Sequences
  import opened HashRings
  import opened RingTheorems
  import opened CacheClients
  import opened FailoverTheorems
  import opened LookupsAmid
  import opened Comebacks

  /** What happens to a client: lookups, with the nodes that come back during them, and nodes that come back
      between lookups. */
  datatype Event<R> =
    | Fetched(key: string, answers: map<string, R>, arrivals: seq<seq<string>>)
    | Returned(node: string)

  ghost predicate Possible<R>(e: Event<R>, nodes: seq<string>) {
    match e
    case Fetched(_, _, arrivals) => |arrivals| == |nodes| && Known(arrivals, Elements(nodes))
    case Returned(node) => node in nodes
  }

  /** The ring of a client after some events. */
  ghost function RingAfter<R>(nodes: seq<string>, hash: string -> int, replicas: nat, events: seq<Event<R>>): (r: Ring)
    ensures Listed(r)
    decreases |events|
  {
    if events == [] then
      AddAllListed(EmptyRing(), hash, replicas, nodes);
      AddAll(EmptyRing(), hash, replicas, nodes)
    else
      var r := RingAfter(nodes, hash, replicas, events[..|events| - 1]);
      match events[|events| - 1]
      case Fetched(key, answers, arrivals) =>
        LookupListed(r, hash, replicas, key, answers, {}, arrivals);
        LookupAmid(r, hash, replicas, key, answers, {}, arrivals).ring
      case Returned(node) => AddNode(r, hash, replicas, node)
  }

  lemma {:induction false} LookupListed<R>(
      r: Ring, hash: string -> int, replicas: nat, key: string, answers: map<string, R>, tried: set<string>,
      arrivals: seq<seq<string>>)
    requires Listed(r)
    ensures Listed(LookupAmid(r, hash, replicas, key, answers, tried, arrivals).ring)
    decreases |arrivals|
  {
    hide Owner, RemoveNode, AddAll;
    if arrivals != [] {
      AddAllListed(r, hash, replicas, arrivals[0]);
      var ring := AddAll(r, hash, replicas, arrivals[0]);
      var node := Owner(ring, hash(key));
      if !(node.None? || node.value == "" || node.value in tried || node.value in answers) {
        RemovedNodes(ring, hash, replicas, node.value);
        LookupListed(RemoveNode(ring, hash, replicas, node.value), hash, replicas, key, answers, tried + {node.value},
          arrivals[1..]);
      }
    }
  }

  /** After any events, the ring is canonical and holds only known nodes. */
  lemma {:induction false} ClientRingCanonical<R>(
      nodes: seq<string>, hash: string -> int, replicas: nat, events: seq<Event<R>>)
    requires CollisionFree(hash, replicas, Elements(nodes))
    requires forall e :: e in events ==> Possible(e, nodes)
    ensures var r := RingAfter(nodes, hash, replicas, events);
            Canonical(r, hash, replicas) && r.nodes <= Elements(nodes)
    decreases |events|
  {
    var all := Elements(nodes);
    if events == [] {
      AddAllCanonical(EmptyRing(), hash, replicas, nodes, all);
    } else {
      var before, last := events[..|events| - 1], events[|events| - 1];
      assert last in events && forall e :: e in before ==> e in events;
      ClientRingCanonical(nodes, hash, replicas, before);
      var r := RingAfter(nodes, hash, replicas, before);
      match last
      case Fetched(key, answers, arrivals) =>
        LookupAmidCanonical(r, hash, replicas, key, answers, {}, arrivals, all);
      case Returned(node) => AddCanonical(r, hash, replicas, node, all);
    }
  }

  /** In every run of a client, with nodes that come back between and during lookups, a lookup returns the reply of the
      owner that the key has in the ring at the end, if this node answers, and otherwise the error. While some
      node of the ring is up, it fails for some arrivals if and only if some known node is down and owns the
      key when it is on the ring; and with arrivals of nodes only that it took off itself, if and only if one
      comes before the request to the first owner that answers. Without arrivals it is a ring walk. */
  lemma EveryLookup<R>(
      nodes: seq<string>, hash: string -> int, replicas: nat, events: seq<Event<R>>,
      key: string, answers: map<string, R>, arrivals: seq<seq<string>>)
    requires CollisionFree(hash, replicas, Elements(nodes))
    requires forall e :: e in events + [Fetched(key, answers, arrivals)] ==> Possible(e, nodes)
    requires replicas > 0 && "" !in nodes
    ensures var r := RingAfter(nodes, hash, replicas, events);
            var result := LookupAmid(r, hash, replicas, key, answers, {}, arrivals);
            var walk := Encounters(Route(r, hash(key)), {});
            && Listed(result.ring)
            && (result.outcome.Served? <==>
                  Owner(result.ring, hash(key)).Some? && Owner(result.ring, hash(key)).value in answers)
            && (|nodes| >= 2 && (exists n :: n in r.nodes && n in answers) ==>
                  (CanFail(r, hash, replicas, key, answers, |nodes|, Elements(nodes))
                   <==> exists d :: d in nodes && DownOwner(r, hash, replicas, key, answers, d)))
            && (OwnComebacks(arrivals, walk, 0) && (exists n :: n in r.nodes && n in answers) ==>
                  (result.outcome.AllUnreachable? <==> SomeArrival(arrivals, FirstStop(walk, answers))))
            && (arrivals == Quiet(|nodes|) ==> IsWalk(result, r, walk, FirstStop(walk, answers), answers))
  {
    assert Possible(Fetched(key, answers, arrivals), nodes);
    assert forall e :: e in events ==> Possible(e, nodes);
    ClientRingCanonical(nodes, hash, replicas, events);
    var r, all := RingAfter(nodes, hash, replicas, events), Elements(nodes);
    assert all - {} == all && "" !in all;
    ElementsSize(nodes);
    SubsetSize(r.nodes, all);
    hide CollisionFree, Canonical, LookupAmid, RingAfter, Owner, Encounters, Route, CanFail, DownOwner, FirstStop,
         OwnComebacks, SomeArrival;
    OwnerAtTheEndDecides(r, hash, replicas, key, answers, {}, arrivals, all);
    if exists n :: n in r.nodes && n in answers {
      if |nodes| >= 2 {
        CanFailIffDownOwner(r, hash, replicas, key, answers, |nodes|, all);
      }
      if OwnComebacks(arrivals, Encounters(Route(r, hash(key)), {}), 0) {
        OwnComebacksDecide(r, hash, replicas, key, answers, arrivals, all);
      }
    }
    if arrivals == Quiet(|nodes|) {
      FailoverIsRingWalk(r, hash, replicas, key, answers, |nodes|, all);
    }
  }
}
