/** The client of the cache nodes: lookups that fail over along the ring, and writes to every node. */
module CacheClients {
  import opened Sequences
  import opened HashRings

  // ----- Lookups -----

  datatype Outcome<R> = Served(reply: R) | AllUnreachable

  /** What one lookup does: its outcome, the ring it leaves, and the nodes it contacted, in order. */
  datatype Lookup<R> = Lookup(outcome: Outcome<R>, ring: Ring, contacted: seq<string>)

  /** Asks the owner; while it does not answer, takes it off the ring and asks the new owner. `answers` has
      the reply of each node whose request succeeds. There is one request for each element of `arrivals` at
      most, which lists the nodes that background threads put back on the ring before it. */
  function LookupAmid<R>(
      r: Ring, hash: string -> int, replicas: nat, key: string, answers: map<string, R>, tried: set<string>,
      arrivals: seq<seq<string>>): Lookup<R>
    requires Listed(r)
    decreases |arrivals|
  {
    if arrivals == [] then Lookup(AllUnreachable, r, [])
    else
      AddAllListed(r, hash, replicas, arrivals[0]);
      var ring := AddAll(r, hash, replicas, arrivals[0]);
      var node := Owner(ring, hash(key));
      if node.None? || node.value == "" || node.value in tried then
        Lookup(AllUnreachable, ring, [])
      else if node.value in answers then
        Lookup(Served(answers[node.value]), ring, [node.value])
      else
        RemovedNodes(ring, hash, replicas, node.value);
        Contacting(node.value,
          LookupAmid(RemoveNode(ring, hash, replicas, node.value), hash, replicas, key, answers, tried + {node.value},
            arrivals[1..]))
  }

  function Contacting<R>(node: string, rest: Lookup<R>): Lookup<R> {
    rest.(contacted := [node] + rest.contacted)
  }

  /** Before none of `n` requests is a node put back. */
  function Quiet(n: nat): seq<seq<string>> {
    if n == 0 then [] else [[]] + Quiet(n - 1)
  }

  /** A lookup during which no node is put back on the ring, with at most `tries` requests. */
  function Failover<R>(
      r: Ring, hash: string -> int, replicas: nat, key: string, answers: map<string, R>, tried: set<string>, tries: nat)
    : Lookup<R>
    requires Listed(r)
  {
    LookupAmid(r, hash, replicas, key, answers, tried, Quiet(tries))
  }

  /** A lookup whose first owner does not answer goes on without it. */
  lemma FailoverRetries<R>(
      r: Ring, hash: string -> int, replicas: nat, key: string, answers: map<string, R>, tried: set<string>, tries: nat,
      node: string)
    requires Listed(r) && tries > 0
    requires Owner(r, hash(key)) == Some(node) && node != "" && node !in tried && node !in answers
    ensures Listed(RemoveNode(r, hash, replicas, node))
    ensures Failover(r, hash, replicas, key, answers, tried, tries) == Contacting(node,
              Failover(RemoveNode(r, hash, replicas, node), hash, replicas, key, answers, tried + {node}, tries - 1))
  {
    hide RemoveNode, Owner;
    RemovedNodes(r, hash, replicas, node);
    assert Quiet(tries)[0] == [] && Quiet(tries)[1..] == Quiet(tries - 1);
  }

  lemma FailoverEnds<R>(
      r: Ring, hash: string -> int, replicas: nat, key: string, answers: map<string, R>, tried: set<string>, tries: nat)
    requires Listed(r)
    ensures var node := Owner(r, hash(key));
            var result := Failover(r, hash, replicas, key, answers, tried, tries);
            && (tries == 0 || node.None? || node.value == "" || node.value in tried ==>
                  result == Lookup(AllUnreachable, r, []))
            && (tries > 0 && node.Some? && node.value != "" && node.value !in tried && node.value in answers ==>
                  result == Lookup(Served(answers[node.value]), r, [node.value]))
  {
    hide Owner;
    if tries > 0 {
      assert Quiet(tries)[0] == [];
    }
  }

  /** The rest of a lookup, after the requests of `contacted`. */
  ghost function After<R>(contacted: seq<string>, rest: Lookup<R>): Lookup<R> {
    rest.(contacted := contacted + rest.contacted)
  }

  /** One round of a lookup that has contacted `contacted` before, where `ring` is the ring with the arrivals. */
  lemma Round<R>(
      r: Ring, hash: string -> int, replicas: nat, key: string, answers: map<string, R>, tried: set<string>,
      arrivals: seq<seq<string>>, contacted: seq<string>)
    requires Listed(r) && arrivals != []
    ensures Listed(AddAll(r, hash, replicas, arrivals[0]))
    ensures var ring := AddAll(r, hash, replicas, arrivals[0]);
            var node := Owner(ring, hash(key));
            var result := After(contacted, LookupAmid(r, hash, replicas, key, answers, tried, arrivals));
            if node.None? || node.value == "" || node.value in tried then
              result == Lookup(AllUnreachable, ring, contacted)
            else if node.value in answers then
              result == Lookup(Served(answers[node.value]), ring, contacted + [node.value])
            else
              var left := RemoveNode(ring, hash, replicas, node.value);
              && Listed(left)
              && result == After(contacted + [node.value],
                   LookupAmid(left, hash, replicas, key, answers, tried + {node.value}, arrivals[1..]))
  {
    hide RemoveNode, Owner;
    AddAllListed(r, hash, replicas, arrivals[0]);
    var ring := AddAll(r, hash, replicas, arrivals[0]);
    var node := Owner(ring, hash(key));
    assert contacted + [] == contacted;
    if node.Some? {
      RemovedNodes(ring, hash, replicas, node.value);
      var left := RemoveNode(ring, hash, replicas, node.value);
      var rest := LookupAmid(left, hash, replicas, key, answers, tried + {node.value}, arrivals[1..]);
      assert contacted + ([node.value] + rest.contacted) == contacted + [node.value] + rest.contacted;
    }
  }

  lemma NothingLeft<R>(
      r: Ring, hash: string -> int, replicas: nat, key: string, answers: map<string, R>, tried: set<string>,
      contacted: seq<string>)
    requires Listed(r)
    ensures After(contacted, LookupAmid(r, hash, replicas, key, answers, tried, [])) == Lookup(AllUnreachable, r, contacted)
  {
    assert contacted + [] == contacted;
  }

  // ----- Writes -----

  datatype PutReply = PutDone(written: nat, total: nat) | PutFailed(lastError: Option<string>)

  /** How many of the requests succeeded; None stands for success, Some for an error message. */
  function Successes(outcomes: seq<Option<string>>): (n: nat)
    ensures n <= |outcomes|
    ensures n == |outcomes| <==> forall i :: 0 <= i < |outcomes| ==> outcomes[i].None?
    ensures n == 0 <==> forall i :: 0 <= i < |outcomes| ==> outcomes[i].Some?
  {
    if outcomes == [] then 0
    else
      var last := outcomes[|outcomes| - 1];
      Successes(outcomes[..|outcomes| - 1]) + if last.None? then 1 else 0
  }

  /** The requests that succeeded. */
  ghost function Succeeded(outcomes: seq<Option<string>>): set<nat> {
    set i: nat | i < |outcomes| && outcomes[i].None?
  }

  /** The count is the number of requests that succeeded. */
  lemma {:induction false} SuccessesCount(outcomes: seq<Option<string>>)
    ensures Successes(outcomes) == |Succeeded(outcomes)|
    decreases |outcomes|
  {
    if outcomes == [] {
      assert Succeeded(outcomes) == {};
    } else {
      var n := |outcomes| - 1;
      SuccessesCount(outcomes[..n]);
      assert Succeeded(outcomes) == Succeeded(outcomes[..n]) + if outcomes[n].None? then {n} else {};
    }
  }

  // ----- The class -----

  class DistributedCacheClient {
    const cacheNodes: seq<string>
    const ring: ConsistentHashRing

    ghost predicate Valid()
      reads this, ring
      ensures Valid() ==> Listed(ring.State())
    {
      RingIsListedIfConsistent(ring.State());
      ring.Valid()
    }

    constructor (cacheNodes: seq<string>, hash: string -> int, virtualReplicas: nat)
      ensures Valid() && fresh(ring) && this.cacheNodes == cacheNodes
      ensures ring.hash == hash && ring.virtualReplicas == virtualReplicas
      ensures ring.State() == AddAll(EmptyRing(), hash, virtualReplicas, cacheNodes)
    {
      this.cacheNodes := cacheNodes;
      ring := new ConsistentHashRing(hash, cacheNodes, virtualReplicas);
    }

    method GetLayerScan<R>(layerHash: string, answers: map<string, R>, arrivals: seq<seq<string>>)
      returns (outcome: Outcome<R>, contacted: seq<string>)
      requires Valid() && |arrivals| == |cacheNodes|
      modifies ring
      ensures Valid()
      ensures Lookup(outcome, ring.State(), contacted)
           == LookupAmid(old(ring.State()), ring.hash, ring.virtualReplicas, layerHash, answers, {}, arrivals)
    {
      hide LookupAmid, AddAll, Owner;
      var tried: set<string> := {};
      contacted := [];
      ghost var all := LookupAmid(ring.State(), ring.hash, ring.virtualReplicas, layerHash, answers, {}, arrivals);
      assert all == After(contacted, all) && arrivals[0..] == arrivals;
      for i := 0 to |cacheNodes|
        invariant Valid()
        invariant all == After(contacted,
            LookupAmid(ring.State(), ring.hash, ring.virtualReplicas, layerHash, answers, tried, arrivals[i..]))
      {
        Round(ring.State(), ring.hash, ring.virtualReplicas, layerHash, answers, tried, arrivals[i..], contacted);
        assert arrivals[i..][0] == arrivals[i] && arrivals[i..][1..] == arrivals[i + 1..];
        ReaddAll(arrivals[i]);
        var node := ring.GetNode(layerHash);
        if node.None? || node.value == "" || node.value in tried {
          return AllUnreachable, contacted;
        }
        if node.value in answers {
          return Served(answers[node.value]), contacted + [node.value];
        }
        tried := tried + {node.value};
        contacted := contacted + [node.value];
        ring.Remove(node.value);
      }
      NothingLeft(ring.State(), ring.hash, ring.virtualReplicas, layerHash, answers, tried, contacted);
      outcome := AllUnreachable;
    }

    /** Background threads that end one after the other, each for a healthy node. */
    method ReaddAll(nodes: seq<string>)
      requires Valid()
      modifies ring
      ensures Valid()
      ensures ring.State() == AddAll(old(ring.State()), ring.hash, ring.virtualReplicas, nodes)
    {
      for i := 0 to |nodes|
        invariant Valid()
        invariant ring.State() == AddAll(old(ring.State()), ring.hash, ring.virtualReplicas, nodes[..i])
      {
        assert nodes[..i + 1][..i] == nodes[..i];
        CheckAndReadd(nodes[i], true);
      }
      assert nodes[..|nodes|] == nodes;
    }

    /** What the background thread does some time after a node was taken off the ring. */
    method CheckAndReadd(node: string, healthy: bool)
      requires Valid()
      modifies ring
      ensures Valid()
      ensures ring.State() ==
        if healthy then AddNode(old(ring.State()), ring.hash, ring.virtualReplicas, node) else old(ring.State())
    {
      if healthy {
        ring.Add(node);
      }
    }

    /** Writes to every known node; `outcomes` is how each request ends. */
    method PutLayerScan(outcomes: seq<Option<string>>) returns (reply: PutReply)
      requires |outcomes| == |cacheNodes|
      ensures reply.PutDone? <==> exists i :: 0 <= i < |outcomes| && outcomes[i].None?
      ensures reply.PutDone? ==> reply.written == Successes(outcomes) == |Succeeded(outcomes)| && reply.total == |cacheNodes|
      ensures reply.PutFailed? && outcomes != [] ==> reply.lastError == outcomes[|outcomes| - 1]
    {
      var success, lastErr := 0, None;
      for i := 0 to |cacheNodes|
        invariant success == Successes(outcomes[..i])
        invariant i > 0 && outcomes[i - 1].Some? ==> lastErr == outcomes[i - 1]
        invariant outcomes == [] ==> lastErr == None
      {
        assert outcomes[..i + 1][..i] == outcomes[..i];
        match outcomes[i]
        case None => success := success + 1;
        case Some(_) => lastErr := outcomes[i];
      }
      assert outcomes[..|cacheNodes|] == outcomes;
      SuccessesCount(outcomes);
      if success == 0 {
        return PutFailed(lastErr);
      }
      return PutDone(success, |cacheNodes|);
    }
  }
}
