/** A result that was written to every node is found by every later lookup that reaches any node. */
module WriteThrough {
  import opened Sequences
  import opened HashRings
  import opened RingTheorems
  import opened CacheClients
  import opened LookupsAmid
  import Lrus = LruCaches
  import opened LayerScanCaches
  import opened TwoLevelTheorems
  import opened CacheLifetimes

  /** The cache nodes by name. */
  type Cluster<D> = map<string, Node<D>>

  /** The clock readings of one node while it executes a put. */
  datatype Stamps = Stamps(t1: real, t2: real, t3: real)

  ghost predicate AllFit<D>(cluster: Cluster<D>, nodes: seq<string>) {
    forall n :: n in nodes ==> n in cluster && Fits(cluster[n])
  }

  /** The nodes after the client's requests to store `d`, of which those without an error message succeed. */
  ghost function WriteAll<D>(
      cluster: Cluster<D>, nodes: seq<string>, outcomes: seq<Option<string>>, ttl: map<string, int>,
      k: string, d: D, stamps: seq<Stamps>): (r: Cluster<D>)
    requires |outcomes| == |nodes| == |stamps| && AllFit(cluster, nodes)
    requires forall n :: n in nodes ==> n in ttl
    ensures forall n :: n in nodes ==> n in r && Fits(r[n])
    ensures forall n :: n in cluster ==> n in r && r[n].capacity == cluster[n].capacity && (n !in nodes ==> r[n] == cluster[n])
    decreases |nodes|
  {
    if nodes == [] then cluster
    else
      var i := |nodes| - 1;
      assert nodes == nodes[..i] + [nodes[i]];
      var before := WriteAll(cluster, nodes[..i], outcomes[..i], ttl, k, d, stamps[..i]);
      assert nodes[i] in before && Fits(before[nodes[i]]);
      if outcomes[i].Some? then before
      else
        StepFits(before[nodes[i]], ttl[nodes[i]], PutCall(k, d, stamps[i].t1, stamps[i].t2, stamps[i].t3));
        before[nodes[i] := Put(before[nodes[i]], ttl[nodes[i]], k, d, stamps[i].t1, stamps[i].t2, stamps[i].t3)]
  }

  /** The node holds `d` for `k` until at least `until`, with nothing but `others` more recent. */
  ghost predicate Keeps<D>(n: Node<D>, k: string, d: D, until: real, others: set<string>) {
    && k in n.lru.cache.vals
    && Lrus.Held(n.lru, k, n.lru.cache.vals[k], others)
    && n.lru.cache.vals[k].data == d && until <= n.lru.cache.vals[k].expiresAt
  }

  lemma PutKeeps<D>(n: Node<D>, ttl: int, k: string, d: D, s: Stamps, until: real, others: set<string>)
    requires Fits(n) && n.capacity > 0 && until <= s.t2 + ttl as real
    ensures Keeps(Put(n, ttl, k, d, s.t1, s.t2, s.t3), k, d, until, others)
  {
    Lrus.HeldWhenWritten(n.lru, n.capacity, k, Payload(d, s.t1, s.t2 + ttl as real), others);
  }

  lemma {:induction false} WriteAllKeeps<D>(
      cluster: Cluster<D>, nodes: seq<string>, outcomes: seq<Option<string>>, ttl: map<string, int>,
      k: string, d: D, stamps: seq<Stamps>, until: real, n: string, others: set<string>)
    requires |outcomes| == |nodes| == |stamps| && AllFit(cluster, nodes)
    requires forall n :: n in nodes ==> n in ttl
    requires forall i :: 0 <= i < |nodes| ==> outcomes[i].None? && until <= stamps[i].t2 + ttl[nodes[i]] as real
    requires n in nodes && cluster[n].capacity > 0
    ensures Keeps(WriteAll(cluster, nodes, outcomes, ttl, k, d, stamps)[n], k, d, until, others)
    decreases |nodes|
  {
    var i := |nodes| - 1;
    assert nodes == nodes[..i] + [nodes[i]];
    var before := WriteAll(cluster, nodes[..i], outcomes[..i], ttl, k, d, stamps[..i]);
    hide Keeps;
    if n == nodes[i] {
      PutKeeps(before[n], ttl[n], k, d, stamps[i], until, others);
    } else {
      WriteAllKeeps(cluster, nodes[..i], outcomes[..i], ttl, k, d, stamps[..i], until, n, others);
    }
  }

  /** What a lookup of `k` answers on each node that is up. */
  ghost function Replies<D>(cluster: Cluster<D>, up: set<string>, k: string, at: real, at2: real): map<string, Option<D>>
    requires forall n :: n in up ==> n in cluster && cluster[n].lru.cache.WellFormed()
  {
    map n | n in up :: Get(cluster[n], k, at, at2).1
  }

  /** Write-through makes failover reads hit. After a put that reports as many nodes written as there are,
      whatever each node has done since with fewer than `capacity` other keys, a lookup before the expiry
      returns the result, if some node of the ring is up and only nodes that are up come back during it. */
  lemma WriteThroughReadsHit<D>(
      cluster: Cluster<D>, nodes: seq<string>, outcomes: seq<Option<string>>, ttl: map<string, int>,
      k: string, d: D, stamps: seq<Stamps>, until: real,
      now: Cluster<D>, since: map<string, seq<Call<D>>>, others: map<string, set<string>>,
      r: Ring, hash: string -> int, replicas: nat, up: set<string>, at: real, at2: real,
      arrivals: seq<seq<string>>)
    // the put: every request succeeded
    requires |outcomes| == |nodes| == |stamps| && AllFit(cluster, nodes)
    requires Successes(outcomes) == |nodes|
    requires forall n :: n in nodes ==> n in ttl && n in since && n in others
    requires forall i :: 0 <= i < |nodes| ==> until <= stamps[i].t2 + ttl[nodes[i]] as real
    // the nodes since then
    requires forall n :: n in nodes ==> k !in others[n] && |others[n]| < cluster[n].capacity
    requires forall n, c :: n in nodes && c in since[n] ==> Harmless(c, k, until, others[n])
    requires forall n :: n in nodes ==>
      n in now && now[n] == Run(WriteAll(cluster, nodes, outcomes, ttl, k, d, stamps)[n], ttl[n], since[n])
    // the lookup
    requires Canonical(r, hash, replicas) && CollisionFree(hash, replicas, Elements(nodes)) && r.nodes <= Elements(nodes)
    requires Listed(r) && replicas > 0 && "" !in nodes
    requires up <= Elements(nodes) && (exists n :: n in r.nodes && n in up)
    requires |arrivals| == |nodes| && Known(arrivals, up)
    requires at <= until
    ensures (forall n :: n in up ==> n in now && now[n].lru.cache.WellFormed())
      && LookupAmid(r, hash, replicas, k, Replies(now, up, k, at, at2), {}, arrivals).outcome == Served(Some(d))
  {
    hide Run, WriteAll, Get, Keeps, LookupAmid, Canonical, CollisionFree;
    var written := WriteAll(cluster, nodes, outcomes, ttl, k, d, stamps);
    forall n | n in nodes
      ensures now[n].lru.cache.WellFormed() && Get(now[n], k, at, at2).1 == Some(d)
    {
      assert forall i :: 0 <= i < |nodes| ==> outcomes[i].None?;
      WriteAllKeeps(cluster, nodes, outcomes, ttl, k, d, stamps, until, n, others[n]);
      KeptIsRead(written[n], ttl[n], since[n], k, d, until, others[n], at, at2);
    }
    var answers := Replies(now, up, k, at, at2);
    ElementsSize(nodes);
    assert answers.Keys == up;
    HealthyLookupHits(r, hash, replicas, k, answers, arrivals, Elements(nodes));
  }

  lemma KeptIsRead<D>(
      n: Node<D>, ttl: int, calls: seq<Call<D>>, k: string, d: D, until: real, others: set<string>, at: real, at2: real)
    requires Fits(n) && Keeps(n, k, d, until, others) && |others| < n.capacity && k !in others
    requires forall c :: c in calls ==> Harmless(c, k, until, others)
    requires at <= until
    ensures Get(Run(n, ttl, calls), k, at, at2).1 == Some(d)
  {
    var p := n.lru.cache.vals[k];
    assert forall c :: c in calls ==> Harmless(c, k, p.expiresAt, others);
    RunHeld(n, ttl, calls, k, p, others);
  }
}
