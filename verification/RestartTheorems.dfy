/** What a restart of a node with Redis changes in its later answers. */
module RestartTheorems {
  import opened Sequences
  import opened OrderedDicts
  import Lrus = LruCaches
  import opened LayerScanCaches
  import opened TwoLevelTheorems

  /** Lookups, deletions and puts, each at one instant. */
  datatype Request<D> = Fetch(key: string, at: real) | Forget(key: string, at: real) | Store(key: string, data: D, at: real)

  function AfterRequest<D>(n: Node<D>, ttl: int, request: Request<D>): (r: Node<D>)
    requires n.lru.cache.WellFormed()
    ensures r.lru.cache.WellFormed()
  {
    match request
    case Fetch(k, at) => Get(n, k, at, at).0
    case Forget(k, _) => Delete(n, k)
    case Store(k, d, at) => Put(n, ttl, k, d, at, at, at)
  }

  /** The answers to a sequence of requests; only a lookup answers something. */
  function Answers<D>(n: Node<D>, ttl: int, requests: seq<Request<D>>): seq<Option<D>>
    requires n.lru.cache.WellFormed()
    decreases |requests|
  {
    if requests == [] then []
    else
      var answer := if requests[0].Fetch? then Get(n, requests[0].key, requests[0].at, requests[0].at).1 else None;
      [answer] + Answers(AfterRequest(n, ttl, requests[0]), ttl, requests[1..])
  }

  ghost predicate Chronological<D>(requests: seq<Request<D>>, from: real) {
    requests == [] || (from <= requests[0].at && Chronological(requests[1..], requests[0].at))
  }

  /** Both nodes are coherent, and from `from` on their Redis maps answer alike. */
  ghost predicate AnswerAlike<D>(a: Node<D>, b: Node<D>, from: real) {
    && Coherent(a) && Coherent(b)
    && forall k, at :: from <= at ==> Answer(a.redis.value, k, at) == Answer(b.redis.value, k, at)
  }

  lemma GetKeepsAnswer<D>(n: Node<D>, k: string, at: real, j: string, later: real)
    requires Coherent(n) && at <= later
    ensures Get(n, k, at, at).0.redis.Some?
    ensures Answer(Get(n, k, at, at).0.redis.value, j, later) == Answer(n.redis.value, j, later)
  {
  }

  /** A lookup changes no later answer. */
  lemma GetKeepsAnswers<D>(n: Node<D>, k: string, at: real)
    requires Coherent(n)
    ensures Coherent(Get(n, k, at, at).0)
    ensures forall j, later :: at <= later ==>
      Answer(Get(n, k, at, at).0.redis.value, j, later) == Answer(n.redis.value, j, later)
  {
    GetCoherent(n, k, at, at);
    forall j: string, later: real | at <= later
      ensures Answer(Get(n, k, at, at).0.redis.value, j, later) == Answer(n.redis.value, j, later)
    {
      GetKeepsAnswer(n, k, at, j, later);
    }
  }

  lemma DeleteForgets<D>(n: Node<D>, k: string)
    requires Coherent(n)
    ensures Coherent(Delete(n, k))
    ensures forall j, at :: Answer(Delete(n, k).redis.value, j, at) == if j == k then None else Answer(n.redis.value, j, at)
  {
  }

  /** The key that a put takes out of Redis while it still answers: the one that the full LRU evicts, which is the
      key of the put itself when there is no room at all. */
  ghost function Loses<D>(n: Node<D>, ttl: int, k: string, d: D, at: real): Option<string>
    requires n.lru.cache.WellFormed() && n.redis.Some?
  {
    var p := Payload(d, at, at + ttl as real);
    var evicted := Lrus.Evicted(n.lru, n.capacity, k, p);
    if Truthy(evicted) && (evicted.value == k || Answer(n.redis.value, evicted.value, at).Some?) then evicted else None
  }

  /** What Redis answers for `j` after a put of `k`. */
  ghost function AnswerPut<D>(n: Node<D>, ttl: int, k: string, d: D, at: real, j: string, later: real): Option<D>
    requires n.lru.cache.WellFormed() && n.redis.Some?
  {
    var p := Payload(d, at, at + ttl as real);
    var evicted := Lrus.Evicted(n.lru, n.capacity, k, p);
    if Truthy(evicted) && evicted == Some(j) then None
    else if j == k then (if later <= p.expiresAt then Some(d) else None)
    else Answer(n.redis.value, j, later)
  }

  lemma AnswerAfterPut<D>(n: Node<D>, ttl: int, k: string, d: D, at: real, j: string, later: real)
    requires Coherent(n) && ttl > 0
    ensures var m := Put(n, ttl, k, d, at, at, at);
            m.redis.Some? && Answer(m.redis.value, j, later) == AnswerPut(n, ttl, k, d, at, j, later)
  {
    hide Lrus.Put, Lrus.Evicted;
  }

  /** Two nodes that answer alike still do so after the same put, exactly when the put loses them the same key. */
  lemma PutKeepsAlike<D>(a: Node<D>, b: Node<D>, ttl: int, k: string, d: D, at: real)
    requires AnswerAlike(a, b, at) && ttl > 0
    ensures AnswerAlike(Put(a, ttl, k, d, at, at, at), Put(b, ttl, k, d, at, at, at), at)
            <==> Loses(a, ttl, k, d, at) == Loses(b, ttl, k, d, at)
  {
    PutCoherent(a, ttl, k, d, at, at, at);
    PutCoherent(b, ttl, k, d, at, at, at);
    var a', b' := Put(a, ttl, k, d, at, at, at), Put(b, ttl, k, d, at, at, at);
    var x, y := Loses(a, ttl, k, d, at), Loses(b, ttl, k, d, at);
    if x == y {
      hide Put, Loses, AnswerPut, Coherent;
      forall j: string, later: real | at <= later
        ensures Answer(a'.redis.value, j, later) == Answer(b'.redis.value, j, later)
      {
        AnswerAfterPut(a, ttl, k, d, at, j, later);
        AnswerAfterPut(b, ttl, k, d, at, j, later);
        SameLossAlike(a, b, ttl, k, d, at, j, later);
      }
    } else {
      var j := if x.Some? then x.value else y.value;
      AnswerAfterPut(a, ttl, k, d, at, j, at);
      AnswerAfterPut(b, ttl, k, d, at, j, at);
      OtherLossDiffers(a, b, ttl, k, d, at);
    }
  }

  lemma SameLossAlike<D>(a: Node<D>, b: Node<D>, ttl: int, k: string, d: D, at: real, j: string, later: real)
    requires AnswerAlike(a, b, at) && ttl > 0 && at <= later
    requires Loses(a, ttl, k, d, at) == Loses(b, ttl, k, d, at)
    ensures AnswerPut(a, ttl, k, d, at, j, later) == AnswerPut(b, ttl, k, d, at, j, later)
  {
    hide Lrus.Evicted;
    assert Answer(a.redis.value, j, at) == Answer(b.redis.value, j, at);
    assert Answer(a.redis.value, j, later) == Answer(b.redis.value, j, later);
    assert Answer(a.redis.value, j, at).None? ==> Answer(a.redis.value, j, later).None?;
  }

  lemma OtherLossDiffers<D>(a: Node<D>, b: Node<D>, ttl: int, k: string, d: D, at: real)
    requires AnswerAlike(a, b, at) && ttl > 0
    requires Loses(a, ttl, k, d, at) != Loses(b, ttl, k, d, at)
    ensures var x, y := Loses(a, ttl, k, d, at), Loses(b, ttl, k, d, at);
            var j := if x.Some? then x.value else y.value;
            AnswerPut(a, ttl, k, d, at, j, at) != AnswerPut(b, ttl, k, d, at, j, at)
  {
    hide Lrus.Evicted;
    var x, y := Loses(a, ttl, k, d, at), Loses(b, ttl, k, d, at);
    var j := if x.Some? then x.value else y.value;
    assert Answer(a.redis.value, j, at) == Answer(b.redis.value, j, at);
  }

  /** The two nodes lose the same keys to the puts among the requests. */
  ghost predicate SameLosses<D>(a: Node<D>, b: Node<D>, ttl: int, requests: seq<Request<D>>)
    requires Coherent(a) && Coherent(b) && ttl > 0
    decreases |requests|
  {
    if requests == [] then true
    else
      RequestCoherent(a, ttl, requests[0]);
      RequestCoherent(b, ttl, requests[0]);
      && (requests[0].Store? ==>
            Loses(a, ttl, requests[0].key, requests[0].data, requests[0].at)
            == Loses(b, ttl, requests[0].key, requests[0].data, requests[0].at))
      && SameLosses(AfterRequest(a, ttl, requests[0]), AfterRequest(b, ttl, requests[0]), ttl, requests[1..])
  }

  lemma RequestCoherent<D>(n: Node<D>, ttl: int, request: Request<D>)
    requires Coherent(n) && ttl > 0
    ensures Coherent(AfterRequest(n, ttl, request))
  {
    match request
    case Fetch(k, at) => GetCoherent(n, k, at, at);
    case Forget(k, _) => DeleteCoherent(n, k);
    case Store(k, d, at) => PutCoherent(n, ttl, k, d, at, at, at);
  }

  lemma {:induction false} AlikeAnswerAlike<D>(a: Node<D>, b: Node<D>, ttl: int, requests: seq<Request<D>>, from: real)
    requires AnswerAlike(a, b, from) && Chronological(requests, from) && ttl > 0
    requires SameLosses(a, b, ttl, requests)
    ensures Answers(a, ttl, requests) == Answers(b, ttl, requests)
    decreases |requests|
  {
    if requests != [] {
      RequestCoherent(a, ttl, requests[0]);
      RequestCoherent(b, ttl, requests[0]);
      match requests[0] {
        case Fetch(k, at) =>
          GetIsRedisLookup(a, k, at, at);
          GetIsRedisLookup(b, k, at, at);
          GetKeepsAnswers(a, k, at);
          GetKeepsAnswers(b, k, at);
        case Forget(k, at) =>
          DeleteForgets(a, k);
          DeleteForgets(b, k);
        case Store(k, d, at) =>
          PutKeepsAlike(a, b, ttl, k, d, at);
      }
      hide Get, Put, Delete, Loses;
      AlikeAnswerAlike(AfterRequest(a, ttl, requests[0]), AfterRequest(b, ttl, requests[0]), ttl, requests[1..],
        requests[0].at);
    }
  }

  lemma {:induction false} ReadsLoseNothing<D>(a: Node<D>, b: Node<D>, ttl: int, requests: seq<Request<D>>)
    requires Coherent(a) && Coherent(b) && ttl > 0 && forall r :: r in requests ==> !r.Store?
    ensures SameLosses(a, b, ttl, requests)
    decreases |requests|
  {
    if requests != [] {
      RequestCoherent(a, ttl, requests[0]);
      RequestCoherent(b, ttl, requests[0]);
      assert forall r :: r in requests[1..] ==> r in requests;
      ReadsLoseNothing(AfterRequest(a, ttl, requests[0]), AfterRequest(b, ttl, requests[0]), ttl, requests[1..]);
    }
  }

  lemma RestartAlike<D>(n: Node<D>, newCapacity: int, keys: seq<string>, now: real)
    requires Coherent(n)
    ensures AnswerAlike(Restart(n.redis, newCapacity, keys, now), n, now)
  {
    RestartCoherent(n.redis.value, newCapacity, keys, now);
    var m := Restart(n.redis, newCapacity, keys, now);
    forall k, at | now <= at ensures Answer(m.redis.value, k, at) == Answer(n.redis.value, k, at) {
      RestartKeepsAnswer(n.redis.value, newCapacity, keys, now, k, at);
    }
  }

  /** Restart transparency with puts: after any run, losing the memory and warming a new LRU of any capacity from
      the same Redis changes no answer to later requests, as long as the puts among them lose the same keys
      with the new memory as with the old. */
  lemma RestartTransparencyWithPuts<D>(
      capacity: int, ttl: int, calls: seq<Call<D>>, newCapacity: int, keys: seq<string>, now: real,
      requests: seq<Request<D>>)
    requires ttl > 0 && forall c :: c in calls ==> ClockRuns(c)
    requires Chronological(requests, now)
    ensures var n := Run(NewNode(capacity, true), ttl, calls);
            var m := Restart(n.redis, newCapacity, keys, now);
            && Coherent(m) && Coherent(n)
            && (SameLosses(m, n, ttl, requests) ==> Answers(m, ttl, requests) == Answers(n, ttl, requests))
  {
    RunCoherent(capacity, ttl, calls);
    var n := Run(NewNode(capacity, true), ttl, calls);
    hide Run, Restart;
    var m := Restart(n.redis, newCapacity, keys, now);
    RestartAlike(n, newCapacity, keys, now);
    if SameLosses(m, n, ttl, requests) {
      AlikeAnswerAlike(m, n, ttl, requests, now);
    }
  }

  /** Restart transparency for lookups and deletions, which lose no other key: no condition is left. */
  lemma RestartTransparency<D>(
      capacity: int, ttl: int, calls: seq<Call<D>>, newCapacity: int, keys: seq<string>, now: real,
      requests: seq<Request<D>>)
    requires ttl > 0 && forall c :: c in calls ==> ClockRuns(c)
    requires Chronological(requests, now) && forall r :: r in requests ==> !r.Store?
    ensures var n := Run(NewNode(capacity, true), ttl, calls);
            Answers(Restart(n.redis, newCapacity, keys, now), ttl, requests) == Answers(n, ttl, requests)
  {
    RestartTransparencyWithPuts(capacity, ttl, calls, newCapacity, keys, now, requests);
    var n := Run(NewNode(capacity, true), ttl, calls);
    ReadsLoseNothing(Restart(n.redis, newCapacity, keys, now), n, ttl, requests);
  }

  // ----- A restart that shows -----

  function Entry(data: int): Payload<int> { Payload(data, 0.0, 60.0) }

  /** A full node: `x` and then `y` were put. */
  lemma TwoEntries() returns (n: Node<int>)
    ensures n == Run(NewNode(2, true), 60, [PutCall("x", 7, 0.0, 0.0, 0.0), PutCall("y", 8, 0.0, 0.0, 0.0)])
    ensures Coherent(n) && n.capacity == 2
    ensures n.lru.cache == Dict(["x", "y"], map["x" := Entry(7), "y" := Entry(8)])
    ensures n.redis == Some(map["x" := Stored(Entry(7), 60.0), "y" := Stored(Entry(8), 60.0)])
  {
    var x, y := PutCall("x", 7, 0.0, 0.0, 0.0), PutCall("y", 8, 0.0, 0.0, 0.0);
    var start: Node<int> := NewNode(2, true);
    assert "x"[0] != "y"[0];
    assert [x][..0] == [] && [x, y][..1] == [x];
    assert Run(start, 60, []) == start;
    var one := Put(start, 60, "x", 7, 0.0, 0.0, 0.0);
    assert Run(start, 60, [x]) == one;
    n := Put(one, 60, "y", 8, 0.0, 0.0, 0.0);
    assert Run(start, 60, [x, y]) == n;
    PutNewKey(start.lru, 2, "x", Entry(7));
    PutNewKey(one.lru, 2, "y", Entry(8));
    RunCoherent<int>(2, 60, [x, y]);
  }

  /** Two live entries are warmed in the order in which Redis lists them. */
  lemma WarmedInListingOrder(redis: Redis<int>, first: string, second: string, now: real)
    requires first != second && IsLive(redis, first, now) && IsLive(redis, second, now)
    ensures Restart(Some(redis), 2, [first, second], now).lru.cache.order == [first, second]
  {
    hide Warm, Answer, IsLive;
    WarmOrder(redis, 2, [first, second], now);
    KeepAll([first, second], LiveIn(redis, now));
  }

  /** A put into a full node loses the first key of its LRU, and only this one. */
  lemma AnotherPut(n: Node<int>, first: string, second: string, k: string, d: int)
    requires Coherent(n) && n.capacity == 2 && n.lru.cache.order == [first, second]
    requires first != second && k != first && k != second && first != ""
    ensures Get(Put(n, 60, k, d, 2.0, 2.0, 2.0), first, 3.0, 3.0).1 == None
    ensures Get(Put(n, 60, k, d, 2.0, 2.0, 2.0), second, 3.0, 3.0).1 == Answer(n.redis.value, second, 3.0)
  {
    assert k !in n.lru.cache.vals;
    PutNewKey(n.lru, 2, k, Payload(d, 2.0, 62.0));
    hide Get, Put, Coherent, Answer;
    var m := Put(n, 60, k, d, 2.0, 2.0, 2.0);
    PutCoherent(n, 60, k, d, 2.0, 2.0, 2.0);
    AnswerAfterPut(n, 60, k, d, 2.0, first, 3.0);
    AnswerAfterPut(n, 60, k, d, 2.0, second, 3.0);
    GetIsRedisLookup(m, first, 3.0, 3.0);
    GetIsRedisLookup(m, second, 3.0, 3.0);
  }

  lemma RestartCapacity<D>(redis: Redis<D>, capacity: int, keys: seq<string>, now: real)
    ensures Restart(Some(redis), capacity, keys, now).capacity == capacity
  {
  }

  /** A failing input: `x` and then `y` fill a node, and a restart with the same room warms them in the other order. A
      put of `z` then loses `y`, where the old process would have lost `x`. */
  lemma RestartExample()
    ensures var n := Run(NewNode(2, true), 60, [PutCall("x", 7, 0.0, 0.0, 0.0), PutCall("y", 8, 0.0, 0.0, 0.0)]);
            var m := Restart(n.redis, 2, ["y", "x"], 1.0);
            var n', m' := Put(n, 60, "z", 9, 2.0, 2.0, 2.0), Put(m, 60, "z", 9, 2.0, 2.0, 2.0);
            && Get(n', "x", 3.0, 3.0).1 == None && Get(n', "y", 3.0, 3.0).1 == Some(8)
            && Get(m', "x", 3.0, 3.0).1 == Some(7) && Get(m', "y", 3.0, 3.0).1 == None
  {
    hide Run, Restart, Get, Put;
    var n := TwoEntries();
    var m := Restart(n.redis, 2, ["y", "x"], 1.0);
    assert "x"[0] != "y"[0] && "x"[0] != "z"[0] && "y"[0] != "z"[0];
    WarmedInListingOrder(n.redis.value, "y", "x", 1.0);
    RestartCoherent(n.redis.value, 2, ["y", "x"], 1.0);
    RestartCapacity(n.redis.value, 2, ["y", "x"], 1.0);
    RestartKeepsAnswer(n.redis.value, 2, ["y", "x"], 1.0, "x", 3.0);
    AnotherPut(n, "x", "y", "z", 9);
    AnotherPut(m, "y", "x", "z", 9);
  }
}
