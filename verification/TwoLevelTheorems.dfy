/** The two levels of a cache node with Redis agree, over every run of calls and restarts. */
module TwoLevelTheorems {
  import opened Sequences
  import Lrus = LruCaches
  import opened LayerScanCaches

  // ----- Two-level transparency -----

  /** What a lookup in the Redis map alone answers at time `at`: the value, while it has not expired. */
  ghost function Answer<D>(redis: Redis<D>, k: string, at: real): Option<D> {
    var raw := RedisGet(redis, k, at);
    if raw.Some? && at <= raw.value.expiresAt then Some(raw.value.data) else None
  }

  /** Redis keeps what it holds at least as long as the payload says. */
  ghost predicate Durable<D>(redis: Redis<D>) {
    forall k :: k in redis ==> redis[k].payload.expiresAt <= redis[k].dropAt
  }

  /** Redis mode, and every item in memory is in a durable Redis with the same payload. */
  ghost predicate Coherent<D>(n: Node<D>) {
    && n.lru.cache.WellFormed()
    && n.redis.Some?
    && (forall k :: k in n.lru.cache.vals ==>
          k in n.redis.value && n.redis.value[k].payload == n.lru.cache.vals[k])
    && Durable(n.redis.value)
  }

  lemma GetCoherent<D>(n: Node<D>, k: string, t1: real, t2: real)
    requires Coherent(n)
    ensures Coherent(Get(n, k, t1, t2).0)
  {
  }

  lemma PutCoherent<D>(n: Node<D>, ttl: int, k: string, d: D, t1: real, t2: real, t3: real)
    requires Coherent(n) && ttl > 0 && t2 <= t3
    ensures Coherent(Put(n, ttl, k, d, t1, t2, t3))
  {
  }

  lemma DeleteCoherent<D>(n: Node<D>, k: string)
    requires Coherent(n)
    ensures Coherent(Delete(n, k)) && Coherent(HttpDelete(n, k))
  {
  }

  /** `get` answers what Redis alone would answer at one of its two readings of the clock: a value is
      right at `t1`, and no value is right at `t2`. */
  lemma GetIsRedisLookup<D>(n: Node<D>, k: string, t1: real, t2: real)
    requires Coherent(n) && t1 <= t2
    ensures var answer := Get(n, k, t1, t2).1;
            if LruAnswers(n, k, t1) then answer == Answer(n.redis.value, k, t1)
            else answer == Answer(n.redis.value, k, t2)
    ensures Get(n, k, t1, t2).1 == Answer(n.redis.value, k, t1) || Get(n, k, t1, t2).1 == Answer(n.redis.value, k, t2)
  {
  }

  // ----- Warming after a restart -----

  ghost predicate IsLive<D>(redis: Redis<D>, k: string, now: real) { Answer(redis, k, now).Some? }

  ghost function LiveIn<D>(redis: Redis<D>, now: real): string -> bool { k => IsLive(redis, k, now) }

  /** The last `n` elements, or all when there are fewer. */
  function Suffix<T>(s: seq<T>, n: nat): seq<T> {
    if |s| <= n then s else s[|s| - n..]
  }

  /** Warming takes a key out of Redis only if it was listed and has expired, and remembers payloads that Redis holds. */
  ghost predicate KeyWarmed<D>(w: Warming<D>, redis: Redis<D>, keys: seq<string>, now: real, j: string) {
    && (j in w.redis <==> j in redis && (j in keys && now <= redis[j].dropAt ==> IsLive(redis, j, now)))
    && (j in w.redis ==> w.redis[j] == redis[j])
    && (j in w.lru.cache.vals ==> j in w.redis && w.lru.cache.vals[j] == w.redis[j].payload && j in keys)
  }

  lemma WarmOneKeepsKey<D>(
      w: Warming<D>, redis: Redis<D>, capacity: int, keys: seq<string>, k: string, now: real, j: string)
    requires w.lru.cache.WellFormed()
    requires KeyWarmed(w, redis, keys, now, j) && KeyWarmed(w, redis, keys, now, k)
    ensures KeyWarmed(WarmOne(w, capacity, k, now), redis, keys + [k], now, j)
  {
  }

  lemma {:induction false} WarmKeepsKey<D>(redis: Redis<D>, capacity: int, keys: seq<string>, now: real, j: string)
    ensures KeyWarmed(Warm(redis, capacity, keys, now), redis, keys, now, j)
    decreases |keys|
  {
    if keys != [] {
      var before, k := keys[..|keys| - 1], keys[|keys| - 1];
      WarmKeepsKey(redis, capacity, before, now, j);
      WarmKeepsKey(redis, capacity, before, now, k);
      WarmOneKeepsKey(Warm(redis, capacity, before, now), redis, capacity, before, k, now, j);
      assert keys == before + [k];
    }
  }

  /** What warming holds and has counted after the listed keys of which `live` are alive. */
  ghost predicate HoldsSuffix<D>(w: Warming<D>, capacity: int, live: seq<string>, keys: seq<string>) {
    && w.lru.cache.order == Suffix(live, Lrus.Room(capacity))
    && w.restored + w.skipped == |live|
    && ("" !in keys ==> w.restored == |w.lru.cache.order|)
  }

  lemma SuffixAppend(live: seq<string>, k: string, room: nat)
    ensures var order := Suffix(live, room);
            Suffix(live + [k], room) == if |order| + 1 > room then (order + [k])[1..] else order + [k]
  {
  }

  /** A new key goes to the end, and pushes out the oldest one when there is no room. */
  lemma PutNewKey<V>(c: Lrus.Lru<V>, capacity: int, k: string, v: V)
    requires c.cache.WellFormed() && k !in c.cache.vals && |c.cache.order| <= Lrus.Room(capacity)
    ensures var order, room := c.cache.order, Lrus.Room(capacity);
            var full := |order| + 1 > room;
            && Lrus.Put(c, capacity, k, v).cache.order == (if full then (order + [k])[1..] else order + [k])
            && Lrus.Evicted(c, capacity, k, v) == if full then Some((order + [k])[0]) else None
  {
    Lrus.WithoutAbsent(c.cache.order, k);
  }

  lemma WarmOneLive<D>(w: Warming<D>, capacity: int, k: string, now: real)
    requires w.lru.cache.WellFormed() && |w.lru.cache.order| <= Lrus.Room(capacity)
    requires k !in w.lru.cache.vals && IsLive(w.redis, k, now)
    ensures var order, order' := w.lru.cache.order, WarmOne(w, capacity, k, now).lru.cache.order;
            var full := |order| + 1 > Lrus.Room(capacity);
            && order' == (if full then (order + [k])[1..] else order + [k])
            && (WarmOne(w, capacity, k, now).skipped == if full && (order + [k])[0] != "" then w.skipped + 1 else w.skipped)
            && (WarmOne(w, capacity, k, now).restored == if full && (order + [k])[0] != "" then w.restored else w.restored + 1)
  {
    hide Lrus.Put, Lrus.Evicted;
    PutNewKey(w.lru, capacity, k, w.redis[k].payload);
  }

  lemma WarmOneHoldsSuffix<D>(w: Warming<D>, redis: Redis<D>, capacity: int, keys: seq<string>, k: string, now: real)
    requires w.lru.cache.WellFormed() && KeyWarmed(w, redis, keys, now, k) && k !in keys
    requires HoldsSuffix(w, capacity, Keep(keys, LiveIn(redis, now)), keys)
    ensures HoldsSuffix(WarmOne(w, capacity, k, now), capacity, Keep(keys + [k], LiveIn(redis, now)), keys + [k])
  {
    var live := Keep(keys, LiveIn(redis, now));
    KeepConcat(keys, [k], LiveIn(redis, now));
    if IsLive(redis, k, now) {
      assert Keep([k], LiveIn(redis, now)) == [k];
      SuffixAppend(live, k, Lrus.Room(capacity));
      WarmOneLive(w, capacity, k, now);
      KeepMembers(keys, LiveIn(redis, now));
      if w.lru.cache.order != [] {
        assert w.lru.cache.order[0] in live;
      }
    } else {
      assert Keep([k], LiveIn(redis, now)) == [];
      assert live + [] == live;
      assert WarmOne(w, capacity, k, now).lru == w.lru;
    }
  }

  /** The warmed LRU holds exactly the last live keys in the order in which Redis listed them. */
  lemma {:induction false} WarmOrder<D>(redis: Redis<D>, capacity: int, keys: seq<string>, now: real)
    requires Distinct(keys)
    ensures HoldsSuffix(Warm(redis, capacity, keys, now), capacity, Keep(keys, LiveIn(redis, now)), keys)
    decreases |keys|
  {
    if keys != [] {
      var before, k := keys[..|keys| - 1], keys[|keys| - 1];
      assert keys == before + [k] && k !in before;
      WarmOrder(redis, capacity, before, now);
      WarmKeepsKey(redis, capacity, before, now, k);
      WarmOneHoldsSuffix(Warm(redis, capacity, before, now), redis, capacity, before, k, now);
    }
  }

  /** A restart restores as much as fits, and accounts for every live entry. */
  lemma WarmCounts<D>(redis: Redis<D>, capacity: int, keys: seq<string>, now: real)
    requires Durable(redis)
    requires Distinct(keys) && forall k :: k in keys <==> k in RedisKeys(redis, now)
    ensures var w := Warm(redis, capacity, keys, now);
            var live := set k | k in redis && now <= redis[k].payload.expiresAt;
            && w.restored + w.skipped == |live|
            && |w.lru.cache.order| == (if |live| < Lrus.Room(capacity) then |live| else Lrus.Room(capacity))
            && ("" !in keys ==> w.restored == |w.lru.cache.order|)
            && forall k :: k in w.lru.cache.vals ==> k in live
  {
    var live := set k | k in redis && now <= redis[k].payload.expiresAt;
    var kept := Keep(keys, LiveIn(redis, now));
    WarmOrder(redis, capacity, keys, now);
    KeepMembers(keys, LiveIn(redis, now));
    KeepDistinct(keys, LiveIn(redis, now));
    assert forall k :: k in kept <==> k in live;
    DistinctCount(kept, live);
    var w := Warm(redis, capacity, keys, now);
    assert forall k :: k in Suffix(kept, Lrus.Room(capacity)) ==> k in kept;
  }

  lemma RestartCoherent<D>(redis: Redis<D>, capacity: int, keys: seq<string>, now: real)
    requires Durable(redis)
    ensures Coherent(Restart(Some(redis), capacity, keys, now))
  {
    var n := Restart(Some(redis), capacity, keys, now);
    forall k | k in n.lru.cache.vals
      ensures k in n.redis.value && n.redis.value[k].payload == n.lru.cache.vals[k]
    {
      WarmKeepsKey(redis, capacity, keys, now, k);
    }
    forall k | k in n.redis.value
      ensures n.redis.value[k].payload.expiresAt <= n.redis.value[k].dropAt
    {
      WarmKeepsKey(redis, capacity, keys, now, k);
    }
  }

  /** A restart changes no answer that Redis gives from then on. */
  lemma RestartKeepsAnswer<D>(redis: Redis<D>, capacity: int, keys: seq<string>, now: real, k: string, at: real)
    requires now <= at
    ensures Answer(Restart(Some(redis), capacity, keys, now).redis.value, k, at) == Answer(redis, k, at)
  {
    WarmKeepsKey(redis, capacity, keys, now, k);
  }

  // ----- Runs of one node -----

  datatype Call<D> =
    | GetCall(key: string, t1: real, t2: real)
    | PutCall(key: string, data: D, t1: real, t2: real, t3: real)
    | DeleteCall(key: string)
    | HttpDeleteCall(key: string)
    | RestartCall(capacity: int, listed: seq<string>, now: real)

  function Step<D>(n: Node<D>, ttl: int, call: Call<D>): (r: Node<D>)
    requires n.lru.cache.WellFormed()
    ensures r.lru.cache.WellFormed()
  {
    match call
    case GetCall(k, t1, t2) => Get(n, k, t1, t2).0
    case PutCall(k, d, t1, t2, t3) => Put(n, ttl, k, d, t1, t2, t3)
    case DeleteCall(k) => Delete(n, k)
    case HttpDeleteCall(k) => HttpDelete(n, k)
    case RestartCall(capacity, keys, now) => Restart(n.redis, capacity, keys, now)
  }

  function Run<D>(n: Node<D>, ttl: int, calls: seq<Call<D>>): (r: Node<D>)
    requires n.lru.cache.WellFormed()
    ensures r.lru.cache.WellFormed()
    decreases |calls|
  {
    if calls == [] then n
    else Step(Run(n, ttl, calls[..|calls| - 1]), ttl, calls[|calls| - 1])
  }

  /** A node that starts with nothing stored, with Redis or in memory only. */
  function NewNode<D>(capacity: int, withRedis: bool): Node<D> {
    Node(capacity, Lrus.EmptyLru(), if withRedis then Some(map[]) else None, 0, 0, 0)
  }

  /** The clock does not go backwards within a call. */
  ghost predicate ClockRuns<D>(call: Call<D>) {
    match call
    case GetCall(_, t1, t2) => t1 <= t2
    case PutCall(_, _, t1, t2, t3) => t1 <= t2 <= t3
    case _ => true
  }

  lemma {:induction false} RunCoherent<D>(capacity: int, ttl: int, calls: seq<Call<D>>)
    requires ttl > 0 && forall c :: c in calls ==> ClockRuns(c)
    ensures Coherent(Run(NewNode(capacity, true), ttl, calls))
    decreases |calls|
  {
    if calls != [] {
      var before, last := calls[..|calls| - 1], calls[|calls| - 1];
      assert last in calls && forall c :: c in before ==> c in calls;
      RunCoherent(capacity, ttl, before);
      var n := Run(NewNode(capacity, true), ttl, before);
      match last
      case GetCall(k, t1, t2) => GetCoherent(n, k, t1, t2);
      case PutCall(k, d, t1, t2, t3) => PutCoherent(n, ttl, k, d, t1, t2, t3);
      case DeleteCall(k) => DeleteCoherent(n, k);
      case HttpDeleteCall(k) => DeleteCoherent(n, k);
      case RestartCall(c, keys, now) => RestartCoherent(n.redis.value, c, keys, now);
    }
  }

  /** Two-level transparency, after every run of calls and restarts: what `get` answers at one instant is
      what a lookup in the Redis map alone would answer. */
  lemma Transparency<D>(capacity: int, ttl: int, calls: seq<Call<D>>, k: string, at: real)
    requires ttl > 0 && forall c :: c in calls ==> ClockRuns(c)
    ensures var n := Run(NewNode(capacity, true), ttl, calls);
            n.redis.Some? && Get(n, k, at, at).1 == Answer(n.redis.value, k, at)
  {
    RunCoherent(capacity, ttl, calls);
    GetIsRedisLookup(Run(NewNode(capacity, true), ttl, calls), k, at, at);
  }

  /** The DELETE route does not make a node with Redis forget: the next lookup brings the entry back. */
  lemma HttpDeleteForgetsNothing<D>(capacity: int, ttl: int, calls: seq<Call<D>>, k: string, at: real)
    requires ttl > 0 && forall c :: c in calls ==> ClockRuns(c)
    ensures var n := Run(NewNode(capacity, true), ttl, calls);
            Get(HttpDelete(n, k), k, at, at).1 == Get(n, k, at, at).1
  {
    RunCoherent(capacity, ttl, calls);
    var n := Run(NewNode(capacity, true), ttl, calls);
    DeleteCoherent(n, k);
    GetIsRedisLookup(n, k, at, at);
    GetIsRedisLookup(HttpDelete(n, k), k, at, at);
  }

  /** A node with Redis keeps it, and one without never gets one. */
  lemma {:induction false} ModeStays<D>(capacity: int, withRedis: bool, ttl: int, calls: seq<Call<D>>)
    ensures Run(NewNode(capacity, withRedis), ttl, calls).redis.Some? <==> withRedis
    decreases |calls|
  {
    hide Lrus.Get, Lrus.Put, Lrus.Delete, Lrus.Evicted;
    if calls != [] {
      ModeStays<D>(capacity, withRedis, ttl, calls[..|calls| - 1]);
    }
  }

  /** The DELETE route keeps its promise, that the next lookup finds nothing, exactly when the node runs without
      Redis or its Redis answers nothing for the key. */
  lemma HttpDeleteForgets<D>(capacity: int, withRedis: bool, ttl: int, calls: seq<Call<D>>, k: string, at: real)
    ensures var n := Run(NewNode(capacity, withRedis), ttl, calls);
            && (n.redis.Some? <==> withRedis)
            && (Get(HttpDelete(n, k), k, at, at).1.None? <==> !withRedis || Answer(n.redis.value, k, at).None?)
  {
    ModeStays<D>(capacity, withRedis, ttl, calls);
  }

  /** A failing input: a put, then DELETE, and the lookup still finds the value. */
  lemma HttpDeleteExample()
    ensures var put := PutCall("layer", 7, 0.0, 0.0, 0.0);
            var n := Run(NewNode(1, true), 60, [put]);
            Get(HttpDelete(n, "layer"), "layer", 1.0, 1.0).1 == Some(7)
  {
    var put := PutCall("layer", 7, 0.0, 0.0, 0.0);
    var start: Node<int> := NewNode(1, true);
    assert [put][..0] == [];
    assert Run(start, 60, []) == start;
    assert Run(start, 60, [put]) == Put(start, 60, "layer", 7, 0.0, 0.0, 0.0);
    PutNewKey(start.lru, 1, "layer", Payload(7, 0.0, 60.0));
    HttpDeleteForgetsNothing(1, 60, [put], "layer", 1.0);
    Transparency(1, 60, [put], "layer", 1.0);
  }

  // ----- Statistics -----

  /** How many lookups were answered by an unexpired item in memory, how many otherwise, and how many were not
      answered, since the node was last restarted. */
  function Tallied<D>(n: Node<D>, ttl: int, calls: seq<Call<D>>): (nat, nat, nat)
    requires n.lru.cache.WellFormed()
    decreases |calls|
  {
    if calls == [] then (0, 0, 0)
    else
      var before, last := calls[..|calls| - 1], calls[|calls| - 1];
      var (memory, redis, none) := Tallied(n, ttl, before);
      match last
      case GetCall(k, t1, t2) =>
        if LruAnswers(Run(n, ttl, before), k, t1) then (memory + 1, redis, none)
        else if Get(Run(n, ttl, before), k, t1, t2).1.Some? then (memory, redis + 1, none)
        else (memory, redis, none + 1)
      case RestartCall(_, _, _) => (0, 0, 0)
      case _ => (memory, redis, none)
  }

  lemma StepCounts<D>(n: Node<D>, ttl: int, call: Call<D>)
    requires n.lru.cache.WellFormed()
    ensures var m := Step(n, ttl, call);
            match call
            case GetCall(k, t1, t2) =>
              if LruAnswers(n, k, t1) then
                m.lruHits == n.lruHits + 1 && m.redisHits == n.redisHits && m.misses == n.misses
              else if Get(n, k, t1, t2).1.Some? then
                m.lruHits == n.lruHits && m.redisHits == n.redisHits + 1 && m.misses == n.misses
              else m.lruHits == n.lruHits && m.redisHits == n.redisHits && m.misses == n.misses + 1
            case RestartCall(_, _, _) => m.lruHits == 0 && m.redisHits == 0 && m.misses == 0
            case _ => m.lruHits == n.lruHits && m.redisHits == n.redisHits && m.misses == n.misses
  {
    hide Lrus.Get, Lrus.Put, Lrus.Delete, Lrus.Evicted, Warm;
  }

  /** The counters behind the hit ratio: hits in memory, hits in Redis, and misses. */
  lemma {:induction false} CountersTally<D>(capacity: int, withRedis: bool, ttl: int, calls: seq<Call<D>>)
    ensures var n := Run(NewNode(capacity, withRedis), ttl, calls);
            (n.lruHits, n.redisHits, n.misses) == Tallied(NewNode(capacity, withRedis), ttl, calls)
    decreases |calls|
  {
    hide Step, Get, LruAnswers;
    if calls != [] {
      var before := calls[..|calls| - 1];
      CountersTally<D>(capacity, withRedis, ttl, before);
      StepCounts(Run(NewNode(capacity, withRedis), ttl, before), ttl, calls[|calls| - 1]);
    }
  }
}
