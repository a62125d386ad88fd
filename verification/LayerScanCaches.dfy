/** The two-level cache of one node: the LRU in memory, and the Redis that survives a restart. */
module LayerScanCaches {
  import opened Sequences
  import Lrus = LruCaches

  /** What `put` stores on both levels. */
  datatype Payload<D> = Payload(data: D, createdAt: real, expiresAt: real)

  /** A Redis key with its time to live: it answers until `dropAt`, and is gone after. */
  datatype Stored<D> = Stored(payload: Payload<D>, dropAt: real)

  type Redis<D> = map<string, Stored<D>>

  /** One cache node; `redis` is None in memory-only mode. */
  datatype Node<D> = Node(
    capacity: int, lru: Lrus.Lru<Payload<D>>, redis: Option<Redis<D>>,
    lruHits: nat, redisHits: nat, misses: nat)

  /** GET on the Redis server. */
  function RedisGet<D>(redis: Redis<D>, k: string, at: real): Option<Payload<D>> {
    if k in redis && at <= redis[k].dropAt then Some(redis[k].payload) else None
  }

  /** KEYS on the Redis server. */
  function RedisKeys<D>(redis: Redis<D>, at: real): set<string> {
    set k | k in redis && at <= redis[k].dropAt
  }

  /** SETEX: the time to live starts when Redis executes the command, and must be positive; otherwise Redis
      answers with an error, which the cache logs and ignores. */
  function RedisSetEx<D>(redis: Redis<D>, k: string, ttl: int, p: Payload<D>, at: real): Redis<D> {
    if ttl > 0 then redis[k := Stored(p, at + ttl as real)] else redis
  }

  function DropKey<D>(redis: Option<Redis<D>>, k: string): Option<Redis<D>> {
    if redis.Some? then Some(redis.value - {k}) else None
  }

  // ----- The calls, as functions on the state of a node -----

  /** Level 1 answers: the item is in memory and not expired at `t1`. */
  predicate LruAnswers<D>(n: Node<D>, k: string, t1: real) {
    k in n.lru.cache.vals && t1 <= n.lru.cache.vals[k].expiresAt
  }

  /** The node after level 1 did not answer: an expired item is gone from both levels. */
  function AfterLruMiss<D>(n: Node<D>, k: string): Node<D>
    requires n.lru.cache.WellFormed()
  {
    var lru := Lrus.Get(n.lru, k);
    if k in n.lru.cache.vals then n.(lru := Lrus.Delete(lru, k), redis := DropKey(n.redis, k))
    else n.(lru := lru)
  }

  /** `get`, with the two readings of the clock that the call may make; `t2` is also when Redis answers. */
  function Get<D>(n: Node<D>, k: string, t1: real, t2: real): (r: (Node<D>, Option<D>))
    requires n.lru.cache.WellFormed()
    ensures r.0.lru.cache.WellFormed()
  {
    if LruAnswers(n, k, t1) then
      (n.(lru := Lrus.Get(n.lru, k), lruHits := n.lruHits + 1), Some(n.lru.cache.vals[k].data))
    else
      var m := AfterLruMiss(n, k);
      var raw := if m.redis.Some? then RedisGet(m.redis.value, k, t2) else None;
      if raw.None? then
        (m.(misses := m.misses + 1), None)
      else if t2 <= raw.value.expiresAt then
        (m.(lru := Lrus.Put(m.lru, m.capacity, k, raw.value), redisHits := m.redisHits + 1), Some(raw.value.data))
      else
        (m.(redis := DropKey(m.redis, k), misses := m.misses + 1), None)
  }

  /** Python's `if evicted`: no key, and the empty key, are both false. */
  predicate Truthy(key: Option<string>) { key.Some? && key.value != "" }

  /** `put`, with the clock read for the two stamps and again when Redis executes SETEX. */
  function Put<D>(n: Node<D>, ttl: int, k: string, d: D, t1: real, t2: real, t3: real): (r: Node<D>)
    requires n.lru.cache.WellFormed()
    ensures r.lru.cache.WellFormed()
  {
    var p := Payload(d, t1, t2 + ttl as real);
    var evicted := Lrus.Evicted(n.lru, n.capacity, k, p);
    var redis := if n.redis.Some? then Some(RedisSetEx(n.redis.value, k, ttl, p, t3)) else None;
    n.(lru := Lrus.Put(n.lru, n.capacity, k, p),
       redis := if Truthy(evicted) then DropKey(redis, evicted.value) else redis)
  }

  function Delete<D>(n: Node<D>, k: string): (r: Node<D>)
    requires n.lru.cache.WellFormed()
    ensures r.lru.cache.WellFormed()
  {
    n.(lru := Lrus.Delete(n.lru, k), redis := DropKey(n.redis, k))
  }

  /** The DELETE route of the cache node: it reaches the LRU only. */
  function HttpDelete<D>(n: Node<D>, k: string): (r: Node<D>)
    requires n.lru.cache.WellFormed()
    ensures r.lru.cache.WellFormed()
  {
    n.(lru := Lrus.Delete(n.lru, k))
  }

  /** The progress of warming: the new LRU, what is left in Redis, and the two counts that are logged. */
  datatype Warming<D> = Warming(lru: Lrus.Lru<Payload<D>>, redis: Redis<D>, restored: nat, skipped: nat)

  function WarmOne<D>(w: Warming<D>, capacity: int, k: string, now: real): (r: Warming<D>)
    requires w.lru.cache.WellFormed()
    ensures r.lru.cache.WellFormed()
  {
    var raw := RedisGet(w.redis, k, now);
    if raw.None? then w
    else if now > raw.value.expiresAt then w.(redis := w.redis - {k})
    else
      var evicted := Lrus.Evicted(w.lru, capacity, k, raw.value);
      var lru := Lrus.Put(w.lru, capacity, k, raw.value);
      if Truthy(evicted) then w.(lru := lru, skipped := w.skipped + 1)
      else w.(lru := lru, restored := w.restored + 1)
  }

  /** Warming with the keys in the order in which Redis listed them. */
  function Warm<D>(redis: Redis<D>, capacity: int, keys: seq<string>, now: real): (r: Warming<D>)
    ensures r.lru.cache.WellFormed()
    decreases |keys|
  {
    if keys == [] then Warming(Lrus.EmptyLru(), redis, 0, 0)
    else WarmOne(Warm(redis, capacity, keys[..|keys| - 1], now), capacity, keys[|keys| - 1], now)
  }

  /** A new process on the same Redis. */
  function Restart<D>(redis: Option<Redis<D>>, capacity: int, keys: seq<string>, now: real): (r: Node<D>)
    ensures r.lru.cache.WellFormed()
  {
    match redis
    case None => Node(capacity, Lrus.EmptyLru(), None, 0, 0, 0)
    case Some(store) =>
      var w := Warm(store, capacity, keys, now);
      Node(capacity, w.lru, Some(w.redis), 0, 0, 0)
  }

  // ----- The class -----

  class LayerScanCache<D> {
    const lru: Lrus.LRUCache<Payload<D>>
    const ttl: int
    var redis: Option<Redis<D>>
    var lruHits: nat
    var redisHits: nat
    var misses: nat

    ghost predicate Valid()
      reads this, lru
    {
      lru.Valid()
    }

    function State(): Node<D>
      reads this, lru
    {
      Node(lru.capacity, lru.State(), redis, lruHits, redisHits, misses)
    }

    /** Connects to Redis, if there is one, and warms the LRU from the keys that it lists. */
    constructor (capacity: int, ttl: int, redis: Option<Redis<D>>, keys: seq<string>, now: real)
      ensures Valid() && fresh(lru) && this.ttl == ttl
      ensures State() == Restart(redis, capacity, keys, now)
    {
      this.lru := new Lrus.LRUCache(capacity);
      this.ttl := ttl;
      this.redis := redis;
      lruHits, redisHits, misses := 0, 0, 0;
      new;
      if redis.Some? {
        var restored, skipped := WarmFromRedis(keys, now);
      }
    }

    method WarmFromRedis(keys: seq<string>, now: real) returns (restored: nat, skipped: nat)
      requires Valid() && redis.Some? && lru.State() == Lrus.EmptyLru()
      modifies this`redis, lru
      ensures Valid() && redis.Some?
      ensures Warming(lru.State(), redis.value, restored, skipped) == Warm(old(redis.value), lru.capacity, keys, now)
    {
      restored, skipped := 0, 0;
      for i := 0 to |keys|
        invariant Valid() && redis.Some?
        invariant Warming(lru.State(), redis.value, restored, skipped)
               == Warm(old(redis.value), lru.capacity, keys[..i], now)
      {
        assert keys[..i + 1][..i] == keys[..i];
        var raw := RedisGet(redis.value, keys[i], now);
        if raw.None? {
          continue;
        }
        if now > raw.value.expiresAt {
          redis := Some(redis.value - {keys[i]});
          continue;
        }
        var evicted := lru.PutItem(keys[i], raw.value);
        if Truthy(evicted) {
          skipped := skipped + 1;
        } else {
          restored := restored + 1;
        }
      }
      assert keys[..|keys|] == keys;
    }

    method GetScan(layerHash: string, t1: real, t2: real) returns (data: Option<D>)
      requires Valid()
      modifies this`redis, this`lruHits, this`redisHits, this`misses, lru
      ensures Valid() && (State(), data) == Get(old(State()), layerHash, t1, t2)
      ensures var memory := layerHash in old(lru.cache.vals) && t1 <= old(lru.cache.vals)[layerHash].expiresAt;
              && lruHits == old(lruHits) + (if memory then 1 else 0)
              && redisHits == old(redisHits) + (if !memory && data.Some? then 1 else 0)
              && misses == old(misses) + (if data.None? then 1 else 0)
    {
      hide Lrus.Get, Lrus.Put, Lrus.Delete;
      var item := lru.GetItem(layerHash);
      if item.Some? {
        if t1 <= item.value.expiresAt {
          lruHits := lruHits + 1;
          return Some(item.value.data);
        }
        lru.DeleteItem(layerHash);
        DeleteFromRedis(layerHash);
      }
      if redis.Some? {
        var raw := RedisGet(redis.value, layerHash, t2);
        if raw.Some? {
          if t2 <= raw.value.expiresAt {
            var _ := lru.PutItem(layerHash, raw.value);
            redisHits := redisHits + 1;
            return Some(raw.value.data);
          }
          DeleteFromRedis(layerHash);
        }
      }
      misses := misses + 1;
      return None;
    }

    method PutScan(layerHash: string, scanResult: D, t1: real, t2: real, t3: real)
      requires Valid()
      modifies this`redis, lru
      ensures Valid() && State() == Put(old(State()), ttl, layerHash, scanResult, t1, t2, t3)
    {
      var payload := Payload(scanResult, t1, t2 + ttl as real);
      var evicted := lru.PutItem(layerHash, payload);
      if redis.Some? {
        redis := Some(RedisSetEx(redis.value, layerHash, ttl, payload, t3));
      }
      if Truthy(evicted) {
        DeleteFromRedis(evicted.value);
      }
    }

    method DeleteScan(layerHash: string)
      requires Valid()
      modifies this`redis, lru
      ensures Valid() && State() == Delete(old(State()), layerHash)
    {
      lru.DeleteItem(layerHash);
      DeleteFromRedis(layerHash);
    }

    method DeleteFromRedis(layerHash: string)
      modifies this`redis
      ensures redis == DropKey(old(redis), layerHash)
    {
      if redis.Some? {
        redis := Some(redis.value - {layerHash});
      }
    }
  }
}
