/** How long a cache node answers: never past the expiry, never an older value, and not less than promised. */
module CacheLifetimes {
  import opened Sequences
  import Lrus = LruCaches
  import opened LayerScanCaches
  import opened TwoLevelTheorems

  // ----- Freshness -----

  /** The argument of the latest `put` of `k` that no `delete` of `k` followed, and until when it is good. */
  ghost function LatestPut<D>(calls: seq<Call<D>>, ttl: int, k: string): Option<(D, real)>
    decreases |calls|
  {
    if calls == [] then None
    else
      var last := calls[|calls| - 1];
      if last.PutCall? && last.key == k then Some((last.data, last.t2 + ttl as real))
      else if last.DeleteCall? && last.key == k then None
      else LatestPut(calls[..|calls| - 1], ttl, k)
  }

  /** Neither level holds anything for `k` but the value `latest`. */
  ghost predicate OnlyLatest<D>(n: Node<D>, k: string, latest: Option<(D, real)>) {
    && (k in n.lru.cache.vals ==>
          latest == Some((n.lru.cache.vals[k].data, n.lru.cache.vals[k].expiresAt)))
    && (n.redis.Some? && k in n.redis.value ==>
          latest == Some((n.redis.value[k].payload.data, n.redis.value[k].payload.expiresAt)))
  }

  lemma GetOnlyLatest<D>(n: Node<D>, key: string, t1: real, t2: real, k: string, latest: Option<(D, real)>)
    requires n.lru.cache.WellFormed() && OnlyLatest(n, k, latest)
    ensures OnlyLatest(Get(n, key, t1, t2).0, k, latest)
  {
  }

  lemma PutOnlyLatest<D>(
      n: Node<D>, ttl: int, key: string, d: D, t1: real, t2: real, t3: real, k: string, latest: Option<(D, real)>)
    requires n.lru.cache.WellFormed() && OnlyLatest(n, k, latest) && (n.redis.Some? ==> ttl > 0)
    ensures OnlyLatest(Put(n, ttl, key, d, t1, t2, t3), k, if key == k then Some((d, t2 + ttl as real)) else latest)
  {
  }

  lemma RestartOnlyLatest<D>(n: Node<D>, capacity: int, keys: seq<string>, now: real, k: string, latest: Option<(D, real)>)
    requires n.lru.cache.WellFormed() && OnlyLatest(n, k, latest)
    ensures OnlyLatest(Restart(n.redis, capacity, keys, now), k, latest)
  {
    if n.redis.Some? {
      WarmKeepsKey(n.redis.value, capacity, keys, now, k);
    }
  }

  lemma StepOnlyLatest<D>(n: Node<D>, calls: seq<Call<D>>, ttl: int, call: Call<D>, k: string)
    requires n.lru.cache.WellFormed() && OnlyLatest(n, k, LatestPut(calls, ttl, k)) && (n.redis.Some? ==> ttl > 0)
    ensures OnlyLatest(Step(n, ttl, call), k, LatestPut(calls + [call], ttl, k))
  {
    assert (calls + [call])[..|calls|] == calls;
    var latest := LatestPut(calls, ttl, k);
    match call
    case GetCall(key, t1, t2) => GetOnlyLatest(n, key, t1, t2, k, latest);
    case PutCall(key, d, t1, t2, t3) => PutOnlyLatest(n, ttl, key, d, t1, t2, t3, k, latest);
    case DeleteCall(_) =>
    case HttpDeleteCall(_) =>
    case RestartCall(capacity, keys, now) => RestartOnlyLatest(n, capacity, keys, now, k, latest);
  }

  lemma {:induction false} RunOnlyLatest<D>(capacity: int, withRedis: bool, ttl: int, calls: seq<Call<D>>, k: string)
    requires withRedis ==> ttl > 0
    ensures Run(NewNode(capacity, withRedis), ttl, calls).redis.Some? == withRedis
    ensures OnlyLatest(Run(NewNode(capacity, withRedis), ttl, calls), k, LatestPut(calls, ttl, k))
    decreases |calls|
  {
    if calls != [] {
      var before, last := calls[..|calls| - 1], calls[|calls| - 1];
      RunOnlyLatest(capacity, withRedis, ttl, before, k);
      StepOnlyLatest(Run(NewNode(capacity, withRedis), ttl, before), before, ttl, last, k);
      assert calls == before + [last];
    }
  }

  /** Freshness, in both modes and across restarts: a value that `get` returns is the argument of the latest
      put of that key, nothing has deleted it since, and it has not expired. */
  lemma Freshness<D>(capacity: int, withRedis: bool, ttl: int, calls: seq<Call<D>>, k: string, t1: real, t2: real)
    requires t1 <= t2 && (withRedis ==> ttl > 0)
    ensures var answer := Get(Run(NewNode(capacity, withRedis), ttl, calls), k, t1, t2).1;
            answer.Some? ==>
              var latest := LatestPut(calls, ttl, k);
              latest.Some? && answer.value == latest.value.0 && t1 <= latest.value.1
  {
    RunOnlyLatest(capacity, withRedis, ttl, calls, k);
  }

  // ----- Retention: what was written stays readable until `capacity` other keys have been touched -----

  ghost predicate Fits<D>(n: Node<D>) {
    n.lru.cache.WellFormed() && |n.lru.cache.order| <= Lrus.Room(n.capacity)
  }

  lemma {:induction false} WarmFits<D>(redis: Redis<D>, capacity: int, keys: seq<string>, now: real)
    ensures |Warm(redis, capacity, keys, now).lru.cache.order| <= Lrus.Room(capacity)
    decreases |keys|
  {
    if keys != [] {
      WarmFits(redis, capacity, keys[..|keys| - 1], now);
    }
  }

  lemma GetFits<D>(n: Node<D>, k: string, t1: real, t2: real)
    requires Fits(n)
    ensures Fits(Get(n, k, t1, t2).0)
  {
  }

  lemma StepFits<D>(n: Node<D>, ttl: int, call: Call<D>)
    requires Fits(n)
    ensures Fits(Step(n, ttl, call))
  {
    match call
    case GetCall(k, t1, t2) => GetFits(n, k, t1, t2);
    case PutCall(_, _, _, _, _) =>
    case DeleteCall(_) =>
    case HttpDeleteCall(_) =>
    case RestartCall(capacity, keys, now) =>
      if n.redis.Some? {
        WarmFits(n.redis.value, capacity, keys, now);
      }
  }

  /** Every reachable node fits its capacity. */
  lemma {:induction false} RunFits<D>(capacity: int, withRedis: bool, ttl: int, calls: seq<Call<D>>)
    ensures Fits(Run(NewNode(capacity, withRedis), ttl, calls))
    decreases |calls|
  {
    if calls != [] {
      var before := calls[..|calls| - 1];
      RunFits(capacity, withRedis, ttl, before);
      StepFits(Run(NewNode(capacity, withRedis), ttl, before), ttl, calls[|calls| - 1]);
    }
  }

  // ----- What one call leaves behind -----

  /** What a lookup answers is then the most recent item in memory, wherever it came from. */
  lemma AnswerIsRemembered<D>(n: Node<D>, k: string, t1: real, t2: real)
    requires Fits(n) && n.capacity > 0
    ensures var m, answer := Get(n, k, t1, t2).0.lru.cache, Get(n, k, t1, t2).1;
            answer.Some? ==>
              k in m.vals && Some(m.vals[k].data) == answer && m.order != [] && m.order[|m.order| - 1] == k
  {
    if LruAnswers(n, k, t1) {
      assert Get(n, k, t1, t2).0.lru.cache == n.lru.cache.MoveToEnd(k);
    } else {
      var m := AfterLruMiss(n, k);
      if m.redis.Some? && RedisGet(m.redis.value, k, t2).Some? {
        Lrus.HeldWhenWritten(m.lru, m.capacity, k, RedisGet(m.redis.value, k, t2).value, {});
        PutNewKey(m.lru, m.capacity, k, RedisGet(m.redis.value, k, t2).value);
      }
    }
  }

  /** After a lookup without an answer the key is on neither level. */
  lemma MissLeavesNothing<D>(n: Node<D>, k: string, t1: real, t2: real)
    requires Fits(n) && Get(n, k, t1, t2).1.None?
    ensures var m := Get(n, k, t1, t2).0;
            k !in m.lru.cache.vals && (m.redis.Some? ==> RedisGet(m.redis.value, k, t2).None?)
  {
  }

  /** The item that a put of `k` pushes out: the oldest one, when the cache is full; with no room, the new one. */
  ghost function Displaced<D>(n: Node<D>, k: string): Option<string> {
    if k in n.lru.cache.vals || |n.lru.cache.order| < Lrus.Room(n.capacity) then None
    else Some((n.lru.cache.order + [k])[0])
  }

  /** A put adds its key to both levels and takes the displaced one from both, except that Python takes the
      empty key for none and leaves it in Redis; no other key comes or goes. */
  lemma PutDisplaces<D>(n: Node<D>, ttl: int, k: string, d: D, t1: real, t2: real, t3: real)
    requires Fits(n)
    ensures var m := Put(n, ttl, k, d, t1, t2, t3);
            && (forall j :: j in m.lru.cache.vals <==> (j in n.lru.cache.vals || j == k) && Displaced(n, k) != Some(j))
            && (n.redis.Some? && ttl > 0 ==>
                  && m.redis.Some?
                  && forall j :: j in m.redis.value <==>
                       (j in n.redis.value || j == k) && (Displaced(n, k) == Some(j) ==> j == ""))
  {
    var p := Payload(d, t1, t2 + ttl as real);
    assert Displaced(n, k) == Lrus.Evicted(n.lru, n.capacity, k, p) by {
      if k !in n.lru.cache.vals {
        PutNewKey(n.lru, n.capacity, k, p);
      }
    }
  }

  /** What a put stores on both levels, unless it displaces its own key for want of room: the result, the time of the put,
      and the expiry; and Redis keeps it for the time to live. */
  lemma PutStores<D>(n: Node<D>, ttl: int, k: string, d: D, t1: real, t2: real, t3: real)
    requires Fits(n) && n.capacity > 0
    ensures var m, p := Put(n, ttl, k, d, t1, t2, t3), Payload(d, t1, t2 + ttl as real);
            && k in m.lru.cache.vals && m.lru.cache.vals[k] == p
            && (n.redis.Some? && ttl > 0 ==>
                  m.redis.Some? && k in m.redis.value && m.redis.value[k] == Stored(p, t3 + ttl as real))
            && forall j :: j != k && j in m.lru.cache.vals ==> m.lru.cache.vals[j] == n.lru.cache.vals[j]
  {
    PutDisplaces(n, ttl, k, d, t1, t2, t3);
    if k !in n.lru.cache.vals {
      PutNewKey(n.lru, n.capacity, k, Payload(d, t1, t2 + ttl as real));
    }
  }

  /** A call that touches only keys of `others`, or reads `k` while it is good. */
  ghost predicate Harmless<D>(call: Call<D>, k: string, goodUntil: real, others: set<string>) {
    match call
    case GetCall(key, t1, _) => key in others || (key == k && t1 <= goodUntil)
    case PutCall(key, _, _, _, _) => key in others
    case DeleteCall(key) => key in others
    case HttpDeleteCall(key) => key in others
    case RestartCall(_, _, _) => false
  }

  lemma MissHeld<D>(n: Node<D>, key: string, k: string, p: Payload<D>, others: set<string>)
    requires Lrus.Held(n.lru, k, p, others) && key in others && k !in others
    ensures Lrus.Held(AfterLruMiss(n, key).lru, k, p, others)
  {
    Lrus.HeldAfterOther(n.lru, k, p, others, key);
    Lrus.HeldAfterOther(Lrus.Get(n.lru, key), k, p, others, key);
  }

  lemma GetHeld<D>(
      n: Node<D>, key: string, t1: real, t2: real, k: string, p: Payload<D>, others: set<string>)
    requires Lrus.Held(n.lru, k, p, others) && |others| < n.capacity && k !in others
    requires key in others || (key == k && t1 <= p.expiresAt)
    ensures Lrus.Held(Get(n, key, t1, t2).0.lru, k, p, others)
  {
    if key == k {
      Lrus.HeldWhenRead(n.lru, k, others);
    } else if LruAnswers(n, key, t1) {
      Lrus.HeldAfterOther(n.lru, k, p, others, key);
    } else {
      MissHeld(n, key, k, p, others);
      var m := AfterLruMiss(n, key);
      if m.redis.Some? && RedisGet(m.redis.value, key, t2).Some? {
        Lrus.HeldAfterPut(m.lru, n.capacity, k, p, others, key, RedisGet(m.redis.value, key, t2).value);
      }
    }
  }

  lemma StepHeld<D>(n: Node<D>, ttl: int, call: Call<D>, k: string, p: Payload<D>, others: set<string>)
    requires Lrus.Held(n.lru, k, p, others) && |others| < n.capacity && k !in others
    requires Harmless(call, k, p.expiresAt, others)
    ensures Lrus.Held(Step(n, ttl, call).lru, k, p, others)
  {
    match call
    case GetCall(key, t1, t2) => GetHeld(n, key, t1, t2, k, p, others);
    case PutCall(key, d, t1, t2, _) =>
      Lrus.HeldAfterPut(n.lru, n.capacity, k, p, others, key, Payload(d, t1, t2 + ttl as real));
    case DeleteCall(key) => Lrus.HeldAfterOther(n.lru, k, p, others, key);
    case HttpDeleteCall(key) => Lrus.HeldAfterOther(n.lru, k, p, others, key);
  }

  lemma {:induction false} RunHeld<D>(
      n: Node<D>, ttl: int, calls: seq<Call<D>>, k: string, p: Payload<D>, others: set<string>)
    requires Lrus.Held(n.lru, k, p, others) && |others| < n.capacity && k !in others
    requires forall c :: c in calls ==> Harmless(c, k, p.expiresAt, others)
    ensures Lrus.Held(Run(n, ttl, calls).lru, k, p, others) && Run(n, ttl, calls).capacity == n.capacity
    decreases |calls|
  {
    if calls != [] {
      var before, last := calls[..|calls| - 1], calls[|calls| - 1];
      assert last in calls && forall c :: c in before ==> c in calls;
      RunHeld(n, ttl, before, k, p, others);
      StepHeld(Run(n, ttl, before), ttl, last, k, p, others);
    }
  }

  /** In both modes: until its expiry, a value that was put is read back, while fewer than `capacity` other
      keys have been touched and the key was neither put again nor deleted. */
  lemma PutStaysReadable<D>(
      n: Node<D>, ttl: int, k: string, d: D, t1: real, t2: real, t3: real, calls: seq<Call<D>>, others: set<string>,
      at: real, at2: real)
    requires Fits(n) && |others| < n.capacity && k !in others
    requires forall c :: c in calls ==> Harmless(c, k, t2 + ttl as real, others)
    requires at <= t2 + ttl as real
    ensures Get(Run(Put(n, ttl, k, d, t1, t2, t3), ttl, calls), k, at, at2).1 == Some(d)
  {
    var p := Payload(d, t1, t2 + ttl as real);
    Lrus.HeldWhenWritten(n.lru, n.capacity, k, p, others);
    RunHeld(Put(n, ttl, k, d, t1, t2, t3), ttl, calls, k, p, others);
  }
}
