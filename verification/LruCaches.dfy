/** The in-memory LRU level, as a class over an ordered dictionary, and what every trace of calls keeps. */
module LruCaches {
  import opened Sequences
  import opened OrderedDicts

  /** The state of an `LRUCache` object; the capacity never changes and is passed beside it. */
  datatype Lru<V> = Lru(cache: Dict<V>, hits: nat, misses: nat)

  function EmptyLru<V>(): Lru<V> { Lru(EmptyDict(), 0, 0) }

  /** What a lookup answers. */
  function Peek<V>(c: Lru<V>, k: string): Option<V> {
    if k in c.cache.vals then Some(c.cache.vals[k]) else None
  }

  function Get<V>(c: Lru<V>, k: string): (r: Lru<V>)
    requires c.cache.WellFormed()
    ensures r.cache.WellFormed()
  {
    if k in c.cache.vals then Lru(c.cache.MoveToEnd(k), c.hits + 1, c.misses)
    else c.(misses := c.misses + 1)
  }

  /** The dictionary just after the new item became the most recent one, before any eviction. */
  function Touch<V>(d: Dict<V>, k: string, v: V): (r: Dict<V>)
    requires d.WellFormed()
    ensures r.WellFormed() && r.order != [] && r.vals == d.vals[k := v]
    ensures |r.order| == |d.order| + if k in d.vals then 0 else 1
  {
    WithoutLength(d.order, k);
    Dict(Without(d.order, k) + [k], d.vals[k := v])
  }

  function Evicted<V>(c: Lru<V>, capacity: int, k: string, v: V): Option<string>
    requires c.cache.WellFormed()
  {
    var d := Touch(c.cache, k, v);
    if |d.order| > capacity then Some(d.order[0]) else None
  }

  function Put<V>(c: Lru<V>, capacity: int, k: string, v: V): (r: Lru<V>)
    requires c.cache.WellFormed()
    ensures r.cache.WellFormed()
  {
    var d := Touch(c.cache, k, v);
    c.(cache := if |d.order| > capacity then d.PopFirst() else d)
  }

  function Delete<V>(c: Lru<V>, k: string): (r: Lru<V>)
    requires c.cache.WellFormed()
    ensures r.cache.WellFormed()
  {
    c.(cache := c.cache.Pop(k))
  }

  class LRUCache<V> {
    const capacity: int
    var cache: Dict<V>
    var hits: nat
    var misses: nat

    ghost predicate Valid()
      reads this
    {
      cache.WellFormed()
    }

    function State(): Lru<V>
      reads this
    {
      Lru(cache, hits, misses)
    }

    constructor (capacity: int)
      ensures Valid() && this.capacity == capacity && State() == EmptyLru()
    {
      this.capacity := capacity;
      cache := EmptyDict();
      hits, misses := 0, 0;
    }

    method GetItem(key: string) returns (value: Option<V>)
      requires Valid()
      modifies this
      ensures Valid() && State() == Get(old(State()), key)
      ensures value == (if key in old(cache.vals) then Some(old(cache.vals)[key]) else None)
      ensures cache.vals == old(cache.vals)
      ensures hits == old(hits) + (if value.Some? then 1 else 0) && misses == old(misses) + (if value.None? then 1 else 0)
      ensures value.Some? ==> cache.order != [] && cache.order[|cache.order| - 1] == key
    {
      if key !in cache.vals {
        misses := misses + 1;
        return None;
      }
      cache := cache.MoveToEnd(key);
      hits := hits + 1;
      return Some(cache.vals[key]);
    }

    method PutItem(key: string, value: V) returns (evicted: Option<string>)
      requires Valid()
      modifies this
      ensures Valid() && State() == Put(old(State()), capacity, key, value)
      ensures evicted == Evicted(old(State()), capacity, key, value)
      ensures evicted.Some? ==> evicted.value !in cache.vals
      ensures hits == old(hits) && misses == old(misses)
    {
      TouchByCase(cache, key, value);
      if key in cache.vals {
        cache := cache.MoveToEnd(key);
      }
      cache := cache.Set(key, value);
      if |cache.order| > capacity {
        var first := cache.order[0];
        cache := cache.PopFirst();
        return Some(first);
      }
      return None;
    }

    method DeleteItem(key: string)
      requires Valid()
      modifies this
      ensures Valid() && State() == Delete(old(State()), key)
      ensures cache.vals == old(cache.vals) - {key} && hits == old(hits) && misses == old(misses)
    {
      cache := cache.Pop(key);
    }
  }

  /** Moving an existing item and overwriting it, or appending a new one, is one operation on the order. */
  lemma TouchByCase<V>(d: Dict<V>, k: string, v: V)
    requires d.WellFormed()
    ensures (if k in d.vals then d.MoveToEnd(k) else d).Set(k, v) == Touch(d, k, v)
  {
    if k !in d.vals {
      WithoutAbsent(d.order, k);
    }
  }

  lemma WithoutAbsent(s: seq<string>, k: string)
    requires k !in s
    ensures Without(s, k) == s
  {
    KeepAll(s, OtherThan(k));
  }

  // ----- Traces of calls -----

  datatype Call<V> = GetCall(key: string) | PutCall(key: string, value: V) | DeleteCall(key: string)

  function Step<V>(c: Lru<V>, capacity: int, call: Call<V>): (r: Lru<V>)
    requires c.cache.WellFormed()
    ensures r.cache.WellFormed()
  {
    match call
    case GetCall(k) => Get(c, k)
    case PutCall(k, v) => Put(c, capacity, k, v)
    case DeleteCall(k) => Delete(c, k)
  }

  function Run<V>(c: Lru<V>, capacity: int, calls: seq<Call<V>>): (r: Lru<V>)
    requires c.cache.WellFormed()
    ensures r.cache.WellFormed()
    decreases |calls|
  {
    if calls == [] then c
    else Step(Run(c, capacity, calls[..|calls| - 1]), capacity, calls[|calls| - 1])
  }

  /** A capacity below zero holds as much as capacity zero. */
  function Room(capacity: int): nat { if capacity < 0 then 0 else capacity }

  /** How many lookups of a trace found their key, and how many did not. */
  function Tallied<V>(c: Lru<V>, capacity: int, calls: seq<Call<V>>): (nat, nat)
    requires c.cache.WellFormed()
    decreases |calls|
  {
    if calls == [] then (0, 0)
    else
      var before, last := calls[..|calls| - 1], calls[|calls| - 1];
      var (found, missed) := Tallied(c, capacity, before);
      if !last.GetCall? then (found, missed)
      else if Peek(Run(c, capacity, before), last.key).Some? then (found + 1, missed)
      else (found, missed + 1)
  }

  lemma StepCounts<V>(c: Lru<V>, capacity: int, call: Call<V>)
    requires c.cache.WellFormed()
    ensures var d := Step(c, capacity, call);
            if !call.GetCall? then d.hits == c.hits && d.misses == c.misses
            else if Peek(c, call.key).Some? then d.hits == c.hits + 1 && d.misses == c.misses
            else d.hits == c.hits && d.misses == c.misses + 1
  {
  }

  /** Over every trace, the hits are the lookups that found their key, and the misses are the others. */
  lemma {:induction false} CountersTally<V>(calls: seq<Call<V>>, capacity: int)
    ensures var c := Run(EmptyLru<V>(), capacity, calls);
            (c.hits, c.misses) == Tallied(EmptyLru<V>(), capacity, calls)
    decreases |calls|
  {
    hide Step, Peek;
    if calls != [] {
      var before := calls[..|calls| - 1];
      CountersTally(before, capacity);
      StepCounts(Run(EmptyLru<V>(), capacity, before), capacity, calls[|calls| - 1]);
    }
  }

  // ----- Inclusion: a larger cache never does worse -----

  ghost predicate DictIncluded<V>(s: Dict<V>, l: Dict<V>) {
    && s.WellFormed() && l.WellFormed()
    && s.order == Keep(l.order, MemberOf(s.vals.Keys))
    && forall k :: k in s.vals ==> k in l.vals && s.vals[k] == l.vals[k]
  }

  /** Every item of the smaller cache is in the larger one with the same value, in the same recency
      order, and the larger one is ahead by no more than its additional room. */
  ghost predicate Included<V>(s: Lru<V>, n: int, l: Lru<V>, m: int) {
    && DictIncluded(s.cache, l.cache)
    && |s.cache.order| <= Room(n) && |l.cache.order| <= Room(m)
    && |l.cache.order| - |s.cache.order| <= Room(m) - Room(n)
    && s.hits <= l.hits && s.hits + s.misses == l.hits + l.misses
  }

  lemma MovedOrder(order: seq<string>, keys: set<string>, k: string)
    ensures Keep(Without(order, k) + [k], MemberOf(keys + {k})) == Without(Keep(order, MemberOf(keys)), k) + [k]
  {
    var rest := Without(order, k);
    KeepMembers(order, OtherThan(k));
    KeepConcat(rest, [k], MemberOf(keys + {k}));
    KeepAgrees(rest, MemberOf(keys + {k}), MemberOf(keys));
    KeepCommutes(order, OtherThan(k), MemberOf(keys));
  }

  lemma PoppedOrder(order: seq<string>, keys: set<string>, k: string)
    ensures Keep(order, MemberOf(keys - {k})) == Without(Keep(order, MemberOf(keys)), k)
    ensures Keep(Without(order, k), MemberOf(keys - {k})) == Without(Keep(order, MemberOf(keys)), k)
  {
    var rest := Without(order, k);
    KeepMembers(order, OtherThan(k));
    KeepCommutes(order, OtherThan(k), MemberOf(keys));
    KeepAgrees(rest, MemberOf(keys), MemberOf(keys - {k}));
    KeepCommutes(order, OtherThan(k), MemberOf(keys - {k}));
    KeepMembers(order, MemberOf(keys - {k}));
    KeepAll(Keep(order, MemberOf(keys - {k})), OtherThan(k));
  }

  lemma MovedIncluded<V>(s: Dict<V>, l: Dict<V>, k: string, v: V)
    requires DictIncluded(s, l)
    ensures DictIncluded(Touch(s, k, v), Touch(l, k, v))
  {
    hide Keep;
    MovedOrder(l.order, s.vals.Keys, k);
    assert Touch(s, k, v).vals.Keys == s.vals.Keys + {k};
  }

  lemma PoppedIncluded<V>(s: Dict<V>, l: Dict<V>, k: string)
    requires DictIncluded(s, l)
    ensures DictIncluded(s.Pop(k), l) && DictIncluded(s.Pop(k), l.Pop(k))
  {
    PoppedOrder(l.order, s.vals.Keys, k);
    assert s.Pop(k).vals.Keys == s.vals.Keys - {k};
  }

  /** Evicting from both, or from the smaller one only. */
  lemma EvictedIncluded<V>(s: Dict<V>, l: Dict<V>)
    requires DictIncluded(s, l) && s.order != [] && l.order != []
    ensures DictIncluded(s.PopFirst(), l) && DictIncluded(s.PopFirst(), l.PopFirst())
  {
    var x, y := s.order[0], l.order[0];
    PopFirstIsPop(s);
    PopFirstIsPop(l);
    PoppedIncluded(s, l, x);
    if y != x {
      assert y !in s.vals;
      PoppedUnseen(s.Pop(x), l, y);
    }
  }

  lemma PoppedUnseen<V>(s: Dict<V>, l: Dict<V>, k: string)
    requires DictIncluded(s, l) && k !in s.vals
    ensures DictIncluded(s, l.Pop(k))
  {
    PoppedIncluded(s, l, k);
    WithoutAbsent(s.order, k);
    assert s.Pop(k) == s;
  }

  lemma PopFirstIsPop<V>(d: Dict<V>)
    requires d.WellFormed() && d.order != []
    ensures d.PopFirst() == d.Pop(d.order[0])
  {
    WithoutHead(d.order);
  }

  lemma HitIncluded<V>(s: Dict<V>, l: Dict<V>, k: string)
    requires DictIncluded(s, l) && k in s.vals
    ensures k in l.vals && l.vals[k] == s.vals[k] && DictIncluded(s.MoveToEnd(k), l.MoveToEnd(k))
  {
    hide Keep;
    var v := s.vals[k];
    MovedIncluded(s, l, k, v);
    assert s.vals[k := v] == s.vals && l.vals[k := v] == l.vals;
  }

  lemma GetIncluded<V>(s: Lru<V>, n: int, l: Lru<V>, m: int, k: string)
    requires Included(s, n, l, m)
    ensures Included(Get(s, k), n, Get(l, k), m)
  {
    hide Keep;
    if k in s.cache.vals {
      HitIncluded(s.cache, l.cache, k);
    } else if k in l.cache.vals {
      MovedUnseen(s.cache, l.cache, k);
    }
  }

  lemma PutIncluded<V>(s: Lru<V>, n: int, l: Lru<V>, m: int, k: string, v: V)
    requires n <= m && Included(s, n, l, m)
    ensures Included(Put(s, n, k, v), n, Put(l, m, k, v), m)
  {
    hide Keep;
    MovedIncluded(s.cache, l.cache, k, v);
    EvictedIncluded(Touch(s.cache, k, v), Touch(l.cache, k, v));
  }

  lemma StepIncluded<V>(s: Lru<V>, n: int, l: Lru<V>, m: int, call: Call<V>)
    requires n <= m && Included(s, n, l, m)
    ensures Included(Step(s, n, call), n, Step(l, m, call), m)
  {
    match call
    case GetCall(k) => GetIncluded(s, n, l, m, k);
    case PutCall(k, v) => PutIncluded(s, n, l, m, k, v);
    case DeleteCall(k) => PoppedIncluded(s.cache, l.cache, k);
  }

  /** A hit on a key that only the larger cache holds moves nothing that the smaller one can see. */
  lemma MovedUnseen<V>(s: Dict<V>, l: Dict<V>, k: string)
    requires DictIncluded(s, l) && k !in s.vals && k in l.vals
    ensures DictIncluded(s, l.MoveToEnd(k))
  {
    var p := MemberOf(s.vals.Keys);
    KeepConcat(Without(l.order, k), [k], p);
    KeepCommutes(l.order, OtherThan(k), p);
    WithoutAbsent(s.order, k);
  }

  /** LRU inclusion, over every common trace: there is no Belady anomaly. */
  lemma {:induction false} Inclusion<V>(calls: seq<Call<V>>, n: int, m: int)
    requires n <= m
    ensures Included(Run(EmptyLru<V>(), n, calls), n, Run(EmptyLru<V>(), m, calls), m)
    decreases |calls|
  {
    if calls != [] {
      var before := calls[..|calls| - 1];
      Inclusion(before, n, m);
      StepIncluded(Run(EmptyLru<V>(), n, before), n, Run(EmptyLru<V>(), m, before), m, calls[|calls| - 1]);
    }
  }

  /** A larger capacity never turns a hit into a miss, and its recency order extends the smaller one's. */
  lemma LargerCapacityNeverMissesMore<V>(calls: seq<Call<V>>, n: int, m: int, k: string)
    requires n <= m
    ensures var s, l := Run(EmptyLru<V>(), n, calls), Run(EmptyLru<V>(), m, calls);
            && (Peek(s, k).Some? ==> Peek(l, k) == Peek(s, k))
            && Subsequence(s.cache.order, l.cache.order)
            && s.hits <= l.hits && l.misses <= s.misses
            && |l.cache.order| - |s.cache.order| <= Room(m) - Room(n)
  {
    Inclusion(calls, n, m);
    var s, l := Run(EmptyLru<V>(), n, calls), Run(EmptyLru<V>(), m, calls);
    KeepIsSubsequence(l.cache.order, MemberOf(s.cache.vals.Keys));
  }

  // ----- Retention: an item stays until `capacity` other keys have been touched -----

  /** `k` stands at place `i`, and everything more recent is in `others`. */
  ghost predicate Behind(order: seq<string>, i: int, k: string, others: set<string>) {
    && 0 <= i < |order| && order[i] == k
    && forall j :: i < j < |order| ==> order[j] in others
  }

  /** `k` is held with value `v`, and only keys of `others` are more recent. */
  ghost predicate Held<V>(c: Lru<V>, k: string, v: V, others: set<string>) {
    && c.cache.WellFormed()
    && k in c.cache.vals && c.cache.vals[k] == v
    && exists i :: Behind(c.cache.order, i, k, others)
  }

  lemma BehindMoved(order: seq<string>, i: int, k: string, others: set<string>, other: string) returns (j: int)
    requires Behind(order, i, k, others) && other != k
    ensures Behind(Without(order, other), j, k, others)
    ensures other in others ==> Behind(Without(order, other) + [other], j, k, others)
  {
    var a, b := order[..i], order[i + 1..];
    assert order == a + [k] + b;
    KeepConcat(a + [k], b, OtherThan(other));
    KeepConcat(a, [k], OtherThan(other));
    KeepMembers(b, OtherThan(other));
    assert Without(order, other) == Without(a, other) + [k] + Without(b, other);
    j := |Without(a, other)|;
    var rest := Without(b, other);
    assert forall x :: x in rest ==> x in others;
    assert forall n :: j < n < |Without(order, other)| ==> Without(order, other)[n] == rest[n - j - 1];
  }

  /** The oldest of more than `|others| + 1` keys is not `k`. */
  lemma NotOldest(order: seq<string>, i: int, k: string, others: set<string>)
    requires Distinct(order) && Behind(order, i, k, others) && |order| > |others| + 1
    ensures order[0] != k && Behind(order[1..], i - 1, k, others)
  {
    if i == 0 {
      var rest := order[1..];
      assert forall x :: x in rest ==> x in others;
      DistinctSize(rest, others);
    }
  }

  lemma HeldAfterPut<V>(c: Lru<V>, capacity: int, k: string, v: V, others: set<string>, key: string, w: V)
    requires Held(c, k, v, others) && |others| < capacity
    requires key in others && k !in others
    ensures Held(Put(c, capacity, key, w), k, v, others)
  {
    var i :| Behind(c.cache.order, i, k, others);
    var j := BehindMoved(c.cache.order, i, k, others, key);
    var d := Touch(c.cache, key, w);
    if |d.order| > capacity {
      NotOldest(d.order, j, k, others);
      assert Behind(d.PopFirst().order, j - 1, k, others);
    }
  }

  lemma HeldAfterOther<V>(c: Lru<V>, k: string, v: V, others: set<string>, key: string)
    requires Held(c, k, v, others) && key in others && k !in others
    ensures Held(Get(c, key), k, v, others) && Held(Delete(c, key), k, v, others)
  {
    var i :| Behind(c.cache.order, i, k, others);
    var j := BehindMoved(c.cache.order, i, k, others, key);
    assert Behind(Delete(c, key).cache.order, j, k, others);
    if key in c.cache.vals {
      assert Behind(Get(c, key).cache.order, j, k, others);
    }
  }

  /** An item just read has nothing more recent than itself. */
  lemma HeldWhenRead<V>(c: Lru<V>, k: string, others: set<string>)
    requires c.cache.WellFormed() && k in c.cache.vals
    ensures Held(Get(c, k), k, c.cache.vals[k], others)
  {
    assert Behind(Get(c, k).cache.order, |c.cache.order| - 1, k, others);
  }

  /** An item just written is there, unless the cache has no room at all. */
  lemma HeldWhenWritten<V>(c: Lru<V>, capacity: int, k: string, v: V, others: set<string>)
    requires c.cache.WellFormed() && |c.cache.order| <= Room(capacity)
    ensures Held(Put(c, capacity, k, v), k, v, others) <==> capacity > 0
  {
    var d := Touch(c.cache, k, v);
    assert Behind(d.order, |d.order| - 1, k, others);
    if |d.order| > capacity > 0 {
      assert d.order[|d.order| - 1] == k && d.order[0] != k;
      assert Behind(d.PopFirst().order, |d.order| - 2, k, others);
    }
    if capacity <= 0 {
      assert d.order == [k];
    }
  }
}
