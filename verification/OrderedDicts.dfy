/** Python's insertion-ordered dictionary: the keys in order, and the value of each key. */
module OrderedDicts {
  import opened Sequences

  datatype Dict<V> = Dict(order: seq<string>, vals: map<string, V>) {

    ghost predicate WellFormed() {
      && Distinct(order)
      && forall k :: k in order <==> k in vals
    }

    /** d[k] = v: an existing key keeps its place, a new one goes to the end. */
    function Set(k: string, v: V): (d: Dict<V>)
      requires WellFormed()
      ensures d.WellFormed() && d.vals == vals[k := v]
    {
      Dict(if k in vals then order else order + [k], vals[k := v])
    }

    /** d.pop(k, None) */
    function Pop(k: string): (d: Dict<V>)
      requires WellFormed()
      ensures d.WellFormed() && d.vals == vals - {k}
      ensures |d.order| == |order| - if k in vals then 1 else 0
    {
      WithoutLength(order, k);
      Dict(Without(order, k), vals - {k})
    }

    /** d.move_to_end(k) */
    function MoveToEnd(k: string): (d: Dict<V>)
      requires WellFormed() && k in vals
      ensures d.WellFormed() && d.vals == vals && |d.order| == |order|
    {
      WithoutLength(order, k);
      Dict(Without(order, k) + [k], vals)
    }

    /** d.popitem(last=False), without the item it returns */
    function PopFirst(): (d: Dict<V>)
      requires WellFormed() && order != []
      ensures d.WellFormed() && d.vals == vals - {order[0]}
    {
      assert order[0] !in order[1..];
      assert order == [order[0]] + order[1..];
      Dict(order[1..], vals - {order[0]})
    }
  }

  function EmptyDict<V>(): (d: Dict<V>)
    ensures d.WellFormed()
  {
    Dict([], map[])
  }
}
