/** `LIFOCache` (0x01-caching/2-lifo_cache.py): whenever a `put` arrives at a
    full cache, the most recently written key is discarded first. */
module Lifo {
  import opened Wrappers
  import opened Caching

  /** `cache_data` and `last_key`, the key of the latest write. */
  datatype LifoCache<K, V> = LifoCache(maxItems: Capacity, data: map<K, V>, lastKey: Option<K>)

  /** Bookkeeping invariant: `last_key` is unset exactly when the cache is
      empty, and otherwise names a stored key. */
  predicate Valid<K, V>(c: LifoCache<K, V>) {
    && (c.lastKey.None? <==> |c.data| == 0)
    && (c.lastKey.Some? ==> c.lastKey.value in c.data)
  }

  /** The capacity bound of the base class. */
  predicate WithinCapacity<K, V>(c: LifoCache<K, V>) {
    |c.data| <= c.maxItems
  }

  /** `__init__`: an empty cache with no last key. */
  function Init<K, V>(maxItems: Capacity): (c: LifoCache<K, V>)
    ensures Valid(c) && WithinCapacity(c)
    ensures c.maxItems == maxItems && |c.data| == 0
  {
    LifoCache(maxItems, map[], None)
  }

  /** The body of `put` once both arguments are present. */
  function Write<K, V>(c: LifoCache<K, V>, k: K, v: V): (r: Outcome<LifoCache<K, V>, K>)
    requires Valid(c)
    ensures Valid(r.cache) && r.cache.maxItems == c.maxItems
    ensures WithinCapacity(c) ==> WithinCapacity(r.cache)
    // a full cache discards its last key, whether or not `k` is already stored
    ensures r.evicted.Some? <==> |c.data| >= c.maxItems
    ensures r.evicted.Some? ==> r.evicted == c.lastKey
    ensures r.evicted.Some? && r.evicted.value != k ==> r.evicted.value !in r.cache.data
    // the written key becomes the last key and holds the written value
    ensures r.cache.lastKey == Some(k) && k in r.cache.data && r.cache.data[k] == v
    // below capacity nothing is lost
    ensures |c.data| < c.maxItems ==> r.cache.data.Keys == c.data.Keys + {k}
    // at capacity, rewriting a stored key other than the last one shrinks the cache
    ensures |c.data| >= c.maxItems && k in c.data && Some(k) != c.lastKey ==>
              |r.cache.data| == |c.data| - 1
    // every other key keeps its value; no other key appears
    ensures forall j :: j in c.data && j != k && Some(j) != r.evicted ==>
              j in r.cache.data && r.cache.data[j] == c.data[j]
    ensures forall j :: j in r.cache.data ==> j in c.data || j == k
  {
    var full := |c.data| >= c.maxItems;
    var kept := if full && c.lastKey.Some? then c.data - {c.lastKey.value} else c.data;
    var evicted := if full && c.lastKey.Some? then c.lastKey else None;
    Outcome(LifoCache(c.maxItems, kept[k := v], Some(k)), evicted)
  }

  /** `put(key, item)`: a `None` key or item changes nothing and discards
      nothing, even when the cache is full. */
  function Put<K, V>(c: LifoCache<K, V>, key: Option<K>, item: Option<V>): (r: Outcome<LifoCache<K, V>, K>)
    requires Valid(c)
    ensures Valid(r.cache) && r.cache.maxItems == c.maxItems
    ensures WithinCapacity(c) ==> WithinCapacity(r.cache)
    ensures key.None? || item.None? ==> r == Outcome(c, None)
    ensures key.Some? && item.Some? ==> r == Write(c, key.value, item.value)
  {
    if key.None? || item.None? then Outcome(c, None) else Write(c, key.value, item.value)
  }

  /** `get(key)`: a lookup that changes nothing, `last_key` included. */
  function Get<K, V>(c: LifoCache<K, V>, key: Option<K>): (r: Option<V>)
    ensures r.Some? <==> key.Some? && key.value in c.data
    ensures r.Some? ==> r.value == c.data[key.value]
  {
    if key.Some? && key.value in c.data then Some(c.data[key.value]) else None
  }

  /** A client's sequence of calls on one cache. The invariant, and the capacity
      bound once it holds, survive every sequence. */
  function Run<K, V>(c: LifoCache<K, V>, ops: seq<Op<K, V>>): (t: Trace<LifoCache<K, V>, K, V>)
    requires Valid(c)
    ensures Valid(t.cache) && t.cache.maxItems == c.maxItems
    ensures WithinCapacity(c) ==> WithinCapacity(t.cache)
    ensures |t.fetched| <= |ops|
    decreases |ops|
  {
    if |ops| == 0 then Trace(c, [], [])
    else match ops[0]
      case PutOp(key, item) =>
        var o := Put(c, key, item);
        var t := Run(o.cache, ops[1..]);
        Trace(t.cache, Discards(o.evicted) + t.evicted, t.fetched)
      case GetOp(key) =>
        var t := Run(c, ops[1..]);
        Trace(t.cache, t.evicted, [Get(c, key)] + t.fetched)
  }

  /** A stored key that is neither rewritten nor discarded keeps its value. */
  lemma {:induction false} ValueSticks<K, V>(c: LifoCache<K, V>, ops: seq<Op<K, V>>, k: K)
    requires Valid(c) && k in c.data
    requires forall i :: 0 <= i < |ops| ==> !Writes(ops[i], k)
    requires k !in Run(c, ops).evicted
    ensures k in Run(c, ops).cache.data && Run(c, ops).cache.data[k] == c.data[k]
    decreases |ops|
  {
    if |ops| > 0 {
      match ops[0]
      case PutOp(key, item) =>
        var o := Put(c, key, item);
        assert Run(c, ops).evicted == Discards(o.evicted) + Run(o.cache, ops[1..]).evicted;
        assert o.evicted != Some(k);
        ValueSticks(o.cache, ops[1..], k);
      case GetOp(_) =>
        ValueSticks(c, ops[1..], k);
    }
  }

  /** Round trip: after `put(k, v)`, `get(k)` returns `v` as long as the
      calls that follow neither rewrite nor discard `k`. */
  lemma {:induction false} RoundTrip<K, V>(c: LifoCache<K, V>, k: K, v: V, ops: seq<Op<K, V>>)
    requires Valid(c)
    requires forall i :: 0 <= i < |ops| ==> !Writes(ops[i], k)
    requires k !in Run(Put(c, Some(k), Some(v)).cache, ops).evicted
    ensures Get(Run(Put(c, Some(k), Some(v)).cache, ops).cache, Some(k)) == Some(v)
  {
    ValueSticks(Put(c, Some(k), Some(v)).cache, ops, k);
  }

  /** The second half of the demonstration: with a, b, c, e stored and e
      written last, rewriting c discards e and leaves three keys; the next new
      key f fits without a discard, and the one after discards f. */
  lemma RewriteShrinksThenRefills<K, V>(a: K, b: K, c: K, e: K, f: K, g: K, v: V, vc: V, vf: V, vg: V)
    requires a != b && a != c && a != e && a != f && a != g && b != c && b != e && b != f && b != g
    requires c != e && c != f && c != g && e != f && e != g && f != g
    ensures var s := LifoCache(4, map[a := v, b := v, c := v, e := v], Some(e));
            var o1 := Put(s, Some(c), Some(vc));
            var o2 := Put(o1.cache, Some(f), Some(vf));
            && Valid(s)
            && o1.evicted == Some(e) && |o1.cache.data| == 3 && o1.cache.lastKey == Some(c)
            && o2.evicted == None && |o2.cache.data| == 4
            && Put(o2.cache, Some(g), Some(vg)).evicted == Some(f)
  {
  }
}
