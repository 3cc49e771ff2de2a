/** `FIFOCache` (0x01-caching/1-fifo_cache.py): when a new key arrives at a
    full cache, the oldest key still stored is discarded. */
module Fifo {
  import opened Wrappers
  import opened Ledger
  import opened Caching

  /** `cache_data` and the insertion ledger `order`. */
  datatype FifoCache<K, V> = FifoCache(maxItems: Capacity, data: map<K, V>, order: seq<K>)

  /** Bookkeeping invariant: `order` lists each stored key exactly once. */
  predicate Valid<K, V>(c: FifoCache<K, V>) {
    && NoDup(c.order)
    && (forall k :: k in c.order ==> k in c.data)
    && (forall k :: k in c.data ==> k in c.order)
  }

  /** The capacity bound of the base class. */
  predicate WithinCapacity<K, V>(c: FifoCache<K, V>) {
    |c.data| <= c.maxItems
  }

  /** `__init__`: an empty cache with an empty ledger. */
  function Init<K, V>(maxItems: Capacity): (c: FifoCache<K, V>)
    ensures Valid(c) && WithinCapacity(c)
    ensures c.maxItems == maxItems && |c.data| == 0
  {
    FifoCache(maxItems, map[], [])
  }

  /** Drop the head of the ledger from both structures (`order.pop(0)` and `del`). */
  function EvictOldest<K, V>(c: FifoCache<K, V>): (r: Outcome<FifoCache<K, V>, K>)
    requires Valid(c) && |c.data| > 0
    ensures Valid(r.cache) && r.cache.maxItems == c.maxItems
    ensures r.evicted.Some? && |c.order| > 0 && r.evicted.value == c.order[0]
    ensures r.evicted.value in c.data && r.evicted.value !in r.cache.data
    ensures r.cache.order == c.order[1..]
    ensures r.cache.data.Keys == c.data.Keys - {r.evicted.value}
    ensures forall k :: k in r.cache.data ==> r.cache.data[k] == c.data[k]
  {
    LedgerSize(c.order, c.data);
    var first := c.order[0];
    assert c.order == [first] + c.order[1..];
    Outcome(c.(data := c.data - {first}, order := c.order[1..]), Some(first))
  }

  /** Write `k -> v`, appending `k` to the ledger unless it is already listed. */
  function Store<K, V>(c: FifoCache<K, V>, k: K, v: V): (r: FifoCache<K, V>)
    requires Valid(c)
    ensures Valid(r) && r.maxItems == c.maxItems
    ensures r.data.Keys == c.data.Keys + {k} && r.data[k] == v
    ensures forall j :: j in c.data && j != k ==> r.data[j] == c.data[j]
    ensures k in c.data ==> r.order == c.order
    ensures k !in c.data ==> r.order == c.order + [k]
  {
    var order := if k in c.order then c.order else (AppendDistinct(c.order, k); c.order + [k]);
    c.(data := c.data[k := v], order := order)
  }

  /** The body of `put` once both arguments are present. */
  function Write<K, V>(c: FifoCache<K, V>, k: K, v: V): (r: Outcome<FifoCache<K, V>, K>)
    requires Valid(c)
    ensures Valid(r.cache) && r.cache.maxItems == c.maxItems
    ensures WithinCapacity(c) ==> WithinCapacity(r.cache)
    // discard only for a new key at a full cache; the victim is the ledger head
    ensures r.evicted.Some? <==> k !in c.data && |c.data| >= c.maxItems
    ensures r.evicted.Some? ==>
              && |c.order| > 0 && r.evicted.value == c.order[0]
              && r.evicted.value in c.data
              && r.evicted.value !in r.cache.data && r.evicted.value !in r.cache.order
    // the written value is what is stored
    ensures k in r.cache.data && r.cache.data[k] == v
    // updating a present key keeps its place in the ledger
    ensures k in c.data ==> r.cache.order == c.order
    // a new key goes to the tail, behind every survivor, which keeps its place in line
    ensures k !in c.data ==> |r.cache.order| > 0 && r.cache.order[|r.cache.order| - 1] == k
    ensures k !in c.data ==>
              r.cache.order == (if r.evicted.Some? then c.order[1..] else c.order) + [k]
    // every other key keeps its value; no other key appears
    ensures forall j :: j in c.data && j != k && Some(j) != r.evicted ==>
              j in r.cache.data && r.cache.data[j] == c.data[j]
    ensures forall j :: j in r.cache.data ==> j in c.data || j == k
  {
    if k !in c.data && |c.data| >= c.maxItems then
      var cleared := EvictOldest(c);
      assert |cleared.cache.data| == |c.data| - 1;
      var stored := Store(cleared.cache, k, v);
      assert stored.order == c.order[1..] + [k];
      Outcome(stored, cleared.evicted)
    else
      Outcome(Store(c, k, v), None)
  }

  /** `put(key, item)`: a `None` key or item changes nothing and discards
      nothing, even when the cache is full. */
  function Put<K, V>(c: FifoCache<K, V>, key: Option<K>, item: Option<V>): (r: Outcome<FifoCache<K, V>, K>)
    requires Valid(c)
    ensures Valid(r.cache) && r.cache.maxItems == c.maxItems
    ensures WithinCapacity(c) ==> WithinCapacity(r.cache)
    ensures key.None? || item.None? ==> r == Outcome(c, None)
    ensures key.Some? && item.Some? ==> r == Write(c, key.value, item.value)
  {
    if key.None? || item.None? then Outcome(c, None) else Write(c, key.value, item.value)
  }

  /** `get(key)`: a lookup that changes nothing. */
  function Get<K, V>(c: FifoCache<K, V>, key: Option<K>): (r: Option<V>)
    ensures r.Some? <==> key.Some? && key.value in c.data
    ensures r.Some? ==> r.value == c.data[key.value]
  {
    if key.Some? && key.value in c.data then Some(c.data[key.value]) else None
  }

  /** A client's sequence of calls on one cache. The invariant, and the capacity
      bound once it holds, survive every sequence. */
  function Run<K, V>(c: FifoCache<K, V>, ops: seq<Op<K, V>>): (t: Trace<FifoCache<K, V>, K, V>)
    requires Valid(c)
    ensures Valid(t.cache) && t.cache.maxItems == c.maxItems
    ensures WithinCapacity(c) ==> WithinCapacity(t.cache)
    ensures |t.fetched| <= |ops|
    decreases |ops|
  {
    if |ops| == 0 then Trace(c, [], [])
    else match ops[0]
      case PutOp(key, item) =>
        var o := Put(c, key, item);
        var t := Run(o.cache, ops[1..]);
        Trace(t.cache, Discards(o.evicted) + t.evicted, t.fetched)
      case GetOp(key) =>
        var t := Run(c, ops[1..]);
        Trace(t.cache, t.evicted, [Get(c, key)] + t.fetched)
  }

  /** A stored key that is neither rewritten nor discarded keeps its value. */
  lemma {:induction false} ValueSticks<K, V>(c: FifoCache<K, V>, ops: seq<Op<K, V>>, k: K)
    requires Valid(c) && k in c.data
    requires forall i :: 0 <= i < |ops| ==> !Writes(ops[i], k)
    requires k !in Run(c, ops).evicted
    ensures k in Run(c, ops).cache.data && Run(c, ops).cache.data[k] == c.data[k]
    decreases |ops|
  {
    if |ops| > 0 {
      match ops[0]
      case PutOp(key, item) =>
        var o := Put(c, key, item);
        assert Run(c, ops).evicted == Discards(o.evicted) + Run(o.cache, ops[1..]).evicted;
        assert o.evicted != Some(k);
        ValueSticks(o.cache, ops[1..], k);
      case GetOp(_) =>
        ValueSticks(c, ops[1..], k);
    }
  }

  /** Round trip: after `put(k, v)`, `get(k)` returns `v` as long as the
      calls that follow neither rewrite nor discard `k`. */
  lemma {:induction false} RoundTrip<K, V>(c: FifoCache<K, V>, k: K, v: V, ops: seq<Op<K, V>>)
    requires Valid(c)
    requires forall i :: 0 <= i < |ops| ==> !Writes(ops[i], k)
    requires k !in Run(Put(c, Some(k), Some(v)).cache, ops).evicted
    ensures Get(Run(Put(c, Some(k), Some(v)).cache, ops).cache, Some(k)) == Some(v)
  {
    ValueSticks(Put(c, Some(k), Some(v)).cache, ops, k);
  }

  /** The end of the demonstration: with b, c, d, e stored in that order,
      rewriting c discards nothing and keeps c's place, and the next new key
      then discards b. */
  lemma RewriteThenEvict<K, V>(b: K, c: K, d: K, e: K, f: K, v: V, vc: V, vf: V)
    requires b != c && b != d && b != e && b != f && c != d && c != e && c != f && d != e && d != f && e != f
    ensures var s := FifoCache(4, map[b := v, c := v, d := v, e := v], [b, c, d, e]);
            && Valid(s)
            && Put(s, Some(c), Some(vc)).evicted == None
            && Put(s, Some(c), Some(vc)).cache.order == [b, c, d, e]
            && Put(Put(s, Some(c), Some(vc)).cache, Some(f), Some(vf)).evicted == Some(b)
  {
    var s := FifoCache(4, map[b := v, c := v, d := v, e := v], [b, c, d, e]);
    assert [b, c, d, e][1..] == [c, d, e] && [c, d, e][1..] == [d, e] && [d, e][1..] == [e];
    assert NoDup([e]) && NoDup([d, e]) && NoDup([c, d, e]);
    var o := Put(s, Some(c), Some(vc));
    assert o.cache.data.Keys == s.data.Keys;
  }
}
