/** `LFUCache` (0x01-caching/100-lfu_cache.py): when a new key arrives at a
    full cache, the key touched fewest times is discarded, and among those the
    one touched longest ago. A `get` hit and a `put` on a stored key both count
    as touches. */
module Lfu {
  import opened Wrappers
  import opened Ledger
  import opened Caching

  /** `cache_data`, the touch counters `freq`, and the recency ledger `order`
      (least recently touched first). */
  datatype LfuCache<K, V> = LfuCache(maxItems: Capacity, data: map<K, V>, freq: map<K, nat>, order: seq<K>)

  /** Bookkeeping invariant: the three structures hold the same keys, the
      ledger lists each once, and every stored key has been touched. */
  predicate Valid<K, V>(c: LfuCache<K, V>) {
    && c.freq.Keys == c.data.Keys
    && NoDup(c.order)
    && (forall k :: k in c.order ==> k in c.data)
    && (forall k :: k in c.data ==> k in c.order)
    && (forall k :: k in c.freq ==> c.freq[k] >= 1)
  }

  /** The capacity bound of the base class. */
  predicate WithinCapacity<K, V>(c: LfuCache<K, V>) {
    |c.data| <= c.maxItems
  }

  /** `__init__`: an empty cache, no counters, an empty ledger. */
  function Init<K, V>(maxItems: Capacity): (c: LfuCache<K, V>)
    ensures Valid(c) && WithinCapacity(c)
    ensures c.maxItems == maxItems && |c.data| == 0
  {
    LfuCache(maxItems, map[], map[], [])
  }

  /** The eviction order: `a` goes before `b` when its key
      `(freq[a], order.index(a))` is lexicographically smaller. */
  predicate RanksBelow<K, V>(c: LfuCache<K, V>, a: K, b: K)
    requires Valid(c) && a in c.data && b in c.data
    // a strict order: no key ranks below itself (see also RanksBelowAsymmetric)
    ensures RanksBelow(c, a, b) ==> a != b
  {
    || c.freq[a] < c.freq[b]
    || (c.freq[a] == c.freq[b] && IndexOf(c.order, a) < IndexOf(c.order, b))
  }

  /** Two keys never rank below each other, so `min` has one answer. */
  lemma RanksBelowAsymmetric<K, V>(c: LfuCache<K, V>, a: K, b: K)
    requires Valid(c) && a in c.data && b in c.data
    ensures RanksBelow(c, a, b) ==> !RanksBelow(c, b, a)
  {
  }

  /** `v` is what `min(freq, key=...)` selects: it ranks below every other key. */
  predicate IsVictim<K, V>(c: LfuCache<K, V>, v: K)
    requires Valid(c)
    ensures IsVictim(c, v) ==> v in c.data && forall k :: k in c.data && k != v ==> !RanksBelow(c, k, v)
  {
    v in c.data && forall k :: k in c.data && k != v ==> RanksBelow(c, v, k)
  }

  /** A scan of the ledger for the first position with the fewest touches. */
  function MinRankIndex<K>(order: seq<K>, freq: map<K, nat>): (i: nat)
    requires |order| > 0
    requires forall k :: k in order ==> k in freq
    ensures i < |order|
    ensures forall j :: 0 <= j < |order| ==>
              || freq[order[i]] < freq[order[j]]
              || (freq[order[i]] == freq[order[j]] && i <= j)
    decreases |order|
  {
    if |order| == 1 then 0
    else
      var j := 1 + MinRankIndex(order[1..], freq);
      if freq[order[0]] <= freq[order[j]] then 0 else j
  }

  /** The position the scan selects holds the victim. */
  lemma MinRankIsVictim<K, V>(c: LfuCache<K, V>, i: nat)
    requires Valid(c) && i < |c.order|
    requires forall j :: 0 <= j < |c.order| ==>
               || c.freq[c.order[i]] < c.freq[c.order[j]]
               || (c.freq[c.order[i]] == c.freq[c.order[j]] && i <= j)
    ensures IsVictim(c, c.order[i])
  {
    IndexOfDistinct(c.order, i);
    forall k | k in c.data && k != c.order[i]
      ensures RanksBelow(c, c.order[i], k)
    {
      var j := IndexOf(c.order, k);
      assert c.order[j] == k;
    }
  }

  /** The key a full cache discards: it exists and no other key qualifies. */
  function Victim<K, V>(c: LfuCache<K, V>): (v: K)
    requires Valid(c) && |c.data| > 0
    ensures IsVictim(c, v)
    ensures forall k :: k in c.data && IsVictim(c, k) ==> k == v
  {
    LedgerSize(c.order, c.data);
    var i := MinRankIndex(c.order, c.freq);
    MinRankIsVictim(c, i);
    c.order[i]
  }

  /** One more touch of a stored key, with the ledger replaced by a
      rearrangement of itself, keeps the invariant. */
  lemma TouchKeepsValid<K, V>(c: LfuCache<K, V>, k: K, order: seq<K>)
    requires Valid(c) && k in c.data
    requires NoDup(order) && forall j :: j in order <==> j in c.order
    ensures Valid(c.(freq := c.freq[k := c.freq[k] + 1], order := order))
  {
    var freq := c.freq[k := c.freq[k] + 1];
    assert freq.Keys == c.data.Keys;
  }

  /** A touch: one more use of `k`, which moves to the tail of the ledger
      while the other keys keep their relative order. */
  function Touch<K, V>(c: LfuCache<K, V>, k: K): (r: LfuCache<K, V>)
    requires Valid(c) && k in c.data
    ensures Valid(r) && r.maxItems == c.maxItems && r.data == c.data
    ensures r.freq[k] == c.freq[k] + 1
    ensures forall j :: j in c.freq && j != k ==> r.freq[j] == c.freq[j]
    ensures |r.order| == |c.order| && r.order[|r.order| - 1] == k
    ensures r.order[..|r.order| - 1] == Remove(c.order, k)
  {
    var order := Remove(c.order, k) + [k];
    var r := c.(freq := c.freq[k := c.freq[k] + 1], order := order);
    assert Valid(r) by {
      MoveToBack(c.order, k);
      TouchKeepsValid(c, k, order);
    }
    assert order[..|order| - 1] == Remove(c.order, k);
    r
  }

  /** Dropping a stored key from all three structures keeps the invariant. */
  lemma DiscardKeepsValid<K, V>(c: LfuCache<K, V>, v: K)
    requires Valid(c) && v in c.data
    ensures Valid(c.(data := c.data - {v}, freq := c.freq - {v}, order := Remove(c.order, v)))
  {
    RemoveDistinct(c.order, v);
  }

  /** Drop `v` from all three structures. */
  function Discard<K, V>(c: LfuCache<K, V>, v: K): (r: LfuCache<K, V>)
    requires Valid(c) && v in c.data
    ensures Valid(r) && r.maxItems == c.maxItems
    ensures r.data.Keys == c.data.Keys - {v} && |r.data| == |c.data| - 1
    ensures r.order == Remove(c.order, v)
    ensures forall j :: j in r.data ==> r.data[j] == c.data[j] && r.freq[j] == c.freq[j]
  {
    DiscardKeepsValid(c, v);
    c.(data := c.data - {v}, freq := c.freq - {v}, order := Remove(c.order, v))
  }

  /** Adding a new key with one touch at the tail keeps the invariant. */
  lemma AdmitKeepsValid<K, V>(c: LfuCache<K, V>, k: K, v: V)
    requires Valid(c) && k !in c.data
    ensures Valid(c.(data := c.data[k := v], freq := c.freq[k := 1], order := c.order + [k]))
  {
    AppendDistinct(c.order, k);
  }

  /** Store a new key with one touch, at the tail of the ledger. */
  function Admit<K, V>(c: LfuCache<K, V>, k: K, v: V): (r: LfuCache<K, V>)
    requires Valid(c) && k !in c.data
    ensures Valid(r) && r.maxItems == c.maxItems
    ensures r.data.Keys == c.data.Keys + {k} && |r.data| == |c.data| + 1
    ensures r.data[k] == v && r.freq[k] == 1
    ensures r.order == c.order + [k]
    ensures forall j :: j in c.data ==> r.data[j] == c.data[j] && r.freq[j] == c.freq[j]
  {
    AdmitKeepsValid(c, k, v);
    c.(data := c.data[k := v], freq := c.freq[k := 1], order := c.order + [k])
  }

  /** `put` of a key not yet stored: make room if the cache is full, then
      store the key with one touch at the tail of the ledger. */
  function Insert<K, V>(c: LfuCache<K, V>, k: K, v: V): (r: Outcome<LfuCache<K, V>, K>)
    requires Valid(c) && k !in c.data
    ensures Valid(r.cache) && r.cache.maxItems == c.maxItems
    ensures WithinCapacity(c) ==> WithinCapacity(r.cache)
    ensures r.evicted.Some? <==> |c.data| >= c.maxItems
    ensures r.evicted.Some? ==> IsVictim(c, r.evicted.value) && r.evicted.value !in r.cache.data
    ensures k in r.cache.data && r.cache.data[k] == v && r.cache.freq[k] == 1
    ensures |r.cache.order| > 0 && r.cache.order[|r.cache.order| - 1] == k
    ensures r.evicted.Some? ==> r.evicted.value in c.order
    ensures r.cache.order == (if r.evicted.Some? then Remove(c.order, r.evicted.value) else c.order) + [k]
    ensures forall j :: j in c.data && Some(j) != r.evicted ==>
              && j in r.cache.data && r.cache.data[j] == c.data[j] && r.cache.freq[j] == c.freq[j]
    ensures forall j :: j in r.cache.data ==> j in c.data || j == k
  {
    if |c.data| >= c.maxItems then
      var victim := Victim(c);
      Outcome(Admit(Discard(c, victim), k, v), Some(victim))
    else
      Outcome(Admit(c, k, v), None)
  }

  /** The body of `put` once both arguments are present. */
  function Write<K, V>(c: LfuCache<K, V>, k: K, v: V): (r: Outcome<LfuCache<K, V>, K>)
    requires Valid(c)
    ensures Valid(r.cache) && r.cache.maxItems == c.maxItems
    ensures WithinCapacity(c) ==> WithinCapacity(r.cache)
    // discard only for a new key at a full cache; the victim is the least ranked key
    ensures r.evicted.Some? <==> k !in c.data && |c.data| >= c.maxItems
    ensures r.evicted.Some? ==> IsVictim(c, r.evicted.value) && r.evicted.value !in r.cache.data
    // a stored key is touched, and keeps its old value
    ensures k in c.data ==> r.cache == Touch(c, k) && r.cache.data == c.data
    // a new key is stored with one touch at the tail of the ledger
    ensures k !in c.data ==>
              && k in r.cache.data && r.cache.data[k] == v && r.cache.freq[k] == 1
              && |r.cache.order| > 0 && r.cache.order[|r.cache.order| - 1] == k
    // the surviving keys keep their recency order, which decides later ties
    ensures k !in c.data && r.evicted.Some? ==> r.evicted.value in c.order
    ensures k !in c.data ==>
              r.cache.order == (if r.evicted.Some? then Remove(c.order, r.evicted.value) else c.order) + [k]
    // counters of keys that stay never go down
    ensures forall j :: j in c.data && j in r.cache.data ==> r.cache.freq[j] >= c.freq[j]
    // every other key keeps its value and its counter; no other key appears
    ensures forall j :: j in c.data && j != k && Some(j) != r.evicted ==>
              && j in r.cache.data && r.cache.data[j] == c.data[j] && r.cache.freq[j] == c.freq[j]
    ensures forall j :: j in r.cache.data ==> j in c.data || j == k
  {
    if k in c.data then Outcome(Touch(c, k), None) else Insert(c, k, v)
  }

  /** `put(key, item)`: a `None` key or item changes nothing and discards
      nothing, even when the cache is full. */
  function Put<K, V>(c: LfuCache<K, V>, key: Option<K>, item: Option<V>): (r: Outcome<LfuCache<K, V>, K>)
    requires Valid(c)
    ensures Valid(r.cache) && r.cache.maxItems == c.maxItems
    ensures WithinCapacity(c) ==> WithinCapacity(r.cache)
    ensures key.None? || item.None? ==> r == Outcome(c, None)
    ensures key.Some? && item.Some? ==> r == Write(c, key.value, item.value)
  {
    if key.None? || item.None? then Outcome(c, None) else Write(c, key.value, item.value)
  }

  /** `get(key)`: a hit returns the stored value and counts as a touch; a miss
      changes nothing. Stored keys and values never change. */
  function Get<K, V>(c: LfuCache<K, V>, key: Option<K>): (r: Fetched<LfuCache<K, V>, V>)
    requires Valid(c)
    ensures Valid(r.cache) && r.cache.maxItems == c.maxItems && r.cache.data == c.data
    ensures r.value.Some? <==> key.Some? && key.value in c.data
    ensures r.value.Some? ==> r.value.value == c.data[key.value] && r.cache == Touch(c, key.value)
    ensures r.value.None? ==> r.cache == c
  {
    if key.Some? && key.value in c.data then Fetched(Touch(c, key.value), Some(c.data[key.value]))
    else Fetched(c, None)
  }

  /** A client's sequence of calls on one cache. The invariant, and the capacity
      bound once it holds, survive every sequence. */
  function Run<K, V>(c: LfuCache<K, V>, ops: seq<Op<K, V>>): (t: Trace<LfuCache<K, V>, K, V>)
    requires Valid(c)
    ensures Valid(t.cache) && t.cache.maxItems == c.maxItems
    ensures WithinCapacity(c) ==> WithinCapacity(t.cache)
    ensures |t.fetched| <= |ops|
    decreases |ops|
  {
    if |ops| == 0 then Trace(c, [], [])
    else match ops[0]
      case PutOp(key, item) =>
        var o := Put(c, key, item);
        var t := Run(o.cache, ops[1..]);
        Trace(t.cache, Discards(o.evicted) + t.evicted, t.fetched)
      case GetOp(key) =>
        var f := Get(c, key);
        var t := Run(f.cache, ops[1..]);
        Trace(t.cache, t.evicted, [f.value] + t.fetched)
  }

  /** A stored key that is never discarded keeps its value, even across
      `put`s of new values under it, and its counter never goes down. */
  lemma {:induction false} KeptKeyHistory<K, V>(c: LfuCache<K, V>, ops: seq<Op<K, V>>, k: K)
    requires Valid(c) && k in c.data
    requires k !in Run(c, ops).evicted
    ensures k in Run(c, ops).cache.data
    ensures Run(c, ops).cache.data[k] == c.data[k]
    ensures Run(c, ops).cache.freq[k] >= c.freq[k]
    decreases |ops|
  {
    if |ops| > 0 {
      match ops[0]
      case PutOp(key, item) =>
        var o := Put(c, key, item);
        assert Run(c, ops).evicted == Discards(o.evicted) + Run(o.cache, ops[1..]).evicted;
        assert o.evicted != Some(k);
        KeptKeyHistory(o.cache, ops[1..], k);
      case GetOp(key) =>
        KeptKeyHistory(Get(c, key).cache, ops[1..], k);
    }
  }

  /** Round trip: after `put(k, v)`, `get(k)` returns `v` as long as `k` is not
      discarded, whatever else is written under `k` in between; but when `k`
      was already stored, it returns the old value instead. */
  lemma {:induction false} RoundTrip<K, V>(c: LfuCache<K, V>, k: K, v: V, ops: seq<Op<K, V>>)
    requires Valid(c)
    requires k !in Run(Put(c, Some(k), Some(v)).cache, ops).evicted
    ensures Get(Run(Put(c, Some(k), Some(v)).cache, ops).cache, Some(k)).value
              == Some(if k in c.data then c.data[k] else v)
  {
    KeptKeyHistory(Put(c, Some(k), Some(v)).cache, ops, k);
  }

  /** Fixture for the demonstration lemmas below: a full cache of capacity 4
      whose ledger is w, x, y, z (least recently touched first) with the given
      touch counts; every key holds `v`. */
  function Full4<K, V>(w: K, x: K, y: K, z: K, fw: nat, fx: nat, fy: nat, fz: nat, v: V): LfuCache<K, V> {
    LfuCache(4, map[w := v, x := v, y := v, z := v], map[w := fw, x := fx, y := fy, z := fz], [w, x, y, z])
  }

  /** Such a cache satisfies the invariant. */
  lemma Full4Valid<K, V>(w: K, x: K, y: K, z: K, fw: nat, fx: nat, fy: nat, fz: nat, v: V)
    requires w != x && w != y && w != z && x != y && x != z && y != z
    requires fw >= 1 && fx >= 1 && fy >= 1 && fz >= 1
    ensures Valid(Full4(w, x, y, z, fw, fx, fy, fz, v))
  {
    assert [w, x, y, z][1..] == [x, y, z] && [x, y, z][1..] == [y, z] && [y, z][1..] == [z];
    assert NoDup([z]) && NoDup([y, z]) && NoDup([x, y, z]);
  }

  /** A `put` of a new key at a full cache discards the victim. */
  lemma FullPutEvictsVictim<K, V>(c: LfuCache<K, V>, k: K, v: V)
    requires Valid(c) && k !in c.data && |c.data| >= c.maxItems
    ensures Put(c, Some(k), Some(v)).evicted == Some(Victim(c))
  {
  }

  /** The first eviction of the demonstration: after `put` of a, b, c, d and
      `get(b)`, a, c, d are touched once and a longest ago, so `put(e)`
      discards a. */
  lemma LeastRecentAmongLeastUsed<K, V>(a: K, b: K, c: K, d: K, e: K, v: V, ve: V)
    requires a != b && a != c && a != d && a != e && b != c && b != d && b != e && c != d && c != e && d != e
    ensures Valid(Full4(a, c, d, b, 1, 1, 1, 2, v))
    ensures Put(Full4(a, c, d, b, 1, 1, 1, 2, v), Some(e), Some(ve)).evicted == Some(a)
  {
    var s := Full4(a, c, d, b, 1, 1, 1, 2, v);
    Full4Valid(a, c, d, b, 1, 1, 1, 2, v);
    assert IsVictim(s, a) by {
      assert IndexOf(s.order, a) == 0;
      assert IndexOf(s.order, c) == 1 && IndexOf(s.order, d) == 2;
    }
    FullPutEvictsVictim(s, e, ve);
  }

  /** A later eviction of the demonstration: with c touched 3 times, i and h
      4 times and the newest key j once, `put(k)` discards j although it was
      touched most recently. */
  lemma FewestTouchesBeatRecency<K, V>(c: K, i: K, h: K, j: K, k: K, v: V, vk: V)
    requires c != i && c != h && c != j && c != k && i != h && i != j && i != k && h != j && h != k && j != k
    ensures Valid(Full4(c, i, h, j, 3, 4, 4, 1, v))
    ensures Put(Full4(c, i, h, j, 3, 4, 4, 1, v), Some(k), Some(vk)).evicted == Some(j)
  {
    var s := Full4(c, i, h, j, 3, 4, 4, 1, v);
    Full4Valid(c, i, h, j, 3, 4, 4, 1, v);
    assert IsVictim(s, j);
    FullPutEvictsVictim(s, k, vk);
  }
}
