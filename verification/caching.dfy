/** What the three caches share: the capacity `MAX_ITEMS` of the base class,
    the shape of a `put` result, and client operation sequences. */
module Caching {
  import opened Wrappers

  /** `BaseCaching.MAX_ITEMS`. At least one, since a full cache with nothing
      in it has nothing to evict. The demonstration blocks first discard on
      the fifth distinct key, which fits a capacity of 4. */
  type Capacity = n: int | 1 <= n witness 1

  /** A `put`: the cache afterwards and the key announced as `DISCARD`, if any. */
  datatype Outcome<S, K> = Outcome(cache: S, evicted: Option<K>)

  /** A `get`, for a cache whose lookups change its bookkeeping. */
  datatype Fetched<S, V> = Fetched(cache: S, value: Option<V>)

  /** One client call, with Python's `None` arguments as `None`. */
  datatype Op<K, V> = PutOp(key: Option<K>, item: Option<V>) | GetOp(key: Option<K>)

  /** The result of a sequence of calls: final cache, every discarded key in
      order, and the result of every `get` in order. */
  datatype Trace<S, K, V> = Trace(cache: S, evicted: seq<K>, fetched: seq<Option<V>>)

  /** The discard event of one `put`, as a (possibly empty) list. */
  function Discards<K>(o: Option<K>): seq<K> {
    match o
    case None => []
    case Some(k) => [k]
  }

  /** The call writes a value under `k`. */
  predicate Writes<K(==), V>(op: Op<K, V>, k: K) {
    op.PutOp? && op.key == Some(k) && op.item.Some?
  }
}
