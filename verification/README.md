# Bounded caches with FIFO, LIFO and LFU eviction

A Dafny model of the three caching classes in `0x01-caching`. Each class keeps
key/value pairs in `cache_data` up to the capacity `MAX_ITEMS`. When a `put`
arrives at a full cache, each class discards a key by its own rule.

- `FIFOCache` discards the oldest key still stored. It does so only when the
  incoming key is new.
- `LIFOCache` discards the key written last. It does so whenever the cache is
  full, even when the incoming key is already stored.
- `LFUCache` discards the key with the fewest touches. Among keys with equally
  few touches, it discards the one touched longest ago. A `put` on a stored key
  and a `get` hit both count as a touch.

Each cache is an immutable state datatype with pure functions. `Put` returns
the new state and the discarded key as an `Option`. That key is what the source
prints as `DISCARD: <key>`. `Get` returns the stored value or `None`. For LFU,
`Get` also returns the new state, because a hit changes the touch bookkeeping.
Python's `None` key or item argument is modelled as `None` of an `Option`.

Modules:

- `Wrappers`: the `Option` type.
- `Ledger`: the key lists used as ordering ledgers. It defines duplicate
  freedom and the list operations the caches call (`index`, `remove`).
- `Caching`: what the caches share. This is the capacity type (at least 1), the
  result of a `put`, and client call sequences (`Op`, `Trace`).
- `Fifo`, `Lifo`, `Lfu`: one module per class.

Each policy module defines:

- a bookkeeping invariant `Valid`;
- the capacity bound `WithinCapacity`;
- `Init`, `Write` (the body of `put` once both arguments are present), `Put`
  and `Get`;
- `Run`, which applies a sequence of calls and collects the discarded keys and
  the `get` results;
- lemmas about values surviving across runs;
- lemmas about the concrete evictions of the module's demonstration block.

Two behaviours of the code that the model keeps:

- A `put` on a key already stored in the LFU cache counts a touch but does not
  replace the stored value. The assignment at
  `0x01-caching/100-lfu_cache.py:35` is only reached for a new key.
  `Lfu.Write` therefore states `r.cache.data == c.data` for a stored key.
  `Lfu.RoundTrip` states that a later `get` returns the old value.
- All three classes evict when `len(cache_data) >= MAX_ITEMS`. The model uses
  the same `>=` test.

## Model

| member | source | states |
|---|---|---|
| Ledger.IndexOf | 0x01-caching/100-lfu_cache.py:29 | `order.index(x)` is the first position holding `x`. |
| Ledger.Remove | 0x01-caching/100-lfu_cache.py:26 | `order.remove(x)` drops exactly the first occurrence of `x` and keeps everything else in order. |
| Ledger.NoDupDistinct | 0x01-caching/100-lfu_cache.py:17 | In a duplicate-free ledger, two different positions hold different keys. |
| Ledger.IndexOfDistinct | 0x01-caching/100-lfu_cache.py:29 | In a duplicate-free ledger, `index` of the key at position i is i, so the tie-break position is well defined. |
| Ledger.AppendDistinct | 0x01-caching/1-fifo_cache.py:30-31 | Appending a key that is not yet listed keeps the ledger duplicate-free. |
| Ledger.RemoveDistinct | 0x01-caching/100-lfu_cache.py:32 | Removing a listed key leaves a duplicate-free ledger of exactly the other keys. |
| Ledger.MoveToBack | 0x01-caching/100-lfu_cache.py:26-38 | Moving a listed key to the tail (`remove` then `append`) keeps the ledger duplicate-free and lists the same keys. |
| Ledger.LedgerSize | 0x01-caching/1-fifo_cache.py:24-25 | A ledger that lists each stored key once is as long as the cache is large. So a full cache has a head to `pop(0)`. |
| Fifo.Init | 0x01-caching/1-fifo_cache.py:13-16 | A new cache is empty, meets the ledger invariant and is within capacity. |
| Fifo.EvictOldest | 0x01-caching/1-fifo_cache.py:24-27 | The discarded key is the ledger head. It leaves both the ledger and `cache_data`, the ledger keeps the rest in order, and the other values are untouched. |
| Fifo.Store | 0x01-caching/1-fifo_cache.py:29-31 | The write stores the value. A stored key keeps its ledger place, and a new key is appended at the tail. The invariant is kept. |
| Fifo.Write | 0x01-caching/1-fifo_cache.py:23-31 | A discard happens iff the key is new and the cache is full, and its victim is `order[0]`. The key then holds the item. A rewrite leaves `order` unchanged. A new key makes the ledger `order[1:] + [key]` after a discard and `order + [key]` otherwise, so the survivors keep their arrival order. Other keys keep their values, no other key appears, and the invariant and size bound are kept. |
| Fifo.Put | 0x01-caching/1-fifo_cache.py:18-31 | A `None` key or item changes nothing and discards nothing, even when full. Otherwise `put` is `Write`. The invariant and the bound are kept. |
| Fifo.Get | 0x01-caching/1-fifo_cache.py:33-35 | Returns the stored value for a stored key and `None` otherwise. The state is not changed. |
| Fifo.Run | 0x01-caching/1-fifo_cache.py:18-35 | After any sequence of calls, the ledger invariant holds. If the cache started within capacity, it stays within capacity. |
| Fifo.ValueSticks | 0x01-caching/1-fifo_cache.py:23-31 | A stored key that no later call rewrites and no call discards keeps its value. |
| Fifo.RoundTrip | 0x01-caching/1-fifo_cache.py:29-35 | After `put(k, v)`, `get(k)` returns `v` as long as `k` is neither rewritten nor discarded. |
| Fifo.RewriteThenEvict | 0x01-caching/1-fifo_cache.py:47-51 | In the demonstration, rewriting C in the full cache B, C, D, E discards nothing and keeps the ledger. The next new key F discards B. |
| Lifo.Init | 0x01-caching/2-lifo_cache.py:13-16 | A new cache is empty with no last key, is valid and is within capacity. |
| Lifo.Write | 0x01-caching/2-lifo_cache.py:23-29 | A discard happens iff the cache is full, whether or not the key is stored, and the victim is `last_key`. Afterwards `last_key` is the written key and holds the item. Below capacity nothing is lost. At capacity, rewriting a stored key other than `last_key` shrinks the cache by one. Other keys keep their values. The invariant and size bound are kept. |
| Lifo.Put | 0x01-caching/2-lifo_cache.py:18-29 | A `None` key or item changes nothing, `last_key` included, and discards nothing. Otherwise `put` is `Write`. |
| Lifo.Get | 0x01-caching/2-lifo_cache.py:31-33 | Returns the stored value or `None`. The state is not changed. |
| Lifo.Run | 0x01-caching/2-lifo_cache.py:18-33 | After any sequence of calls, `last_key` is unset iff the cache is empty and otherwise names a stored key. The capacity bound survives. |
| Lifo.ValueSticks | 0x01-caching/2-lifo_cache.py:23-29 | A stored key that is neither rewritten nor discarded keeps its value. |
| Lifo.RoundTrip | 0x01-caching/2-lifo_cache.py:28-33 | After `put(k, v)`, `get(k)` returns `v` as long as `k` is neither rewritten nor discarded. |
| Lifo.RewriteShrinksThenRefills | 0x01-caching/2-lifo_cache.py:47-51 | In the demonstration, rewriting C in the full cache A, B, C, E (E last) discards E and leaves three keys. F then fits without a discard, and G discards F. |
| Lfu.Init | 0x01-caching/100-lfu_cache.py:13-17 | A new cache has no entries, no counters and an empty ledger. It is valid and within capacity. |
| Lfu.RanksBelow | 0x01-caching/100-lfu_cache.py:29 | The sort key `(freq[k], order.index(k))` of `min`, compared lexicographically. It is irreflexive: no key ranks below itself. |
| Lfu.RanksBelowAsymmetric | 0x01-caching/100-lfu_cache.py:29 | Two keys never rank below each other, because counts are compared first and ledger positions are distinct. |
| Lfu.IsVictim | 0x01-caching/100-lfu_cache.py:29 | The key `min` selects is stored and ranks below every other stored key. No stored key ranks below it. |
| Lfu.MinRankIndex | 0x01-caching/100-lfu_cache.py:29 | The scan returns a ledger position whose count is no larger than any other. Among the positions with that count, it is the earliest. |
| Lfu.MinRankIsVictim | 0x01-caching/100-lfu_cache.py:29 | That position holds a key whose (count, index) pair is strictly smaller than every other key's pair. |
| Lfu.Victim | 0x01-caching/100-lfu_cache.py:29 | A non-empty cache has a victim under the `min(freq, key=(freq, index))` rule, and no other key qualifies. |
| Lfu.TouchKeepsValid | 0x01-caching/100-lfu_cache.py:24-26 | Counting one more touch of a stored key, with the ledger replaced by any duplicate-free list of the same keys, keeps the invariant. |
| Lfu.Touch | 0x01-caching/100-lfu_cache.py:42-45 | A touch raises the key's count by exactly one and leaves other counts and all values alone. It moves the key to the tail, and the other keys keep their relative order. |
| Lfu.DiscardKeepsValid | 0x01-caching/100-lfu_cache.py:30-32 | Removing the victim from all three structures keeps the invariant. |
| Lfu.Discard | 0x01-caching/100-lfu_cache.py:30-32 | The victim leaves `cache_data`, `freq` and `order`. The ledger becomes `order` with the victim removed and the rest in order. The size drops by one, and the others keep their values and counts. |
| Lfu.AdmitKeepsValid | 0x01-caching/100-lfu_cache.py:35-38 | Adding a new key with count 1 at the tail keeps the invariant. |
| Lfu.Admit | 0x01-caching/100-lfu_cache.py:35-38 | A new key is stored with its item, count 1, at the tail of the ledger. The others are unchanged. |
| Lfu.Insert | 0x01-caching/100-lfu_cache.py:27-38 | For a new key, a discard happens iff the cache is full, and the discarded key is the unique victim. The key is then stored with count 1. The ledger becomes the old one, minus the victim if any, with the key appended, so the survivors keep their recency order. Other keys keep values and counts. |
| Lfu.Write | 0x01-caching/100-lfu_cache.py:24-38 | A discard happens iff the key is new and the cache is full, and it takes the victim. A stored key is touched and keeps its old value. A new key gets count 1, and the ledger becomes the old one, minus the victim if any, with the key appended. Counts of surviving keys never decrease. The invariant and size bound are kept. |
| Lfu.Put | 0x01-caching/100-lfu_cache.py:19-38 | A `None` key or item leaves `cache_data`, `freq` and `order` unchanged and discards nothing. Otherwise `put` is `Write`. |
| Lfu.Get | 0x01-caching/100-lfu_cache.py:40-47 | A hit returns the stored value and is a touch. A miss returns `None` and changes nothing. Stored keys and values never change. |
| Lfu.Run | 0x01-caching/100-lfu_cache.py:19-47 | After any sequence of calls, the three structures agree, the ledger has no duplicates and every count is at least 1. The capacity bound survives. |
| Lfu.KeptKeyHistory | 0x01-caching/100-lfu_cache.py:24-47 | A key that is never discarded stays stored and keeps its first value, even across later `put`s under it. Its count never goes down. |
| Lfu.RoundTrip | 0x01-caching/100-lfu_cache.py:24-47 | After `put(k, v)` and calls that do not discard `k`, `get(k)` returns `v` if `k` was new. If `k` was already stored, it returns the old value. |
| Lfu.Full4Valid | 0x01-caching/100-lfu_cache.py:16-17 | A four-key cache with distinct keys and positive counts meets the invariant. |
| Lfu.FullPutEvictsVictim | 0x01-caching/100-lfu_cache.py:28-33 | A `put` of a new key at a full cache discards exactly the victim. |
| Lfu.LeastRecentAmongLeastUsed | 0x01-caching/100-lfu_cache.py:54-60 | In the demonstration, after A, B, C, D and `get(B)`, `put(E)` discards A: it has the fewest touches and was touched earliest among those. |
| Lfu.FewestTouchesBeatRecency | 0x01-caching/100-lfu_cache.py:81-83 | In the demonstration, after J arrives with one touch among keys touched 3 and 4 times, `put(K)` discards J even though J was touched most recently. |

## Left out

- The console output: `print(f"DISCARD: ...")` becomes the returned discarded key. `print_cache` is not modelled.
- `BaseCaching` (`base_caching.py`) is not part of this model. The model assumes only what the three classes use: `cache_data` starts empty, and `MAX_ITEMS` is a capacity. The capacity is a parameter of at least 1. The demonstration blocks first discard on the fifth distinct key, which fits a capacity of 4. With 0, LIFO could not keep its bound, and FIFO's `pop(0)` and LFU's `min` would fail on an empty cache.
- Python exceptions that valid states rule out: `pop(0)` or `min` on an empty cache, `remove`, `index` or `del` of a missing key. Each `Put` requires the class's bookkeeping invariant. `Init` establishes it and every call keeps it.
- Cost: the linear-time `list.remove`, `list.index` and `pop(0)` are modelled as sequence operations, with no cost.
- The demonstration blocks are not replayed from an empty cache. Each demonstration lemma starts from the state the block reaches just before the eviction it shows, with arbitrary distinct keys and values.
- The `0x02-i18n` Flask applications and the `0x03-queuing_system_in_js` Redis/Kue programs are outside the caching core.
- Concurrency: the classes are single-threaded and hold no locks.
