/** Sequences of keys used as ordering ledgers (the Python lists `order`),
    with the list operations the caches call: `index`, `remove`, `pop(0)`. */
module Ledger {

  /** No element occurs twice. */
  predicate NoDup<T(==)>(s: seq<T>) {
    |s| == 0 || (s[0] !in s[1..] && NoDup(s[1..]))
  }

  /** `list.index(x)`: the position of the first occurrence of `x`.
      The caller must know `x` is present (Python raises otherwise). */
  function IndexOf<T(==)>(s: seq<T>, x: T): (i: nat)
    requires x in s
    ensures i < |s| && s[i] == x
    ensures forall j :: 0 <= j < i ==> s[j] != x
  {
    if s[0] == x then 0 else 1 + IndexOf(s[1..], x)
  }

  /** `list.remove(x)`: drop the first occurrence of `x`, keeping the rest in order.
      The caller must know `x` is present (Python raises otherwise). */
  function Remove<T(==)>(s: seq<T>, x: T): (r: seq<T>)
    requires x in s
    ensures |r| == |s| - 1
    ensures r == s[..IndexOf(s, x)] + s[IndexOf(s, x) + 1..]
  {
    if s[0] == x then s[1..]
    else
      var t := s[1..];
      var i := IndexOf(t, x);
      assert s[..i + 1] == [s[0]] + t[..i];
      assert s[i + 2..] == t[i + 1..];
      [s[0]] + Remove(t, x)
  }

  /** No two positions of a duplicate-free ledger hold the same key. */
  lemma {:induction false} NoDupDistinct<T>(s: seq<T>, i: int, j: int)
    requires NoDup(s) && 0 <= i < j < |s|
    ensures s[i] != s[j]
    decreases i
  {
    if i == 0 {
      assert s[j] == s[1..][j - 1];
    } else {
      NoDupDistinct(s[1..], i - 1, j - 1);
    }
  }

  /** In a duplicate-free ledger, a position is the index of its own element. */
  lemma IndexOfDistinct<T>(s: seq<T>, i: int)
    requires NoDup(s) && 0 <= i < |s|
    ensures IndexOf(s, s[i]) == i
  {
    var k := IndexOf(s, s[i]);
    if k < i {
      NoDupDistinct(s, k, i);
    }
  }

  /** Appending a key that is not yet listed keeps the ledger duplicate-free. */
  lemma {:induction false} AppendDistinct<T>(s: seq<T>, x: T)
    requires NoDup(s) && x !in s
    ensures NoDup(s + [x])
    decreases |s|
  {
    if |s| > 0 {
      assert (s + [x])[1..] == s[1..] + [x];
      AppendDistinct(s[1..], x);
    }
  }

  /** Removing from a duplicate-free ledger removes exactly that key and
      keeps the ledger duplicate-free. */
  lemma {:induction false} RemoveDistinct<T>(s: seq<T>, x: T)
    requires NoDup(s) && x in s
    ensures NoDup(Remove(s, x))
    ensures forall y :: y in Remove(s, x) <==> y in s && y != x
    decreases |s|
  {
    if s[0] != x {
      var t := s[1..];
      RemoveDistinct(t, x);
      var r := [s[0]] + Remove(t, x);
      assert r[1..] == Remove(t, x);
      assert forall y :: y in s <==> y == s[0] || y in t;
    }
  }

  /** Moving a listed key to the tail (`remove` then `append`) keeps the
      ledger duplicate-free and lists the same keys. */
  lemma MoveToBack<T>(s: seq<T>, x: T)
    requires NoDup(s) && x in s
    ensures NoDup(Remove(s, x) + [x])
    ensures forall y :: y in Remove(s, x) + [x] <==> y in s
  {
    RemoveDistinct(s, x);
    AppendDistinct(Remove(s, x), x);
  }

  /** A duplicate-free ledger whose elements are exactly the keys of a map
      is as long as the map is large. */
  lemma {:induction false} LedgerSize<K, V>(s: seq<K>, m: map<K, V>)
    requires NoDup(s)
    requires forall k :: k in s <==> k in m
    ensures |s| == |m|
    decreases |s|
  {
    if |s| == 0 {
      assert m.Keys == {};
    } else {
      var m' := m - {s[0]};
      assert forall k :: k in s <==> k == s[0] || k in s[1..];
      LedgerSize(s[1..], m');
      assert m'.Keys == m.Keys - {s[0]};
    }
  }
}
