/** The bounded least-recently-used cache over an insertion-ordered map.
    The map is an association list of distinct keys, oldest entry first, so
    JavaScript's delete-then-set "move to the end" is explicit. */
module Cache {
  import opened Wrappers

  /** Keys of an association list, in order. */
  function Keys<K(==), V>(entries: seq<(K, V)>): (ks: seq<K>)
    ensures |ks| == |entries|
    ensures forall i | 0 <= i < |entries| :: ks[i] == entries[i].0
  {
    if entries == [] then [] else [entries[0].0] + Keys(entries[1..])
  }

  predicate DistinctKeys<K(==), V>(entries: seq<(K, V)>) {
    forall i, j | 0 <= i < j < |entries| :: entries[i].0 != entries[j].0
  }

  /** `map.get(key)`, `None` standing for `undefined`. */
  function Lookup<K(==), V>(entries: seq<(K, V)>, key: K): (r: Option<V>)
    ensures r.None? <==> key !in Keys(entries)
    ensures r.Some? ==> (key, r.value) in entries
  {
    if entries == [] then None
    else if entries[0].0 == key then Some(entries[0].1)
    else Lookup(entries[1..], key)
  }

  /** `map.delete(key)`: every other entry stays, in order. */
  function Remove<K(==), V>(entries: seq<(K, V)>, key: K): (rest: seq<(K, V)>)
    ensures key !in Keys(rest)
    ensures forall e | e in rest :: e in entries
    ensures key !in Keys(entries) ==> rest == entries
  {
    if entries == [] then []
    else if entries[0].0 == key then Remove(entries[1..], key)
    else [entries[0]] + Remove(entries[1..], key)
  }

  /** The cache's state after `get(key)`. */
  function AfterGet<K(==), V>(entries: seq<(K, V)>, key: K): seq<(K, V)> {
    match Lookup(entries, key)
    case None => entries
    case Some(v) => Remove(entries, key) + [(key, v)]
  }

  /** The cache's state after `set(key, val)` with capacity `max`. */
  function AfterSet<K(==), V>(entries: seq<(K, V)>, max: int, key: K, val: V): seq<(K, V)> {
    var e := Remove(entries, key) + [(key, val)];
    if |e| > max then e[1..] else e
  }

  /** The cache never holds more than its capacity (none when it is negative). */
  function Bound(max: int): nat {
    if max < 0 then 0 else max
  }

  class LRUCache<K(==), V> {
    var max: int
    var entries: seq<(K, V)>

    ghost predicate Valid()
      reads this
    {
      DistinctKeys(entries) && |entries| <= Bound(max)
    }

    constructor (max: int)
      ensures Valid()
      ensures this.max == max && entries == []
    {
      this.max := max;
      entries := [];
    }

    method Get(key: K) returns (r: Option<V>)
      requires Valid()
      modifies this
      ensures Valid()
      ensures r == Lookup(old(entries), key)
      ensures entries == AfterGet(old(entries), key) && max == old(max)
    {
      r := Lookup(entries, key);
      if r.Some? {
        GetKeepsInvariant(entries, max, key);
        entries := Remove(entries, key) + [(key, r.value)];
      }
    }

    method Set(key: K, val: V)
      requires Valid()
      modifies this
      ensures Valid()
      ensures entries == AfterSet(old(entries), max, key, val) && max == old(max)
    {
      SetKeepsInvariant(entries, max, key, val);
      var e := Remove(entries, key);
      e := e + [(key, val)];
      if |e| > max {
        e := e[1..];
      }
      entries := e;
    }

    function Has(key: K): (b: bool)
      reads this
      ensures b <==> Lookup(entries, key).Some?
    {
      key in Keys(entries)
    }

    method Clear()
      modifies this
      ensures Valid()
      ensures entries == [] && max == old(max)
    {
      entries := [];
    }
  }

  // ---------------------------------------------------------------------------
  // Properties of the pure transitions.

  lemma {:induction false} RemoveSpec<K, V>(entries: seq<(K, V)>, key: K)
    requires DistinctKeys(entries)
    ensures DistinctKeys(Remove(entries, key))
    ensures key in Keys(entries) ==> |Remove(entries, key)| == |entries| - 1
    ensures forall k | k != key :: Lookup(Remove(entries, key), k) == Lookup(entries, k)
  {
    if entries != [] {
      var tail := entries[1..];
      assert DistinctKeys(tail);
      RemoveSpec(tail, key);
      if entries[0].0 != key {
        var r := [entries[0]] + Remove(tail, key);
        forall i, j | 0 <= i < j < |r| ensures r[i].0 != r[j].0 {
          if i == 0 {
            assert r[j] in Remove(tail, key);
            assert r[j] in tail;
          }
        }
        if key in Keys(entries) {
          assert key in Keys(tail);
        }
      } else {
        assert key !in Keys(tail);
      }
    }
  }

  lemma AppendFresh<K, V>(entries: seq<(K, V)>, key: K, val: V)
    requires DistinctKeys(entries) && key !in Keys(entries)
    ensures DistinctKeys(entries + [(key, val)])
  {
    var e := entries + [(key, val)];
    forall i, j | 0 <= i < j < |e| ensures e[i].0 != e[j].0 {
      if j == |entries| {
        assert e[i].0 == Keys(entries)[i];
      }
    }
  }

  lemma {:induction false} LookupAppend<K, V>(entries: seq<(K, V)>, key: K, val: V, k: K)
    requires key !in Keys(entries)
    ensures Lookup(entries + [(key, val)], k) == if k == key then Some(val) else Lookup(entries, k)
  {
    if entries != [] {
      assert (entries + [(key, val)])[1..] == entries[1..] + [(key, val)];
      LookupAppend(entries[1..], key, val, k);
    }
  }

  lemma GetKeepsInvariant<K, V>(entries: seq<(K, V)>, max: int, key: K)
    requires DistinctKeys(entries) && |entries| <= Bound(max)
    ensures DistinctKeys(AfterGet(entries, key)) && |AfterGet(entries, key)| <= Bound(max)
  {
    RemoveSpec(entries, key);
    if Lookup(entries, key).Some? {
      AppendFresh(Remove(entries, key), key, Lookup(entries, key).value);
    }
  }

  lemma SetKeepsInvariant<K, V>(entries: seq<(K, V)>, max: int, key: K, val: V)
    requires DistinctKeys(entries) && |entries| <= Bound(max)
    ensures DistinctKeys(AfterSet(entries, max, key, val))
    ensures |AfterSet(entries, max, key, val)| <= Bound(max)
  {
    RemoveSpec(entries, key);
    AppendFresh(Remove(entries, key), key, val);
  }

  /** `get` of an absent key answers `undefined` and changes nothing; of a
      present key, answers its value, keeps every key's value and the size,
      and moves only that key to the most-recent end. */
  lemma GetPromotes<K, V>(entries: seq<(K, V)>, key: K)
    requires DistinctKeys(entries)
    ensures key !in Keys(entries) ==> AfterGet(entries, key) == entries
    ensures key in Keys(entries) ==>
      var after := AfterGet(entries, key);
      |after| == |entries| && after[|after| - 1] == (key, Lookup(entries, key).value) &&
      after[..|after| - 1] == Remove(entries, key) &&
      forall k :: Lookup(after, k) == Lookup(entries, k)
  {
    RemoveSpec(entries, key);
    if key in Keys(entries) {
      var v := Lookup(entries, key).value;
      forall k ensures Lookup(AfterGet(entries, key), k) == Lookup(entries, k) {
        LookupAppend(Remove(entries, key), key, v, k);
      }
    }
  }

  /** After `set(key, val)` with a positive capacity, `key` maps to `val`, sits
      at the most-recent end, occurs once, and every other key that survives
      keeps its value. */
  lemma SetStores<K, V>(entries: seq<(K, V)>, max: int, key: K, val: V)
    requires DistinctKeys(entries) && |entries| <= Bound(max) && max >= 1
    ensures var after := AfterSet(entries, max, key, val);
      Lookup(after, key) == Some(val) && after[|after| - 1] == (key, val) &&
      forall k | k != key && k in Keys(after) :: Lookup(after, k) == Lookup(entries, k)
  {
    var e := Remove(entries, key) + [(key, val)];
    SetAppends(entries, key, val);
    var after := AfterSet(entries, max, key, val);
    if |e| > max {
      assert after == e[1..];
      DropOldest(e, key, val);
    }
    forall k | k != key && k in Keys(after) ensures Lookup(after, k) == Lookup(entries, k) {
      assert Lookup(after, k) == Lookup(e, k);
    }
  }

  /** Evicting the oldest entry keeps the newest and every surviving value. */
  lemma DropOldest<K, V>(e: seq<(K, V)>, key: K, val: V)
    requires DistinctKeys(e) && |e| >= 2 && e[|e| - 1] == (key, val)
    ensures e[1..][|e| - 2] == (key, val) && key in Keys(e[1..])
    ensures forall k | k in Keys(e[1..]) :: Lookup(e[1..], k) == Lookup(e, k)
  {
    forall k | k in Keys(e[1..]) ensures Lookup(e[1..], k) == Lookup(e, k) {
      DropHead(e, k);
    }
    assert Keys(e[1..])[|e| - 2] == key;
  }

  /** Before any eviction, `set` moves `key` to the end with its new value. */
  lemma SetAppends<K, V>(entries: seq<(K, V)>, key: K, val: V)
    requires DistinctKeys(entries)
    ensures var e := Remove(entries, key) + [(key, val)];
      DistinctKeys(e) && forall k :: Lookup(e, k) == if k == key then Some(val) else Lookup(entries, k)
  {
    RemoveSpec(entries, key);
    AppendFresh(Remove(entries, key), key, val);
    forall k ensures Lookup(Remove(entries, key) + [(key, val)], k) == if k == key then Some(val) else Lookup(entries, k) {
      LookupAppend(Remove(entries, key), key, val, k);
    }
  }

  /** Dropping the oldest entry of a list with distinct keys leaves every
      remaining key's value alone. */
  lemma DropHead<K, V>(e: seq<(K, V)>, k: K)
    requires DistinctKeys(e) && |e| >= 1 && k in Keys(e[1..])
    ensures k != e[0].0 && Lookup(e[1..], k) == Lookup(e, k)
  {
    var i :| 0 <= i < |e[1..]| && Keys(e[1..])[i] == k;
    assert e[1 + i].0 == k;
  }

  /** `set` evicts only when the size would exceed `max`, exactly one entry,
      and that entry is the oldest; setting a key already present never evicts
      and keeps the size. */
  lemma SetEvictsOldest<K, V>(entries: seq<(K, V)>, max: int, key: K, val: V)
    requires DistinctKeys(entries) && |entries| <= Bound(max) && max >= 1
    ensures key in Keys(entries) ==>
      AfterSet(entries, max, key, val) == Remove(entries, key) + [(key, val)] &&
      |AfterSet(entries, max, key, val)| == |entries|
    ensures key !in Keys(entries) && |entries| < max ==>
      AfterSet(entries, max, key, val) == entries + [(key, val)]
    ensures key !in Keys(entries) && |entries| == max ==>
      AfterSet(entries, max, key, val) == entries[1..] + [(key, val)]
  {
    RemoveSpec(entries, key);
    if key !in Keys(entries) && |entries| == max {
      assert (entries + [(key, val)])[1..] == entries[1..] + [(key, val)];
    }
  }
}
