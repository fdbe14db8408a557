/**
 * The `static $varCache` of both scripts' `getVar`: a PHP array keyed by
 * `"$id|$symbol|$time"`, kept in insertion order. A store assigns the key
 * (in place if present, else appended); when the array then holds more than
 * 128 entries, `array_shift` drops the first, i.e. the oldest, one.
 */
module VarCache {
  import opened Wrappers

  /**
   * The cache key. PHP concatenates the three parts with '|'; a null symbol
   * prints as "" and is represented by "", and a null time by 0. The
   * identifier type is each script's own set of variable names; as no name
   * contains '|' and the time is an integer, equal keys and equal key strings
   * coincide.
   */
  datatype Key<Id> = Key(id: Id, symbol: string, time: int)

  type Cache<Id> = seq<(Key<Id>, string)>

  const MaxSize := 128

  predicate Contains<Id(==)>(c: Cache<Id>, k: Key<Id>)
  {
    exists i :: 0 <= i < |c| && c[i].0 == k
  }

  predicate UniqueKeys<Id(==)>(c: Cache<Id>)
  {
    forall i, j :: 0 <= i < j < |c| ==> c[i].0 != c[j].0
  }

  /** `array_key_exists($key, $varCache) ? $varCache[$key] : ...` */
  function Lookup<Id(==)>(c: Cache<Id>, k: Key<Id>): (r: Option<string>)
    ensures r.Some? <==> Contains(c, k)
    ensures r.Some? ==> exists i :: 0 <= i < |c| && c[i] == (k, r.value)
    ensures UniqueKeys(c) ==> forall i :: 0 <= i < |c| && c[i].0 == k ==> r == Some(c[i].1)
  {
    if c == [] then None
    else if c[0].0 == k then Some(c[0].1)
    else
      var r := Lookup(c[1..], k);
      assert forall i :: 1 <= i < |c| ==> c[i] == c[1..][i - 1];
      r
  }

  /** `$varCache[$key] = $value`: overwrite in place, or append a new last entry. */
  function Assign<Id(==)>(c: Cache<Id>, k: Key<Id>, v: string): (c': Cache<Id>)
    ensures |c'| == if Contains(c, k) then |c| else |c| + 1
    ensures !Contains(c, k) ==> c' == c + [(k, v)]
    ensures Contains(c, k) ==> forall i :: 0 <= i < |c| ==> c'[i] == if c[i].0 == k then (k, v) else c[i]
  {
    if !Contains(c, k) then c + [(k, v)]
    else seq(|c|, i requires 0 <= i < |c| => if c[i].0 == k then (k, v) else c[i])
  }

  /** The store at the end of `getVar`, including the size check. */
  function Store<Id(==)>(c: Cache<Id>, k: Key<Id>, v: string): (c': Cache<Id>)
    ensures UniqueKeys(c) ==> UniqueKeys(c')
    ensures |c| <= MaxSize ==> |c'| <= MaxSize
    ensures |c| <= MaxSize ==> Lookup(c', k) == Some(v)
    ensures forall e :: e in c' ==> e == (k, v) || e in c
  {
    var a := Assign(c, k, v);
    var c' := if |a| > MaxSize then a[1..] else a;
    AssignFacts(c, k, v);
    assert |c| <= MaxSize ==> a[|a| - 1] == (k, v) || (Contains(c, k) && |a| == |c|);
    assert |c| <= MaxSize && Contains(c, k) ==> Contains(c', k) && exists i :: 0 <= i < |c'| && c'[i] == (k, v);
    c'
  }

  /** Assigning keeps keys unique and brings in no entry but the assigned one. */
  lemma AssignFacts<Id>(c: Cache<Id>, k: Key<Id>, v: string)
    ensures UniqueKeys(c) ==> UniqueKeys(Assign(c, k, v))
    ensures forall e :: e in Assign(c, k, v) ==> e == (k, v) || e in c
  {
    var a := Assign(c, k, v);
    if UniqueKeys(c) && Contains(c, k) {
      forall i, j | 0 <= i < j < |a|
        ensures a[i].0 != a[j].0
      {
        assert a[i].0 == c[i].0 && a[j].0 == c[j].0;
      }
    }
    forall e | e in a
      ensures e == (k, v) || e in c
    {
      var i :| 0 <= i < |a| && a[i] == e;
      if i < |c| { assert c[i] in c; }
    }
  }

  /**
   * On overflow exactly the oldest entry goes: storing a new key into a full
   * cache keeps the other 127 entries in order and appends the new one.
   */
  lemma StoreEvictsOldest<Id>(c: Cache<Id>, k: Key<Id>, v: string)
    requires |c| == MaxSize && !Contains(c, k)
    ensures Store(c, k, v) == c[1..] + [(k, v)]
    ensures !Contains(Store(c, k, v), c[0].0) || !UniqueKeys(c)
  {
  }

  /** Below the bound nothing is evicted: every other key keeps its value. */
  lemma StoreKeepsOthers<Id>(c: Cache<Id>, k: Key<Id>, v: string, other: Key<Id>)
    requires UniqueKeys(c) && other != k
    requires |c| < MaxSize || (|c| == MaxSize && Contains(c, k))
    ensures Lookup(Store(c, k, v), other) == Lookup(c, other)
  {
    var a := Assign(c, k, v);
    var c' := Store(c, k, v);
    assert |a| <= MaxSize;
    assert c' == a;
    if Contains(c, other) {
      var i :| 0 <= i < |c| && c[i].0 == other;
      assert c'[i] == c[i];
    }
    if Contains(c', other) {
      var i :| 0 <= i < |c'| && c'[i].0 == other;
      assert i < |c| && c'[i] == c[i];
    }
  }

  /** Stores a run of fresh keys one after the other, as consecutive cache misses do. */
  function StoreAll<Id(==)>(c: Cache<Id>, entries: seq<(Key<Id>, string)>): Cache<Id>
    decreases |entries|
  {
    if entries == [] then c else StoreAll(Store(c, entries[0].0, entries[0].1), entries[1..])
  }

  predicate DistinctKeys<Id(==)>(entries: seq<(Key<Id>, string)>)
  {
    forall i, j :: 0 <= i < j < |entries| ==> entries[i].0 != entries[j].0
  }

  /**
   * Filling an empty cache with n distinct keys leaves exactly the last
   * min(n, 128) of them, oldest first: the earlier ones must be recomputed.
   */
  lemma {:induction false} StoreAllKeepsNewest<Id>(entries: seq<(Key<Id>, string)>)
    requires DistinctKeys(entries)
    ensures var n := |entries|;
      StoreAll([], entries) == entries[if n > MaxSize then n - MaxSize else 0..]
  {
    assert [] + entries == entries;
    StoreAllFrom([], entries);
  }

  /** The last `MaxSize` entries of a sequence. */
  function Newest<T>(all: seq<T>): seq<T>
  {
    all[if |all| > MaxSize then |all| - MaxSize else 0..]
  }

  lemma {:induction false} StoreAllFrom<Id>(c: Cache<Id>, entries: seq<(Key<Id>, string)>)
    requires DistinctKeys(c + entries)
    requires |c| <= MaxSize
    ensures StoreAll(c, entries) == Newest(c + entries)
    decreases |entries|
  {
    var all := c + entries;
    if entries == [] {
      assert all == c && StoreAll(c, entries) == c;
      assert all[0..] == all;
    } else {
      var c' := Store(c, entries[0].0, entries[0].1);
      var d := if |c| + 1 > MaxSize then 1 else 0;
      FirstStore(c, entries);
      var rest := c' + entries[1..];
      assert StoreAll(c, entries) == StoreAll(c', entries[1..]);
      StoreAllFrom(c', entries[1..]);
      WindowShift(all, d, rest);
    }
  }

  /** The first store of a run of fresh keys appends it and drops at most the oldest entry. */
  lemma FirstStore<Id>(c: Cache<Id>, entries: seq<(Key<Id>, string)>)
    requires DistinctKeys(c + entries) && entries != []
    requires |c| <= MaxSize
    ensures var c' := Store(c, entries[0].0, entries[0].1);
      var d := if |c| + 1 > MaxSize then 1 else 0;
      && |c'| <= MaxSize
      && c' + entries[1..] == (c + entries)[d..]
      && DistinctKeys(c' + entries[1..])
      && (d == 0 || |c + entries| > MaxSize)
  {
    var d := if |c| + 1 > MaxSize then 1 else 0;
    FirstStoreShape(c, entries);
    DistinctSuffix(c + entries, d);
  }

  lemma FirstStoreShape<Id>(c: Cache<Id>, entries: seq<(Key<Id>, string)>)
    requires DistinctKeys(c + entries) && entries != []
    requires |c| <= MaxSize
    ensures var d := if |c| + 1 > MaxSize then 1 else 0;
      Store(c, entries[0].0, entries[0].1) + entries[1..] == (c + entries)[d..]
  {
    var k := entries[0].0;
    var v := entries[0].1;
    FreshHead(c, entries);
    StoreFresh(c, k, v);
    var d := if |c| + 1 > MaxSize then 1 else 0;
    DropConcat(c, entries, d);
  }

  lemma DropConcat<T>(c: seq<T>, entries: seq<T>, d: nat)
    requires entries != [] && d <= |c| + 1
    ensures (c + [entries[0]])[d..] + entries[1..] == (c + entries)[d..]
  {
    assert c + entries == (c + [entries[0]]) + entries[1..];
  }

  /** Dropping at most one entry first does not change the newest `MaxSize` entries. */
  lemma WindowShift<T>(all: seq<T>, d: nat, rest: seq<T>)
    requires d == 0 || (d == 1 && |all| > MaxSize)
    requires rest == all[d..]
    ensures Newest(rest) == Newest(all)
  {
    var m := if |rest| > MaxSize then |rest| - MaxSize else 0;
    assert d + m == if |all| > MaxSize then |all| - MaxSize else 0;
    assert rest[m..] == all[d + m..];
  }

  /** A fresh key is appended, and at most the oldest entry makes room for it. */
  lemma StoreFresh<Id>(c: Cache<Id>, k: Key<Id>, v: string)
    requires !Contains(c, k) && |c| <= MaxSize
    ensures Store(c, k, v) == (c + [(k, v)])[if |c| + 1 > MaxSize then 1 else 0..]
  {
  }

  lemma DistinctSuffix<Id>(entries: seq<(Key<Id>, string)>, d: nat)
    requires DistinctKeys(entries) && d <= |entries|
    ensures DistinctKeys(entries[d..])
  {
    var s := entries[d..];
    forall i, j | 0 <= i < j < |s|
      ensures s[i].0 != s[j].0
    {
      assert s[i] == entries[i + d] && s[j] == entries[j + d];
    }
  }

  lemma FreshHead<Id>(c: Cache<Id>, entries: seq<(Key<Id>, string)>)
    requires DistinctKeys(c + entries) && entries != []
    ensures !Contains(c, entries[0].0)
  {
    var all := c + entries;
    forall i | 0 <= i < |c|
      ensures c[i].0 != entries[0].0
    {
      assert all[i] == c[i] && all[|c|] == entries[0];
    }
  }
}
