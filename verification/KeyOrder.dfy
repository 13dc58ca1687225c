/** Sorted key sequences over byte strings: `BTreeMap` iteration order, `sort`,
    `binary_search` and `partition_point`. */
module KeyOrder {
  import opened ByteStrings
  import Sorting

  lemma AtMostIsTotalPreorder()
    ensures Sorting.TotalPreorder(AtMost)
  {
    forall x: Bytes, y: Bytes ensures AtMost(x, y) || AtMost(y, x) { LessTotal(x, y); }
    forall x: Bytes, y: Bytes, z: Bytes | AtMost(x, y) && AtMost(y, z) ensures AtMost(x, z) {
      if x != y && y != z { LessTransitive(x, y, z); }
    }
  }

  /** Sorting a duplicate-free sequence makes it strictly ascending. */
  lemma SortedDistinct(xs: seq<Bytes>, ys: seq<Bytes>)
    requires forall i, j :: 0 <= i < j < |xs| ==> xs[i] != xs[j]
    requires multiset(ys) == multiset(xs)
    requires Sorting.SortedBy(ys, AtMost)
    ensures StrictlyAscending(ys)
  {
    forall i, j | 0 <= i < j < |ys| ensures Less(ys[i], ys[j]) {
      assert AtMost(ys[i], ys[j]);
      Sorting.DistinctKeys(xs, ys, (x: Bytes) => x, i, j);
    }
  }

  /** The keys of a set in ascending order. */
  method SortedKeys(keys: set<Bytes>) returns (ks: seq<Bytes>)
    ensures StrictlyAscending(ks)
    ensures forall k :: k in ks <==> k in keys
    ensures |ks| == |keys|
  {
    var xs: seq<Bytes> := [];
    var rest := keys;
    while rest != {}
      invariant rest <= keys
      invariant forall k :: k in xs <==> k in keys - rest
      invariant forall i, j :: 0 <= i < j < |xs| ==> xs[i] != xs[j]
      invariant |xs| + |rest| == |keys|
      decreases rest
    {
      var k :| k in rest;
      xs := xs + [k];
      rest := rest - {k};
    }
    ks := Sorting.Sort(xs, AtMost);
    AtMostIsTotalPreorder();
    Sorting.SortSorted(xs, AtMost);
    SortedDistinct(xs, ks);
    assert forall k :: k in ks <==> k in multiset(ks);
    assert forall k :: k in xs <==> k in multiset(xs);
  }

  /** Sort, then drop repetitions: each member once, in ascending order. */
  method SortDedup(xs: seq<Bytes>) returns (ys: seq<Bytes>)
    ensures StrictlyAscending(ys)
    ensures forall x :: x in ys <==> x in xs
  {
    var sorted := Sorting.Sort(xs, AtMost);
    AtMostIsTotalPreorder();
    Sorting.SortSorted(xs, AtMost);
    ys := [];
    for i := 0 to |sorted|
      invariant StrictlyAscending(ys)
      invariant forall x :: x in ys <==> x in sorted[..i]
      invariant ys != [] ==> i > 0 && ys[|ys| - 1] == sorted[i - 1]
      invariant i > 0 ==> ys != []
    {
      if ys == [] || ys[|ys| - 1] != sorted[i] {
        assert ys != [] ==> AtMost(ys[|ys| - 1], sorted[i]);
        AscendingExtend(ys, sorted[i]);
        ys := ys + [sorted[i]];
      }
    }
    assert sorted[..|sorted|] == sorted;
    assert forall x :: x in sorted <==> x in multiset(sorted);
    assert forall x :: x in xs <==> x in multiset(xs);
  }

  lemma AscendingExtend(ys: seq<Bytes>, x: Bytes)
    requires StrictlyAscending(ys) && (ys != [] ==> AtMost(ys[|ys| - 1], x) && ys[|ys| - 1] != x)
    ensures StrictlyAscending(ys + [x])
  {
    forall i | 0 <= i < |ys| ensures Less(ys[i], x) {
      var last := ys[|ys| - 1];
      assert Less(last, x);
      if i < |ys| - 1 { LessTransitive(ys[i], last, x); }
    }
  }

  /** Index of `key`, if present: `binary_search` on a sorted sequence. */
  function Position(keys: seq<Bytes>, key: Bytes): (r: Option<nat>)
    ensures r.Some? ==> r.value < |keys| && keys[r.value] == key
    ensures r.None? ==> key !in keys
  {
    if keys == [] then None
    else if keys[|keys| - 1] == key then Some(|keys| - 1)
    else Position(keys[..|keys| - 1], key)
  }

  /** `partition_point(|k| k < bound)`, or `k <= bound` when `inclusive`. */
  function PartitionPoint(keys: seq<Bytes>, bound: Bytes, inclusive: bool): (n: nat)
    ensures n <= |keys|
    ensures forall i :: 0 <= i < n ==> Below(keys[i], bound, inclusive)
    ensures n < |keys| ==> !Below(keys[n], bound, inclusive)
  {
    if keys == [] || !Below(keys[0], bound, inclusive) then 0
    else 1 + PartitionPoint(keys[1..], bound, inclusive)
  }

  predicate Below(k: Bytes, bound: Bytes, inclusive: bool) {
    if inclusive then AtMost(k, bound) else Less(k, bound)
  }

  /** On ascending keys the partition point separates the keys exactly. */
  lemma PartitionExact(keys: seq<Bytes>, bound: Bytes, inclusive: bool, i: nat)
    requires StrictlyAscending(keys)
    requires i < |keys|
    ensures i < PartitionPoint(keys, bound, inclusive) <==> Below(keys[i], bound, inclusive)
  {
    var n := PartitionPoint(keys, bound, inclusive);
    if n < i {
      LessAsymmetric(keys[n], keys[i]);
      if Below(keys[i], bound, inclusive) && keys[i] != bound {
        LessTransitive(keys[n], keys[i], bound);
      }
    }
  }

  /** The partition point of ascending keys by bisection. */
  method Bisect(keys: seq<Bytes>, bound: Bytes, inclusive: bool) returns (n: nat)
    requires StrictlyAscending(keys)
    ensures n == PartitionPoint(keys, bound, inclusive)
  {
    hide PartitionPoint, Below, StrictlyAscending;
    var lo, hi := 0, |keys|;
    while lo < hi
      invariant 0 <= lo <= PartitionPoint(keys, bound, inclusive) <= hi <= |keys|
    {
      var mid := (lo + hi) / 2;
      PartitionExact(keys, bound, inclusive, mid);
      if Below(keys[mid], bound, inclusive) { lo := mid + 1; } else { hi := mid; }
    }
    n := lo;
  }

  /** The position of a key among ascending keys by bisection. */
  method BinarySearch(keys: seq<Bytes>, key: Bytes) returns (r: Option<nat>)
    requires StrictlyAscending(keys)
    ensures r == Position(keys, key)
  {
    var n := Bisect(keys, key, false);
    LessIrreflexive(key);
    forall i | 0 <= i < |keys| && keys[i] == key ensures n == i {
      PartitionExact(keys, key, false, i);
      AscendingBetween(keys, key, n, i);
    }
    r := if n < |keys| && keys[n] == key then Some(n) else None;
  }

  lemma AscendingBetween(keys: seq<Bytes>, key: Bytes, n: nat, i: nat)
    requires StrictlyAscending(keys) && n <= i < |keys| && keys[i] == key && !Less(keys[n], key)
    ensures n == i
  {}
}
