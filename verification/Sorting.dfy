/** Stable sorting by a total preorder: the meaning of Rust's `sort_by`. */
module Sorting {

  ghost predicate TotalPreorder<T(!new)>(le: (T, T) -> bool) {
    && (forall x, y :: le(x, y) || le(y, x))
    && (forall x, y, z :: le(x, y) && le(y, z) ==> le(x, z))
  }

  ghost predicate SortedBy<T>(xs: seq<T>, le: (T, T) -> bool) {
    forall i, j :: 0 <= i < j < |xs| ==> le(xs[i], xs[j])
  }

  /** Insert `x` before the first element it may precede. */
  function Insert<T>(x: T, xs: seq<T>, le: (T, T) -> bool): (r: seq<T>)
    ensures multiset(r) == multiset{x} + multiset(xs)
    ensures |r| == |xs| + 1
  {
    if xs == [] then [x]
    else if le(x, xs[0]) then [x] + xs
    else
      assert xs == [xs[0]] + xs[1..];
      [xs[0]] + Insert(x, xs[1..], le)
  }

  /** Every element of a sequence is bounded by `z` as soon as its multiset is. */
  lemma AllAbove<T>(xs: seq<T>, ys: seq<T>, x: T, z: T, le: (T, T) -> bool)
    requires multiset(xs) == multiset{x} + multiset(ys)
    requires le(z, x) && forall i :: 0 <= i < |ys| ==> le(z, ys[i])
    ensures forall i :: 0 <= i < |xs| ==> le(z, xs[i])
  {
    forall i | 0 <= i < |xs| ensures le(z, xs[i]) {
      assert xs[i] in multiset(xs);
      assert xs[i] == x || xs[i] in multiset(ys);
    }
  }

  lemma {:induction false} InsertSorted<T(!new)>(x: T, xs: seq<T>, le: (T, T) -> bool)
    requires TotalPreorder(le)
    requires SortedBy(xs, le)
    ensures SortedBy(Insert(x, xs, le), le)
  {
    if xs != [] && !le(x, xs[0]) {
      InsertSorted(x, xs[1..], le);
      AllAbove(Insert(x, xs[1..], le), xs[1..], x, xs[0], le);
    }
  }

  /** The sorted permutation of `xs`; equal elements keep their input order. */
  function Sort<T>(xs: seq<T>, le: (T, T) -> bool): (r: seq<T>)
    ensures multiset(r) == multiset(xs)
    ensures |r| == |xs|
  {
    if xs == [] then []
    else
      assert xs == [xs[0]] + xs[1..];
      Insert(xs[0], Sort(xs[1..], le), le)
  }

  lemma {:induction false} SortSorted<T(!new)>(xs: seq<T>, le: (T, T) -> bool)
    requires TotalPreorder(le)
    ensures SortedBy(Sort(xs, le), le)
  {
    if xs != [] {
      SortSorted(xs[1..], le);
      InsertSorted(xs[0], Sort(xs[1..], le), le);
    }
  }

  // ---- duplicates ----------------------------------------------------------

  lemma DuplicateCount<T>(ys: seq<T>, i: nat, j: nat)
    requires i < j < |ys| && ys[i] == ys[j]
    ensures multiset(ys)[ys[i]] >= 2
  {
    assert ys == ys[..i] + [ys[i]] + ys[i + 1..j] + [ys[j]] + ys[j + 1..];
  }

  lemma {:induction false} DistinctCount<T>(xs: seq<T>, x: T)
    requires forall i, j :: 0 <= i < j < |xs| ==> xs[i] != xs[j]
    ensures multiset(xs)[x] <= 1
  {
    if xs != [] {
      var n := |xs| - 1;
      assert xs == xs[..n] + [xs[n]];
      DistinctCount(xs[..n], x);
      if x == xs[n] { assert x !in xs[..n]; }
    }
  }

  /** A permutation of a sequence with distinct keys has distinct keys. */
  lemma DistinctKeys<T, K>(xs: seq<T>, ys: seq<T>, key: T -> K, i: nat, j: nat)
    requires forall a, b :: 0 <= a < b < |xs| ==> key(xs[a]) != key(xs[b])
    requires multiset(ys) == multiset(xs)
    requires i < j < |ys|
    ensures key(ys[i]) != key(ys[j])
  {
    assert ys[i] in multiset(ys) && ys[j] in multiset(ys);
    var a :| 0 <= a < |xs| && xs[a] == ys[i];
    var b :| 0 <= b < |xs| && xs[b] == ys[j];
    if a == b {
      DuplicateCount(ys, i, j);
      DistinctCount(xs, ys[i]);
    }
  }

  predicate NatLe(x: nat, y: nat) { x <= y }

  /** The numbers of a set in ascending order. */
  method Ascending(ids: set<nat>) returns (xs: seq<nat>)
    ensures forall i, j :: 0 <= i < j < |xs| ==> xs[i] < xs[j]
    ensures forall x :: x in xs <==> x in ids
  {
    var ys: seq<nat> := [];
    var rest := ids;
    while rest != {}
      invariant rest <= ids
      invariant forall x :: x in ys <==> x in ids - rest
      invariant forall i, j :: 0 <= i < j < |ys| ==> ys[i] != ys[j]
      decreases rest
    {
      var x :| x in rest;
      ys := ys + [x];
      rest := rest - {x};
    }
    xs := Sort(ys, NatLe);
    SortSorted(ys, NatLe);
    forall i, j | 0 <= i < j < |xs| ensures xs[i] < xs[j] {
      assert NatLe(xs[i], xs[j]);
      DistinctKeys(ys, xs, (x: nat) => x, i, j);
    }
    assert forall x :: x in xs <==> x in multiset(xs);
    assert forall x :: x in ys <==> x in multiset(ys);
  }
}
