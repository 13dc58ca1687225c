/** The scatter-gather merge (crates/quiver-cluster/src/lib.rs, `merge_top_k`). */
module Gather {
  import opened ByteStrings
  import opened Sorting

  /** A scored result; the score is a binary32 bit pattern. */
  datatype Hit<+I> = Hit(id: I, score: nat)

  /** The order of `f32::total_cmp`, as an integer: sign-magnitude made linear. */
  function TotalKey(bits: nat): int { if bits < 0x8000_0000 then bits else 0x7fff_ffff - bits }

  predicate LowFirst<I(!new)>(a: Hit<I>, b: Hit<I>) { TotalKey(a.score) <= TotalKey(b.score) }

  predicate HighFirst<I(!new)>(a: Hit<I>, b: Hit<I>) { TotalKey(b.score) <= TotalKey(a.score) }

  /** `a` ranks at least as high as `b`. */
  predicate AtLeast<I(!new)>(higher: bool, a: Hit<I>, b: Hit<I>) { if higher then HighFirst(a, b) else LowFirst(a, b) }

  function Flatten<I(!new)>(lists: seq<seq<Hit<I>>>): seq<Hit<I>> {
    if lists == [] then [] else Flatten(lists[..|lists| - 1]) + lists[|lists| - 1]
  }

  /** A best-`k` list: sorted, of the right length, taken from the points, and no
      omitted point strictly better than a returned one. */
  ghost predicate TopK<I(!new)>(points: seq<Hit<I>>, out: seq<Hit<I>>, k: nat, higher: bool) {
    && (forall i, j :: 0 <= i < j < |out| ==> AtLeast(higher, out[i], out[j]))
    && |out| == (if |points| <= k then |points| else k)
    && multiset(out) <= multiset(points)
    && (forall q, i :: q in multiset(points) - multiset(out) && 0 <= i < |out| ==> AtLeast(higher, out[i], q))
  }

  function Sorted<I(!new)>(hits: seq<Hit<I>>, higher: bool): (r: seq<Hit<I>>)
    ensures multiset(r) == multiset(hits) && |r| == |hits|
  {
    if higher then Sort(hits, HighFirst) else Sort(hits, LowFirst)
  }

  lemma SortedOrder<I(!new)>(hits: seq<Hit<I>>, higher: bool)
    ensures var s := Sorted(hits, higher); forall i, j :: 0 <= i < j < |s| ==> AtLeast(higher, s[i], s[j])
  {
    SortSorted(hits, HighFirst);
    SortSorted(hits, LowFirst);
  }

  /** Flatten, sort, truncate. */
  function MergeTopK<I(!new)>(perShard: seq<seq<Hit<I>>>, k: nat, higher: bool): seq<Hit<I>> {
    var all := Sorted(Flatten(perShard), higher);
    if |all| <= k then all else all[..k]
  }

  // ---- counting ------------------------------------------------------------

  /** How many hits rank at least as high as `q`. */
  function GoodCount<I(!new)>(hits: seq<Hit<I>>, q: Hit<I>, higher: bool): nat {
    if hits == [] then 0 else (if AtLeast(higher, hits[0], q) then 1 else 0) + GoodCount(hits[1..], q, higher)
  }

  lemma {:induction false} GoodAppend<I(!new)>(a: seq<Hit<I>>, b: seq<Hit<I>>, q: Hit<I>, higher: bool)
    ensures GoodCount(a + b, q, higher) == GoodCount(a, q, higher) + GoodCount(b, q, higher)
  {
    if a == [] {
      assert a + b == b;
    } else {
      GoodAppend(a[1..], b, q, higher);
      assert (a + b)[1..] == a[1..] + b;
    }
  }

  lemma {:induction false} GoodInsert<I(!new)>(x: Hit<I>, xs: seq<Hit<I>>, le: (Hit<I>, Hit<I>) -> bool, q: Hit<I>, higher: bool)
    ensures GoodCount(Insert(x, xs, le), q, higher) == GoodCount([x], q, higher) + GoodCount(xs, q, higher)
  {
    if xs == [] {
    } else if le(x, xs[0]) {
      GoodAppend([x], xs, q, higher);
    } else {
      GoodInsert(x, xs[1..], le, q, higher);
      assert ([xs[0]] + Insert(x, xs[1..], le))[1..] == Insert(x, xs[1..], le);
    }
  }

  lemma {:induction false} GoodSort<I(!new)>(xs: seq<Hit<I>>, le: (Hit<I>, Hit<I>) -> bool, q: Hit<I>, higher: bool)
    ensures GoodCount(Sort(xs, le), q, higher) == GoodCount(xs, q, higher)
  {
    if xs != [] {
      GoodSort(xs[1..], le, q, higher);
      GoodInsert(xs[0], Sort(xs[1..], le), le, q, higher);
      GoodAppend([xs[0]], xs[1..], q, higher);
      assert xs == [xs[0]] + xs[1..];
    }
  }

  lemma {:induction false} GoodPart<I(!new)>(lists: seq<seq<Hit<I>>>, i: nat, q: Hit<I>, higher: bool)
    requires i < |lists|
    ensures GoodCount(Flatten(lists), q, higher) >= GoodCount(lists[i], q, higher)
  {
    var n := |lists| - 1;
    GoodAppend(Flatten(lists[..n]), lists[n], q, higher);
    if i < n { GoodPart(lists[..n], i, q, higher); }
  }

  lemma {:induction false} GoodWhole<I(!new)>(hits: seq<Hit<I>>, q: Hit<I>, higher: bool)
    requires forall i :: 0 <= i < |hits| ==> AtLeast(higher, hits[i], q)
    ensures GoodCount(hits, q, higher) == |hits|
  {
    if hits != [] { GoodWhole(hits[1..], q, higher); }
  }

  lemma {:induction false} GoodAtMost<I(!new)>(hits: seq<Hit<I>>, q: Hit<I>, higher: bool)
    ensures GoodCount(hits, q, higher) <= |hits|
    ensures (forall i :: 0 <= i < |hits| ==> !AtLeast(higher, hits[i], q)) ==> GoodCount(hits, q, higher) == 0
  {
    if hits != [] { GoodAtMost(hits[1..], q, higher); }
  }

  /** In a sorted list the hits at least as good as `q` come first. */
  lemma PrefixGood<I(!new)>(hits: seq<Hit<I>>, q: Hit<I>, higher: bool, j: nat)
    requires forall a, b :: 0 <= a < b < |hits| ==> AtLeast(higher, hits[a], hits[b])
    requires j < GoodCount(hits, q, higher)
    ensures j < |hits| && AtLeast(higher, hits[j], q)
  {
    hide AtLeast, GoodCount;
    GoodAtMost(hits, q, higher);
    if !AtLeast(higher, hits[j], q) {
      GoodAppend(hits[..j], hits[j..], q, higher);
      assert hits == hits[..j] + hits[j..];
      GoodAtMost(hits[..j], q, higher);
      forall i | 0 <= i < |hits[j..]| ensures !AtLeast(higher, hits[j..][i], q) {
        if AtLeast(higher, hits[j + i], q) && i > 0 { AtLeastTransitive(higher, hits[j], hits[j + i], q); }
      }
      GoodAtMost(hits[j..], q, higher);
    }
  }

  lemma AtLeastTransitive<I(!new)>(higher: bool, a: Hit<I>, b: Hit<I>, c: Hit<I>)
    requires AtLeast(higher, a, b) && AtLeast(higher, b, c)
    ensures AtLeast(higher, a, c)
  {}

  // ---- the merge -----------------------------------------------------------

  /** The list is drawn from the points, and whatever it omits is no better than `k`
      of its members. */
  ghost predicate Covers<I(!new)>(points: seq<Hit<I>>, list: seq<Hit<I>>, k: nat, higher: bool) {
    && multiset(list) <= multiset(points)
    && forall q :: multiset(points)[q] > multiset(list)[q] ==> GoodCount(list, q, higher) >= k
  }

  ghost predicate AllCover<I(!new)>(points: seq<seq<Hit<I>>>, lists: seq<seq<Hit<I>>>, k: nat, higher: bool) {
    |points| == |lists| && forall i :: 0 <= i < |lists| ==> Covers(points[i], lists[i], k, higher)
  }

  lemma {:induction false} FlattenWithin<I(!new)>(points: seq<seq<Hit<I>>>, lists: seq<seq<Hit<I>>>)
    requires |points| == |lists| && forall i :: 0 <= i < |lists| ==> multiset(lists[i]) <= multiset(points[i])
    ensures multiset(Flatten(lists)) <= multiset(Flatten(points))
  {
    if lists != [] {
      var n := |lists| - 1;
      FlattenWithin(points[..n], lists[..n]);
      SumWithin(Flatten(lists[..n]), lists[n], Flatten(points[..n]), points[n]);
    }
  }

  lemma SumWithin<I(!new)>(a: seq<Hit<I>>, b: seq<Hit<I>>, c: seq<Hit<I>>, d: seq<Hit<I>>)
    requires multiset(a) <= multiset(c) && multiset(b) <= multiset(d)
    ensures multiset(a + b) <= multiset(c + d)
  {}

  /** A point missing from the flattened lists is missing from its own list. */
  lemma {:induction false} MissingSomewhere<I(!new)>(points: seq<seq<Hit<I>>>, lists: seq<seq<Hit<I>>>, q: Hit<I>) returns (i: nat)
    requires |points| == |lists| && multiset(Flatten(points))[q] > multiset(Flatten(lists))[q]
    ensures i < |lists| && multiset(points[i])[q] > multiset(lists[i])[q]
  {
    var n := |points| - 1;
    if multiset(points[n])[q] > multiset(lists[n])[q] {
      i := n;
    } else {
      i := MissingSomewhere(points[..n], lists[..n], q);
    }
  }

  /** A point omitted somewhere is no better than `k` of the flattened lists. */
  lemma OmittedIsCovered<I(!new)>(points: seq<seq<Hit<I>>>, lists: seq<seq<Hit<I>>>, k: nat, higher: bool, q: Hit<I>)
    requires AllCover(points, lists, k, higher) && multiset(Flatten(points))[q] > multiset(Flatten(lists))[q]
    ensures GoodCount(Flatten(lists), q, higher) >= k
  {
    hide Flatten, AtLeast;
    var s := MissingSomewhere(points, lists, q);
    assert Covers(points[s], lists[s], k, higher);
    GoodPart(lists, s, q, higher);
  }

  lemma CoversAreWithin<I(!new)>(points: seq<seq<Hit<I>>>, lists: seq<seq<Hit<I>>>, k: nat, higher: bool)
    requires AllCover(points, lists, k, higher)
    ensures |points| == |lists| && forall i :: 0 <= i < |lists| ==> multiset(lists[i]) <= multiset(points[i])
  {
    forall i | 0 <= i < |lists| ensures multiset(lists[i]) <= multiset(points[i]) { assert Covers(points[i], lists[i], k, higher); }
  }

  lemma SameSize<I(!new)>(a: seq<Hit<I>>, b: seq<Hit<I>>)
    requires multiset(a) <= multiset(b)
    ensures |a| <= |b|
    ensures |a| < |b| ==> exists q :: multiset(b)[q] > multiset(a)[q]
  {
    var rest := multiset(b) - multiset(a);
    assert multiset(b) == multiset(a) + rest;
    assert |b| == |multiset(b)| == |a| + |rest|;
    if |a| < |b| {
      var q :| q in rest;
      assert multiset(b)[q] > multiset(a)[q];
    }
  }

  /** Sorting and truncating covering lists gives the best `k` of all points. */
  lemma MergeCovers<I(!new)>(points: seq<seq<Hit<I>>>, lists: seq<seq<Hit<I>>>, k: nat, higher: bool)
    requires AllCover(points, lists, k, higher)
    ensures TopK(Flatten(points), MergeTopK(lists, k, higher), k, higher)
  {
    hide Flatten, AtLeast, MergeTopK, AllCover;
    var out := MergeTopK(lists, k, higher);
    MergeShape(lists, k, higher);
    CoversAreWithin(points, lists, k, higher);
    FlattenWithin(points, lists);
    SameSize(Flatten(lists), Flatten(points));
    if |Flatten(lists)| < |Flatten(points)| {
      var q :| multiset(Flatten(points))[q] > multiset(Flatten(lists))[q];
      OmittedIsCovered(points, lists, k, higher, q);
      GoodAtMost(Flatten(lists), q, higher);
    }
    forall q, i | q in multiset(Flatten(points)) - multiset(out) && 0 <= i < |out| ensures AtLeast(higher, out[i], q) {
      OmittedIsWorse(points, lists, k, higher, q, i);
    }
  }

  lemma MergeShape<I(!new)>(lists: seq<seq<Hit<I>>>, k: nat, higher: bool)
    ensures var out := MergeTopK(lists, k, higher);
      && (forall i, j :: 0 <= i < j < |out| ==> AtLeast(higher, out[i], out[j]))
      && |out| == (if |Flatten(lists)| <= k then |Flatten(lists)| else k)
      && multiset(out) <= multiset(Flatten(lists))
  {
    hide Flatten, AtLeast;
    var all, out := Sorted(Flatten(lists), higher), MergeTopK(lists, k, higher);
    SortedOrder(Flatten(lists), higher);
    assert all == out + all[|out|..];
  }

  lemma OmittedIsWorse<I(!new)>(points: seq<seq<Hit<I>>>, lists: seq<seq<Hit<I>>>, k: nat, higher: bool, q: Hit<I>, i: nat)
    requires AllCover(points, lists, k, higher)
    requires multiset(Flatten(points))[q] > multiset(MergeTopK(lists, k, higher))[q] && i < |MergeTopK(lists, k, higher)|
    ensures AtLeast(higher, MergeTopK(lists, k, higher)[i], q)
  {
    hide Flatten, AtLeast, AllCover;
    var flat := Flatten(lists);
    var all, out := Sorted(flat, higher), MergeTopK(lists, k, higher);
    SortedOrder(flat, higher);
    if multiset(flat)[q] > multiset(out)[q] {
      TruncatedIsWorse(all, |out|, higher, q, i);
    } else {
      OmittedIsCovered(points, lists, k, higher, q);
      SortedCount(flat, q, higher);
      PrefixGood(all, q, higher, i);
    }
  }

  /** What truncation drops is no better than what it keeps. */
  lemma TruncatedIsWorse<I(!new)>(all: seq<Hit<I>>, n: nat, higher: bool, q: Hit<I>, i: nat)
    requires forall a, b :: 0 <= a < b < |all| ==> AtLeast(higher, all[a], all[b])
    requires i < n <= |all| && multiset(all)[q] > multiset(all[..n])[q]
    ensures AtLeast(higher, all[i], q)
  {
    hide AtLeast;
    assert all == all[..n] + all[n..];
    assert multiset(all) == multiset(all[..n]) + multiset(all[n..]);
    assert q in all[n..];
    var j :| 0 <= j < |all[n..]| && all[n..][j] == q;
    assert all[n + j] == q;
  }

  lemma SortedCount<I(!new)>(hits: seq<Hit<I>>, q: Hit<I>, higher: bool)
    ensures GoodCount(Sorted(hits, higher), q, higher) == GoodCount(hits, q, higher)
  {
    hide GoodCount, AtLeast;
    if higher {
      GoodSort(hits, HighFirst, q, higher);
    } else {
      GoodSort(hits, LowFirst, q, higher);
    }
  }

  // ---- scatter-gather ------------------------------------------------------

  /** Each list is its shard's own best `k`. */
  ghost predicate LocalTopK<I(!new)>(points: seq<seq<Hit<I>>>, lists: seq<seq<Hit<I>>>, k: nat, higher: bool) {
    |points| == |lists| && forall i :: 0 <= i < |lists| ==> TopK(points[i], lists[i], k, higher)
  }

  /** A list that omits a point is full, and everything on it is at least as good. */
  lemma OmissionMeansFull<I(!new)>(points: seq<Hit<I>>, out: seq<Hit<I>>, k: nat, higher: bool, q: Hit<I>)
    requires TopK(points, out, k, higher) && multiset(points)[q] > multiset(out)[q]
    ensures |out| == k && GoodCount(out, q, higher) == k
  {
    assert q in multiset(points) - multiset(out);
    assert multiset(points) == multiset(out) + (multiset(points) - multiset(out));
    assert |points| == |multiset(points)| == |out| + |multiset(points) - multiset(out)| > |out|;
    GoodWhole(out, q, higher);
  }

  /** Merging every shard's best `k` gives the best `k` of all points. */
  lemma MergeIsGlobal<I(!new)>(points: seq<seq<Hit<I>>>, lists: seq<seq<Hit<I>>>, k: nat, higher: bool)
    requires LocalTopK(points, lists, k, higher)
    ensures TopK(Flatten(points), MergeTopK(lists, k, higher), k, higher)
  {
    hide Flatten, MergeTopK, AtLeast;
    forall i | 0 <= i < |lists| ensures Covers(points[i], lists[i], k, higher) {
      assert TopK(points[i], lists[i], k, higher);
      forall q | multiset(points[i])[q] > multiset(lists[i])[q] ensures GoodCount(lists[i], q, higher) >= k {
        OmissionMeansFull(points[i], lists[i], k, higher, q);
      }
    }
    MergeCovers(points, lists, k, higher);
  }
}
