/** The order of scores (crates/quiver-cluster/src/lib.rs, `merge_top_k`, by
    `f32::total_cmp`), proved against the numbers that binary32 patterns denote. */
module Floats {
  import opened ByteStrings
  import opened Words
  import opened Gather
  import Doubles

  const SIGN: nat := 0x8000_0000
  const HIDDEN: nat := 0x80_0000

  /** A binary32 bit pattern. */
  type Float = b: int | 0 <= b <= 0xFFFF_FFFF

  function Exponent(b: Float): nat { (b / HIDDEN) % 256 }
  function Fraction(b: Float): nat { b % HIDDEN }
  predicate Negative(b: Float) { b >= SIGN }
  predicate IsNaN(b: Float) { Exponent(b) == 255 && Fraction(b) != 0 }

  function Magnitude(b: Float): nat { Doubles.Scaled(HIDDEN, Exponent(b), Fraction(b)) }

  /** The number a non-NaN pattern denotes; `Fin(v)` stands for v * 2^-149. */
  function Value(b: Float): Doubles.Num
    requires !IsNaN(b)
  {
    if Exponent(b) == 255 then (if Negative(b) then Doubles.NegInf else Doubles.PosInf)
    else if Negative(b) then Doubles.Fin(0 - Magnitude(b))
    else Doubles.Fin(Magnitude(b))
  }

  lemma Fields(b: Float)
    ensures b == (if Negative(b) then SIGN else 0) + Exponent(b) * HIDDEN + Fraction(b)
  {
    var q := b / HIDDEN;
    assert q < 512;
    assert q % 256 == if q < 256 then q else q - 256;
    assert b == q * HIDDEN + Fraction(b);
  }

  lemma MagnitudeOrder(a: Float, b: Float)
    requires Negative(a) == Negative(b) && a < b
    ensures Magnitude(a) < Magnitude(b) && Exponent(a) <= Exponent(b)
  {
    Fields(a);
    Fields(b);
    if Exponent(a) < Exponent(b) {
      Doubles.ScaledByExponent(HIDDEN, Exponent(a), Fraction(a), Exponent(b), Fraction(b));
    } else {
      assert Exponent(a) == Exponent(b);
      Doubles.ScaledByFraction(HIDDEN, Exponent(a), Fraction(a), Fraction(b));
    }
  }

  lemma ZeroMagnitude(b: Float)
    ensures Magnitude(b) == 0 <==> b == 0 || b == SIGN
  {
    Fields(b);
    if Exponent(b) > 0 { Doubles.TimesMonotone(0, HIDDEN + Fraction(b), Pow2(Exponent(b) - 1)); }
  }

  lemma KeyOrder(a: Float, b: Float)
    requires !IsNaN(a) && !IsNaN(b) && TotalKey(a) < TotalKey(b)
    ensures Doubles.NumLess(Value(a), Value(b)) || (a == SIGN && b == 0)
  {
    ZeroMagnitude(a);
    ZeroMagnitude(b);
    Fields(a);
    Fields(b);
    if Negative(a) == Negative(b) {
      if a < b { MagnitudeOrder(a, b); }
      if b < a { MagnitudeOrder(b, a); }
    }
  }

  /** Scores rank as the numbers they denote, and minus zero below plus zero. */
  lemma TotalOrder(a: Float, b: Float)
    requires !IsNaN(a) && !IsNaN(b)
    ensures TotalKey(a) < TotalKey(b) <==> Doubles.NumLess(Value(a), Value(b)) || (a == SIGN && b == 0)
    ensures TotalKey(a) == TotalKey(b) <==> a == b
  {
    if TotalKey(a) < TotalKey(b) { KeyOrder(a, b); }
    if TotalKey(b) < TotalKey(a) { KeyOrder(b, a); }
  }

  /** A pattern that is no number ranks beyond the infinity of its sign. */
  lemma NaNOrder(n: Float)
    requires IsNaN(n)
    ensures if Negative(n) then TotalKey(n) < TotalKey(0xFF80_0000) else TotalKey(n) > TotalKey(0x7F80_0000)
  {
    Fields(n);
  }

  /** One, minus one, two, the two zeros, the smallest number and the infinities. */
  lemma KnownFloats()
    ensures Value(0x3F80_0000) == Doubles.Fin(Pow2(149)) && Value(0xBF80_0000) == Doubles.Fin(0 - Pow2(149))
    ensures Value(0x4000_0000) == Doubles.Fin(2 * Pow2(149))
    ensures Value(0) == Value(SIGN) == Doubles.Fin(0) && Value(1) == Doubles.Fin(1)
    ensures Value(0x7F80_0000) == Doubles.PosInf && Value(0xFF80_0000) == Doubles.NegInf
  {
    hide Pow2;
    HiddenBit();
    Doubles.Pow2Sum(23, 126);
    Doubles.Pow2Sum(23, 127);
    Twice(149);
  }

  lemma Twice(n: nat)
    ensures Pow2(n + 1) == 2 * Pow2(n)
  {}

  lemma HiddenBit()
    ensures Pow2(23) == HIDDEN
  {
    var n: nat := 11;
    assert Pow2(n) == 0x800;
    Doubles.Pow2Sum(n, n);
    Twice(n + n);
  }

  // ---- best lists of numbers -----------------------------------------------

  predicate IsNumber(score: nat) { score <= 0xFFFF_FFFF && !IsNaN(score) }

  /** Every score is a number. */
  ghost predicate Numbers<I(!new)>(hits: seq<Hit<I>>) { forall i :: 0 <= i < |hits| ==> IsNumber(hits[i].score) }

  /** Both are numbers, and `h` is no worse than `q`: as large when larger scores are
      better, as small otherwise. */
  ghost predicate NoWorse<I>(higher: bool, h: Hit<I>, q: Hit<I>) {
    && IsNumber(h.score) && IsNumber(q.score)
    && if higher then !Doubles.NumLess(Value(h.score), Value(q.score)) else !Doubles.NumLess(Value(q.score), Value(h.score))
  }

  lemma AtLeastIsNoWorse<I(!new)>(higher: bool, h: Hit<I>, q: Hit<I>)
    requires IsNumber(h.score) && IsNumber(q.score)
    ensures AtLeast(higher, h, q) ==> NoWorse(higher, h, q)
  {
    TotalOrder(h.score, q.score);
    TotalOrder(q.score, h.score);
  }

  /** How often a hit occurs on all lists together, and how many hits there are. */
  ghost function Copies<I(!new)>(lists: seq<seq<Hit<I>>>, h: Hit<I>): nat {
    if lists == [] then 0 else multiset(lists[0])[h] + Copies(lists[1..], h)
  }

  function Size<I>(lists: seq<seq<Hit<I>>>): nat {
    if lists == [] then 0 else |lists[0]| + Size(lists[1..])
  }

  lemma {:induction false} FlattenFront<I(!new)>(lists: seq<seq<Hit<I>>>)
    requires lists != []
    ensures Flatten(lists) == lists[0] + Flatten(lists[1..])
  {
    var n := |lists| - 1;
    if n > 0 {
      FlattenFront(lists[..n]);
      assert lists[..n][1..] == lists[1..][..n - 1] && lists[1..][n - 1] == lists[n];
      assert Flatten(lists[1..]) == Flatten(lists[1..][..n - 1]) + lists[n];
    } else {
      assert lists[..0] == [] && lists[1..] == [];
    }
  }

  /** The flattened list holds every hit of every list, as often as they do. */
  lemma {:induction false} FlattenCopies<I(!new)>(lists: seq<seq<Hit<I>>>, h: Hit<I>)
    ensures multiset(Flatten(lists))[h] == Copies(lists, h)
  {
    if lists != [] {
      FlattenFront(lists);
      FlattenCopies(lists[1..], h);
    }
  }

  lemma {:induction false} FlattenSize<I(!new)>(lists: seq<seq<Hit<I>>>)
    ensures |Flatten(lists)| == Size(lists)
  {
    if lists != [] {
      FlattenFront(lists);
      FlattenSize(lists[1..]);
    }
  }

  lemma {:induction false} FlattenNumbers<I(!new)>(lists: seq<seq<Hit<I>>>)
    requires forall s :: 0 <= s < |lists| ==> Numbers(lists[s])
    ensures Numbers(Flatten(lists))
  {
    if lists != [] {
      FlattenNumbers(lists[..|lists| - 1]);
    }
  }

  /** The best `k` hits of all lists together: as many as there are or `k`, each taken
      from the lists, in order of their numbers, and no hit left out has a better number
      than one that is returned. */
  ghost predicate BestNumbers<I(!new)>(points: seq<seq<Hit<I>>>, out: seq<Hit<I>>, k: nat, higher: bool)
  {
    && |out| == (if Size(points) <= k then Size(points) else k)
    && (forall h :: multiset(out)[h] <= Copies(points, h))
    && (forall i, j :: 0 <= i < j < |out| ==> NoWorse(higher, out[i], out[j]))
    && (forall q, i :: multiset(out)[q] < Copies(points, q) && 0 <= i < |out| ==> NoWorse(higher, out[i], q))
  }

  lemma SubNumbers<I(!new)>(points: seq<Hit<I>>, out: seq<Hit<I>>)
    requires Numbers(points) && multiset(out) <= multiset(points)
    ensures Numbers(out)
  {
    forall i | 0 <= i < |out| ensures IsNumber(out[i].score) {
      assert out[i] in multiset(out);
      assert out[i] in points;
    }
  }

  lemma TopKNumbers<I(!new)>(points: seq<seq<Hit<I>>>, out: seq<Hit<I>>, k: nat, higher: bool)
    requires (forall s :: 0 <= s < |points| ==> Numbers(points[s])) && TopK(Flatten(points), out, k, higher)
    ensures BestNumbers(points, out, k, higher)
  {
    hide Flatten, AtLeast, NoWorse, IsNumber, Copies, Size;
    var all := Flatten(points);
    FlattenNumbers(points);
    SubNumbers(all, out);
    FlattenSize(points);
    forall h: Hit<I> ensures multiset(all)[h] == Copies(points, h) { FlattenCopies(points, h); }
    forall i, j | 0 <= i < j < |out| ensures NoWorse(higher, out[i], out[j]) { AtLeastIsNoWorse(higher, out[i], out[j]); }
    forall q, i | multiset(out)[q] < Copies(points, q) && 0 <= i < |out| ensures NoWorse(higher, out[i], q) {
      assert multiset(all)[q] == Copies(points, q);
      assert q in multiset(all) - multiset(out) && q in all;
      AtLeastIsNoWorse(higher, out[i], q);
    }
  }

  /** The merge of every shard's best `k` returns, of all the points on all the shards,
      `k` with the best numbers. */
  lemma MergeBestNumbers<I(!new)>(points: seq<seq<Hit<I>>>, lists: seq<seq<Hit<I>>>, k: nat, higher: bool)
    requires LocalTopK(points, lists, k, higher) && forall s :: 0 <= s < |points| ==> Numbers(points[s])
    ensures BestNumbers(points, MergeTopK(lists, k, higher), k, higher)
  {
    hide MergeTopK, TopK, Flatten, BestNumbers, Numbers;
    MergeIsGlobal(points, lists, k, higher);
    TopKNumbers(points, MergeTopK(lists, k, higher), k, higher);
  }
}
