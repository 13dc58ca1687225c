/** What the keyed shuffle of crates/quiver-crypto/src/dcpe.rs, `permutation`, depends on:
    the keystream words decide the permutation, each through its remainder, and every
    permutation comes out of some keystream. */
module Shuffles {
  import opened Euclid
  import opened Dcpe

  ghost predicate Apart<T>(p: seq<T>) { forall i, j :: 0 <= i < j < |p| ==> p[i] != p[j] }

  /** Positions already passed keep what they hold. */
  lemma {:induction false} ShuffleKeepsAbove<T>(p: seq<T>, i: nat, k: nat, draw: nat -> nat, n: nat)
    requires (i < |p| || i == 0) && i < n < |p|
    ensures Shuffle(p, i, k, draw)[n] == p[n]
    decreases i
  {
    if i > 0 { ShuffleKeepsAbove(Swapped(p, i, draw(k) % (i + 1)), i - 1, k + 1, draw, n); }
  }

  /** The position being filled takes the component the word picks. */
  lemma ShuffleFills<T>(p: seq<T>, i: nat, k: nat, draw: nat -> nat)
    requires 0 < i < |p|
    ensures Shuffle(p, i, k, draw)[i] == p[draw(k) % (i + 1)]
  {
    ShuffleKeepsAbove(Swapped(p, i, draw(k) % (i + 1)), i - 1, k + 1, draw, i);
  }

  /** The last position holds the first word's remainder. */
  lemma LastIsFirstDraw(c: Cipher, d: nat)
    requires d > 1
    ensures PermutationOf(c, d)[d - 1] == c.draw(0) % d
  {
    ShuffleFills(Iota(d), d - 1, 0, c.draw);
  }

  /** From the `k`-th word on, two keystreams pick alike among what is left of `d`. */
  ghost predicate PickAlike(d: nat, k: nat, a: nat -> nat, b: nat -> nat) {
    forall t: nat :: k <= t < d - 1 ==> a(t) % (d - t) == b(t) % (d - t)
  }

  lemma PickAlikeNext(d: nat, k: nat, a: nat -> nat, b: nat -> nat)
    requires k < d - 1
    ensures PickAlike(d, k, a, b) <==> a(k) % (d - k) == b(k) % (d - k) && PickAlike(d, k + 1, a, b)
  {}

  lemma SwapKeepsApart<T>(p: seq<T>, i: nat, j: nat)
    requires Apart(p) && i < |p| && j < |p|
    ensures Apart(Swapped(p, i, j))
  {}

  lemma {:induction false} SameShuffleIff<T>(p: seq<T>, i: nat, k: nat, a: nat -> nat, b: nat -> nat)
    requires Apart(p) && (i < |p| || i == 0)
    ensures Shuffle(p, i, k, a) == Shuffle(p, i, k, b) <==> PickAlike(i + 1 + k, k, a, b)
    decreases i
  {
    hide PickAlike;
    if i > 0 {
      var x, y := a(k) % (i + 1), b(k) % (i + 1);
      ShuffleFills(p, i, k, a);
      ShuffleFills(p, i, k, b);
      PickAlikeNext(i + 1 + k, k, a, b);
      if x == y {
        SwapKeepsApart(p, i, x);
        SameShuffleIff(Swapped(p, i, x), i - 1, k + 1, a, b);
      }
    } else {
      NothingToPick(k, a, b);
    }
  }

  lemma NothingToPick(k: nat, a: nat -> nat, b: nat -> nat)
    ensures PickAlike(1 + k, k, a, b)
  {}

  /** Two keys shuffle `d` components alike exactly when each word that is used leaves
      the same remainder. */
  lemma SamePermutationIff(c: Cipher, e: Cipher, d: nat)
    ensures PermutationOf(c, d) == PermutationOf(e, d) <==> forall t: nat :: t < d - 1 ==> c.draw(t) % (d - t) == e.draw(t) % (d - t)
  {
    if d > 1 {
      hide Shuffle;
      SameShuffleIff(Iota(d), d - 1, 0, c.draw, e.draw);
    }
  }

  // ---- every permutation is reachable --------------------------------------

  /** A keystream that gives these words and then zeros. */
  function Keystream(words: seq<nat>, k: nat): nat -> nat {
    t => if k <= t < k + |words| then words[t - k] else 0
  }

  lemma {:induction false} SameWords<T>(p: seq<T>, i: nat, k: nat, a: nat -> nat, b: nat -> nat)
    requires (i < |p| || i == 0) && forall t: nat :: k <= t < k + i ==> a(t) == b(t)
    ensures Shuffle(p, i, k, a) == Shuffle(p, i, k, b)
    decreases i
  {
    if i > 0 { SameWords(Swapped(p, i, a(k) % (i + 1)), i - 1, k + 1, a, b); }
  }

  /** Where the component that belongs at `i` is now: at `i` or below. */
  lemma FindBelow<T>(p: seq<T>, q: seq<T>, i: nat) returns (j: nat)
    requires Apart(p) && Apart(q) && |p| == |q| && i < |p| && q[i] in p
    requires forall n :: i < n < |p| ==> p[n] == q[n]
    ensures j <= i && p[j] == q[i]
  {
    j :| 0 <= j < |p| && p[j] == q[i];
  }

  /** Words that carry one arrangement into another that agrees with it above `i`. */
  lemma {:induction false} WordsFor<T>(p: seq<T>, q: seq<T>, i: nat, k: nat) returns (words: seq<nat>)
    requires Apart(p) && Apart(q) && |p| == |q| && (i < |p| || i == 0) && (forall x :: x in q <==> x in p)
    requires forall n :: i < n < |p| ==> p[n] == q[n]
    ensures |words| == i && Shuffle(p, i, k, Keystream(words, k)) == q
    decreases i
  {
    hide Shuffle, Swapped, Keystream;
    if i == 0 {
      words := [];
      if p != [] { var _ := FindBelow(p, q, 0); }
      ShuffleDone(p, k, Keystream(words, k));
    } else {
      var j := FindBelow(p, q, i);
      var p' := Swapped(p, i, j);
      SwapKeepsApart(p, i, j);
      SwapSame(p, i, j);
      var rest := WordsFor(p', q, i - 1, k + 1);
      words := [j] + rest;
      FirstWord(p, i, k, j, rest);
    }
  }

  /** A word put before others is the one drawn first. */
  lemma FirstWord<T>(p: seq<T>, i: nat, k: nat, j: nat, rest: seq<nat>)
    requires 0 < i < |p| && j <= i && |rest| == i - 1
    ensures |Swapped(p, i, j)| == |p| && Shuffle(p, i, k, Keystream([j] + rest, k)) == Shuffle(Swapped(p, i, j), i - 1, k + 1, Keystream(rest, k + 1))
  {
    hide Shuffle, Swapped, Keystream;
    var words := [j] + rest;
    SwapLength(p, i, j);
    KeystreamIs(j, rest, k);
    SmallRemainder(j, i + 1);
    ShuffleStep(p, i, k, Keystream(words, k));
    SameWords(Swapped(p, i, j), i - 1, k + 1, Keystream(words, k), Keystream(rest, k + 1));
  }

  lemma KeystreamIs(j: nat, rest: seq<nat>, k: nat)
    ensures Keystream([j] + rest, k)(k) == j
    ensures forall t: nat :: k + 1 <= t < k + 1 + |rest| ==> Keystream([j] + rest, k)(t) == Keystream(rest, k + 1)(t)
  {}

  lemma SmallRemainder(j: nat, m: nat)
    requires j < m
    ensures j % m == j
  {}

  lemma SwapSame<T>(p: seq<T>, i: nat, j: nat)
    requires i < |p| && j < |p|
    ensures |Swapped(p, i, j)| == |p| && Swapped(p, i, j)[i] == p[j] && (forall n :: i < n < |p| && j <= i ==> Swapped(p, i, j)[n] == p[n])
    ensures forall x :: x in Swapped(p, i, j) <==> x in p
  {
    var q := Swapped(p, i, j);
    forall x | x in p ensures x in q {
      var n :| 0 <= n < |p| && p[n] == x;
      assert q[if n == i then j else if n == j then i else n] == x;
    }
  }

  /** Every permutation of `d` positions comes out of some keystream. */
  lemma EveryPermutationArises(c: Cipher, q: seq<nat>) returns (e: Cipher)
    requires IsPermutation(q)
    ensures e == c.(draw := e.draw) && PermutationOf(e, |q|) == q
  {
    var d := |q|;
    var p := Iota(d);
    forall x ensures x in q <==> x in p { if x in p { assert p[x] == x; } if x in q { assert p[x] == x; } }
    var words := WordsFor(p, q, if d == 0 then 0 else d - 1, 0);
    e := c.(draw := Keystream(words, 0));
  }
}
