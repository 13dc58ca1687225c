/** What a point's weight depends on: the FNV-1a hash reads every byte of the id, and the
    weight of a shard tells two ids apart exactly when their hashes do. */
module Weights {
  import opened ByteStrings
  import opened Words
  import opened Rendezvous

  lemma {:induction false} XorCommutes(a: nat, b: nat)
    ensures Xor(a, b) == Xor(b, a)
    decreases a + b
  {
    if a > 0 && b > 0 { XorCommutes(a / 2, b / 2); }
  }

  lemma XorOfWords(a: nat, b: nat)
    requires a < WORD && b < WORD
    ensures Xor(a, b) < WORD
  {
    PowerOfWord();
    XorBelow(a, b, 64);
  }

  lemma FnvIsWord(bytes: Bytes)
    ensures FnvOf(bytes) < WORD
  {}

  /** Multiplying by the FNV prime loses nothing. */
  lemma PrimeInjective(x: nat, y: nat)
    requires x < WORD && y < WORD && WrappingMul(x, FNV_PRIME) == WrappingMul(y, FNV_PRIME)
    ensures x == y
  {
    MulInjective(x, y, FNV_PRIME, 0xce96_5057_aff6_957b, 887285111055);
  }

  lemma FnvGrows(p: Bytes, b: Byte)
    ensures FnvOf(p + [b]) == FnvStep(FnvOf(p), b)
  {
    assert (p + [b])[..|p|] == p;
  }

  /** After any common beginning, the last byte is told from every other. */
  lemma LastByteCounts(p: Bytes, a: Byte, b: Byte)
    ensures FnvOf(p + [a]) == FnvOf(p + [b]) <==> a == b
  {
    hide Xor, FnvOf, WrappingMul;
    var h := FnvOf(p);
    FnvGrows(p, a);
    FnvGrows(p, b);
    if FnvOf(p + [a]) == FnvOf(p + [b]) {
      FnvIsWord(p);
      XorOfWords(h, a as nat);
      XorOfWords(h, b as nat);
      PrimeInjective(Xor(h, a as nat), Xor(h, b as nat));
      XorCommutes(h, a as nat);
      XorCommutes(h, b as nat);
      XorCancels(a as nat, b as nat, h);
    }
  }

  /** Two ids that end alike are told apart exactly when what precedes the end is. */
  lemma {:induction false} BeginningCounts(p: Bytes, q: Bytes, tail: Bytes)
    ensures FnvOf(p + tail) == FnvOf(q + tail) <==> FnvOf(p) == FnvOf(q)
  {
    hide Xor, FnvOf, WrappingMul;
    if tail == [] {
      assert p + tail == p && q + tail == q;
    } else {
      var n := |tail| - 1;
      var x, y, b := p + tail[..n], q + tail[..n], tail[n];
      assert p + tail == x + [b] && q + tail == y + [b];
      FnvGrows(x, b);
      FnvGrows(y, b);
      if FnvOf(x + [b]) == FnvOf(y + [b]) {
        FnvIsWord(x);
        FnvIsWord(y);
        XorOfWords(FnvOf(x), b as nat);
        XorOfWords(FnvOf(y), b as nat);
        PrimeInjective(Xor(FnvOf(x), b as nat), Xor(FnvOf(y), b as nat));
        XorCancels(FnvOf(x), FnvOf(y), b as nat);
      }
      BeginningCounts(p, q, tail[..n]);
    }
  }

  /** Every byte counts: ids that differ in one place hash differently. */
  lemma EveryByteCounts(p: Bytes, a: Byte, b: Byte, tail: Bytes)
    ensures FnvOf(p + [a] + tail) == FnvOf(p + [b] + tail) <==> a == b
  {
    hide FnvOf;
    BeginningCounts(p + [a], p + [b], tail);
    LastByteCounts(p, a, b);
  }

  /** A shard's weight tells two ids apart exactly when the hash does. */
  lemma WeightTellsApart(shard: nat, p: Bytes, q: Bytes)
    ensures HrwScore(shard, p) == HrwScore(shard, q) <==> FnvOf(p) == FnvOf(q)
  {
    hide Finalize, FnvOf;
    var x := WrappingMul(shard, GOLDEN);
    if HrwScore(shard, p) == HrwScore(shard, q) {
      FinalizeInjective(WrappingAdd(FnvOf(p), x), WrappingAdd(FnvOf(q), x));
      FnvIsWord(p);
      FnvIsWord(q);
      AddInjective(x, FnvOf(p), FnvOf(q));
    }
  }
}
