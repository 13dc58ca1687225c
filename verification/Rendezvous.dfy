/** Rendezvous weights (crates/quiver-cluster/src/lib.rs, `fnv1a`, `hrw_score`): 64-bit
    words with wrapping arithmetic, as naturals below 2^64. */
module Rendezvous {
  import opened ByteStrings
  import opened Words

  const WORD: nat := 0x1_0000_0000_0000_0000

  /** Bitwise exclusive or. */
  function Xor(a: nat, b: nat): nat
    decreases a + b
  {
    if a == 0 then b else if b == 0 then a else 2 * Xor(a / 2, b / 2) + (a + b) % 2
  }

  function WrappingMul(a: nat, b: nat): nat { (a * b) % WORD }

  function WrappingAdd(a: nat, b: nat): nat { (a + b) % WORD }

  const FNV_OFFSET: nat := 0xcbf2_9ce4_8422_2325
  const FNV_PRIME: nat := 0x0000_0100_0000_01b3

  function FnvStep(h: nat, b: Byte): nat { WrappingMul(Xor(h, b as nat), FNV_PRIME) }

  function FnvOf(bytes: Bytes): nat {
    if bytes == [] then FNV_OFFSET else FnvStep(FnvOf(bytes[..|bytes| - 1]), bytes[|bytes| - 1])
  }

  /** FNV-1a over the id's bytes. */
  method Fnv1a(bytes: Bytes) returns (h: nat)
    ensures h == FnvOf(bytes)
  {
    hide FnvStep;
    h := FNV_OFFSET;
    for i := 0 to |bytes|
      invariant h == FnvOf(bytes[..i])
    {
      assert bytes[..i + 1][..i] == bytes[..i];
      h := FnvStep(h, bytes[i]);
    }
    assert bytes[..|bytes|] == bytes;
  }

  const GOLDEN: nat := 0x9e37_79b9_7f4a_7c15
  const MIX1: nat := 0xbf58_476d_1ce4_e5b9
  const MIX2: nat := 0x94d0_49bb_1331_11eb

  function ShiftRight(x: nat, k: nat): nat {
    if k == 0 then x else ShiftRight(x / 2, k - 1)
  }

  function XorShift(x: nat, k: nat): nat { Xor(x, ShiftRight(x, k)) }

  /** The splitmix64 finalizer. */
  function Finalize(x: nat): nat {
    var y := WrappingMul(XorShift(x, 30), MIX1);
    var z := WrappingMul(XorShift(y, 27), MIX2);
    XorShift(z, 31)
  }

  /** A shard's weight for a point. */
  function HrwScore(shard: nat, point: Bytes): nat {
    Finalize(WrappingAdd(FnvOf(point), WrappingMul(shard, GOLDEN)))
  }

  // ---- each stage is injective ---------------------------------------------

  lemma {:induction false} XorCancels(a: nat, b: nat, c: nat)
    requires Xor(a, c) == Xor(b, c)
    ensures a == b
    decreases a + b + c
  {
    hide Xor;
    if c == 0 {
      XorZero(a);
      XorZero(b);
    } else {
      XorHalves(a, c);
      XorHalves(b, c);
      XorCancels(a / 2, b / 2, c / 2);
      SameParity(a, b, c);
    }
  }

  lemma XorZero(a: nat)
    ensures Xor(a, 0) == a
  {}

  lemma SameParity(a: nat, b: nat, c: nat)
    requires (a + c) % 2 == (b + c) % 2 && a / 2 == b / 2
    ensures a == b
  {}

  /** The low bit and the rest. */
  lemma XorHalves(a: nat, b: nat)
    ensures Xor(a, b) == 2 * Xor(a / 2, b / 2) + (a + b) % 2
    ensures Xor(a, b) / 2 == Xor(a / 2, b / 2) && Xor(a, b) % 2 == (a + b) % 2
  {}

  lemma {:induction false} XorBelow(a: nat, b: nat, bits: nat)
    requires a < Pow2(bits) && b < Pow2(bits)
    ensures Xor(a, b) < Pow2(bits)
  {
    if bits > 0 {
      XorHalves(a, b);
      XorBelow(a / 2, b / 2, bits - 1);
    }
  }

  /** Dropping low bits commutes with exclusive or. */
  lemma {:induction false} XorShiftsDown(a: nat, b: nat, k: nat)
    ensures ShiftRight(Xor(a, b), k) == Xor(ShiftRight(a, k), ShiftRight(b, k))
  {
    if k > 0 {
      XorHalves(a, b);
      XorShiftsDown(a / 2, b / 2, k - 1);
    }
  }

  lemma {:induction false} ShiftShrinks(x: nat, k: nat)
    ensures ShiftRight(x, k) <= x && (x > 0 && k > 0 ==> ShiftRight(x, k) < x)
  {
    if k > 0 { ShiftShrinks(x / 2, k - 1); }
  }

  /** A right shift folded in by exclusive or can be undone: the top bits come through
      unchanged and reveal the rest. */
  lemma {:induction false} XorShiftInjective(x: nat, y: nat, k: nat)
    requires k > 0 && XorShift(x, k) == XorShift(y, k)
    ensures x == y
    decreases x + y
  {
    var x', y' := ShiftRight(x, k), ShiftRight(y, k);
    if x + y > 0 {
      XorShiftsDown(x, x', k);
      XorShiftsDown(y, y', k);
      ShiftShrinks(x, k);
      ShiftShrinks(y, k);
      XorShiftInjective(x', y', k);
      XorCancels(x, y, x');
    }
  }

  lemma PowerOfWord()
    ensures Pow2(64) == WORD
  {
    assert Pow2(8) == 0x100;
    Power8(8);
    Power8(16);
    Power8(24);
    Power8(32);
    Power8(40);
    Power8(48);
    Power8(56);
  }

  lemma Power8(n: nat)
    ensures Pow2(n + 8) == 0x100 * Pow2(n)
  {
    assert Pow2(n + 2) == 4 * Pow2(n);
    assert Pow2(n + 4) == 4 * Pow2(n + 2);
    assert Pow2(n + 6) == 4 * Pow2(n + 4);
  }

  lemma XorShiftBelow(x: nat, k: nat)
    requires x < WORD
    ensures XorShift(x, k) < WORD
  {
    ShiftShrinks(x, k);
    PowerOfWord();
    XorBelow(x, ShiftRight(x, k), 64);
  }

  lemma ModOfSum(x: nat, t: int)
    requires x < WORD
    ensures (x + t * WORD) % WORD == x
  {}

  /** Multiplying by an odd constant, modulo 2^64, is undone by its inverse. */
  lemma MulUndone(x: nat, c: nat, inverse: nat, k: nat)
    requires x < WORD && c * inverse == 1 + k * WORD
    ensures WrappingMul(WrappingMul(x, c), inverse) == x
  {
    var q, r := (x * c) / WORD, (x * c) % WORD;
    assert x * c == q * WORD + r;
    assert r * inverse == x + (x * k - q * inverse) * WORD by {
      assert r * inverse == (x * c) * inverse - (q * WORD) * inverse;
      assert (x * c) * inverse == x * (c * inverse) == x * (1 + k * WORD) == x + x * k * WORD;
      assert (q * WORD) * inverse == q * inverse * WORD;
    }
    ModOfSum(x, x * k - q * inverse);
  }

  lemma MulInjective(x: nat, y: nat, c: nat, inverse: nat, k: nat)
    requires x < WORD && y < WORD && c * inverse == 1 + k * WORD
    requires WrappingMul(x, c) == WrappingMul(y, c)
    ensures x == y
  {
    hide WrappingMul;
    MulUndone(x, c, inverse, k);
    MulUndone(y, c, inverse, k);
  }

  lemma AddInjective(a: nat, x: nat, y: nat)
    requires x < WORD && y < WORD && WrappingAdd(a, x) == WrappingAdd(a, y)
    ensures x == y
  {}

  lemma FinalizeInjective(x: nat, x': nat)
    requires x < WORD && x' < WORD && Finalize(x) == Finalize(x')
    ensures x == x'
  {
    hide XorShift;
    var u, u' := XorShift(x, 30), XorShift(x', 30);
    var y, y' := WrappingMul(u, MIX1), WrappingMul(u', MIX1);
    var v, v' := XorShift(y, 27), XorShift(y', 27);
    var z, z' := WrappingMul(v, MIX2), WrappingMul(v', MIX2);
    XorShiftInjective(z, z', 31);
    XorShiftBelow(y, 27);
    XorShiftBelow(y', 27);
    MulInjective(v, v', MIX2, 0x3196_42b2_d24d_8ec3, 0x1cd3_36ed_a85f_1453);
    XorShiftInjective(y, y', 27);
    XorShiftBelow(x, 30);
    XorShiftBelow(x', 30);
    MulInjective(u, u', MIX1, 0x96de_1b17_3f11_9089, 0x70c3_bca7_8f27_f46c);
    XorShiftInjective(x, x', 30);
  }

  /** Two shards never tie for a point. */
  lemma ScoreInjective(a: nat, b: nat, point: Bytes)
    requires a < WORD && b < WORD && HrwScore(a, point) == HrwScore(b, point)
    ensures a == b
  {
    hide Finalize;
    var x, y := WrappingMul(a, GOLDEN), WrappingMul(b, GOLDEN);
    FinalizeInjective(WrappingAdd(FnvOf(point), x), WrappingAdd(FnvOf(point), y));
    AddInjective(FnvOf(point), x, y);
    MulInjective(a, b, GOLDEN, 0xf1de_83e1_9937_733d, 0x957b_bf35_006e_d677);
  }
}
