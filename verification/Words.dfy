/** Powers of two, and little-endian words as `to_le_bytes` and `from_le_bytes` read and write them. */
module Words {
  import opened ByteStrings

  function Pow2(n: nat): (p: nat)
    ensures p > 0
  {
    if n == 0 then 1 else 2 * Pow2(n - 1)
  }

  function Le(n: nat, width: nat): (b: Bytes)
    ensures |b| == width
  {
    if width == 0 then [] else [n % 256] + Le(n / 256, width - 1)
  }

  function FromLe(b: Bytes): nat {
    if b == [] then 0 else b[0] + 256 * FromLe(b[1..])
  }

  function Range(width: nat): (r: nat)
    ensures r > 0
  {
    if width == 0 then 1 else 256 * Range(width - 1)
  }

  /** Reading back a word that fits its width. */
  lemma {:induction false} LeRoundTrip(n: nat, width: nat)
    requires n < Range(width)
    ensures FromLe(Le(n, width)) == n
  {
    if width > 0 {
      LeRoundTrip(n / 256, width - 1);
      assert Le(n, width)[1..] == Le(n / 256, width - 1);
    }
  }

  lemma Ranges()
    ensures Range(2) == 0x1_0000 && Range(4) == 0x1_0000_0000 && Range(8) == 0x1_0000_0000_0000_0000
  {}

  /** The least significant byte first. */
  lemma {:induction false} LeBytes(n: nat, width: nat, i: nat)
    requires i < width
    ensures Le(n, width)[i] == (n / Range(i)) % 256
  {
    if i > 0 {
      LeBytes(n / 256, width - 1, i - 1);
      DivideAgain(n, Range(i - 1));
    }
  }

  lemma DivideAgain(n: nat, m: nat)
    requires m > 0
    ensures n / 256 / m == n / (256 * m)
  {
    var q, r := n / (256 * m), n % (256 * m);
    assert n == q * (256 * m) + r;
    assert n / 256 == q * m + r / 256 && r / 256 < m by { assert q * (256 * m) == 256 * (q * m); }
    QuotientIs(n / 256, m, q, r / 256);
  }

  lemma QuotientIs(x: nat, m: nat, q: nat, r: nat)
    requires m > 0 && x == q * m + r && r < m
    ensures x / m == q
  {
    hide *;
    var s := x / m;
    assert s * m <= x < s * m + m;
    Monotone(q + 1, s, m);
    Monotone(s + 1, q, m);
    assert (q + 1) * m == q * m + m && (s + 1) * m == s * m + m;
  }

  lemma Monotone(a: nat, b: nat, m: nat)
    ensures a <= b ==> a * m <= b * m
  {
    assert b * m == a * m + (b - a) * m;
    if a <= b { assert (b - a) * m >= 0; }
  }
}
