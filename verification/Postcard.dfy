/** The Postcard wire format, as far as descriptors use it: LEB128 integers with a bound
    on the last byte, one-byte booleans and option tags, integer discriminants, and
    length-prefixed strings and sequences. Bytes after the value are ignored. */
module Postcard {
  import opened ByteStrings

  /** A parsed value and the bytes that follow it. */
  type Parsed<T> = Option<(T, Bytes)>

  // ---- integers ------------------------------------------------------------

  function PutInt(n: nat): Bytes {
    if n < 128 then [n] else [n % 128 + 128] + PutInt(n / 128)
  }

  /** At most `width` bytes; a final byte in last position may not exceed `last`. */
  function GetInt(b: Bytes, width: nat, last: nat): Parsed<nat> {
    if b == [] || width == 0 then None
    else if b[0] < 128 then
      if width == 1 && b[0] > last then None else Some((b[0], b[1..]))
    else
      match GetInt(b[1..], width - 1, last)
      case None => None
      case Some((high, rest)) => Some((b[0] - 128 + 128 * high, rest))
  }

  function GetU32(b: Bytes): Parsed<nat> { GetInt(b, 5, 15) }

  function GetU64(b: Bytes): Parsed<nat> { GetInt(b, 10, 1) }

  predicate Fits(n: nat, width: nat, last: nat) {
    width > 0 && (if width == 1 then n < 128 && n <= last else n < 128 || Fits(n / 128, width - 1, last))
  }

  lemma {:induction false} IntRoundTrip(n: nat, width: nat, last: nat, rest: Bytes)
    requires Fits(n, width, last)
    ensures GetInt(PutInt(n) + rest, width, last) == Some((n, rest))
  {
    var b := PutInt(n) + rest;
    if n < 128 {
      assert b[1..] == rest;
    } else {
      IntRoundTrip(n / 128, width - 1, last, rest);
      assert b[1..] == PutInt(n / 128) + rest;
    }
  }

  predicate U32(n: nat) { n < 0x1_0000_0000 }

  predicate U64(n: nat) { n < 0x1_0000_0000_0000_0000 }

  lemma U32Fits(n: nat)
    requires U32(n)
    ensures Fits(n, 5, 15)
  {
    var a := n / 128;
    var b := a / 128;
    var c := b / 128;
    assert c / 128 <= 15;
    assert Fits(c / 128, 1, 15) && Fits(c, 2, 15) && Fits(b, 3, 15) && Fits(a, 4, 15);
  }

  lemma U64Fits(n: nat)
    requires U64(n)
    ensures Fits(n, 10, 1)
  {
    var a := n / 128;
    var b := a / 128;
    var c := b / 128;
    var d := c / 128;
    var e := d / 128;
    var f := e / 128;
    var g := f / 128;
    var h := g / 128;
    assert h / 128 <= 1;
    assert Fits(h / 128, 1, 1) && Fits(h, 2, 1) && Fits(g, 3, 1) && Fits(f, 4, 1);
    assert Fits(e, 5, 1) && Fits(d, 6, 1) && Fits(c, 7, 1) && Fits(b, 8, 1) && Fits(a, 9, 1);
  }

  lemma U32RoundTrip(n: nat, rest: Bytes)
    requires U32(n)
    ensures GetU32(PutInt(n) + rest) == Some((n, rest))
  {
    U32Fits(n);
    IntRoundTrip(n, 5, 15, rest);
  }

  lemma U64RoundTrip(n: nat, rest: Bytes)
    requires U64(n)
    ensures GetU64(PutInt(n) + rest) == Some((n, rest))
  {
    U64Fits(n);
    IntRoundTrip(n, 10, 1, rest);
  }

  /** An integer takes at least a byte. */
  lemma {:induction false} IntCost(b: Bytes, width: nat, last: nat)
    ensures var r := GetInt(b, width, last); r.Some? ==> |r.value.1| + 1 <= |b|
  {
    if b != [] && width > 0 { IntCost(b[1..], width - 1, last); }
  }

  // ---- small types ---------------------------------------------------------

  function PutBool(x: bool): Bytes { [if x then 1 else 0] }

  function GetBool(b: Bytes): Parsed<bool> {
    if b == [] || b[0] > 1 then None else Some((b[0] == 1, b[1..]))
  }

  function PutOption(x: Option<nat>): Bytes {
    match x case None => [0] case Some(n) => [1] + PutInt(n)
  }

  function GetOption(b: Bytes): Parsed<Option<nat>> {
    if b == [] || b[0] > 1 then None
    else if b[0] == 0 then Some((None, b[1..]))
    else
      match GetU32(b[1..])
      case None => None
      case Some((n, rest)) => Some((Some(n), rest))
  }

  /** A discriminant below `n`. */
  function GetTag(b: Bytes, n: nat): Parsed<nat> {
    match GetU32(b)
    case None => None
    case Some((t, rest)) => if t < n then Some((t, rest)) else None
  }

  lemma BoolRoundTrip(x: bool, rest: Bytes)
    ensures GetBool(PutBool(x) + rest) == Some((x, rest))
  {
    assert (PutBool(x) + rest)[1..] == rest;
  }

  lemma OptionRoundTrip(x: Option<nat>, rest: Bytes)
    requires x.Some? ==> U32(x.value)
    ensures GetOption(PutOption(x) + rest) == Some((x, rest))
  {
    hide GetU32;
    if x.Some? {
      assert (PutOption(x) + rest)[1..] == PutInt(x.value) + rest;
      U32RoundTrip(x.value, rest);
    } else {
      assert (PutOption(x) + rest)[1..] == rest;
    }
  }

  lemma TagRoundTrip(t: nat, n: nat, rest: Bytes)
    requires t < n && U32(t)
    ensures GetTag(PutInt(t) + rest, n) == Some((t, rest))
  {
    hide GetU32;
    U32RoundTrip(t, rest);
  }

  // ---- strings -------------------------------------------------------------

  function PutString(s: Bytes): Bytes { PutInt(|s|) + s }

  /** A string must be valid text. */
  function GetString(b: Bytes, text: Bytes -> bool): Parsed<Bytes> {
    match GetU64(b)
    case None => None
    case Some((n, rest)) => if n <= |rest| && text(rest[..n]) then Some((rest[..n], rest[n..])) else None
  }

  lemma StringRoundTrip(s: Bytes, rest: Bytes, text: Bytes -> bool)
    requires U64(|s|) && text(s)
    ensures GetString(PutString(s) + rest, text) == Some((s, rest))
  {
    hide GetU64;
    assert PutString(s) + rest == PutInt(|s|) + (s + rest);
    U64RoundTrip(|s|, s + rest);
    assert (s + rest)[..|s|] == s && (s + rest)[|s|..] == rest;
  }

  lemma StringCost(b: Bytes, text: Bytes -> bool)
    ensures var r := GetString(b, text); r.Some? ==> |r.value.1| + 1 + |r.value.0| <= |b|
  {
    IntCost(b, 10, 1);
  }
}
