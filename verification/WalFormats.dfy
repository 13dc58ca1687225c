/** The log's bytes (crates/quiver-core/src/wal.rs): which frames a reader accepts, where
    it stops, and how files of the first format version read back. */
module WalFormats {
  import opened ByteStrings
  import opened Words
  import opened Wal

  // ---- what is accepted ----------------------------------------------------

  /** A frame from `at` to `next` that holds `e`: its length and checksum are the stored
      ones, and it opens at its own offset when the format binds records to offsets. */
  predicate Authentic<E(==)>(c: Codec<E>, file: Bytes, at: nat, next: nat, e: E, bound: bool) {
    && at + 8 < next <= |file|
    && FromLe(file[at..at + 4]) == next - at - 8 <= 64 * 1024 * 1024
    && FromLe(file[at + 4..at + 8]) == c.crc(file[at + 8..next])
    && var plaintext := c.open(if bound then Some(at) else None, file[at + 8..next]);
    && plaintext.Some? && c.decode(plaintext.value) == Some(e)
  }

  lemma LookIsAuthentic<E>(c: Codec<E>, file: Bytes, at: nat, next: nat, e: E, bound: bool)
    requires at <= |file|
    ensures LookAt(c, file, at, bound) == Record(e, next) <==> Authentic(c, file, at, next, e, bound)
  {}

  /** One after another from `offset`, the entries' frames lie between these places. */
  ghost predicate Chained<E>(c: Codec<E>, file: Bytes, places: seq<nat>, entries: seq<E>, bound: bool) {
    && |places| == |entries| + 1
    && forall i :: 0 <= i < |entries| ==> Authentic(c, file, places[i], places[i + 1], entries[i], bound)
  }

  /** The scan returns frames that are all authentic, and reports a torn tail at the first
      place, short of the end, where none is. */
  lemma {:induction false} ScanIsAuthentic<E(!new)>(c: Codec<E>, file: Bytes, offset: nat, bound: bool) returns (places: seq<nat>)
    requires offset <= |file| && ScanFrom(c, file, offset, bound).Ok?
    ensures var (entries, torn) := ScanFrom(c, file, offset, bound).value;
      && Chained(c, file, places, entries, bound) && places[0] == offset
      && var stop := places[|entries|];
      && torn == (if stop == |file| then None else Some(stop))
      && forall next, e :: !Authentic(c, file, stop, next, e, bound)
    decreases |file| - offset
  {
    hide LookAt, Authentic;
    var look := LookAt(c, file, offset, bound);
    if look.Record? {
      var rest := ScanIsAuthentic(c, file, look.next, bound);
      places := [offset] + rest;
      LookIsAuthentic(c, file, offset, look.next, look.entry, bound);
      var entries := ScanFrom(c, file, offset, bound).value.0;
      forall i | 0 <= i < |entries| ensures Authentic(c, file, places[i], places[i + 1], entries[i], bound) {
        if i > 0 { assert places[i] == rest[i - 1] && entries[i] == ScanFrom(c, file, look.next, bound).value.0[i - 1]; }
      }
    } else {
      places := [offset];
      forall next, e ensures !Authentic(c, file, offset, next, e, bound) { LookIsAuthentic(c, file, offset, next, e, bound); }
      EndIsEnd(c, file, offset, bound);
    }
  }

  lemma EndIsEnd<E>(c: Codec<E>, file: Bytes, offset: nat, bound: bool)
    requires offset <= |file|
    ensures LookAt(c, file, offset, bound).End? <==> offset == |file|
  {}

  /** Whatever a file holds, reading it returns only authentic frames from the header on,
      and every one up to the first that is not. */
  lemma ReadIsAuthentic<E(!new)>(c: Codec<E>, file: Bytes) returns (places: seq<nat>)
    requires |file| >= 16 && Parse(c, file).Ok?
    ensures var WalReplay(entries, torn, _) := Parse(c, file).value;
      var bound := FromLe(file[4..6]) == 2;
      && file[..4] == [81, 86, 87, 76] && (bound || FromLe(file[4..6]) == 1)
      && Chained(c, file, places, entries, bound) && places[0] == 16
      && var stop := places[|entries|];
      && torn == (if stop == |file| then None else Some(stop))
      && forall next, e :: !Authentic(c, file, stop, next, e, bound)
  {
    hide ScanFrom, Authentic;
    places := ScanIsAuthentic(c, file, 16, FromLe(file[4..6]) == 2);
  }

  // ---- version 1 -----------------------------------------------------------

  /** A record of the first format is sealed to no offset. */
  function LegacyFrame<E>(c: Codec<E>, e: E): Bytes {
    var sealed := c.seal(None, c.encode(e));
    Le(|sealed|, 4) + Le(c.crc(sealed), 4) + sealed
  }

  function LegacyFrames<E>(c: Codec<E>, entries: seq<E>): Bytes {
    if entries == [] then [] else LegacyFrames(c, entries[..|entries| - 1]) + LegacyFrame(c, entries[|entries| - 1])
  }

  function LegacyHeader(baseLsn: nat): (h: Bytes)
    ensures |h| == 16
  {
    [81, 86, 87, 76, 1, 0, 0, 0] + Le(baseLsn, 8)
  }

  function LegacyFile<E>(c: Codec<E>, baseLsn: nat, entries: seq<E>): Bytes { LegacyHeader(baseLsn) + LegacyFrames(c, entries) }

  /** The same codec with every record at no particular offset. */
  function Unbound<E>(c: Codec<E>): Codec<E> {
    c.(seal := (pos, b) => c.seal(None, b), open := (pos, b) => c.open(None, b))
  }

  lemma {:induction false} UnboundFile<E>(c: Codec<E>, baseLsn: nat, entries: seq<E>)
    ensures LogFile(Unbound(c), baseLsn, entries) == Header(baseLsn) + LegacyFrames(c, entries)
  {
    if entries != [] { UnboundFile(c, baseLsn, entries[..|entries| - 1]); }
  }

  lemma UnboundLook<E>(c: Codec<E>, file: Bytes, offset: nat)
    requires offset <= |file|
    ensures LookAt(Unbound(c), file, offset, true) == LookAt(c, file, offset, false)
  {}

  lemma {:induction false} UnboundScan<E>(c: Codec<E>, file: Bytes, offset: nat)
    requires offset <= |file|
    ensures ScanFrom(Unbound(c), file, offset, true) == ScanFrom(c, file, offset, false)
    decreases |file| - offset
  {
    hide LookAt, Unbound;
    UnboundLook(c, file, offset);
    var look := LookAt(c, file, offset, false);
    if look.Record? { UnboundScan(c, file, look.next); }
  }

  lemma SameLook<E>(c: Codec<E>, f: Bytes, g: Bytes, offset: nat, bound: bool)
    requires |f| == |g| && offset <= |f| && f[offset..] == g[offset..]
    ensures LookAt(c, f, offset, bound) == LookAt(c, g, offset, bound)
  {
    if |f| - offset >= 8 {
      var len := FromLe(f[offset..offset + 4]);
      assert f[offset..offset + 4] == f[offset..][..4] == g[offset..offset + 4];
      assert f[offset + 4..offset + 8] == f[offset..][4..8] == g[offset + 4..offset + 8];
      if offset + 8 + len <= |f| { assert f[offset + 8..offset + 8 + len] == f[offset..][8..8 + len] == g[offset + 8..offset + 8 + len]; }
    }
  }

  /** What precedes the offset does not matter. */
  lemma {:induction false} SameScan<E>(c: Codec<E>, f: Bytes, g: Bytes, offset: nat, bound: bool)
    requires |f| == |g| && offset <= |f| && f[offset..] == g[offset..]
    ensures ScanFrom(c, f, offset, bound) == ScanFrom(c, g, offset, bound)
    decreases |f| - offset
  {
    hide LookAt;
    SameLook(c, f, g, offset, bound);
    var look := LookAt(c, f, offset, bound);
    if look.Record? {
      assert f[look.next..] == f[offset..][look.next - offset..] == g[look.next..];
      SameScan(c, f, g, look.next, bound);
    }
  }

  /** Where the first `i` records of a version-1 file end. */
  function LegacyEnd<E>(c: Codec<E>, entries: seq<E>, i: nat): nat
    requires i <= |entries|
  {
    16 + |LegacyFrames(c, entries[..i])|
  }

  lemma LegacyHeaderReads(baseLsn: nat)
    requires baseLsn < 0x1_0000_0000_0000_0000
    ensures var h := LegacyHeader(baseLsn); h[..4] == MAGIC && FromLe(h[4..6]) == 1 && FromLe(h[8..16]) == baseLsn
  {
    var h := LegacyHeader(baseLsn);
    assert h[..4] == MAGIC && h[4..6] == [1, 0] && h[8..16] == Le(baseLsn, 8);
    assert FromLe([1, 0]) == 1 by { assert [1, 0][1..] == [0] && [0][1..] == []; }
    Ranges();
    LeRoundTrip(baseLsn, 8);
  }

  lemma LegacyFits<E>(c: Codec<E>, baseLsn: nat, entries: seq<E>)
    requires forall i :: 0 <= i < |entries| ==> |c.seal(None, c.encode(entries[i]))| <= MAX_RECORD_BYTES
    ensures Fits(Unbound(c), baseLsn, entries)
  {
    hide LogFile;
  }

  lemma UnboundOk<E(!new)>(c: Codec<E>)
    requires CodecOk(c)
    ensures CodecOk(Unbound(c))
  {}

  /** A version-1 file cut at any byte reads back the records that lie wholly before the
      cut, opened at no offset, with the tail torn unless the cut is on a boundary. */
  lemma CutLegacyReads<E(!new)>(c: Codec<E>, baseLsn: nat, entries: seq<E>, n: nat, k: nat)
    requires CodecOk(c) && baseLsn < 0x1_0000_0000_0000_0000
    requires forall i :: 0 <= i < |entries| ==> |c.seal(None, c.encode(entries[i]))| <= MAX_RECORD_BYTES
    requires 16 <= n <= |LegacyFile(c, baseLsn, entries)|
    requires k <= |entries| && LegacyEnd(c, entries, k) <= n && (k < |entries| ==> n < LegacyEnd(c, entries, k + 1))
    ensures Parse(c, LegacyFile(c, baseLsn, entries)[..n])
         == Ok(WalReplay(entries[..k], if LegacyEnd(c, entries, k) == n then None else Some(LegacyEnd(c, entries, k)), baseLsn))
  {
    hide ScanFrom, LogFile, LegacyFrames, Unbound, WholeBefore, CodecOk, Fits;
    var u := Unbound(c);
    UnboundFile(c, baseLsn, entries);
    var f, g := LegacyFile(c, baseLsn, entries)[..n], LogFile(u, baseLsn, entries)[..n];
    UnboundOk(c);
    LegacyFits(c, baseLsn, entries);
    WholeIsK(c, baseLsn, entries, n, k);
    ScanWhole(u, baseLsn, entries, n, 0);
    FirstEnds(u, baseLsn, entries);
    assert f[16..] == g[16..];
    SameScan(c, f, g, 16, false);
    UnboundScan(c, g, 16);
    LegacyHeaderReads(baseLsn);
    var h := LegacyHeader(baseLsn);
    assert f[..16] == h;
    assert f[..4] == f[..16][..4] && f[4..6] == f[..16][4..6] && f[8..16] == f[..16][8..16];
    assert entries[0..k] == entries[..k];
  }

  lemma UnboundEnd<E>(c: Codec<E>, baseLsn: nat, entries: seq<E>, i: nat)
    requires i <= |entries|
    ensures EndOf(Unbound(c), baseLsn, entries, i) == LegacyEnd(c, entries, i)
  {
    hide LogFile, LegacyFrames;
    UnboundFile(c, baseLsn, entries[..i]);
  }

  lemma WholeIsK<E>(c: Codec<E>, baseLsn: nat, entries: seq<E>, n: nat, k: nat)
    requires 16 <= n && k <= |entries| && LegacyEnd(c, entries, k) <= n && (k < |entries| ==> n < LegacyEnd(c, entries, k + 1))
    ensures WholeBefore(Unbound(c), baseLsn, entries, n) == k && EndOf(Unbound(c), baseLsn, entries, k) == LegacyEnd(c, entries, k)
  {
    hide LogFile, LegacyFrames, WholeBefore, Unbound;
    var u := Unbound(c);
    UnboundEnd(c, baseLsn, entries, k);
    SyncedSurvive(u, baseLsn, entries, k, n);
    WholeBeforeIs(u, baseLsn, entries, n);
    if k < |entries| {
      UnboundEnd(c, baseLsn, entries, k + 1);
      var w := WholeBefore(u, baseLsn, entries, n);
      if w > k {
        assert entries[..w][..k + 1] == entries[..k + 1];
        LogPrefix(u, baseLsn, entries[..w], k + 1);
      }
    }
  }

  // ---- bytes ---------------------------------------------------------------

  /** The header: the magic, version 2, two zero bytes, and the base number, least
      significant byte first. */
  lemma HeaderBytes(baseLsn: nat)
    ensures Header(baseLsn)[..8] == [81, 86, 87, 76, 2, 0, 0, 0]
    ensures forall i :: 0 <= i < 8 ==> Header(baseLsn)[8 + i] == (baseLsn / Range(i)) % 256
  {
    assert Le(2, 2) == [2, 0] by { assert Le(0, 1) == [0]; }
    forall i | 0 <= i < 8 ensures Header(baseLsn)[8 + i] == (baseLsn / Range(i)) % 256 { LeBytes(baseLsn, 8, i); }
  }

  /** A frame: the sealed record's length and checksum, four bytes each with the least
      significant first, then the record. */
  lemma FrameBytes<E>(c: Codec<E>, offset: nat, e: E)
    ensures var f, sealed := Frame(c, offset, e), c.seal(Some(offset), c.encode(e));
      && |f| == 8 + |sealed| && f[8..] == sealed
      && forall i :: 0 <= i < 4 ==> f[i] == (|sealed| / Range(i)) % 256 && f[4 + i] == (c.crc(sealed) / Range(i)) % 256
  {
    var f, sealed := Frame(c, offset, e), c.seal(Some(offset), c.encode(e));
    forall i | 0 <= i < 4 ensures f[i] == (|sealed| / Range(i)) % 256 && f[4 + i] == (c.crc(sealed) / Range(i)) % 256 {
      LeBytes(|sealed|, 4, i);
      LeBytes(c.crc(sealed), 4, i);
    }
  }
}
