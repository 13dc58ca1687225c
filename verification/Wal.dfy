/** The write-ahead log's file format: header, framed sealed records, and a reader that
    stops at a torn tail (crates/quiver-core/src/wal.rs). */
module Wal {
  import opened ByteStrings
  import opened Words

  const HEADER_SIZE: nat := 16
  const PREFIX_SIZE: nat := 8
  const MAX_RECORD_BYTES: nat := 64 * 1024 * 1024
  const MAGIC: Bytes := [81, 86, 87, 76] // "QVWL"
  const FORMAT_VERSION: nat := 2
  const LEGACY_VERSION: nat := 1

  datatype WalError = BadMagic | UnsupportedVersion(found: nat) | Unauthentic | TooLarge

  /** The codec, the record encoding and the checksum, as the log uses them. */
  datatype Codec<!E> = Codec(
    encode: E -> Bytes,
    decode: Bytes -> Option<E>,
    seal: (Option<nat>, Bytes) -> Bytes,
    open: (Option<nat>, Bytes) -> Option<Bytes>,
    crc: Bytes -> nat)

  /** Opening inverts sealing at the same position, decoding inverts encoding, sealed
      records are never empty and checksums are 32-bit words. */
  ghost predicate CodecOk<E(!new)>(c: Codec<E>) {
    && (forall e :: c.decode(c.encode(e)) == Some(e))
    && (forall pos, b :: c.open(pos, c.seal(pos, b)) == Some(b))
    && (forall pos, e :: c.seal(pos, c.encode(e)) != [])
    && (forall b :: c.crc(b) < 0x1_0000_0000)
  }

  // ---- writing -------------------------------------------------------------

  function Header(baseLsn: nat): (h: Bytes)
    ensures |h| == HEADER_SIZE
  {
    MAGIC + Le(FORMAT_VERSION, 2) + [0, 0] + Le(baseLsn, 8)
  }

  function Sealed<E>(c: Codec<E>, offset: nat, e: E): Bytes { c.seal(Some(offset), c.encode(e)) }

  function Frame<E>(c: Codec<E>, offset: nat, e: E): (f: Bytes)
    ensures |f| == PREFIX_SIZE + |Sealed(c, offset, e)|
  {
    var sealed := Sealed(c, offset, e);
    Le(|sealed|, 4) + Le(c.crc(sealed), 4) + sealed
  }

  /** The file after appending the entries in order, each bound to its own offset. */
  function LogFile<E>(c: Codec<E>, baseLsn: nat, entries: seq<E>): (f: Bytes)
    ensures |f| >= HEADER_SIZE
  {
    if entries == [] then Header(baseLsn)
    else
      var before := LogFile(c, baseLsn, entries[..|entries| - 1]);
      before + Frame(c, |before|, entries[|entries| - 1])
  }

  class WalWriter<!E> {
    const codec: Codec<E>
    ghost const baseLsn: nat
    var file: Bytes
    var synced: nat         // bytes known durable
    var unsynced: bool
    var writeOffset: nat
    ghost var entries: seq<E>

    ghost predicate Valid()
      reads this
    {
      && file == LogFile(codec, baseLsn, entries) && writeOffset == |file| && Fits(codec, baseLsn, entries)
      && synced <= |file| && (!unsynced ==> synced == |file|)
    }

    constructor (codec: Codec<E>, baseLsn: nat)
      ensures Valid() && entries == [] && this.codec == codec && this.baseLsn == baseLsn && synced == |file|
    {
      this.codec, this.baseLsn, entries := codec, baseLsn, [];
      file, writeOffset, unsynced, synced := Header(baseLsn), HEADER_SIZE, false, HEADER_SIZE;
    }

    /** Frame and append a record at the current offset; an oversized one is refused. */
    method Append(e: E) returns (r: Result<(), WalError>)
      requires Valid()
      modifies this
      ensures Valid() && old(file) <= file
      ensures r == if |Sealed(codec, old(|file|), e)| > MAX_RECORD_BYTES then Err(TooLarge) else Ok(())
      ensures entries == if r.Ok? then old(entries) + [e] else old(entries)
    {
      var sealed := codec.seal(Some(writeOffset), codec.encode(e));
      if |sealed| > MAX_RECORD_BYTES { return Err(TooLarge); }
      var frame := Le(|sealed|, 4) + Le(codec.crc(sealed), 4) + sealed;
      FitsMore(codec, baseLsn, entries, e);
      assert (entries + [e])[..|entries|] == entries;
      file := file + frame;
      writeOffset := writeOffset + |frame|;
      unsynced := true;
      entries := entries + [e];
      return Ok(());
    }

    /** Make every appended record durable. */
    method Sync()
      requires Valid()
      modifies this`synced, this`unsynced
      ensures Valid() && synced == |file| && !unsynced
    {
      if unsynced {
        synced := |file|;
        unsynced := false;
      }
    }
  }

  // ---- reading -------------------------------------------------------------

  datatype WalReplay<E> = WalReplay(entries: seq<E>, tornAt: Option<nat>, baseLsn: nat)

  /** What one look at the frame at `offset` finds. */
  datatype Look<E> = End | Torn | Refused | Record(entry: E, next: nat)

  function LookAt<E>(c: Codec<E>, file: Bytes, offset: nat, bound: bool): (l: Look<E>)
    requires offset <= |file|
    ensures l.Record? ==> offset < l.next <= |file|
  {
    if offset == |file| then End
    else if |file| - offset < PREFIX_SIZE then Torn
    else
      var len, crc := FromLe(file[offset..offset + 4]), FromLe(file[offset + 4..offset + 8]);
      var end := offset + PREFIX_SIZE + len;
      if len == 0 || len > MAX_RECORD_BYTES || end > |file| then Torn
      else
        var buf := file[offset + PREFIX_SIZE..end];
        if c.crc(buf) != crc then Torn
        else
          match c.open(if bound then Some(offset) else None, buf)
          case None => Refused
          case Some(plaintext) =>
            match c.decode(plaintext)
            case None => Torn
            case Some(e) => Record(e, end)
  }

  /** The records from `offset` to the first that is not intact. */
  function ScanFrom<E>(c: Codec<E>, file: Bytes, offset: nat, bound: bool): Result<(seq<E>, Option<nat>), WalError>
    requires offset <= |file|
    decreases |file| - offset
  {
    match LookAt(c, file, offset, bound)
    case End => Ok(([], None))
    case Torn => Ok(([], Some(offset)))
    case Refused => Err(Unauthentic)
    case Record(e, next) =>
      match ScanFrom(c, file, next, bound)
      case Err(x) => Err(x)
      case Ok((es, torn)) => Ok(([e] + es, torn))
  }

  function Parse<E>(c: Codec<E>, file: Bytes): Result<WalReplay<E>, WalError> {
    if |file| < HEADER_SIZE then Ok(WalReplay([], Some(0), 0))
    else if file[..4] != MAGIC then Err(BadMagic)
    else
      var ver := FromLe(file[4..6]);
      if ver != FORMAT_VERSION && ver != LEGACY_VERSION then Err(UnsupportedVersion(ver))
      else
        match ScanFrom(c, file, HEADER_SIZE, ver == FORMAT_VERSION)
        case Err(x) => Err(x)
        case Ok((es, torn)) => Ok(WalReplay(es, torn, FromLe(file[8..16])))
  }

  /** Read every intact record; the loop moves an offset over the frames. */
  method ReadAll<E>(c: Codec<E>, file: Bytes) returns (r: Result<WalReplay<E>, WalError>)
    ensures r == Parse(c, file)
  {
    hide LookAt;
    if |file| < HEADER_SIZE { return Ok(WalReplay([], Some(0), 0)); }
    if file[..4] != MAGIC { return Err(BadMagic); }
    var ver := FromLe(file[4..6]);
    if ver != FORMAT_VERSION && ver != LEGACY_VERSION { return Err(UnsupportedVersion(ver)); }
    var bound := ver == FORMAT_VERSION;
    var entries: seq<E>, offset, tornAt := [], HEADER_SIZE, None;
    var done := false;
    PrependNone(ScanFrom(c, file, offset, bound));
    while !done
      invariant HEADER_SIZE <= offset <= |file|
      invariant !done ==> ScanFrom(c, file, HEADER_SIZE, bound) == Prepend(entries, ScanFrom(c, file, offset, bound))
      invariant !done ==> tornAt == None
      invariant done ==> ScanFrom(c, file, HEADER_SIZE, bound) == Ok((entries, tornAt))
      decreases !done, |file| - offset
    {
      PrependScan(c, file, offset, bound, entries);
      match LookAt(c, file, offset, bound) {
        case End => done := true;
        case Torn => tornAt, done := Some(offset), true;
        case Refused => return Err(Unauthentic);
        case Record(e, next) => entries, offset := entries + [e], next;
      }
    }
    return Ok(WalReplay(entries, tornAt, FromLe(file[8..16])));
  }

  function Prepend<E>(entries: seq<E>, r: Result<(seq<E>, Option<nat>), WalError>): Result<(seq<E>, Option<nat>), WalError> {
    match r
    case Err(x) => Err(x)
    case Ok((es, torn)) => Ok((entries + es, torn))
  }

  lemma PrependNone<E>(r: Result<(seq<E>, Option<nat>), WalError>)
    ensures Prepend([], r) == r
  {
    if r.Ok? { assert [] + r.value.0 == r.value.0; }
  }

  /** One turn of the reading loop. */
  lemma PrependScan<E>(c: Codec<E>, file: Bytes, offset: nat, bound: bool, entries: seq<E>)
    requires offset <= |file|
    ensures var l, r := LookAt(c, file, offset, bound), Prepend(entries, ScanFrom(c, file, offset, bound));
      && (l.End? ==> r == Ok((entries, None)))
      && (l.Torn? ==> r == Ok((entries, Some(offset))))
      && (l.Refused? ==> r == Err(Unauthentic))
      && (l.Record? ==> r == Prepend(entries + [l.entry], ScanFrom(c, file, l.next, bound)))
  {
    hide LookAt;
    assert entries + [] == entries;
    var l := LookAt(c, file, offset, bound);
    if l.Record? {
      var rest := ScanFrom(c, file, l.next, bound);
      if rest.Ok? { assert entries + ([l.entry] + rest.value.0) == entries + [l.entry] + rest.value.0; }
    }
  }

  // ---- every cut of a written log ------------------------------------------

  predicate Fits<E>(c: Codec<E>, baseLsn: nat, entries: seq<E>) {
    forall i :: 0 <= i < |entries| ==> |Sealed(c, |LogFile(c, baseLsn, entries[..i])|, entries[i])| <= MAX_RECORD_BYTES
  }

  lemma FitsMore<E>(c: Codec<E>, baseLsn: nat, entries: seq<E>, e: E)
    requires Fits(c, baseLsn, entries) && |Sealed(c, |LogFile(c, baseLsn, entries)|, e)| <= MAX_RECORD_BYTES
    ensures Fits(c, baseLsn, entries + [e])
  {
    hide Sealed, LogFile;
    var all := entries + [e];
    forall i | 0 <= i < |all| ensures |Sealed(c, |LogFile(c, baseLsn, all[..i])|, all[i])| <= MAX_RECORD_BYTES {
      if i < |entries| { assert all[..i] == entries[..i]; } else { assert all[..i] == entries; }
    }
  }

  /** The file up to the end of the first `i` entries, and the frame of the next. */
  lemma {:induction false} LogPrefix<E>(c: Codec<E>, baseLsn: nat, entries: seq<E>, i: nat)
    requires i <= |entries|
    ensures LogFile(c, baseLsn, entries[..i]) <= LogFile(c, baseLsn, entries)
    ensures i < |entries| ==> var before := LogFile(c, baseLsn, entries[..i]);
      LogFile(c, baseLsn, entries[..i + 1]) == before + Frame(c, |before|, entries[i])
  {
    if i < |entries| { assert entries[..i + 1][..i] == entries[..i]; }
    if i == |entries| {
      assert entries[..i] == entries;
    } else {
      var n := |entries| - 1;
      LogPrefix(c, baseLsn, entries[..n], i);
      assert entries[..n][..i] == entries[..i];
    }
  }

  /** Where the first `i` entries end. */
  function EndOf<E>(c: Codec<E>, baseLsn: nat, entries: seq<E>, i: nat): nat
    requires i <= |entries|
  {
    |LogFile(c, baseLsn, entries[..i])|
  }

  /** A whole frame reads back as its entry. */
  lemma WholeFrame<E(!new)>(c: Codec<E>, file: Bytes, offset: nat, e: E)
    requires CodecOk(c) && |Sealed(c, offset, e)| <= MAX_RECORD_BYTES
    requires offset + |Frame(c, offset, e)| <= |file| && file[offset..offset + |Frame(c, offset, e)|] == Frame(c, offset, e)
    ensures LookAt(c, file, offset, true) == Record(e, offset + |Frame(c, offset, e)|)
  {
    var sealed, f := Sealed(c, offset, e), Frame(c, offset, e);
    FrameParts(c, offset, e);
    var g := file[offset..offset + |f|];
    assert file[offset..offset + 4] == g[..4] && file[offset + 4..offset + 8] == g[4..8];
    assert file[offset + 8..offset + 8 + |sealed|] == g[8..];
  }

  lemma FrameParts<E(!new)>(c: Codec<E>, offset: nat, e: E)
    requires CodecOk(c) && |Sealed(c, offset, e)| <= MAX_RECORD_BYTES
    ensures var sealed, f := Sealed(c, offset, e), Frame(c, offset, e);
      FromLe(f[..4]) == |sealed| && FromLe(f[4..8]) == c.crc(sealed) && f[8..] == sealed && sealed != []
  {
    var sealed, f := Sealed(c, offset, e), Frame(c, offset, e);
    Ranges();
    LeRoundTrip(|sealed|, 4);
    LeRoundTrip(c.crc(sealed), 4);
    assert f[..4] == Le(|sealed|, 4) && f[4..8] == Le(c.crc(sealed), 4) && f[8..] == sealed;
  }

  /** A frame cut short reads as a torn tail. */
  lemma CutFrame<E(!new)>(c: Codec<E>, file: Bytes, offset: nat, e: E)
    requires CodecOk(c) && |Sealed(c, offset, e)| <= MAX_RECORD_BYTES
    requires offset < |file| < offset + |Frame(c, offset, e)|
    requires file[offset..] == Frame(c, offset, e)[..|file| - offset]
    ensures LookAt(c, file, offset, true) == Torn
  {
    var f := Frame(c, offset, e);
    FrameParts(c, offset, e);
    if |file| - offset >= PREFIX_SIZE {
      assert file[offset..offset + 4] == file[offset..][..4] == f[..4];
    }
  }

  /** How many frames lie wholly before the cut. */
  function WholeBefore<E>(c: Codec<E>, baseLsn: nat, entries: seq<E>, n: nat): (k: nat)
    ensures k <= |entries|
  {
    if entries == [] then 0
    else if |LogFile(c, baseLsn, entries)| <= n then |entries|
    else WholeBefore(c, baseLsn, entries[..|entries| - 1], n)
  }

  lemma {:induction false} WholeBeforeIs<E>(c: Codec<E>, baseLsn: nat, entries: seq<E>, n: nat)
    requires HEADER_SIZE <= n
    ensures var k := WholeBefore(c, baseLsn, entries, n);
      EndOf(c, baseLsn, entries, k) <= n && (k < |entries| ==> n < EndOf(c, baseLsn, entries, k + 1))
  {
    hide LogFile;
    if entries == [] {
      FirstEnds(c, baseLsn, entries);
    } else {
      var m := |entries| - 1;
      assert entries[..m + 1] == entries;
      if |LogFile(c, baseLsn, entries)| > n {
        WholeBeforeIs(c, baseLsn, entries[..m], n);
        var k := WholeBefore(c, baseLsn, entries, n);
        assert entries[..m][..k] == entries[..k];
        if k < m { assert entries[..m][..k + 1] == entries[..k + 1]; }
      }
    }
  }

  /** From the end of the first `i` whole frames, the scan finds the rest of them. */
  lemma {:induction false} ScanWhole<E(!new)>(c: Codec<E>, baseLsn: nat, entries: seq<E>, n: nat, i: nat)
    requires CodecOk(c) && Fits(c, baseLsn, entries) && HEADER_SIZE <= n <= |LogFile(c, baseLsn, entries)|
    requires i <= WholeBefore(c, baseLsn, entries, n)
    ensures EndOf(c, baseLsn, entries, i) <= n
    ensures var k := WholeBefore(c, baseLsn, entries, n);
      var end := EndOf(c, baseLsn, entries, k);
      ScanFrom(c, LogFile(c, baseLsn, entries)[..n], EndOf(c, baseLsn, entries, i), true)
        == Ok((entries[i..k], if end == n then None else Some(end)))
    decreases |entries| - i
  {
    hide WholeBefore, LookAt, LogFile, Frame, Sealed;
    var k := WholeBefore(c, baseLsn, entries, n);
    var log := LogFile(c, baseLsn, entries);
    var file, offset := log[..n], EndOf(c, baseLsn, entries, i);
    WholeBeforeIs(c, baseLsn, entries, n);
    if i < |entries| { FrameInLog(c, baseLsn, entries, i); }
    if i == k {
      assert entries[i..k] == [];
      LogPrefix(c, baseLsn, entries, k);
      if offset < n {
        WholeEnd(c, baseLsn, entries, n);
        CutSlice(log, n, offset, EndOf(c, baseLsn, entries, i + 1));
        CutFrame(c, file, offset, entries[i]);
      } else {
        NothingLeft(c, file);
      }
    } else {
      ScanWhole(c, baseLsn, entries, n, i + 1);
      var next := EndOf(c, baseLsn, entries, i + 1);
      PrefixSlice(log, n, offset, next);
      WholeFrame(c, file, offset, entries[i]);
      assert entries[i..k] == [entries[i]] + entries[i + 1..k];
    }
  }

  lemma PrefixSlice(log: Bytes, n: nat, a: nat, b: nat)
    requires a <= b <= n <= |log|
    ensures log[..n][a..b] == log[a..b]
  {}

  lemma CutSlice(log: Bytes, n: nat, a: nat, b: nat)
    requires a <= n <= b <= |log|
    ensures log[..n][a..] == log[a..b][..n - a]
  {}

  lemma NothingLeft<E>(c: Codec<E>, file: Bytes)
    ensures LookAt(c, file, |file|, true) == End
  {}

  /** A cut past the last whole frame lies inside the next one. */
  lemma WholeEnd<E>(c: Codec<E>, baseLsn: nat, entries: seq<E>, n: nat)
    requires HEADER_SIZE <= n <= |LogFile(c, baseLsn, entries)|
    requires EndOf(c, baseLsn, entries, WholeBefore(c, baseLsn, entries, n)) < n
    ensures WholeBefore(c, baseLsn, entries, n) < |entries|
  {
    assert entries[..|entries|] == entries;
  }

  lemma FrameInLog<E>(c: Codec<E>, baseLsn: nat, entries: seq<E>, i: nat)
    requires i < |entries|
    ensures var o, next := EndOf(c, baseLsn, entries, i), EndOf(c, baseLsn, entries, i + 1);
      && next == o + |Frame(c, o, entries[i])| <= |LogFile(c, baseLsn, entries)|
      && LogFile(c, baseLsn, entries)[o..next] == Frame(c, o, entries[i])
  {
    hide LogFile, Frame;
    LogPrefix(c, baseLsn, entries, i);
    LogPrefix(c, baseLsn, entries, i + 1);
    var o, next := EndOf(c, baseLsn, entries, i), EndOf(c, baseLsn, entries, i + 1);
    assert LogFile(c, baseLsn, entries)[..next] == LogFile(c, baseLsn, entries[..i + 1]);
    assert LogFile(c, baseLsn, entries)[o..next] == LogFile(c, baseLsn, entries[..i + 1])[o..];
  }

  lemma HeaderReads<E>(c: Codec<E>, baseLsn: nat, entries: seq<E>)
    requires baseLsn < 0x1_0000_0000_0000_0000
    ensures var f := LogFile(c, baseLsn, entries);
      f[..4] == MAGIC && FromLe(f[4..6]) == FORMAT_VERSION && FromLe(f[8..16]) == baseLsn
  {
    LogPrefix(c, baseLsn, entries, 0);
    assert entries[..0] == [];
    var f, h := LogFile(c, baseLsn, entries), Header(baseLsn);
    HeaderParts(baseLsn);
    assert f[..4] == h[..4] && f[4..6] == h[4..6] && f[8..16] == h[8..16];
  }

  lemma HeaderParts(baseLsn: nat)
    requires baseLsn < 0x1_0000_0000_0000_0000
    ensures var h := Header(baseLsn);
      h[..4] == MAGIC && FromLe(h[4..6]) == FORMAT_VERSION && FromLe(h[8..16]) == baseLsn
  {
    hide Le;
    var h, v, b := Header(baseLsn), Le(FORMAT_VERSION, 2), Le(baseLsn, 8);
    assert h == MAGIC + v + [0, 0] + b;
    assert h[..4] == MAGIC;
    assert h[4..6] == v;
    assert h[8..16] == b;
    Ranges();
    LeRoundTrip(FORMAT_VERSION, 2);
    LeRoundTrip(baseLsn, 8);
  }

  /** Cut a written log at any byte: the reader returns exactly the entries whose frames
      lie wholly before the cut, and reports a torn tail, where the last whole frame
      ends, exactly when the cut is not on a frame boundary. */
  lemma CutLogReads<E(!new)>(c: Codec<E>, baseLsn: nat, entries: seq<E>, n: nat)
    requires CodecOk(c) && Fits(c, baseLsn, entries) && baseLsn < 0x1_0000_0000_0000_0000
    requires n <= |LogFile(c, baseLsn, entries)|
    ensures Parse(c, LogFile(c, baseLsn, entries)[..n]) == Ok(
      if n < HEADER_SIZE then WalReplay([], Some(0), 0)
      else
        var k := WholeBefore(c, baseLsn, entries, n);
        var end := EndOf(c, baseLsn, entries, k);
        WalReplay(entries[..k], if end == n then None else Some(end), baseLsn))
  {
    hide WholeBefore, LookAt, LogFile, ScanFrom;
    if n >= HEADER_SIZE {
      HeaderReads(c, baseLsn, entries);
      var f := LogFile(c, baseLsn, entries);
      assert f[..n][..4] == f[..4] && f[..n][4..6] == f[4..6] && f[..n][8..16] == f[8..16];
      ScanWhole(c, baseLsn, entries, n, 0);
      FirstEnds(c, baseLsn, entries);
      assert entries[0..WholeBefore(c, baseLsn, entries, n)] == entries[..WholeBefore(c, baseLsn, entries, n)];
    }
  }

  lemma FirstEnds<E>(c: Codec<E>, baseLsn: nat, entries: seq<E>)
    ensures EndOf(c, baseLsn, entries, 0) == HEADER_SIZE
  {
    assert entries[..0] == [];
  }

  /** Whatever a crash keeps beyond the synced bytes, no synced record is lost. */
  lemma SyncedSurvive<E>(c: Codec<E>, baseLsn: nat, entries: seq<E>, synced: nat, n: nat)
    requires synced <= |entries| && EndOf(c, baseLsn, entries, synced) <= n
    ensures WholeBefore(c, baseLsn, entries, n) >= synced
  {
    hide LogFile;
    WholeBeforeIs(c, baseLsn, entries, n);
    var k := WholeBefore(c, baseLsn, entries, n);
    if k < synced {
      assert entries[..synced][..k + 1] == entries[..k + 1];
      LogPrefix(c, baseLsn, entries[..synced], k + 1);
    }
  }
}
