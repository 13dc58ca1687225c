/** Fixed-size pages with a header and a checksum, and the codec that seals them
    (crates/quiver-core/src/page.rs). */
module Pages {
  import opened ByteStrings
  import opened Words

  const PAGE_SIZE: nat := 16384
  const HEADER_SIZE: nat := 32
  const CRC_HEADER_BYTES: nat := 28
  const BODY_CAP: nat := 16352
  const MAGIC: Bytes := [81, 86, 80, 71] // "QVPG"
  const FORMAT_VERSION: nat := 1

  datatype PageType = ManifestPage | SegmentPage | IndexBlock

  datatype PageError = TooLarge | BadMagic | UnsupportedVersion | MalformedPage | PageCorrupt | Unauthentic

  datatype PageHeader = PageHeader(pageType: PageType, pageId: nat, lsn: nat, payloadLen: nat)

  /** The sealing codec and the checksum, both bound to a page's position where they
      choose to be. */
  datatype PageCodec = PageCodec(
    blockSize: nat,
    seal: (nat, Bytes) -> Bytes,
    open: (nat, Bytes) -> Option<Bytes>,
    crc: Bytes -> nat)

  /** Opening inverts sealing at the same position; blocks and pages have fixed sizes. */
  ghost predicate CodecOk(c: PageCodec) {
    && c.blockSize > 0
    && (forall id, p :: |p| == PAGE_SIZE ==> |c.seal(id, p)| == c.blockSize)
    && (forall id, p :: |p| == PAGE_SIZE ==> c.open(id, c.seal(id, p)) == Some(p))
    && (forall id, b :: c.open(id, b).Some? ==> |c.open(id, b).value| == PAGE_SIZE)
    && (forall b :: c.crc(b) < 0x1_0000_0000)
  }

  function Tag(t: PageType): Byte {
    match t case ManifestPage => 1 case SegmentPage => 2 case IndexBlock => 3
  }

  function TypeOf(tag: Byte): Option<PageType> {
    if tag == 1 then Some(ManifestPage) else if tag == 2 then Some(SegmentPage) else if tag == 3 then Some(IndexBlock) else None
  }

  /** The header up to its checksum field. */
  function HeaderBytes(h: PageHeader): (b: Bytes)
    ensures |b| == CRC_HEADER_BYTES
  {
    MAGIC + Le(FORMAT_VERSION, 2) + [Tag(h.pageType), 0] + Le(h.pageId, 8) + Le(h.lsn, 8) + Le(h.payloadLen, 4)
  }

  function Zeros(n: nat): (z: Bytes)
    ensures |z| == n
  {
    seq(n, _ => 0)
  }

  /** A page: header, checksum over header and live body, body, zero padding. */
  function BuildPage(c: PageCodec, t: PageType, pageId: nat, lsn: nat, body: Bytes): (r: Result<Bytes, PageError>)
    ensures r.Ok? <==> |body| <= BODY_CAP
    ensures r.Ok? ==> |r.value| == PAGE_SIZE
  {
    if |body| > BODY_CAP then Err(TooLarge)
    else
      var header := HeaderBytes(PageHeader(t, pageId, lsn, |body|));
      Ok(header + Le(c.crc(header + body), 4) + body + Zeros(BODY_CAP - |body|))
  }

  /** Validate a page and return its header and live body. */
  function ParsePage(c: PageCodec, page: Bytes, expected: PageType): Result<(PageHeader, Bytes), PageError>
    requires |page| == PAGE_SIZE
  {
    if page[..4] != MAGIC then Err(BadMagic)
    else if FromLe(page[4..6]) != FORMAT_VERSION then Err(UnsupportedVersion)
    else if TypeOf(page[6]) != Some(expected) then Err(MalformedPage)
    else
      var len := FromLe(page[24..28]);
      if len > BODY_CAP then Err(MalformedPage)
      else
        var body := page[HEADER_SIZE..HEADER_SIZE + len];
        if FromLe(page[28..32]) != c.crc(page[..CRC_HEADER_BYTES] + body) then Err(PageCorrupt)
        else Ok((PageHeader(expected, FromLe(page[8..16]), FromLe(page[16..24]), len), body))
  }

  predicate Word64(n: nat) { n < 0x1_0000_0000_0000_0000 }

  lemma HeaderFields(h: PageHeader)
    requires Word64(h.pageId) && Word64(h.lsn) && h.payloadLen <= BODY_CAP
    ensures var b := HeaderBytes(h);
      && b[..4] == MAGIC && FromLe(b[4..6]) == FORMAT_VERSION && b[6] == Tag(h.pageType)
      && FromLe(b[8..16]) == h.pageId && FromLe(b[16..24]) == h.lsn && FromLe(b[24..28]) == h.payloadLen
  {
    hide Le;
    var b := HeaderBytes(h);
    var v, p, l, n := Le(FORMAT_VERSION, 2), Le(h.pageId, 8), Le(h.lsn, 8), Le(h.payloadLen, 4);
    var start := MAGIC + v + [Tag(h.pageType), 0];
    assert b == start + p + l + n && |start| == 8;
    assert b[4..6] == start[4..6] == v;
    assert b[8..16] == p;
    assert b[16..24] == l;
    assert b[24..] == n;
    assert b[24..28] == b[24..];
    Ranges();
    LeRoundTrip(FORMAT_VERSION, 2);
    LeRoundTrip(h.pageId, 8);
    LeRoundTrip(h.lsn, 8);
    LeRoundTrip(h.payloadLen, 4);
  }

  /** A built page parses back to its header and body. */
  lemma PageRoundTrip(c: PageCodec, t: PageType, pageId: nat, lsn: nat, body: Bytes)
    requires CodecOk(c) && |body| <= BODY_CAP && Word64(pageId) && Word64(lsn)
    ensures ParsePage(c, BuildPage(c, t, pageId, lsn, body).value, t) == Ok((PageHeader(t, pageId, lsn, |body|), body))
  {
    hide HeaderBytes, Le, FromLe;
    var page := BuildPage(c, t, pageId, lsn, body).value;
    var h := PageHeader(t, pageId, lsn, |body|);
    var header := HeaderBytes(h);
    var crc := Le(c.crc(header + body), 4);
    HeaderFields(h);
    assert page[..28] == header;
    assert page[..4] == header[..4] && page[4..6] == header[4..6] && page[6] == header[6];
    assert page[8..16] == header[8..16] && page[16..24] == header[16..24] && page[24..28] == header[24..28];
    assert page[28..32] == crc;
    assert page[32..32 + |body|] == body;
    Ranges();
    LeRoundTrip(c.crc(header + body), 4);
  }

  /** A page is accepted exactly when it starts with the magic, version 1 and the tag asked
      for, its length fits, and its checksum covers the header and the live body. */
  lemma PageAcceptedIff(c: PageCodec, page: Bytes, t: PageType)
    requires |page| == 16384
    ensures ParsePage(c, page, t).Ok? <==>
      && page[..4] == [81, 86, 80, 71] && FromLe(page[4..6]) == 1
      && page[6] == (match t case ManifestPage => 1 case SegmentPage => 2 case IndexBlock => 3)
      && FromLe(page[24..28]) <= 16352
      && FromLe(page[28..32]) == c.crc(page[..28] + page[32..32 + FromLe(page[24..28])])
  {
    hide FromLe;
  }

  /** The bytes of a page: words least significant byte first, padding of zeros. */
  lemma PageBytes(c: PageCodec, t: PageType, pageId: nat, lsn: nat, body: Bytes)
    requires |body| <= 16352
    ensures var page := BuildPage(c, t, pageId, lsn, body).value;
      && page[..8] == [81, 86, 80, 71, 1, 0, Tag(t), 0] && page[32..32 + |body|] == body
      && (forall i :: 32 + |body| <= i < 16384 ==> page[i] == 0)
      && (forall i :: 0 <= i < 8 ==> page[8 + i] == (pageId / Range(i)) % 256 && page[16 + i] == (lsn / Range(i)) % 256)
      && (forall i :: 0 <= i < 4 ==> page[24 + i] == (|body| / Range(i)) % 256 && page[28 + i] == (c.crc(page[..28] + body) / Range(i)) % 256)
  {
    hide Le, Range;
    var page := BuildPage(c, t, pageId, lsn, body).value;
    var header := HeaderBytes(PageHeader(t, pageId, lsn, |body|));
    VersionBytes();
    assert page[..28] == header;
    assert page[32..32 + |body|] == body;
    forall i | 0 <= i < 8 ensures page[8 + i] == (pageId / Range(i)) % 256 && page[16 + i] == (lsn / Range(i)) % 256 {
      LeBytes(pageId, 8, i);
      LeBytes(lsn, 8, i);
    }
    forall i | 0 <= i < 4 ensures page[24 + i] == (|body| / Range(i)) % 256 && page[28 + i] == (c.crc(header + body) / Range(i)) % 256 {
      LeBytes(|body|, 4, i);
      LeBytes(c.crc(header + body), 4, i);
    }
  }

  lemma VersionBytes()
    ensures Le(1, 2) == [1, 0]
  {
    assert Le(0, 1) == [0];
  }
}
