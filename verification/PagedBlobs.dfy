/** Length-delimited blobs across pages (crates/quiver-core/src/paged.rs). */
module PagedBlobs {
  import opened ByteStrings
  import opened Words
  import opened Pages
  import opened Blocks

  const LEN_PREFIX: nat := 8

  /** The bytes a paged file lays out: the length, then the blob. */
  function Prefixed(body: Bytes): Bytes { Le(|body|, LEN_PREFIX) + body }

  /** Cut a blob into pages: the first carries the length and less of the body. The
      pages are those of the prefixed bytes packed tightly. */
  method Paginate(f: Format, body: Bytes) returns (pages: seq<Bytes>)
    ensures |pages| == PageCount(Prefixed(body))
    ensures forall i :: 0 <= i < |pages| ==> pages[i] == BuildPage(f.codec, f.pageType, i, f.stamp, Chunk(Prefixed(body), i)).value
  {
    hide BuildPage, Le;
    ghost var content := Prefixed(body);
    var firstTake := if |body| <= BODY_CAP - LEN_PREFIX then |body| else BODY_CAP - LEN_PREFIX;
    var page0 := Le(|body|, LEN_PREFIX) + body[..firstTake];
    FirstPage(body, firstTake);
    pages := [BuildPage(f.codec, f.pageType, 0, f.stamp, page0).value];
    var cursor := firstTake;
    while cursor < |body|
      invariant |pages| >= 1 && cursor <= |body|
      invariant cursor + LEN_PREFIX == |pages| * BODY_CAP || cursor == |body|
      invariant cursor == |body| ==> |pages| == PageCount(content)
      invariant cursor < |body| ==> |pages| < PageCount(content)
      invariant forall i :: 0 <= i < |pages| ==>
        i < PageCount(content) && pages[i] == BuildPage(f.codec, f.pageType, i, f.stamp, Chunk(content, i)).value
    {
      var take := if |body| - cursor <= BODY_CAP then |body| - cursor else BODY_CAP;
      LaterPage(body, cursor, |pages|, take);
      pages := pages + [BuildPage(f.codec, f.pageType, |pages|, f.stamp, body[cursor..cursor + take]).value];
      cursor := cursor + take;
    }
  }

  lemma FirstPage(body: Bytes, take: nat)
    requires take == if |body| <= BODY_CAP - LEN_PREFIX then |body| else BODY_CAP - LEN_PREFIX
    ensures 1 <= PageCount(Prefixed(body)) && Chunk(Prefixed(body), 0) == Le(|body|, LEN_PREFIX) + body[..take]
    ensures take == |body| <==> PageCount(Prefixed(body)) == 1
  {
    hide Le;
    PrefixCut(Le(|body|, LEN_PREFIX), body, take);
  }

  lemma PrefixCut(prefix: Bytes, body: Bytes, take: nat)
    requires take <= |body|
    ensures (prefix + body)[..|prefix| + take] == prefix + body[..take]
  {}

  lemma LaterPage(body: Bytes, cursor: nat, n: nat, take: nat)
    requires cursor < |body| && n >= 1 && cursor + LEN_PREFIX == n * BODY_CAP
    requires take == if |body| - cursor <= BODY_CAP then |body| - cursor else BODY_CAP
    ensures n < PageCount(Prefixed(body)) && Chunk(Prefixed(body), n) == body[cursor..cursor + take]
    ensures cursor + take == |body| <==> PageCount(Prefixed(body)) == n + 1
  {
    var content := Prefixed(body);
    assert content[n * BODY_CAP..] == body[cursor..];
    if (n + 1) * BODY_CAP <= |content| { assert content[n * BODY_CAP..(n + 1) * BODY_CAP] == body[cursor..cursor + BODY_CAP]; }
  }

  /** Write a blob; the file is the block file of the prefixed bytes. */
  method WritePaged(f: Format, body: Bytes) returns (file: Bytes)
    ensures file == FileOf(f, Prefixed(body))
  {
    hide BuildPage, Chunk, PageCount;
    var pages := Paginate(f, body);
    file := [];
    for i := 0 to |pages|
      invariant file == FirstBlocks(f, Prefixed(body), i)
    {
      file := file + f.codec.seal(i, pages[i]);
    }
  }

  /** One page with its header. */
  function OpenPage(f: Format, file: Bytes, i: nat): Result<(PageHeader, Bytes), PageError>
    requires CodecOk(f.codec) && i < |file| / f.codec.blockSize
  {
    BlockInFile(file, f.codec.blockSize, i);
    match f.codec.open(i, file[i * f.codec.blockSize..i * f.codec.blockSize + f.codec.blockSize])
    case None => Err(Unauthentic)
    case Some(page) => ParsePage(f.codec, page, f.pageType)
  }

  lemma WrittenHeader(f: Format, content: Bytes, i: nat)
    requires FormatOk(f) && Word64(|content|) && i < PageCount(content)
    ensures |FileOf(f, content)| / f.codec.blockSize == PageCount(content)
    ensures OpenPage(f, FileOf(f, content), i) == Ok((PageHeader(f.pageType, i, f.stamp, |Chunk(content, i)|), Chunk(content, i)))
  {
    hide FirstBlocks, BuildPage, ParsePage;
    var n, size := PageCount(content), f.codec.blockSize;
    BlocksLength(f, content, n);
    WholeBlocks(n, size);
    BlockSlice(f, content, n, i, i * size);
    PageRoundTrip(f.codec, f.pageType, i, f.stamp, Chunk(content, i));
  }

  /** The content of the first `n` pages. */
  function Upto(content: Bytes, n: nat): Bytes { if n * BODY_CAP <= |content| then content[..n * BODY_CAP] else content }

  /** The blob read so far, past the length. */
  function Tail(content: Bytes, n: nat): Bytes { if LEN_PREFIX <= |Upto(content, n)| then Upto(content, n)[LEN_PREFIX..] else [] }

  lemma TailNext(content: Bytes, i: nat)
    requires |content| >= LEN_PREFIX && i < PageCount(content)
    ensures i > 0 ==> Tail(content, i + 1) == Tail(content, i) + Chunk(content, i)
    ensures i == 0 ==> |Chunk(content, 0)| >= LEN_PREFIX && Tail(content, 1) == Chunk(content, 0)[LEN_PREFIX..]
  {
    if i > 0 { assert Upto(content, i + 1) == Upto(content, i) + Chunk(content, i); }
  }

  /** Read a paged file, checking every page and its position. */
  method ReadPaged(f: Format, file: Bytes, ghost body: Bytes) returns (r: Result<Bytes, PageError>)
    requires FormatOk(f)
    ensures Word64(|body| + LEN_PREFIX) && file == FileOf(f, Prefixed(body)) ==> r == Ok(body)
  {
    hide FirstBlocks, OpenPage, Chunk, PageCount, Le, FromLe, Tail;
    ghost var content := Prefixed(body);
    ghost var written := Word64(|content|) && file == FileOf(f, content);
    var size := f.codec.blockSize;
    if written { PagedShape(f, body); }
    if file == [] || |file| % size != 0 { return Err(MalformedPage); }
    var acc: Bytes, total: Option<nat> := [], None;
    var n := |file| / size;
    for i := 0 to n
      invariant written ==> total == if i == 0 then None else Some(|body|)
      invariant written ==> acc == if i == 0 then [] else Tail(content, i)
    {
      var page := OpenPage(f, file, i);
      if written {
        WrittenHeader(f, content, i);
        TailNext(content, i);
        if i == 0 { FirstPageReads(body); }
      }
      if page.Err? { return Err(page.error); }
      var (header, live) := page.value;
      if header.pageId != i { return Err(MalformedPage); }
      if i == 0 {
        if |live| < LEN_PREFIX { return Err(MalformedPage); }
        total := Some(FromLe(live[..LEN_PREFIX]));
        acc := acc + live[LEN_PREFIX..];
      } else {
        acc := acc + live;
      }
    }
    if total.None? { return Err(MalformedPage); }
    if written { WholeTail(body); }
    if |acc| < total.value { return Err(MalformedPage); }
    return Ok(acc[..total.value]);
  }

  lemma PagedShape(f: Format, body: Bytes)
    requires FormatOk(f)
    ensures var file, size := FileOf(f, Prefixed(body)), f.codec.blockSize;
      && file != [] && |file| % size == 0 && |file| / size == PageCount(Prefixed(body)) > 0
  {
    hide FirstBlocks;
    var n, size := PageCount(Prefixed(body)), f.codec.blockSize;
    BlocksLength(f, Prefixed(body), n);
    WholeBlocks(n, size);
  }

  lemma FirstPageReads(body: Bytes)
    requires Word64(|body|)
    ensures 0 < PageCount(Prefixed(body))
    ensures var c := Chunk(Prefixed(body), 0);
      |c| >= LEN_PREFIX && FromLe(c[..LEN_PREFIX]) == |body|
  {
    hide Le, FromLe;
    var c := Chunk(Prefixed(body), 0);
    assert c[..LEN_PREFIX] == Le(|body|, LEN_PREFIX);
    Ranges();
    LeRoundTrip(|body|, LEN_PREFIX);
  }

  lemma WholeTail(body: Bytes)
    ensures Tail(Prefixed(body), PageCount(Prefixed(body))) == body == body[..|body|]
  {
    hide Le;
    var content := Prefixed(body);
    assert Upto(content, PageCount(content)) == content;
  }
}
