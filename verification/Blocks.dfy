/** Block files: a byte blob packed tightly across sealed pages
    (crates/quiver-core/src/blockfile.rs). */
module Blocks {
  import opened ByteStrings
  import opened Words
  import opened Pages

  /** How the pages of one file are made. */
  datatype Format = Format(codec: PageCodec, pageType: PageType, stamp: nat)

  ghost predicate FormatOk(f: Format) { CodecOk(f.codec) && Word64(f.stamp) }

  // ---- layout --------------------------------------------------------------

  function PageCount(content: Bytes): nat { (|content| + BODY_CAP - 1) / BODY_CAP }

  /** The live bytes of page `i`: every page but the last is full. */
  function Chunk(content: Bytes, i: nat): (c: Bytes)
    requires i < PageCount(content)
    ensures 0 < |c| <= BODY_CAP
  {
    if (i + 1) * BODY_CAP <= |content| then content[i * BODY_CAP..(i + 1) * BODY_CAP] else content[i * BODY_CAP..]
  }

  function Block(f: Format, i: nat, chunk: Bytes): Bytes
    requires |chunk| <= BODY_CAP
  {
    f.codec.seal(i, BuildPage(f.codec, f.pageType, i, f.stamp, chunk).value)
  }

  /** The first `n` blocks of the file that holds `content`. */
  function FirstBlocks(f: Format, content: Bytes, n: nat): Bytes
    requires n <= PageCount(content)
  {
    if n == 0 then [] else FirstBlocks(f, content, n - 1) + Block(f, n - 1, Chunk(content, n - 1))
  }

  /** The file that holds `content`. */
  function FileOf(f: Format, content: Bytes): Bytes { FirstBlocks(f, content, PageCount(content)) }

  /** Full pages do not depend on what follows them. */
  lemma {:induction false} FullPagesStay(f: Format, content: Bytes, more: Bytes, n: nat)
    requires n * BODY_CAP <= |content|
    ensures n <= PageCount(content) && n <= PageCount(content + more)
    ensures FirstBlocks(f, content + more, n) == FirstBlocks(f, content, n)
  {
    if n > 0 {
      FullPagesStay(f, content, more, n - 1);
      assert Chunk(content + more, n - 1) == Chunk(content, n - 1);
    }
  }

  lemma PageCountIs(content: Bytes, n: nat)
    requires n * BODY_CAP <= |content| < (n + 1) * BODY_CAP
    ensures PageCount(content) == if |content| == n * BODY_CAP then n else n + 1
    ensures |content| > n * BODY_CAP ==> Chunk(content, n) == content[n * BODY_CAP..]
  {}

  // ---- writing -------------------------------------------------------------

  class BlockWriter {
    const format: Format
    var file: Bytes
    var pageId: nat
    var body: Bytes
    ghost var content: Bytes // everything written so far

    ghost predicate Valid()
      reads this
    {
      && pageId * BODY_CAP <= |content| < (pageId + 1) * BODY_CAP
      && pageId <= PageCount(content)
      && file == FirstBlocks(format, content, pageId)
      && body == content[pageId * BODY_CAP..]
    }

    constructor (format: Format)
      ensures Valid() && content == [] && this.format == format
    {
      this.format := format;
      file, pageId, body, content := [], 0, [], [];
    }

    /** Seal the page being filled. */
    method FlushPage()
      requires |body| <= BODY_CAP
      modifies this`file, this`pageId, this`body
      ensures file == old(file) + Block(format, old(pageId), old(body)) && pageId == old(pageId) + 1 && body == []
    {
      var page := BuildPage(format.codec, format.pageType, pageId, format.stamp, body).value;
      file := file + format.codec.seal(pageId, page);
      pageId := pageId + 1;
      body := [];
    }

    /** Append bytes, sealing whole pages as they fill. */
    method Write(bytes: Bytes)
      requires Valid()
      modifies this
      ensures Valid() && content == old(content) + bytes
    {
      hide FirstBlocks, Block, Chunk;
      var rest := bytes;
      while rest != []
        invariant Valid() && content + rest == old(content) + bytes
        decreases |rest|
      {
        var take := if BODY_CAP - |body| <= |rest| then BODY_CAP - |body| else |rest|;
        var part := rest[..take];
        FullPagesStay(format, content, part, pageId);
        PartTaken(content, rest, take, pageId * BODY_CAP);
        body := body + part;
        content := content + part;
        rest := rest[take..];
        if |body| == BODY_CAP {
          PageFilled(format, content, pageId);
          FlushPage();
        }
      }
    }

    /** Seal the trailing partial page: the file depends on the bytes alone, however
        they were split across writes. */
    method Finish()
      requires Valid()
      modifies this`file, this`pageId, this`body
      ensures file == FileOf(format, content)
    {
      hide Block, Chunk, PageCount;
      PageCountIs(content, pageId);
      if body != [] { FlushPage(); }
    }
  }

  lemma PartTaken(content: Bytes, rest: Bytes, take: nat, at: nat)
    requires take <= |rest| && at <= |content|
    ensures (content + rest[..take]) + rest[take..] == content + rest
    ensures content[at..] + rest[..take] == (content + rest[..take])[at..]
  {}

  lemma PageFilled(f: Format, content: Bytes, n: nat)
    requires |content| == (n + 1) * BODY_CAP
    ensures n + 1 <= PageCount(content) && Chunk(content, n) == content[n * BODY_CAP..]
    ensures FirstBlocks(f, content, n + 1) == FirstBlocks(f, content, n) + Block(f, n, content[n * BODY_CAP..])
  {}

  method WriteBlocks(f: Format, content: Bytes) returns (file: Bytes)
    ensures file == FileOf(f, content)
  {
    var w := new BlockWriter(f);
    w.Write(content);
    assert w.content == content;
    w.Finish();
    file := w.file;
  }

  // ---- reading -------------------------------------------------------------

  /** The live body of one page, decrypted and checked. */
  function PageBody(f: Format, file: Bytes, i: nat): Result<Bytes, PageError>
    requires CodecOk(f.codec)
  {
    var size := f.codec.blockSize;
    if |file| == 0 || |file| % size != 0 || i >= |file| / size then Err(MalformedPage)
    else
      BlockInFile(file, size, i);
      match f.codec.open(i, file[i * size..i * size + size])
      case None => Err(Unauthentic)
      case Some(page) =>
        match ParsePage(f.codec, page, f.pageType)
        case Err(e) => Err(e)
        case Ok((_, body)) => Ok(body)
  }

  lemma BlockInFile(file: Bytes, size: nat, i: nat)
    requires size > 0 && i < |file| / size
    ensures i * size + size <= |file|
  {
    var n := |file| / size;
    assert n * size <= |file|;
    assert (i + 1) * size <= n * size;
  }

  lemma MulStep(n: nat, size: nat)
    requires n > 0
    ensures n * size == (n - 1) * size + size
  {}

  lemma BlockLength(f: Format, i: nat, chunk: Bytes)
    requires FormatOk(f) && |chunk| <= BODY_CAP
    ensures |Block(f, i, chunk)| == f.codec.blockSize
  {}

  lemma {:induction false} BlocksLength(f: Format, content: Bytes, n: nat)
    requires FormatOk(f) && n <= PageCount(content)
    ensures |FirstBlocks(f, content, n)| == n * f.codec.blockSize
  {
    hide Block, Chunk, PageCount, CodecOk;
    if n > 0 {
      BlocksLength(f, content, n - 1);
      BlockLength(f, n - 1, Chunk(content, n - 1));
      MulStep(n, f.codec.blockSize);
    }
  }

  /** Block `i` of the file starts at `i` times the block size. */
  lemma {:induction false} BlockSlice(f: Format, content: Bytes, n: nat, i: nat, at: nat)
    requires FormatOk(f) && i < n <= PageCount(content) && at == i * f.codec.blockSize
    ensures at + f.codec.blockSize <= |FirstBlocks(f, content, n)|
    ensures FirstBlocks(f, content, n)[at..at + f.codec.blockSize] == Block(f, i, Chunk(content, i))
  {
    hide Block, Chunk, PageCount, CodecOk;
    BlocksLength(f, content, n - 1);
    BlockLength(f, n - 1, Chunk(content, n - 1));
    if i < n - 1 { BlockSlice(f, content, n - 1, i, at); }
  }

  /** Page `i` of a written file is its chunk of the content. */
  lemma WrittenPage(f: Format, content: Bytes, i: nat)
    requires FormatOk(f) && Word64(|content|)
    ensures PageBody(f, FileOf(f, content), i) == if i < PageCount(content) then Ok(Chunk(content, i)) else Err(MalformedPage)
  {
    hide FirstBlocks, BuildPage, ParsePage;
    var n, size := PageCount(content), f.codec.blockSize;
    BlocksLength(f, content, n);
    WholeBlocks(n, size);
    if i < n {
      BlockSlice(f, content, n, i, i * size);
      PageRoundTrip(f.codec, f.pageType, i, f.stamp, Chunk(content, i));
    }
  }

  lemma WholeBlocks(n: nat, size: nat)
    requires size > 0
    ensures (n * size) % size == 0 && (n * size) / size == n && (n * size == 0 <==> n == 0)
  {
    var q, r := (n * size) / size, (n * size) % size;
    assert n * size == q * size + r;
    if n > q {
      Apart(n, q, size);
    } else if n < q {
      Apart(q, n, size);
    }
    if n > 0 { Apart(n, 0, size); }
  }

  lemma {:induction false} Apart(a: nat, b: nat, size: nat)
    requires a > b
    ensures a * size >= b * size + size
  {
    MulStep(a, size);
    if a - 1 > b { Apart(a - 1, b, size); }
  }

  /** What a range read of a written file must return. */
  function Wanted(content: Bytes, off: nat, len: nat): Result<Bytes, PageError> {
    if len == 0 then Ok([])
    else if off + len <= |content| then Ok(content[off..off + len])
    else Err(MalformedPage)
  }

  /** Where a logical offset falls. */
  lemma ChunkAt(content: Bytes, pos: nat)
    ensures pos < |content| ==>
      var page, intra := pos / BODY_CAP, pos % BODY_CAP;
      && page < PageCount(content) && intra < |Chunk(content, page)|
      && pos + (|Chunk(content, page)| - intra) <= |content|
      && Chunk(content, page)[intra..] == content[pos..pos + (|Chunk(content, page)| - intra)]
    ensures pos >= |content| && pos / BODY_CAP < PageCount(content) ==> pos % BODY_CAP >= |Chunk(content, pos / BODY_CAP)|
  {}

  lemma TakeSlice(content: Bytes, body: Bytes, pos: nat, intra: nat, take: nat)
    requires intra + take <= |body| && pos + (|body| - intra) <= |content| && body[intra..] == content[pos..pos + (|body| - intra)]
    ensures body[intra..intra + take] == content[pos..pos + take]
  {
    assert body[intra..intra + take] == body[intra..][..take];
  }

  lemma Continued(content: Bytes, before: Bytes, after: Bytes, off: nat, pos: nat, take: nat)
    requires off <= pos && pos + take <= |content| && after == before + content[pos..pos + take]
    requires if before == [] then pos == off else before == content[off..pos]
    ensures after == content[off..pos + take]
  {
    if before == [] { assert content[off..pos] == []; }
  }

  /** Read a logical range page by page: the exact slice or an error, never a short read. */
  method ReadRange(f: Format, file: Bytes, off: nat, len: nat, ghost content: Bytes) returns (r: Result<Bytes, PageError>)
    requires FormatOk(f)
    ensures r.Ok? ==> |r.value| == len
    ensures Word64(|content|) && file == FileOf(f, content) ==> r == Wanted(content, off, len)
  {
    hide FirstBlocks, PageBody, Chunk, PageCount;
    ghost var written := Word64(|content|) && file == FileOf(f, content);
    var out: Bytes := [];
    var pos: nat, remaining: nat := off, len;
    while remaining > 0
      invariant |out| + remaining == len && pos == off + |out|
      invariant written && out != [] ==> pos <= |content| && out == content[off..pos]
      decreases remaining
    {
      var page, intra := pos / BODY_CAP, pos % BODY_CAP;
      var body := PageBody(f, file, page);
      if written {
        WrittenPage(f, content, page);
        ChunkAt(content, pos);
      }
      if body.Err? { return Err(body.error); }
      if intra >= |body.value| { return Err(MalformedPage); }
      var take := if remaining <= |body.value| - intra then remaining else |body.value| - intra;
      if written && pos < |content| { TakeSlice(content, body.value, pos, intra, take); }
      ghost var before := out;
      out := out + body.value[intra..intra + take];
      if written { Continued(content, before, out, off, pos, take); }
      pos := pos + take;
      remaining := remaining - take;
    }
    return Ok(out);
  }
}
