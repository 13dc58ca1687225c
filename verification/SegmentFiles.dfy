/** A sealed segment's files: packed columns and a row directory, written at once or
    streamed row by row, and read back row by row
    (crates/quiver-core/src/segment.rs). */
module SegmentFiles {
  import opened ByteStrings
  import opened Words
  import opened Pages
  import opened Blocks
  import opened PagedBlobs
  import opened KeyOrder
  import Segments

  datatype SealRow = SealRow(id: Bytes, vector: Bytes, payload: Bytes)

  datatype RowEntry = RowEntry(idOff: nat, idLen: nat, payOff: nat, payLen: nat)

  datatype SegmentDir = SegmentDir(segmentId: nat, rows: seq<RowEntry>, sortedRows: seq<nat>)

  /** The directory's own encoding. */
  datatype DirCodec = DirCodec(encode: SegmentDir -> Bytes, decode: Bytes -> Option<SegmentDir>)

  ghost predicate DirCodecOk(d: DirCodec) { forall dir :: d.decode(d.encode(dir)) == Some(dir) }

  datatype Files = Files(vec: Bytes, pay: Bytes, ids: Bytes, dir: Bytes)

  // ---- columns -------------------------------------------------------------

  function Concat(parts: seq<Bytes>): Bytes {
    if parts == [] then [] else Concat(parts[..|parts| - 1]) + parts[|parts| - 1]
  }

  function Ids(rows: seq<SealRow>): (r: seq<Bytes>)
    ensures |r| == |rows| && forall i :: 0 <= i < |r| ==> r[i] == rows[i].id
  {
    seq(|rows|, i requires 0 <= i < |rows| => rows[i].id)
  }

  function Vectors(rows: seq<SealRow>): (r: seq<Bytes>)
    ensures |r| == |rows| && forall i :: 0 <= i < |r| ==> r[i] == rows[i].vector
  {
    seq(|rows|, i requires 0 <= i < |rows| => rows[i].vector)
  }

  function Payloads(rows: seq<SealRow>): (r: seq<Bytes>)
    ensures |r| == |rows| && forall i :: 0 <= i < |r| ==> r[i] == rows[i].payload
  {
    seq(|rows|, i requires 0 <= i < |rows| => rows[i].payload)
  }

  /** Where each row's id and payload lie in their columns. */
  function EntryOf(rows: seq<SealRow>, i: nat): RowEntry
    requires i < |rows|
  {
    RowEntry(|Concat(Ids(rows)[..i])|, |rows[i].id|, |Concat(Payloads(rows)[..i])|, |rows[i].payload|)
  }

  function Entries(rows: seq<SealRow>): (es: seq<RowEntry>)
    ensures |es| == |rows| && forall i :: 0 <= i < |es| ==> es[i] == EntryOf(rows, i)
  {
    seq(|rows|, i requires 0 <= i < |rows| => EntryOf(rows, i))
  }

  /** The files that hold the rows in order. */
  ghost predicate Holds(f: Format, dc: DirCodec, files: Files, rows: seq<SealRow>) {
    && files.vec == FileOf(f, Concat(Vectors(rows)))
    && files.pay == FileOf(f, Concat(Payloads(rows)))
    && files.ids == FileOf(f, Concat(Ids(rows)))
    && exists order :: Segments.ForwardIndex(Ids(rows), order) &&
         files.dir == FileOf(f, Prefixed(dc.encode(SegmentDir(f.stamp, Entries(rows), order))))
  }

  // ---- writing -------------------------------------------------------------

  lemma NextRow(rows: seq<SealRow>, i: nat)
    requires i < |rows|
    ensures Concat(Ids(rows[..i + 1])) == Concat(Ids(rows[..i])) + rows[i].id
    ensures Concat(Vectors(rows[..i + 1])) == Concat(Vectors(rows[..i])) + rows[i].vector
    ensures Concat(Payloads(rows[..i + 1])) == Concat(Payloads(rows[..i])) + rows[i].payload
    ensures EntryOf(rows, i) == RowEntry(|Concat(Ids(rows[..i]))|, |rows[i].id|, |Concat(Payloads(rows[..i]))|, |rows[i].payload|)
  {
    assert Ids(rows[..i + 1])[..i] == Ids(rows[..i]) == Ids(rows)[..i];
    assert Vectors(rows[..i + 1])[..i] == Vectors(rows[..i]);
    assert Payloads(rows[..i + 1])[..i] == Payloads(rows[..i]) == Payloads(rows)[..i];
  }

  /** Assemble every column in memory, then write the files. */
  method WriteSegment(f: Format, dc: DirCodec, rows: seq<SealRow>) returns (files: Files)
    requires Segments.Distinct(Ids(rows))
    ensures Holds(f, dc, files, rows)
  {
    hide Concat, FileOf, Segments.ForwardIndex;
    var vecBlob: Bytes, payBlob: Bytes, idBlob: Bytes, entries: seq<RowEntry> := [], [], [], [];
    NoRows(rows);
    for i := 0 to |rows|
      invariant vecBlob == Concat(Vectors(rows[..i])) && payBlob == Concat(Payloads(rows[..i])) && idBlob == Concat(Ids(rows[..i]))
      invariant entries == Entries(rows)[..i]
    {
      NextRow(rows, i);
      entries := entries + [RowEntry(|idBlob|, |rows[i].id|, |payBlob|, |rows[i].payload|)];
      vecBlob := vecBlob + rows[i].vector;
      payBlob := payBlob + rows[i].payload;
      idBlob := idBlob + rows[i].id;
    }
    assert rows[..|rows|] == rows && Entries(rows)[..|rows|] == Entries(rows);
    var order := Segments.SortedRowsById(Ids(rows));
    var vec := WriteBlocks(f, vecBlob);
    var pay := WriteBlocks(f, payBlob);
    var ids := WriteBlocks(f, idBlob);
    var dir := WritePaged(f, dc.encode(SegmentDir(f.stamp, entries, order)));
    files := Files(vec, pay, ids, dir);
  }

  lemma NoRows(rows: seq<SealRow>)
    ensures Concat(Vectors(rows[..0])) == Concat(Payloads(rows[..0])) == Concat(Ids(rows[..0])) == []
  {}

  /** Stream the rows: one page of each column in memory, running offsets. */
  method WriteSegmentStreaming(f: Format, dc: DirCodec, rows: seq<SealRow>) returns (files: Files)
    requires Segments.Distinct(Ids(rows))
    ensures Holds(f, dc, files, rows)
  {
    hide Concat, FileOf, FirstBlocks, Segments.ForwardIndex;
    var vec := new BlockWriter(f);
    var pay := new BlockWriter(f);
    var ids := new BlockWriter(f);
    var entries: seq<RowEntry> := [];
    var payOff, idOff, i := 0, 0, 0;
    NoRows(rows);
    while i < |rows|
      invariant i <= |rows| && vec.Valid() && pay.Valid() && ids.Valid()
      invariant vec.content == Concat(Vectors(rows[..i])) && pay.content == Concat(Payloads(rows[..i])) && ids.content == Concat(Ids(rows[..i]))
      invariant payOff == |pay.content| && idOff == |ids.content|
      invariant entries == Entries(rows)[..i]
      modifies vec, pay, ids
    {
      NextRow(rows, i);
      vec.Write(rows[i].vector);
      pay.Write(rows[i].payload);
      ids.Write(rows[i].id);
      entries := entries + [RowEntry(idOff, |rows[i].id|, payOff, |rows[i].payload|)];
      payOff := payOff + |rows[i].payload|;
      idOff := idOff + |rows[i].id|;
      i := i + 1;
    }
    assert rows[..|rows|] == rows && Entries(rows)[..|rows|] == Entries(rows);
    vec.Finish();
    pay.Finish();
    ids.Finish();
    var order := Segments.SortedRowsById(Ids(rows));
    var dir := WritePaged(f, dc.encode(SegmentDir(f.stamp, entries, order)));
    files := Files(vec.file, pay.file, ids.file, dir);
  }

  /** Two orders of the same rows agree row by row. */
  lemma {:induction false} OrdersAgree(ids: seq<Bytes>, a: seq<nat>, b: seq<nat>, k: nat)
    requires Segments.Distinct(ids) && Segments.ForwardIndex(ids, a) && Segments.ForwardIndex(ids, b) && k <= |a|
    ensures k <= |b| && a[..k] == b[..k]
  {
    if k > 0 {
      var n := k - 1;
      OrdersAgree(ids, a, b, n);
      var m := IndexAfter(ids, a, b, n);
      var m' := IndexAfter(ids, b, a, n);
      if m > n && m' > n {
        LessAsymmetric(ids[b[n]], ids[a[n]]);
      }
    }
  }

  /** The next row of one order lies no earlier in the other. */
  lemma IndexAfter(ids: seq<Bytes>, a: seq<nat>, b: seq<nat>, n: nat) returns (m: nat)
    requires Segments.ForwardIndex(ids, a) && Segments.ForwardIndex(ids, b)
    requires n < |a| && n <= |b| && a[..n] == b[..n]
    ensures n <= m < |b| && b[m] == a[n]
  {
    assert a[n] in b;
    m :| 0 <= m < |b| && b[m] == a[n];
    if m < n {
      assert a[m] == a[..n][m] == b[..n][m] == a[n];
      LessIrreflexive(ids[a[n]]);
    }
  }

  lemma OrderUnique(ids: seq<Bytes>, a: seq<nat>, b: seq<nat>)
    requires Segments.Distinct(ids) && Segments.ForwardIndex(ids, a) && Segments.ForwardIndex(ids, b)
    ensures a == b
  {
    OrdersAgree(ids, a, b, |a|);
    OrdersAgree(ids, b, a, |b|);
    assert a[..|a|] == a && b[..|b|] == b;
  }

  /** However a segment is written, its files are the same. */
  lemma WritersAgree(f: Format, dc: DirCodec, x: Files, y: Files, rows: seq<SealRow>)
    requires Segments.Distinct(Ids(rows)) && Holds(f, dc, x, rows) && Holds(f, dc, y, rows)
    ensures x == y
  {
    hide FileOf, Concat, Segments.ForwardIndex, Segments.Distinct;
    var a :| Segments.ForwardIndex(Ids(rows), a) && x.dir == FileOf(f, Prefixed(dc.encode(SegmentDir(f.stamp, Entries(rows), a))));
    var b :| Segments.ForwardIndex(Ids(rows), b) && y.dir == FileOf(f, Prefixed(dc.encode(SegmentDir(f.stamp, Entries(rows), b))));
    OrderUnique(Ids(rows), a, b);
  }

  // ---- reading back --------------------------------------------------------

  /** A part lies where the parts before it end. */
  lemma {:induction false} PartSlice(parts: seq<Bytes>, i: nat)
    requires i < |parts|
    ensures |Concat(parts[..i])| + |parts[i]| <= |Concat(parts)|
    ensures Concat(parts)[|Concat(parts[..i])|..|Concat(parts[..i])| + |parts[i]|] == parts[i]
  {
    var n := |parts| - 1;
    if i < n {
      PartSlice(parts[..n], i);
      assert parts[..n][..i] == parts[..i];
    }
  }

  /** Rows of equal length lie at multiples of the stride. */
  lemma {:induction false} StrideOffset(parts: seq<Bytes>, stride: nat)
    requires forall i :: 0 <= i < |parts| ==> |parts[i]| == stride
    ensures |Concat(parts)| == |parts| * stride
  {
    if parts != [] {
      StrideOffset(parts[..|parts| - 1], stride);
      MulStep(|parts|, stride);
    }
  }

  /** Open the row directory. */
  method OpenDir(f: Format, dc: DirCodec, files: Files, ghost rows: seq<SealRow>) returns (r: Result<SegmentDir, PageError>)
    requires FormatOk(f) && DirCodecOk(dc) && Holds(f, dc, files, rows)
    requires forall order :: Segments.ForwardIndex(Ids(rows), order) ==>
      Word64(|dc.encode(SegmentDir(f.stamp, Entries(rows), order))| + LEN_PREFIX)
    ensures r.Ok? && r.value.rows == Entries(rows) && Segments.ForwardIndex(Ids(rows), r.value.sortedRows)
  {
    hide FileOf, Concat, Segments.ForwardIndex;
    ghost var order :| Segments.ForwardIndex(Ids(rows), order) && files.dir == FileOf(f, Prefixed(dc.encode(SegmentDir(f.stamp, Entries(rows), order))));
    var blob := ReadPaged(f, files.dir, dc.encode(SegmentDir(f.stamp, Entries(rows), order)));
    match dc.decode(blob.value) {
      case None => return Err(MalformedPage);
      case Some(dir) => return Ok(dir);
    }
  }

  method ReadId(f: Format, files: Files, dir: SegmentDir, row: nat, ghost rows: seq<SealRow>) returns (r: Result<Bytes, PageError>)
    requires FormatOk(f) && files.ids == FileOf(f, Concat(Ids(rows))) && dir.rows == Entries(rows) && Word64(|Concat(Ids(rows))|)
    ensures r == if row < |rows| then Ok(rows[row].id) else Err(MalformedPage)
  {
    hide FileOf;
    if row >= |dir.rows| { return Err(MalformedPage); }
    PartSlice(Ids(rows), row);
    r := ReadRange(f, files.ids, dir.rows[row].idOff, dir.rows[row].idLen, Concat(Ids(rows)));
  }

  method ReadPayload(f: Format, files: Files, dir: SegmentDir, row: nat, ghost rows: seq<SealRow>) returns (r: Result<Bytes, PageError>)
    requires FormatOk(f) && files.pay == FileOf(f, Concat(Payloads(rows))) && dir.rows == Entries(rows) && Word64(|Concat(Payloads(rows))|)
    ensures r == if row < |rows| then Ok(rows[row].payload) else Err(MalformedPage)
  {
    hide FileOf;
    if row >= |dir.rows| { return Err(MalformedPage); }
    PartSlice(Payloads(rows), row);
    r := ReadRange(f, files.pay, dir.rows[row].payOff, dir.rows[row].payLen, Concat(Payloads(rows)));
  }

  method ReadVector(f: Format, files: Files, row: nat, stride: nat, ghost rows: seq<SealRow>) returns (r: Result<Bytes, PageError>)
    requires FormatOk(f) && files.vec == FileOf(f, Concat(Vectors(rows))) && Word64(|Concat(Vectors(rows))|)
    requires forall i :: 0 <= i < |rows| ==> |rows[i].vector| == stride
    ensures r == if stride == 0 then Ok([]) else if row < |rows| then Ok(rows[row].vector) else Err(MalformedPage)
  {
    hide FileOf;
    if row < |rows| {
      PartSlice(Vectors(rows), row);
      StrideOffset(Vectors(rows)[..row], stride);
    } else {
      StrideOffset(Vectors(rows), stride);
      PastEnd(|rows|, row, stride);
    }
    r := ReadRange(f, files.vec, row * stride, stride, Concat(Vectors(rows)));
  }

  lemma PastEnd(n: nat, row: nat, stride: nat)
    requires n <= row
    ensures n * stride <= row * stride
  {}

  /** The row carrying `id`: range rejection, then a binary search of the forward index that
      reads each candidate's id from the file to compare. */
  method Lookup(f: Format, files: Files, dir: SegmentDir, id: Bytes, ghost rows: seq<SealRow>) returns (r: Result<Option<nat>, PageError>)
    requires FormatOk(f) && files.ids == FileOf(f, Concat(Ids(rows))) && dir.rows == Entries(rows) && Word64(|Concat(Ids(rows))|)
    requires Segments.Distinct(Ids(rows)) && Segments.ForwardIndex(Ids(rows), dir.sortedRows)
    ensures r == Ok(Position(Ids(rows), id))
  {
    hide FileOf, Concat, Entries, Position;
    ghost var ids := Ids(rows);
    var n := |dir.sortedRows|;
    if n == 0 {
      assert ids != [] ==> 0 in dir.sortedRows;
      return Ok(None);
    }
    var min := ReadId(f, files, dir, dir.sortedRows[0], rows);
    var max := ReadId(f, files, dir, dir.sortedRows[n - 1], rows);
    if Less(id, min.value) || Less(max.value, id) {
      OutsideRange(ids, dir.sortedRows, id);
      return Ok(None);
    }
    var lo, hi := 0, n;
    while lo < hi
      invariant 0 <= lo <= hi <= n
      invariant forall i :: 0 <= i < lo ==> Less(ids[dir.sortedRows[i]], id)
      invariant forall i :: hi <= i < n ==> Less(id, ids[dir.sortedRows[i]])
    {
      var mid := lo + (hi - lo) / 2;
      var row := dir.sortedRows[mid];
      var candidate := ReadId(f, files, dir, row, rows);
      LessTotal(candidate.value, id);
      if Less(candidate.value, id) {
        forall i | 0 <= i < mid ensures Less(ids[dir.sortedRows[i]], id) { LessTransitive(ids[dir.sortedRows[i]], ids[row], id); }
        lo := mid + 1;
      } else if Less(id, candidate.value) {
        forall i | mid < i < n ensures Less(id, ids[dir.sortedRows[i]]) { LessTransitive(id, ids[row], ids[dir.sortedRows[i]]); }
        hi := mid;
      } else {
        assert Position(ids, id).Some?;
        return Ok(Some(row));
      }
    }
    NotThere(ids, dir.sortedRows, id, lo);
    return Ok(None);
  }

  lemma OutsideRange(ids: seq<Bytes>, order: seq<nat>, id: Bytes)
    requires Segments.ForwardIndex(ids, order) && order != []
    requires Less(id, ids[order[0]]) || Less(ids[order[|order| - 1]], id)
    ensures id !in ids && Position(ids, id).None?
  {
    forall r | 0 <= r < |ids| ensures ids[r] != id {
      assert r in order;
      var i :| 0 <= i < |order| && order[i] == r;
      LessIrreflexive(id);
      if ids[r] == id && i > 0 { LessAsymmetric(ids[order[0]], id); }
      if ids[r] == id && i < |order| - 1 { LessAsymmetric(id, ids[order[|order| - 1]]); }
    }
  }

  lemma NotThere(ids: seq<Bytes>, order: seq<nat>, id: Bytes, cut: nat)
    requires Segments.ForwardIndex(ids, order) && cut <= |order|
    requires (forall i :: 0 <= i < cut ==> Less(ids[order[i]], id)) && (forall i :: cut <= i < |order| ==> Less(id, ids[order[i]]))
    ensures Position(ids, id).None?
  {
    LessIrreflexive(id);
    forall r | 0 <= r < |ids| ensures ids[r] != id { assert r in order; }
  }
}
