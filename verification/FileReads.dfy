/** Point reads that go to the bytes of the segment files: the store keeps tombstones and the
    active buffer in memory and fetches ids, vectors and payloads from the files
    (crates/quiver-core/src/store.rs, `get`, `locate`, `record_at`, over
    crates/quiver-core/src/segment.rs). */
module FileReads {
  import opened ByteStrings
  import opened Words
  import opened KeyOrder
  import opened Pages
  import opened Blocks
  import opened Segments
  import opened Collections
  import opened CollectionLayout
  import opened Replay
  import opened Disks
  import opened CollectionStates
  import opened Checkpoints
  import opened Survivors
  import opened Points
  import opened Stores
  import SegmentFiles

  // ---- vectors as bytes ----------------------------------------------------

  function VectorBytes(v: seq<bv32>): (b: Bytes)
    ensures |b| == 4 * |v|
  {
    if v == [] then [] else VectorBytes(v[..|v| - 1]) + Le(v[|v| - 1] as nat, 4)
  }

  lemma {:induction false} WordBound(b: Bytes, width: nat)
    requires |b| == width
    ensures FromLe(b) < Range(width)
    decreases width
  {
    if width > 0 { WordBound(b[1..], width - 1); }
  }

  /** Four bytes to an element, in order. */
  function FromBytes(b: Bytes): seq<bv32>
    requires |b| % 4 == 0
  {
    if b == [] then []
    else
      WordBound(b[|b| - 4..], 4);
      Ranges();
      FromBytes(b[..|b| - 4]) + [FromLe(b[|b| - 4..]) as bv32]
  }

  lemma {:induction false} VectorRoundTrip(v: seq<bv32>)
    ensures FromBytes(VectorBytes(v)) == v
  {
    hide Le, FromLe;
    if v != [] {
      var n := |v| - 1;
      VectorRoundTrip(v[..n]);
      var b, last := VectorBytes(v), Le(v[n] as nat, 4);
      assert b[..|b| - 4] == VectorBytes(v[..n]) && b[|b| - 4..] == last;
      Ranges();
      LeRoundTrip(v[n] as nat, 4);
      assert v == v[..n] + [v[n]];
    }
  }

  // ---- segments as files ---------------------------------------------------

  /** The rows of a segment as the files hold them. */
  function RowBytes(file: SegFile): (rows: seq<SegmentFiles.SealRow>)
    requires |file.ids| == |file.rows|
    ensures |rows| == |file.ids| && SegmentFiles.Ids(rows) == file.ids
    ensures forall i :: 0 <= i < |rows| ==>
      rows[i] == SegmentFiles.SealRow(file.ids[i], VectorBytes(file.rows[i].vector), file.rows[i].payload.raw)
  {
    var rows := seq(|file.ids|, i requires 0 <= i < |file.ids| =>
      SegmentFiles.SealRow(file.ids[i], VectorBytes(file.rows[i].vector), file.rows[i].payload.raw));
    assert SegmentFiles.Ids(rows) == file.ids;
    rows
  }

  /** How the files of each segment are written. */
  datatype Layout = Layout(format: SegKey -> Format, dirs: SegmentFiles.DirCodec)

  ghost predicate LayoutOk(y: Layout) { SegmentFiles.DirCodecOk(y.dirs) && forall key :: FormatOk(y.format(key)) }

  type Blobs = map<SegKey, SegmentFiles.Files>

  /** Every column is below 2^64 bytes, and every vector has the same length. */
  ghost predicate Regular(y: Layout, key: SegKey, file: SegFile, dim: nat)
    requires |file.ids| == |file.rows|
  {
    var rows := RowBytes(file);
    && Word64(|SegmentFiles.Concat(SegmentFiles.Ids(rows))|) && Word64(|SegmentFiles.Concat(SegmentFiles.Vectors(rows))|)
    && Word64(|SegmentFiles.Concat(SegmentFiles.Payloads(rows))|)
    && (forall order :: ForwardIndex(SegmentFiles.Ids(rows), order) ==>
          Word64(|y.dirs.encode(SegmentFiles.SegmentDir(y.format(key).stamp, SegmentFiles.Entries(rows), order))| + SegmentFiles.PagedBlobs.LEN_PREFIX))
    && forall i :: 0 <= i < |file.rows| ==> |file.rows[i].vector| == dim
  }

  /** The files hold the segment. */
  ghost predicate BackedBy(y: Layout, key: SegKey, file: SegFile, dim: nat, files: SegmentFiles.Files) {
    FileShape(file) && Regular(y, key, file, dim) && SegmentFiles.Holds(y.format(key), y.dirs, files, RowBytes(file))
  }

  /** Every segment of a collection is in its files. */
  ghost predicate Backs(y: Layout, blobs: Blobs, cid: nat, segs: seq<Sealed>, dim: nat) {
    forall s :: 0 <= s < |segs| ==>
      var key := SegKey(cid, segs[s].segId);
      key in blobs && BackedBy(y, key, segs[s].file, dim, blobs[key])
  }

  // ---- reading -------------------------------------------------------------

  /** The row of one segment that carries an id. */
  method LookupIn(y: Layout, key: SegKey, files: SegmentFiles.Files, id: Id, ghost file: SegFile, ghost dim: nat)
    returns (dir: SegmentFiles.SegmentDir, r: Option<nat>)
    requires LayoutOk(y) && BackedBy(y, key, file, dim, files)
    ensures dir.rows == SegmentFiles.Entries(RowBytes(file)) && r == Position(file.ids, id)
  {
    hide SegmentFiles.Concat, SegmentFiles.Entries, ForwardIndex, Position;
    var f := y.format(key);
    ghost var rows := RowBytes(file);
    var opening := SegmentFiles.OpenDir(f, y.dirs, files, rows);
    var found := SegmentFiles.Lookup(f, files, opening.value, id, rows);
    return opening.value, found.value;
  }

  /** What a read returns: the vector's elements and the payload's bytes. */
  datatype Record = Record(vector: seq<bv32>, payload: Bytes)

  function RecordOf(row: Row): Record { Record(row.vector, row.payload.raw) }

  lemma RowVectors(file: SegFile, dim: nat)
    requires |file.ids| == |file.rows| && forall i :: 0 <= i < |file.rows| ==> |file.rows[i].vector| == dim
    ensures forall i :: 0 <= i < |RowBytes(file)| ==> |RowBytes(file)[i].vector| == 4 * dim
  {
    hide VectorBytes;
  }

  /** Fetch one row: the vector by its stride, the payload by its directory entry. */
  method ReadRecord(y: Layout, key: SegKey, files: SegmentFiles.Files, dir: SegmentFiles.SegmentDir, row: nat, dim: nat, ghost file: SegFile) returns (r: Record)
    requires LayoutOk(y) && BackedBy(y, key, file, dim, files) && dir.rows == SegmentFiles.Entries(RowBytes(file)) && row < |file.rows|
    ensures r == RecordOf(file.rows[row])
  {
    hide SegmentFiles.Concat, SegmentFiles.Entries, ForwardIndex, FromBytes, VectorBytes, Blocks.FileOf, RowBytes, FormatOk;
    var f := y.format(key);
    ghost var rows := RowBytes(file);
    RowVectors(file, dim);
    var vector := SegmentFiles.ReadVector(f, files, row, 4 * dim, rows);
    var payload := SegmentFiles.ReadPayload(f, files, dir, row, rows);
    VectorRoundTrip(file.rows[row].vector);
    return Record(FromBytes(vector.value), payload.value);
  }

  /** Probe the files newest first; the first that physically holds the id decides. */
  method ProbeFiles(y: Layout, blobs: Blobs, cid: nat, segs: seq<Sealed>, id: Id, dim: nat) returns (hit: Option<Loc>, r: Option<Record>)
    requires LayoutOk(y) && Backs(y, blobs, cid, segs, dim)
    ensures hit == Newest(segs, id)
    ensures r == if hit.None? then None else Some(RecordOf(segs[hit.value.seg].file.rows[hit.value.row]))
  {
    hide BackedBy, RowBytes, Position;
    var s := |segs|;
    assert segs[..s] == segs;
    while s > 0
      invariant 0 <= s <= |segs|
      invariant Newest(segs, id) == Newest(segs[..s], id)
    {
      s := s - 1;
      assert segs[..s + 1][..s] == segs[..s];
      var key := SegKey(cid, segs[s].segId);
      BackedShape(y, key, segs[s].file, dim, blobs[key]);
      var dir, row := LookupIn(y, key, blobs[key], id, segs[s].file, dim);
      if row.Some? {
        var record := ReadRecord(y, key, blobs[key], dir, row.value, dim, segs[s].file);
        return Some(Loc(s, row.value)), Some(record);
      }
    }
    return None, None;
  }

  lemma BackedShape(y: Layout, key: SegKey, file: SegFile, dim: nat, files: SegmentFiles.Files)
    requires BackedBy(y, key, file, dim, files)
    ensures FileShape(file)
  {}

  /** A point read: the buffer first, then the files; a row a tombstone covers is not there. It
      returns what the acknowledged map holds. */
  method GetFromFiles(store: Store, y: Layout, blobs: Blobs, cid: nat, id: Id) returns (r: Result<Option<Record>, Error>)
    requires store.Valid() && LayoutOk(y)
    requires cid in store.collections ==> Backs(y, blobs, cid, store.collections[cid].sealed, store.collections[cid].desc.dim)
    ensures var tables := store.Acknowledged().ledger.tables;
      r == if cid !in tables then Err(NotFound)
           else if id in tables[cid].rows then Ok(Some(RecordOf(tables[cid].rows[id])))
           else Ok(None)
  {
    hide Store.Valid, Store.Linked, CatalogOk, Meaning, Contents, Collections.Valid, Backs, LayoutOk;
    store.ValidFacts();
    store.LinkedHas(cid);
    if cid !in store.collections { return Err(NotFound); }
    var c := store.collections[cid];
    CatalogHas(store.memory, cid);
    LocateIsContents(store.memory.cols[cid], id);
    if id in c.index {
      BufferHas(c.View(), id);
      return Ok(Some(RecordOf(c.active[c.index[id]])));
    }
    var hit, record := ProbeFiles(y, blobs, cid, c.sealed, id, c.desc.dim);
    if hit.None? { return Ok(None); }
    var Loc(seg, row) := hit.value;
    if row in c.sealed[seg].dead || (seg in c.window && row in c.window[seg]) { return Ok(None); }
    return Ok(record);
  }

  lemma BufferHas(c: Coll, id: Id)
    requires CollOk(c) && id in c.index
    ensures c.index[id] < |c.active|
  {}

  // ---- writing -------------------------------------------------------------

  /** Write the files of every segment of a collection. */
  method WriteFiles(y: Layout, cid: nat, segs: seq<Sealed>, ghost dim: nat) returns (blobs: Blobs)
    requires forall s, t :: 0 <= s < t < |segs| ==> segs[s].segId != segs[t].segId
    requires forall s :: 0 <= s < |segs| ==> FileShape(segs[s].file) && Regular(y, SegKey(cid, segs[s].segId), segs[s].file, dim)
    ensures Backs(y, blobs, cid, segs, dim)
  {
    hide Regular, RowBytes, SegmentFiles.Holds;
    blobs := map[];
    for n := 0 to |segs|
      invariant Backs(y, blobs, cid, segs[..n], dim)
    {
      var key := SegKey(cid, segs[n].segId);
      var files := SegmentFiles.WriteSegment(y.format(key), y.dirs, RowBytes(segs[n].file));
      blobs := blobs[key := files];
    }
    assert segs[..|segs|] == segs;
  }

  ghost predicate AllRegular(y: Layout, cid: nat, segs: seq<Sealed>, dim: nat) {
    forall s :: 0 <= s < |segs| ==> |segs[s].file.ids| == |segs[s].file.rows| && Regular(y, SegKey(cid, segs[s].segId), segs[s].file, dim)
  }

  /** Write a collection's segments as their files and read a point back through them: what the
      acknowledged map holds. */
  method WriteAndGet(store: Store, y: Layout, cid: nat, id: Id) returns (r: Result<Option<Record>, Error>)
    requires store.Valid() && LayoutOk(y)
    requires cid in store.collections ==> AllRegular(y, cid, store.collections[cid].sealed, store.collections[cid].desc.dim)
    ensures var tables := store.Acknowledged().ledger.tables;
      r == if cid !in tables then Err(NotFound)
           else if id in tables[cid].rows then Ok(Some(RecordOf(tables[cid].rows[id])))
           else Ok(None)
  {
    hide Store.Valid, Store.Linked, CatalogOk, Meaning, Regular, LayoutOk;
    var blobs: Blobs := map[];
    if cid in store.collections {
      SegmentsFit(store, cid);
      blobs := WriteFiles(y, cid, store.collections[cid].sealed, store.collections[cid].desc.dim);
    }
    r := GetFromFiles(store, y, blobs, cid, id);
  }

  /** The segments of a collection are well formed and have ids of their own. */
  lemma SegmentsFit(store: Store, cid: nat)
    requires store.Valid() && cid in store.collections
    ensures var segs := store.collections[cid].sealed;
      && (forall s, t :: 0 <= s < t < |segs| ==> segs[s].segId != segs[t].segId)
      && forall s :: 0 <= s < |segs| ==> FileShape(segs[s].file)
  {
    hide Store.Linked, CatalogOk, Tracks, Leaves, Store.Exact, Follows, OnDisk, Meaning;
    store.LinkedHas(cid);
    CatalogHas(store.memory, cid);
    TracksFull(store.memory, store.disk, |store.pending|, store.Counts());
    FollowsHolds(store.memory, store.disk, store.Counts());
  }
}
