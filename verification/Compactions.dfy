/** Compaction: one fresh segment with a collection's live sealed rows replaces all
    its segments, in the middle of a log window (crates/quiver-core/src/store.rs,
    `compact_collection`). */
module Compactions {
  import opened ByteStrings
  import opened SecondaryIndex
  import opened Segments
  import opened Descriptors
  import opened Collections
  import opened CollectionLayout
  import opened Replay
  import opened WindowReplay
  import opened Disks
  import opened DiskSteps
  import opened Publishing
  import opened CollectionStates
  import opened Checkpoints
  import opened Housekeeping

  // ---- the merged segment --------------------------------------------------

  /** The sealed part of the first `n` entries of a live list. */
  ghost predicate MergedTo(c: Coll, out: seq<(Id, Place)>, n: nat, ids: seq<Id>, rows: seq<Row>)
    requires n <= |out|
  {
    && |ids| == |rows|
    && (forall i, j :: 0 <= i < j < |ids| ==> Less(ids[i], ids[j]))
    && (forall i, j :: 0 <= i < |ids| && n <= j < |out| ==> Less(ids[i], out[j].0))
    && (forall i :: 0 <= i < |ids| ==> LocateSealed(c, ids[i]).Some? && RecordAt(c, InSegment(LocateSealed(c, ids[i]).value)) == Some(rows[i]))
    && (forall j :: 0 <= j < n && out[j].1.InSegment? ==> out[j].0 in ids)
  }

  lemma MergedAll(c: Coll, out: seq<(Id, Place)>, ids: seq<Id>, rows: seq<Row>, file: SegFile)
    requires Valid(c) && LiveList(c, out) && MergedTo(c, out, |out|, ids, rows)
    requires FileShape(file) && file.ids == ids && file.rows == rows
    ensures Merges(c, file)
  {
    forall id | LocateSealed(c, id).Some? ensures id in ids {
      var l := LocateSealed(c, id).value;
      OneLiveRow(c, id, l.seg, l.row);
      assert Locate(c, id) == Some(InSegment(l));
      assert Listed(out, id, Locate(c, id).value);
      var j :| 0 <= j < |out| && out[j] == (id, InSegment(l));
      assert out[j].0 in ids;
    }
  }

  /** The live sealed rows, in id order, as a segment file. */
  method MergeRows(c: Coll, out: seq<(Id, Place)>) returns (file: SegFile)
    requires Valid(c) && LiveList(c, out)
    ensures Merges(c, file) && Indexed(file, c.desc.filterable)
  {
    hide Valid, Indexed, LocateSealed;
    var ids: seq<Id>, rows: seq<Row> := [], [];
    for n := 0 to |out|
      invariant MergedTo(c, out, n, ids, rows)
    {
      if out[n].1.InSegment? {
        PlaceHasRow(c, out[n].0, out[n].1);
        rows := rows + [RecordAt(c, out[n].1).value];
        ids := ids + [out[n].0];
      }
    }
    AscendingDistinct(ids);
    file := WriteSegment(ids, rows, c.desc.filterable);
    MergedAll(c, out, ids, rows, file);
  }

  lemma PlaceHasRow(c: Coll, id: Id, p: Place)
    requires Valid(c) && Locate(c, id) == Some(p)
    ensures RecordAt(c, p).Some?
    ensures p.InSegment? ==> LocateSealed(c, id) == Some(p.loc)
  {
    LocateIsContents(c, id);
  }

  // ---- the manifest --------------------------------------------------------

  /** What the new manifest lists for one collection. */
  function SegmentsAfter(k: Catalog, cid: nat, target: nat, seg: Sealed): seq<Sealed>
    requires cid in k.cols
  {
    if cid == target then [seg] else k.cols[cid].sealed
  }

  ghost predicate CompactEntries(entries: seq<CollEntry>, cids: seq<nat>, k: Catalog, target: nat, seg: Sealed) {
    && |entries| == |cids|
    && (forall i, j :: 0 <= i < j < |cids| ==> cids[i] < cids[j])
    && (forall cid :: cid in cids <==> cid in k.cols)
    && (forall i :: 0 <= i < |cids| ==> cids[i] in k.cols)
    && (forall i :: 0 <= i < |cids| ==> entries[i] == EntryFor(cids[i], k.cols[cids[i]], SegmentsAfter(k, cids[i], target, seg)))
  }

  lemma BaseOk(c: Coll)
    requires CollOk(c)
    ensures CollOk(Base(c))
  {}

  lemma CompactedOk(c: Coll, seg: Sealed)
    requires CollOk(c) && Merges(c, seg.file) && seg.dead == {} && Indexed(seg.file, c.desc.filterable)
    ensures CollOk(Compacted(c, seg)) && TableOf(Compacted(c, seg)) == TableOf(c)
    ensures CollOk(Base(c).(sealed := [seg]))
  {
    hide Merges, Indexed, Contents, Valid;
    CompactedContents(c, seg);
    assert CollOk(Compacted(c, seg));
    BaseOk(Compacted(c, seg));
    assert Base(Compacted(c, seg)) == Base(c).(sealed := [seg]);
  }

  /** The new segment file is invisible until a manifest lists it. */
  lemma NewSegmentInStep(k: Catalog, d: Disk, n: Counters, cid: nat, file: SegFile)
    requires InStep(k, d, n)
    ensures InStep(k, WriteSeg(d, SegKey(cid, n.nextSeg), file), n.(nextSeg := n.nextSeg + 1))
  {
    hide LogOk, Recover, RecoverNextCid, CollOk;
    var d' := WriteSeg(d, SegKey(cid, n.nextSeg), file);
    NewSegmentSame(d, SegKey(cid, n.nextSeg), file);
    HousekeepingInStep(k, d, d', n);
  }

  lemma NewSegmentSame(d: Disk, key: SegKey, file: SegFile)
    requires DiskOk(d) && key.seg >= Current(d).nextSeg
    ensures SameReading(d, WriteSeg(d, key, file)) && Log(WriteSeg(d, key, file)) == Log(d)
  {
    hide LogOk, CollOk, Flatten;
    var d' := WriteSeg(d, key, file);
    assert Log(d') == Log(d);
    forall i | 0 <= i < |Current(d).collections| ensures SameSegments(d, d', Current(d).collections[i]) {
      assert EntryOk(d, Current(d), Current(d).collections[i]);
    }
  }

  /** The files behind each entry, once the merged segment is written. */
  lemma AfterOnDisk(k: Catalog, d: Disk, n: Counters, target: nat, file: SegFile, cid: nat)
    requires Holds(k, d, n) && cid in k.cols
    ensures var seg, d' := Sealed(n.nextSeg, file, {}), WriteSeg(d, SegKey(target, n.nextSeg), file);
      && OnDisk(d', cid, SegmentsAfter(k, cid, target, seg))
      && IdsBelow(SegmentsAfter(k, cid, target, seg), n.nextSeg + 1)
  {
    var seg, d' := Sealed(n.nextSeg, file, {}), WriteSeg(d, SegKey(target, n.nextSeg), file);
    var segs := SegmentsAfter(k, cid, target, seg);
    forall s | 0 <= s < |segs| ensures SegKey(cid, segs[s].segId) in d'.segs && OpenSegment(d', cid, segs[s].segId) == segs[s] {
      if cid == target { assert segs[s] == seg; }
      else { assert OpenSegment(d, cid, segs[s].segId) == segs[s]; }
    }
  }

  lemma AfterEntry(k: Catalog, d: Disk, n: Counters, target: nat, file: SegFile, m: Manifest, cid: nat)
    requires CatalogOk(k) && Holds(k, d, n) && cid in k.cols && m.nextSeg == n.nextSeg + 1
    requires cid == target ==> Merges(k.cols[cid], file) && Indexed(file, k.cols[cid].desc.filterable)
    ensures var seg, d' := Sealed(n.nextSeg, file, {}), WriteSeg(d, SegKey(target, n.nextSeg), file);
      var e := EntryFor(cid, k.cols[cid], SegmentsAfter(k, cid, target, seg));
      EntryOk(d', m, e) && LoadColl(d', e) == CompactedBase(k, cid, target, seg)
  {
    hide CatalogOk, Holds, CollOk, Merges, Indexed;
    var seg, d' := Sealed(n.nextSeg, file, {}), WriteSeg(d, SegKey(target, n.nextSeg), file);
    AfterOnDisk(k, d, n, target, file, cid);
    CatalogHas(k, cid);
    EntryLoads(d', cid, k.cols[cid], SegmentsAfter(k, cid, target, seg));
    BaseOk(k.cols[cid]);
    if cid == target { CompactedOk(k.cols[cid], seg); }
  }

  lemma AfterListed(k: Catalog, d: Disk, n: Counters, target: nat, file: SegFile, m: Manifest, cid: nat)
    requires CatalogOk(k) && Holds(k, d, n) && cid in k.cols && m.nextSeg == n.nextSeg + 1
    requires cid == target ==> Merges(k.cols[cid], file) && Indexed(file, k.cols[cid].desc.filterable)
    ensures var seg, d' := Sealed(n.nextSeg, file, {}), WriteSeg(d, SegKey(target, n.nextSeg), file);
      ListedAs(d', m, EntryFor(cid, k.cols[cid], SegmentsAfter(k, cid, target, seg)), cid, BaseCatalog(k, target, seg))
  {
    hide EntryOk, CatalogOk, Holds, CompactedBase, LoadColl, SegmentsAfter, Merges, Indexed;
    AfterEntry(k, d, n, target, file, m, cid);
  }

  lemma CompactPublishable(k: Catalog, d: Disk, n: Counters, target: nat, file: SegFile, cids: seq<nat>, m: Manifest)
    requires CatalogOk(k) && Holds(k, d, n) && target in k.cols && m.nextSeg == n.nextSeg + 1
    requires Merges(k.cols[target], file) && Indexed(file, k.cols[target].desc.filterable)
    requires CompactEntries(m.collections, cids, k, target, Sealed(n.nextSeg, file, {}))
    requires WellNamed(DirectoryOf(k)) && forall key :: key in d.dels ==> key.seg < n.nextSeg
    ensures Publishable(WriteSeg(d, SegKey(target, n.nextSeg), file), m, BaseCatalog(k, target, Sealed(n.nextSeg, file, {})))
  {
    hide EntryOk, CatalogOk, Holds, WellNamed, CompactedBase, LoadColl, SegmentsAfter, EntryFor, Merges, Indexed, DirectoryOf, Publishable, ListedAs;
    var seg, d' := Sealed(n.nextSeg, file, {}), WriteSeg(d, SegKey(target, n.nextSeg), file);
    var b := BaseCatalog(k, target, seg);
    BaseDirectory(k, target, seg);
    forall i | 0 <= i < |cids| ensures ListedAs(d', m, m.collections[i], cids[i], b) {
      AfterListed(k, d, n, target, file, m, cids[i]);
    }
    ListingPublishable(d', m, cids, b);
  }

  lemma CompactedCatalogOk(k: Catalog, target: nat, seg: Sealed)
    requires CatalogOk(k) && target in k.cols
    requires Merges(k.cols[target], seg.file) && seg.dead == {} && Indexed(seg.file, k.cols[target].desc.filterable)
    ensures CatalogOk(CompactedCatalog(k, target, seg)) && Meaning(CompactedCatalog(k, target, seg)) == Meaning(k)
  {
    hide CollOk, Merges, Indexed, TableOf, Compacted;
    CompactedOk(k.cols[target], seg);
    SameMeaning(CompactedCatalog(k, target, seg), k);
  }

  lemma InStepFacts(k: Catalog, d: Disk, n: Counters)
    requires InStep(k, d, n)
    ensures n.version == Current(d).version
    ensures forall key :: key in d.dels ==> key.seg < n.nextSeg
  {}

  function CompactionManifest(n: Counters, entries: seq<CollEntry>): Manifest {
    Manifest(n.version + 1, n.floor, n.nextCid, n.nextSeg + 1, entries)
  }

  /** Publishing a compaction, whatever the current window holds, keeps the floor and
      the acknowledged state. */
  lemma CompactionPublishes(k: Catalog, d: Disk, n: Counters, target: nat, file: SegFile, cids: seq<nat>, entries: seq<CollEntry>)
    requires CatalogOk(k) && InStep(k, d, n) && target in k.cols && k.cols[target].sealed != []
    requires Merges(k.cols[target], file) && Indexed(file, k.cols[target].desc.filterable)
    requires CompactEntries(entries, cids, k, target, Sealed(n.nextSeg, file, {}))
    requires WellNamed(DirectoryOf(k))
    ensures var seg, d', m := Sealed(n.nextSeg, file, {}), WriteSeg(d, SegKey(target, n.nextSeg), file), CompactionManifest(n, entries);
      && InStep(k, d', n.(nextSeg := n.nextSeg + 1))
      && m.version != Current(d').version
      && InStep(CompactedCatalog(k, target, seg), Install(d', m), n.(nextSeg := n.nextSeg + 1, version := n.version + 1))
      && CatalogOk(CompactedCatalog(k, target, seg)) && Meaning(CompactedCatalog(k, target, seg)) == Meaning(k)
  {
    hide CatalogOk, InStep, Holds, Merges, Indexed, CompactEntries, WellNamed, DirectoryOf, Publishable, Install, Meaning, Current,
      CompactedCatalog, WriteSeg;
    var seg, d', m := Sealed(n.nextSeg, file, {}), WriteSeg(d, SegKey(target, n.nextSeg), file), CompactionManifest(n, entries);
    InStepFacts(k, d, n);
    NewSegmentInStep(k, d, n, target, file);
    InStepFacts(k, d', n.(nextSeg := n.nextSeg + 1));
    InStepHolds(k, d, n);
    CompactPublishable(k, d, n, target, file, cids, m);
    CompactedCatalogOk(k, target, seg);
    WriteSegLog(d, SegKey(target, n.nextSeg), file);
    CompactionInStep(k, d, n, d', m, target, seg);
  }

  lemma WriteSegLog(d: Disk, key: SegKey, file: SegFile)
    ensures WriteSeg(d, key, file).wal == d.wal
  {}
}
