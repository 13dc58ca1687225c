/** What maintenance does to the recovery tail: which pending deletions a compaction or a
    half-advanced checkpoint takes out of it (crates/quiver-core/src/store.rs,
    `recovery_tail`, `compact_collection`, `checkpoint_with_index_snapshots`). */
module TailLoss {
  import opened ByteStrings
  import opened KeyOrder
  import opened Segments
  import opened Collections
  import opened CollectionLayout
  import opened Replay
  import opened RecoveryTails
  import opened Disks
  import opened DiskSteps
  import opened WindowReplay
  import opened Shadows

  /** The rows the segments and their own bitmaps hold. */
  ghost function BaseRows(c: Coll): map<Id, Row> { Contents(Base(c)) }

  /** From `c` to `d` the map is the same, the base has only lost rows, and it has lost exactly
      those whose deletion the tail no longer names. */
  ghost predicate Loses(c: Coll, d: Coll) {
    && Contents(d) == Contents(c)
    && Within(BaseRows(d), BaseRows(c))
    && TailDeleted(d) <= TailDeleted(c)
    && forall id :: id in BaseRows(c) && id !in BaseRows(d) <==> id in TailDeleted(c) && id !in TailDeleted(d)
  }

  lemma LosesNothing(c: Coll)
    ensures Loses(c, c)
  {}

  lemma LosesMore(c: Coll, d: Coll, e: Coll)
    requires Loses(c, d) && Loses(d, e)
    ensures Loses(c, e)
  {
    hide Contents, TailDeleted, BaseRows;
  }

  /** From memory `c` to a recovered `d`, which may also have replayed refused records: the base
      has lost exactly the rows whose deletion the tail no longer names. */
  ghost predicate LosesTo(c: Coll, d: Coll) {
    && Within(BaseRows(d), BaseRows(c))
    && forall id :: id in BaseRows(c) && id !in BaseRows(d) <==> id in TailDeleted(c) && id !in TailDeleted(d)
  }

  lemma LosesThenTo(c: Coll, d: Coll, e: Coll)
    requires Loses(c, d) && LosesTo(d, e) && Valid(e)
    ensures LosesTo(c, e)
  {
    hide Contents, TailDeleted, BaseRows, Valid;
    forall id | id in TailDeleted(e) ensures id in BaseRows(e) { PendingInBase(e, id); }
  }

  lemma PendingInBase(c: Coll, id: Id)
    requires Valid(c) && id in TailDeleted(c)
    ensures id in BaseRows(c)
  {
    hide Valid, Contents, TailDeleted;
    DeletedWasLive(c, id);
  }

  lemma SealedDecides(c: Coll, d: Coll)
    requires c.sealed == d.sealed
    ensures BaseRows(c) == BaseRows(d)
  {
    forall id: Id ensures Lookup(Base(c), id) == Lookup(Base(d), id) {}
    ContentsEqual(Base(c), Base(d));
  }

  lemma TrailPending(c: Coll, h: Coll)
    requires Trails(c, h)
    ensures TailDeleted(c) <= TailDeleted(h)
  {
    forall id | id in TailDeleted(c) ensures id in TailDeleted(h) {
      var s, r :| s in c.window && r in c.window[s] && InRange(c.sealed, s, r) && c.sealed[s].file.ids[r] == id;
      assert WindowDead(c, s, r);
    }
  }

  /** Replay of refused records loses nothing. */
  lemma TrailLoses(c: Coll, h: Coll)
    requires Trails(c, h)
    ensures LosesTo(c, h)
  {
    hide TailDeleted, BaseRows;
    SealedDecides(c, h);
    TrailPending(c, h);
  }

  /** A compaction drops every pending deletion. */
  lemma CompactionLoses(c: Coll, seg: Sealed)
    requires Valid(c) && Merges(c, seg.file) && seg.dead == {}
    ensures Loses(c, Compacted(c, seg)) && Valid(Compacted(c, seg))
  {
    hide Valid, Merges, Contents;
    CompactedContents(c, seg);
    CompactedBase(c, seg);
    assert TailDeleted(Compacted(c, seg)) == {};
    forall id | id in TailDeleted(c) ensures id in BaseRows(c) { DeletedWasLive(c, id); }
  }

  // ---- half-advanced tombstones --------------------------------------------

  /** `d` is `c` with some window tombstones moved into the segments' own bitmaps. */
  ghost predicate Advanced(c: Coll, d: Coll) {
    && d.active == c.active && d.index == c.index && SameFiles(c.sealed, d.sealed)
    && (forall s: nat, r: nat :: InRange(c.sealed, s, r) ==> (IsDead(d, s, r) <==> IsDead(c, s, r)))
    && (forall s: nat, r: nat :: InRange(c.sealed, s, r) && r in c.sealed[s].dead ==> r in d.sealed[s].dead)
  }

  lemma InBase(c: Coll, id: Id)
    requires Valid(c)
    ensures id in BaseRows(c) <==> (var hit := Newest(c.sealed, id); hit.Some? && hit.value.row !in c.sealed[hit.value.seg].dead)
    ensures id in BaseRows(c) ==> var hit := Newest(c.sealed, id); hit.value.row < |c.sealed[hit.value.seg].file.rows| ==>
      BaseRows(c)[id] == c.sealed[hit.value.seg].file.rows[hit.value.row]
  {
    ContentsIsLookup(Base(c), id);
  }

  lemma AdvancedAt(c: Coll, d: Coll, id: Id)
    requires Valid(c) && Valid(d) && Advanced(c, d)
    ensures id in TailDeleted(d) ==> id in TailDeleted(c)
    ensures id in BaseRows(d) ==> id in BaseRows(c) && BaseRows(c)[id] == BaseRows(d)[id]
    ensures id in BaseRows(c) && id !in BaseRows(d) <==> id in TailDeleted(c) && id !in TailDeleted(d)
    ensures Lookup(d, id) == Lookup(c, id)
  {
    hide BaseRows, TailDeleted;
    NewestByFiles(c.sealed, d.sealed, id);
    InBase(c, id);
    InBase(d, id);
    TailDeletedMeaning(c, id);
    TailDeletedMeaning(d, id);
  }

  /** Tombstones that reached the bitmaps early leave the tail. */
  lemma AdvancedLoses(c: Coll, d: Coll)
    requires Valid(c) && Valid(d) && Advanced(c, d)
    ensures Loses(c, d)
  {
    hide Valid, Advanced, TailDeleted, BaseRows, Lookup;
    forall id: Id
      ensures id in TailDeleted(d) ==> id in TailDeleted(c)
      ensures id in BaseRows(d) ==> id in BaseRows(c) && BaseRows(c)[id] == BaseRows(d)[id]
      ensures id in BaseRows(c) && id !in BaseRows(d) <==> id in TailDeleted(c) && id !in TailDeleted(d)
      ensures Lookup(d, id) == Lookup(c, id)
    {
      AdvancedAt(c, d, id);
    }
    ContentsEqual(d, c);
  }

  lemma NoneEarly(d: Disk, d': Disk, e: CollEntry)
    requires Early(d, d', e) == {} && forall key :: DelOf(d, key) <= DelOf(d', key)
    requires forall s :: 0 <= s < |e.segments| ==> FileOf(d', SegKey(e.cid, e.segments[s])) == FileOf(d, SegKey(e.cid, e.segments[s]))
    ensures LoadColl(d', e) == LoadColl(d, e)
  {
    hide FileOf, DelOf;
    forall s: nat | s < |e.segments| ensures OpenSegment(d', e.cid, e.segments[s]) == OpenSegment(d, e.cid, e.segments[s]) {
      var key := SegKey(e.cid, e.segments[s]);
      forall r | r in DelOf(d', key) ensures r in DelOf(d, key) {
        assert r !in DelOf(d, key) ==> Loc(s, r) in Early(d, d', e);
      }
    }
  }

  lemma AdvancedEntry(k: Catalog, d: Disk, d': Disk, e: CollEntry, es: seq<Entry>)
    requires HalfAdvanced(k, d, d') && EntryOk(d, Current(d), e) && EntryOk(d', Current(d), e) && CatalogOk(k)
    requires Get(k.cols, e.cid) == CollReplay(Some(LoadColl(d, e)), e.cid, es) && e.cid in k.cols
    ensures var c' := CollReplay(Some(LoadColl(d', e)), e.cid, es);
      c'.Some? && (c'.value == k.cols[e.cid] || (Valid(c'.value) && Advanced(k.cols[e.cid], c'.value)))
  {
    hide CollOk, Valid, CollReplay, Resets;
    var c, c', x := LoadColl(d, e), LoadColl(d', e), Early(d, d', e);
    if x == {} {
      NoneEarly(d, d', e);
    } else {
      var l :| l in x;
      EarlyIsDead(k, d, d', e, es, l);
      EarlyLoad(d, d', e);
      ReplayAhead(Some(c), Some(c'), x, e.cid, es);
      SegmentsKept(c, e.cid, es);
      SegmentsKept(c', e.cid, es);
      CollReplayOk(c', e.cid, es);
      var f, f' := k.cols[e.cid], CollReplay(Some(c'), e.cid, es).value;
      if f' != f {
        forall y | y in x ensures y.seg < |f.sealed| && IsDead(f, y.seg, y.row) { EarlyIsDead(k, d, d', e, es, y); }
        StillAdvanced(f, f', x);
      }
      OkIsValid(f');
    }
  }

  lemma OkIsValid(c: Coll)
    requires CollOk(c)
    ensures Valid(c)
  {}

  lemma StillAdvanced(f: Coll, f': Coll, x: set<Loc>)
    requires Ahead(f, f', x) && forall y :: y in x ==> y.seg < |f.sealed| && IsDead(f, y.seg, y.row)
    requires forall s: nat, r: nat :: InRange(f.sealed, s, r) && r in f.sealed[s].dead ==> r in f'.sealed[s].dead
    ensures Advanced(f, f')
  {
    hide IsDead;
  }

  /** Whatever reached the bitmaps before a crash, each collection has lost from its tail just
      what its base has lost. */
  lemma HalfAdvancedLoses(k: Catalog, d: Disk, d': Disk, n: Counters, cid: nat)
    requires InStep(k, d, n) && CatalogOk(k) && HalfAdvanced(k, d, d') && cid in k.cols
    ensures cid in Recover(d').cols && Loses(k.cols[cid], Recover(d').cols[cid])
  {
    hide LogOk, EntryOk, CollOk, LoadColl, CollReplay, Loses, Advanced;
    var m := Current(d);
    ReplayByCollection(Load(d'), Tail(d), cid);
    ReplayByCollection(Load(d), Tail(d), cid);
    LoadAllCols(d, m.collections);
    LoadAllCols(d', m.collections);
    LosesNothing(k.cols[cid]);
    if cid in Load(d).cols {
      var i :| 0 <= i < |m.collections| && m.collections[i].cid == cid;
      HalfAdvancedTable(k, d, d', n, i);
      AdvancedEntry(k, d, d', m.collections[i], Tail(d));
      CatalogHas(k, cid);
      OkIsValid(k.cols[cid]);
      var c' := Recover(d').cols[cid];
      if c' != k.cols[cid] { AdvancedLoses(k.cols[cid], c'); }
    } else {
      assert cid !in Load(d').cols;
    }
  }

  // ---- with refused records in the log --------------------------------------

  /** A tombstone on disk early died in memory's window. */
  lemma EarlyWasPending(k: Catalog, d: Disk, d': Disk, e: CollEntry, s: nat, r: nat)
    requires HalfAdvanced(k, d, d') && e.cid in k.cols && k.cols[e.cid].sealed == LoadColl(d, e).sealed
    requires forall i, j :: 0 <= i < j < |e.segments| ==> e.segments[i] != e.segments[j]
    requires s < |e.segments| && r in LoadColl(d', e).sealed[s].dead && r !in LoadColl(d, e).sealed[s].dead
    ensures WindowDead(k.cols[e.cid], s, r)
  {
    var key := SegKey(e.cid, e.segments[s]);
    assert DiedInWindow(k, key, r);
    var c := k.cols[e.cid];
    var i: nat :| i < |c.sealed| && c.sealed[i].segId == key.seg && WindowDead(c, i, r);
    assert c.sealed[i].segId == e.segments[i];
  }

  /** A row lost from the base was deleted in memory. */
  lemma LostWasPending(k: Catalog, d: Disk, d': Disk, e: CollEntry, f: Coll, f': Coll, id: Id)
    requires HalfAdvanced(k, d, d') && e.cid in k.cols && k.cols[e.cid].sealed == LoadColl(d, e).sealed == f.sealed
    requires f'.sealed == LoadColl(d', e).sealed && SameFiles(f.sealed, f'.sealed)
    requires forall i, j :: 0 <= i < j < |e.segments| ==> e.segments[i] != e.segments[j]
    requires Valid(f) && Valid(f') && Valid(k.cols[e.cid]) && id in BaseRows(f) && id !in BaseRows(f')
    ensures id in TailDeleted(k.cols[e.cid])
  {
    hide HalfAdvanced, Valid, BaseRows, TailDeleted;
    NewestByFiles(f.sealed, f'.sealed, id);
    InBase(f, id);
    InBase(f', id);
    var hit := Newest(f.sealed, id);
    EarlyWasPending(k, d, d', e, hit.value.seg, hit.value.row);
    TailDeletedMeaning(k.cols[e.cid], id);
  }

  /** The same with refused records in the log: `h` is what the disk recovered to before. */
  lemma HalfAdvancedLosesTo(k: Catalog, h: Catalog, d: Disk, d': Disk, n: Counters, cid: nat)
    requires InStep(h, d, n) && CatalogOk(k) && CatalogOk(h) && AllTrail(k, h) && HalfAdvanced(k, d, d') && cid in k.cols
    ensures cid in Recover(d').cols && LosesTo(k.cols[cid], Recover(d').cols[cid])
  {
    hide CatalogOk, InStep, HalfAdvanced, Loses, LosesTo, Trails, Recover;
    TrailAdvanced(k, h, d, d');
    HalfAdvancedLoses(h, d, d', n, cid);
    var c, f, f' := k.cols[cid], h.cols[cid], Recover(d').cols[cid];
    forall id | id in BaseRows(f) && id !in BaseRows(f') ensures id in TailDeleted(c) {
      LostFromDisk(k, h, d, d', n, cid, id);
    }
    ThroughShadow(c, f, f');
  }

  lemma ThroughShadow(c: Coll, f: Coll, f': Coll)
    requires Trails(c, f) && Loses(f, f') && forall id :: id in BaseRows(f) && id !in BaseRows(f') ==> id in TailDeleted(c)
    ensures LosesTo(c, f')
  {
    hide Contents, TailDeleted, BaseRows;
    SealedDecides(c, f);
    TrailPending(c, f);
  }

  lemma LostFromDisk(k: Catalog, h: Catalog, d: Disk, d': Disk, n: Counters, cid: nat, id: Id)
    requires InStep(h, d, n) && CatalogOk(k) && CatalogOk(h) && AllTrail(k, h) && HalfAdvanced(k, d, d') && HalfAdvanced(h, d, d')
    requires cid in k.cols && cid in Recover(d').cols
    requires id in BaseRows(h.cols[cid]) && id !in BaseRows(Recover(d').cols[cid])
    ensures id in TailDeleted(k.cols[cid])
  {
    hide LogOk, EntryOk, CollOk, LoadColl, CollReplay, BaseRows, TailDeleted, HalfAdvanced;
    var m, es := Current(d), Tail(d);
    AdvancedReads(h, d, d');
    ReplayByCollection(Load(d'), es, cid);
    ReplayByCollection(Load(d), es, cid);
    LoadAllCols(d, m.collections);
    LoadAllCols(d', m.collections);
    var f, f' := h.cols[cid], Recover(d').cols[cid];
    if cid in Load(d).cols && !Resets(es, cid) {
      var i :| 0 <= i < |m.collections| && m.collections[i].cid == cid;
      var e := m.collections[i];
      HalfAdvancedTable(h, d, d', n, i);
      EntryFacts(d, m, e);
      EntryFacts(d', m, e);
      SegmentsKept(LoadColl(d, e), cid, es);
      SegmentsKept(LoadColl(d', e), cid, es);
      CollReplayOk(LoadColl(d', e), cid, es);
      CatalogHas(k, cid);
      CatalogHas(h, cid);
      OkIsValid(f);
      OkIsValid(f');
      OkIsValid(k.cols[cid]);
      AdvancedFiles(h, d, d', e);
      LostWasPending(k, d, d', e, f, f', id);
    } else {
      if Resets(es, cid) { ResetForgets(Get(Load(d).cols, cid), Get(Load(d').cols, cid), cid, es); }
      assert false;
    }
  }

  lemma AdvancedReads(k: Catalog, d: Disk, d': Disk)
    requires HalfAdvanced(k, d, d')
    ensures Current(d') == Current(d) && Tail(d') == Tail(d)
  {}

  lemma EntryFacts(d: Disk, m: Manifest, e: CollEntry)
    requires EntryOk(d, m, e)
    ensures CollOk(LoadColl(d, e)) && forall i, j :: 0 <= i < j < |e.segments| ==> e.segments[i] != e.segments[j]
  {}

  lemma AdvancedFiles(k: Catalog, d: Disk, d': Disk, e: CollEntry)
    requires HalfAdvanced(k, d, d') && EntryOk(d, Current(d), e)
    ensures SameFiles(LoadColl(d, e).sealed, LoadColl(d', e).sealed)
  {}
}
