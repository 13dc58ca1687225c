/** The disks a crash may leave, and memory against each of them. The log may hold records of
    refused batches, and the last of them may not have been synced
    (crates/quiver-core/src/store.rs, `upsert_batch`). */
module Survivors {
  import opened ByteStrings
  import opened SecondaryIndex
  import opened Segments
  import opened Collections
  import opened CollectionLayout
  import opened Replay
  import opened WindowReplay
  import opened Disks
  import opened DiskSteps
  import opened Publishing
  import opened Checkpoints
  import opened Housekeeping
  import opened Compactions
  import opened Shadows
  import opened TailLoss
  import opened Marks
  import opened Cuts
  import Opening

  /** The disk is well-formed under these counters, and memory trails what it recovers to. */
  ghost predicate Follows(k: Catalog, d: Disk, n: Counters) {
    InStep(Recover(d), d, n) && AllTrail(k, Recover(d))
  }

  /** However many of the last `u` records of the newest log file are lost. */
  ghost predicate Tracks(k: Catalog, d: Disk, u: nat, n: Counters) {
    Cuttable(d, u) && forall j: nat :: j <= u ==> Follows(k, Cut(d, j), n)
  }

  lemma FollowsExactly(k: Catalog, d: Disk, n: Counters)
    requires InStep(k, d, n)
    ensures Follows(k, d, n) && Tracks(k, d, 0, n)
  {
    hide DiskOk, Recover, RecoverNextCid;
    AllTrailSelf(k);
  }

  lemma TracksFull(k: Catalog, d: Disk, u: nat, n: Counters)
    requires Tracks(k, d, u, n)
    ensures Follows(k, d, n)
  {
    assert Cut(d, 0) == d;
  }

  lemma TracksNone(k: Catalog, d: Disk, n: Counters)
    requires Follows(k, d, n)
    ensures Tracks(k, d, 0, n)
  {
    hide Follows;
    assert Cut(d, 0) == d;
  }

  lemma RecoveredOk(d: Disk)
    requires DiskOk(d)
    ensures CatalogOk(Recover(d))
  {
    hide LogOk, CatalogOk;
    Opening.LoadOk(d);
    ReplayOk(Load(d), Tail(d));
  }

  lemma FollowsOk(k: Catalog, d: Disk, n: Counters)
    requires Follows(k, d, n)
    ensures DiskOk(d) && CatalogOk(Recover(d)) && DirectoryOf(k) == DirectoryOf(Recover(d)) && n.nextCid == RecoverNextCid(d)
    ensures n.floor == Current(d).floor && n.version == Current(d).version && (forall cid :: cid in k.cols <==> cid in Recover(d).cols)
  {
    hide DiskOk, Recover, RecoverNextCid, CatalogOk;
    RecoveredOk(d);
    TrailDirectory(k, Recover(d));
  }

  /** Names and ids, as the log fixes them. */
  lemma FollowsNamed(k: Catalog, d: Disk, n: Counters)
    requires Follows(k, d, n)
    ensures WellNamed(DirectoryOf(k)) && n.nextCid !in DirectoryOf(k).dir && Unmentioned(Tail(d), n.nextCid)
    ensures forall cid :: cid in k.cols ==> cid < n.nextCid
  {
    hide EntriesOk, Idempotent, WellNamed, Trails;
    DirectoryReplays(Load(d), Tail(d));
    TrailDirectory(k, Recover(d));
    NextIsNew(DirectoryOf(Load(d)), Tail(d), n.nextCid);
    assert forall cid :: cid in k.cols ==> cid in DirectoryOf(k).dir;
  }

  lemma FollowsHolds(k: Catalog, d: Disk, n: Counters)
    requires Follows(k, d, n)
    ensures Holds(k, d, n)
  {
    hide InStep, Recover, OnDisk, IdsBelow;
    InStepHolds(Recover(d), d, n);
  }

  lemma FollowsMarked(k: Catalog, d: Disk, n: Counters, w: Mark)
    requires Follows(k, d, n) && Marked(k.cols, n.floor, w)
    requires w.care == Quiescent || n.floor != w.floor ==> k == Recover(d)
    ensures DiskMarked(d, w)
  {
    hide Recover, CatalogOk, Marked, MarkedTo, InStep, AllTrail;
    FollowsOk(k, d, n);
    assert AllTrail(k, Recover(d));
    TrailMarked(k, Recover(d), n.floor, w);
  }

  // ---- one surviving disk, step by step ------------------------------------

  lemma FollowsSame(k: Catalog, d: Disk, d': Disk, n: Counters)
    requires Follows(k, d, n) && SameReading(d, d')
    requires forall j :: 0 <= j < |Log(d')| ==> Log(d')[j] in Log(d)
    ensures Follows(k, d', n) && Durable(d') == Durable(d) && Recover(d') == Recover(d)
  {
    hide DiskOk, SameReading, Recover, RecoverNextCid, AllTrail;
    SameReadingOk(d, d');
    HousekeepingInStep(Recover(d), d, d', n);
  }

  /** An accepted record, which memory applies. */
  lemma FollowsAccepted(k: Catalog, d: Disk, n: Counters, op: Op)
    requires Follows(k, d, n) && d.wal != [] && Appendable(DirectoryOf(k), Tail(d), op)
    ensures var d' := Append(d, Entry(n.nextLsn, op));
      && Follows(Apply(k, op), d', Advance(n, op)) && Recover(d') == Apply(Recover(d), op)
      && Durable(d') == State(LedgerApply(Meaning(Recover(d)), op), NextCidAfter(n.nextCid, op))
  {
    hide InStep, Recover, RecoverNextCid, CatalogOk, AllTrail, Appendable, DirectoryOf, Apply, LedgerApply, Tail, Append, Meaning;
    FollowsOk(k, d, n);
    var h, d' := Recover(d), Append(d, Entry(n.nextLsn, op));
    AppendInStep(h, d, n, op);
    TrailApply(k, h, op);
    ApplyRefines(h, op);
    InStepIs(Apply(h, op), d', Advance(n, op));
  }

  lemma InStepIs(k: Catalog, d: Disk, n: Counters)
    requires InStep(k, d, n)
    ensures k == Recover(d) && n.nextCid == RecoverNextCid(d) && Durable(d) == State(Meaning(k), n.nextCid)
  {}

  /** A record of a batch that is not accepted yet: only replay would apply it. */
  lemma FollowsRefused(k: Catalog, d: Disk, n: Counters, op: Op)
    requires Follows(k, d, n) && d.wal != [] && op.Upsert?
    ensures var d' := Append(d, Entry(n.nextLsn, op));
      && Follows(k, d', n.(nextLsn := n.nextLsn + 1)) && Recover(d') == Apply(Recover(d), op)
      && Durable(d') == State(LedgerApply(Meaning(Recover(d)), op), n.nextCid)
  {
    hide InStep, Recover, RecoverNextCid, CatalogOk, AllTrail, DirectoryOf, Apply, LedgerApply, Tail, Append, Meaning;
    FollowsOk(k, d, n);
    var h, d' := Recover(d), Append(d, Entry(n.nextLsn, op));
    AppendInStep(h, d, n, op);
    TrailRefused(k, h, op);
    ApplyRefines(h, op);
    InStepIs(Apply(h, op), d', Advance(n, op));
  }

  /** Sequence numbers may be skipped. */
  lemma FollowsLater(k: Catalog, d: Disk, n: Counters, lsn: nat)
    requires Follows(k, d, n) && lsn >= n.nextLsn
    ensures Follows(k, d, n.(nextLsn := lsn))
  {
    hide DiskOk, Recover, RecoverNextCid, AllTrail;
  }

  lemma FollowsAdvanced(k: Catalog, d: Disk, d': Disk, n: Counters, w: Mark)
    requires CatalogOk(k) && Follows(k, d, n) && HalfAdvanced(k, d, d')
    requires w.care == Checkpointing && w.floor == n.floor && Marked(k.cols, n.floor, w)
    ensures DiskOk(d') && Durable(d') == Durable(d) && DiskMarked(d', w)
  {
    hide InStep, CatalogOk, HalfAdvanced, DiskOk, Recover, RecoverNextCid, Marked, DiskMarked, Meaning, AllTrail;
    FollowsOk(k, d, n);
    var h := Recover(d);
    assert AllTrail(k, h);
    TrailAdvanced(k, h, d, d');
    HalfAdvancedOk(h, d, d', n);
    RecoveredOk(d');
    SameTables(h, Recover(d'));
    AdvancedMarked(k, h, d, d', n, w);
  }

  lemma SameTables(k: Catalog, h: Catalog)
    requires Meaning(k) == Meaning(h)
    ensures forall cid :: cid in k.cols <==> cid in h.cols
  {
    forall cid ensures cid in k.cols <==> cid in h.cols { assert cid in Meaning(k).tables <==> cid in Meaning(h).tables; }
  }

  // ---- compaction ----------------------------------------------------------

  /** One collection of a mid-window manifest, replayed. */
  lemma CompactedShadow(k: Catalog, h: Catalog, d: Disk, n: Counters, target: nat, seg: Sealed, cid: nat)
    requires InStep(h, d, n) && AllTrail(k, h) && CatalogOk(k) && target in k.cols && k.cols[target].sealed != []
    requires Merges(k.cols[target], seg.file) && seg.dead == {} && Indexed(seg.file, k.cols[target].desc.filterable)
    ensures var g := Get(ReplayAll(BaseCatalog(h, target, seg), Tail(d)).cols, cid);
      if cid !in h.cols then g == None
      else if cid != target then g == Some(h.cols[cid])
      else g.Some? && TableOf(g.value) == TableOf(h.cols[cid]) && Trails(Compacted(k.cols[cid], seg), g.value)
  {
    hide LogOk, EntryOk, CollOk, Merges, Indexed, Contents, CollReplay, Compacted, TableOf;
    var es, b := Tail(d), BaseCatalog(h, target, seg);
    ReplayByCollection(Load(d), es, cid);
    ReplayByCollection(b, es, cid);
    LoadedAreBases(d, cid);
    var oc := Get(Load(d).cols, cid);
    if cid == target {
      SegmentsMeanNoReset(oc, cid, es);
      SegmentsKept(oc.value, cid, es);
      assert Base(h.cols[cid]).(sealed := [seg]) == oc.value.(sealed := [seg]);
      MergedUnderReplay(oc.value, k.cols[cid], h.cols[cid], cid, es, seg);
    } else if cid in h.cols {
      BaseReplays(oc, cid, es, h.cols[cid]);
    } else if Resets(es, cid) {
      ResetForgets(oc, None, cid, es);
    } else {
      AbsentStays(cid, es);
      if oc.Some? { SegmentsKept(oc.value, cid, es); }
    }
  }

  lemma CompactedNames(h: Catalog, d: Disk, n: Counters, target: nat, seg: Sealed)
    requires InStep(h, d, n)
    ensures ReplayAll(BaseCatalog(h, target, seg), Tail(d)).names == h.names
  {
    hide EntriesOk, ReplayAll, BaseCatalog, DirReplay, WellNamed, Stable;
    var es, b := Tail(d), BaseCatalog(h, target, seg);
    DirectoryReplays(b, es);
    DirectoryReplays(Load(d), es);
    BaseDirectory(h, target, seg);
    assert DirectoryOf(ReplayAll(b, es)) == DirectoryOf(h);
  }

  /** The log replays onto memory's merged segment to the same ledger. */
  lemma CompactedReplay(k: Catalog, h: Catalog, d: Disk, n: Counters, target: nat, seg: Sealed)
    requires InStep(h, d, n) && AllTrail(k, h) && CatalogOk(k) && target in k.cols && k.cols[target].sealed != []
    requires Merges(k.cols[target], seg.file) && seg.dead == {} && Indexed(seg.file, k.cols[target].desc.filterable)
    ensures var g := ReplayAll(BaseCatalog(h, target, seg), Tail(d));
      Meaning(g) == Meaning(h) && AllTrail(CompactedCatalog(k, target, seg), g)
  {
    hide CatalogOk, Merges, Indexed, TableOf, Trails, Compacted, ReplayAll, InStep, BaseCatalog, Tail;
    var g := ReplayAll(BaseCatalog(h, target, seg), Tail(d));
    forall cid
      ensures cid in g.cols <==> cid in h.cols
      ensures cid in h.cols ==> TableOf(g.cols[cid]) == TableOf(h.cols[cid]) && Trails(CompactedCatalog(k, target, seg).cols[cid], g.cols[cid])
    {
      CompactedShadow(k, h, d, n, target, seg, cid);
    }
    CompactedNames(h, d, n, target, seg);
    SameMeaning(g, h);
  }

  /** The disk once the mid-window manifest is installed. */
  lemma CompactionInstalled(h: Catalog, d: Disk, n: Counters, d': Disk, m: Manifest, target: nat, seg: Sealed)
    requires InStep(h, d, n) && d'.wal == d.wal && Publishable(d', m, BaseCatalog(h, target, seg))
    requires m.floor == n.floor && m.nextCid == n.nextCid
    ensures var d1 := Install(d', m);
      && DiskOk(d1) && Current(d1) == m && Log(d1) == Log(d) && RecoverNextCid(d1) == n.nextCid
      && Recover(d1) == ReplayAll(BaseCatalog(h, target, seg), Tail(d))
  {
    hide BaseCatalog, ReplayAll, EntriesOk, DirReplay, WellNamed, NextCidOver, Flatten, LoadColl;
    var d1, b := Install(d', m), BaseCatalog(h, target, seg);
    InstallReads(d', m);
    InstallEntriesOk(d', m);
    ListedLoads(d', m.collections, b);
    assert Log(d1) == Log(d) && Tail(d1) == Tail(d) && Load(d1) == b;
    DirectoryReplays(Load(d), Tail(d));
    BaseDirectory(h, target, seg);
    NextCidSettled(n.nextCid, Tail(d));
  }

  /** A mid-window manifest of memory, under a log with refused records. */
  lemma CompactionFollows(k: Catalog, d: Disk, n: Counters, d': Disk, m: Manifest, target: nat, seg: Sealed)
    requires CatalogOk(k) && Follows(k, d, n) && target in k.cols && k.cols[target].sealed != []
    requires Merges(k.cols[target], seg.file) && seg.dead == {} && Indexed(seg.file, k.cols[target].desc.filterable)
    requires d'.wal == d.wal && Publishable(d', m, BaseCatalog(k, target, seg))
    requires m.floor == n.floor && m.nextCid == n.nextCid && m.nextSeg == n.nextSeg + 1
    ensures Follows(CompactedCatalog(k, target, seg), Install(d', m), n.(version := m.version, nextSeg := m.nextSeg))
    ensures Durable(Install(d', m)) == Durable(d)
  {
    hide CatalogOk, Merges, Indexed, CompactedCatalog, Meaning, AllTrail, BaseCatalog, Publishable, DiskOk, Recover, RecoverNextCid, Install, Log;
    var h := Recover(d);
    assert AllTrail(k, h);
    TrailBase(k, h, target, seg);
    CompactionInstalled(h, d, n, d', m, target, seg);
    CompactedReplay(k, h, d, n, target, seg);
  }
}
