/** Swapping in a new manifest: the commit points of a checkpoint and of a
    compaction (crates/quiver-core/src/store.rs, crates/quiver-core/src/manifest.rs). */
module Publishing {
  import opened ByteStrings
  import opened Segments
  import opened Collections
  import opened CollectionLayout
  import opened Replay
  import opened WindowReplay
  import opened Disks
  import opened DiskSteps

  /** Write a manifest file without pointing at it. */
  function WriteManifestFile(d: Disk, m: Manifest): Disk { d.(manifests := d.manifests[m.version := m]) }

  /** The atomic rename of `CURRENT`. */
  function PointAt(d: Disk, version: nat): Disk { d.(current := Some(version)) }

  function Install(d: Disk, m: Manifest): Disk { PointAt(WriteManifestFile(d, m), m.version) }

  /** A manifest file that `CURRENT` does not name is invisible. */
  lemma UnpointedManifest(d: Disk, m: Manifest)
    requires DiskOk(d) && m.version != Current(d).version
    ensures SameReading(d, WriteManifestFile(d, m))
  {}

  lemma InstallReads(d: Disk, m: Manifest)
    ensures Current(Install(d, m)) == m
    ensures forall e :: LoadColl(Install(d, m), e) == LoadColl(d, e)
    ensures forall entries :: LoadAll(Install(d, m), entries) == LoadAll(d, entries)
  {
    var d' := Install(d, m);
    forall e ensures LoadColl(d', e) == LoadColl(d, e) { LoadCollSame(d, d', e); }
    forall entries ensures LoadAll(d', entries) == LoadAll(d, entries) { LoadAllSame(d, d', entries); }
  }

  lemma InstallEntriesOk(d: Disk, m: Manifest)
    requires EntriesOk(d, m)
    ensures EntriesOk(Install(d, m), m)
  {
    InstallReads(d, m);
    forall i | 0 <= i < |m.collections| ensures EntryOk(Install(d, m), m, m.collections[i]) {
      assert EntryOk(d, m, m.collections[i]);
    }
  }

  /** The manifest lists `base`, its segments are in place, and no tombstone file
      belongs to a segment id still to be handed out. */
  ghost predicate Publishable(d: Disk, m: Manifest, base: Catalog) {
    && Lists(d, m.collections, base)
    && WellNamed(DirectoryOf(base))
    && EntriesOk(d, m)
    && (forall key :: key in d.dels ==> key.seg < m.nextSeg)
  }

  /** A manifest that lists a catalog in id order, each entry in place. */
  lemma ListingPublishable(d: Disk, m: Manifest, cids: seq<nat>, base: Catalog)
    requires |m.collections| == |cids| && forall i, j :: 0 <= i < j < |cids| ==> cids[i] < cids[j]
    requires forall cid :: cid in cids <==> cid in base.cols
    requires forall i :: 0 <= i < |cids| ==> ListedAs(d, m, m.collections[i], cids[i], base)
    requires WellNamed(DirectoryOf(base)) && forall key :: key in d.dels ==> key.seg < m.nextSeg
    ensures Publishable(d, m, base)
  {
    hide EntryOk, WellNamed, DirectoryOf, LoadColl;
    assert forall i :: 0 <= i < |cids| ==> cids[i] in cids;
    forall i | 0 <= i < |cids|
      ensures EntryOk(d, m, m.collections[i]) && m.collections[i].cid == cids[i] && base.cols[cids[i]] == LoadColl(d, m.collections[i])
    {
      assert ListedAs(d, m, m.collections[i], cids[i], base);
    }
    forall cid | cid in base.cols ensures exists i :: 0 <= i < |m.collections| && m.collections[i].cid == cid {
      assert cid in cids;
      var i :| 0 <= i < |cids| && cids[i] == cid;
      assert m.collections[i].cid == cid;
    }
  }

  ghost predicate ListedAs(d: Disk, m: Manifest, e: CollEntry, cid: nat, base: Catalog) {
    e.cid == cid && cid in base.cols && EntryOk(d, m, e) && LoadColl(d, e) == base.cols[cid]
  }

  // ---- checkpoint ----------------------------------------------------------

  /** A manifest whose floor covers the whole log makes its own catalog the
      recovered one. */
  lemma CheckpointInStep(k: Catalog, d: Disk, m: Manifest, n: Counters)
    requires Publishable(d, m, k)
    requires forall cid :: cid in k.cols ==> cid < n.nextCid
    requires m.nextCid == n.nextCid && m.nextSeg <= n.nextSeg && m.version == n.version && m.floor == n.floor < n.nextLsn
    requires forall i :: 0 <= i < |Log(d)| ==> Log(d)[i].lsn <= m.floor
    ensures InStep(k, Install(d, m), n)
  {
    var d' := Install(d, m);
    InstallReads(d, m);
    InstallEntriesOk(d, m);
    ListedLoads(d, m.collections, k);
    AboveNone(Log(d), m.floor);
    assert Tail(d') == [];
    assert Recover(d') == k;
    assert LogOk(DirectoryOf(k), [], n.nextCid);
  }

  // ---- compaction ----------------------------------------------------------

  /** What a mid-window manifest lists for one collection. */
  function CompactedBase(k: Catalog, cid: nat, target: nat, seg: Sealed): Coll
    requires cid in k.cols
  {
    if cid == target then Base(k.cols[cid]).(sealed := [seg]) else Base(k.cols[cid])
  }

  function BaseCatalog(k: Catalog, target: nat, seg: Sealed): Catalog {
    Catalog(map cid | cid in k.cols :: CompactedBase(k, cid, target, seg), k.names)
  }

  function CompactedCatalog(k: Catalog, target: nat, seg: Sealed): Catalog
    requires target in k.cols
  {
    k.(cols := k.cols[target := Compacted(k.cols[target], seg)])
  }

  /** A collection without its window replays the window to itself. */
  lemma BaseReplays(oc: Option<Coll>, cid: nat, es: seq<Entry>, c: Coll)
    requires CollReplay(oc, cid, es) == Some(c)
    requires oc.Some? ==> oc.value == Base(oc.value)
    ensures CollReplay(Some(Base(c)), cid, es) == Some(c)
  {
    if Resets(es, cid) {
      ResetForgets(oc, Some(Base(c)), cid, es);
    } else {
      AbsentStays(cid, es);
      SegmentsKept(oc.value, cid, es);
    }
  }

  lemma {:induction false} AbsentStays(cid: nat, es: seq<Entry>)
    requires !Resets(es, cid)
    ensures CollReplay(None, cid, es) == None
  {
    if es != [] {
      ResetsPrefix(es, |es| - 1, cid);
      AbsentStays(cid, es[..|es| - 1]);
      assert !ResetsColl(es[|es| - 1].op, cid);
    }
  }

  /** One collection of a mid-window manifest, replayed. */
  lemma CompactedCollReplays(oc: Option<Coll>, cid: nat, es: seq<Entry>, c: Coll, seg: Sealed)
    requires CollReplay(oc, cid, es) == Some(c)
    requires oc.Some? ==> CollOk(oc.value) && oc.value == Base(oc.value)
    requires c.sealed != [] && Merges(c, seg.file)
    ensures CollReplay(Some(Base(c).(sealed := [seg])), cid, es) == Some(Compacted(c, seg))
  {
    SegmentsMeanNoReset(oc, cid, es);
    SegmentsKept(oc.value, cid, es);
    assert Base(c).(sealed := [seg]) == oc.value.(sealed := [seg]);
    CompactionReplay(oc.value, cid, es, seg);
  }

  lemma LoadedAreBases(d: Disk, cid: nat)
    requires EntriesOk(d, Current(d))
    ensures cid in Load(d).cols ==> CollOk(Load(d).cols[cid]) && Load(d).cols[cid] == Base(Load(d).cols[cid])
  {
    var entries := Current(d).collections;
    LoadAllCols(d, entries);
    if cid in Load(d).cols {
      var i :| 0 <= i < |entries| && entries[i].cid == cid;
      assert EntryOk(d, Current(d), entries[i]);
    }
  }

  lemma CompactionColl(k: Catalog, d: Disk, n: Counters, target: nat, seg: Sealed, cid: nat)
    requires InStep(k, d, n)
    requires target in k.cols && k.cols[target].sealed != [] && Merges(k.cols[target], seg.file)
    ensures Get(ReplayAll(BaseCatalog(k, target, seg), Tail(d)).cols, cid) == Get(CompactedCatalog(k, target, seg).cols, cid)
  {
    var es, b := Tail(d), BaseCatalog(k, target, seg);
    ReplayByCollection(Load(d), es, cid);
    ReplayByCollection(b, es, cid);
    LoadedAreBases(d, cid);
    var oc := Get(Load(d).cols, cid);
    if cid == target {
      CompactedCollReplays(oc, cid, es, k.cols[cid], seg);
    } else if cid in k.cols {
      BaseReplays(oc, cid, es, k.cols[cid]);
    } else if Resets(es, cid) {
      ResetForgets(oc, None, cid, es);
    } else {
      AbsentStays(cid, es);
      if oc.Some? { SegmentsKept(oc.value, cid, es); }
    }
  }

  lemma BaseDirectory(k: Catalog, target: nat, seg: Sealed)
    ensures DirectoryOf(BaseCatalog(k, target, seg)) == DirectoryOf(k)
  {
    assert DirectoryOf(BaseCatalog(k, target, seg)).dir == DirectoryOf(k).dir;
  }

  /** The unchanged log replays onto the compacted manifest to the compacted memory. */
  lemma CompactionReplays(k: Catalog, d: Disk, n: Counters, target: nat, seg: Sealed)
    requires InStep(k, d, n)
    requires target in k.cols && k.cols[target].sealed != [] && Merges(k.cols[target], seg.file)
    ensures ReplayAll(BaseCatalog(k, target, seg), Tail(d)) == CompactedCatalog(k, target, seg)
  {
    var es, b := Tail(d), BaseCatalog(k, target, seg);
    var r, want := ReplayAll(b, es), CompactedCatalog(k, target, seg);
    forall cid ensures Get(r.cols, cid) == Get(want.cols, cid) { CompactionColl(k, d, n, target, seg, cid); }
    SameGets(r.cols, want.cols);
    DirectoryReplays(b, es);
    DirectoryReplays(Load(d), es);
    BaseDirectory(k, target, seg);
    assert r.names == DirectoryOf(r).names;
  }

  lemma SameGets(m: map<nat, Coll>, n: map<nat, Coll>)
    requires forall x :: Get(m, x) == Get(n, x)
    ensures m == n
  {
    forall x ensures x in m <==> x in n { assert Get(m, x) == Get(n, x); }
    forall x | x in m ensures m[x] == n[x] { assert Get(m, x) == Get(n, x); }
  }

  lemma {:induction false} NextCidSettled(nextCid: nat, es: seq<Entry>)
    requires forall i :: 0 <= i < |es| && (es[i].op.Create? || es[i].op.Drop?) ==> es[i].op.cid < nextCid
    ensures NextCidOver(nextCid, es) == nextCid
  {
    if es != [] {
      var n := |es| - 1;
      assert forall i :: 0 <= i < n ==> es[..n][i] == es[i];
      NextCidSettled(nextCid, es[..n]);
    }
  }

  /** A mid-window manifest that keeps the floor keeps the recovered state. */
  lemma CompactionInStep(k: Catalog, d: Disk, n: Counters, d': Disk, m: Manifest, target: nat, seg: Sealed)
    requires InStep(k, d, n)
    requires target in k.cols && k.cols[target].sealed != [] && Merges(k.cols[target], seg.file)
    requires d'.wal == d.wal
    requires Publishable(d', m, BaseCatalog(k, target, seg))
    requires m.floor == n.floor && m.nextCid == n.nextCid && m.nextSeg == n.nextSeg + 1
    ensures InStep(CompactedCatalog(k, target, seg), Install(d', m), n.(version := m.version, nextSeg := m.nextSeg))
  {
    var d1, b := Install(d', m), BaseCatalog(k, target, seg);
    InstallReads(d', m);
    InstallEntriesOk(d', m);
    ListedLoads(d', m.collections, b);
    assert Log(d1) == Log(d) && Tail(d1) == Tail(d) && Load(d1) == b;
    CompactionReplays(k, d, n, target, seg);
    DirectoryReplays(Load(d), Tail(d));
    BaseDirectory(k, target, seg);
    NextCidSettled(n.nextCid, Tail(d));
  }
}
