/** Every durable step of the engine, and what recovery makes of the disk after it
    (crates/quiver-core/src/store.rs). */
module DiskSteps {
  import opened ByteStrings
  import opened Segments
  import opened Collections
  import opened CollectionLayout
  import opened Replay
  import opened WindowReplay
  import opened Disks

  // ---- steps that do not change what recovery reads -------------------------

  predicate SameSegments(d: Disk, d': Disk, e: CollEntry) {
    forall s :: 0 <= s < |e.segments| ==>
      SegKey(e.cid, e.segments[s]) in d'.segs && OpenSegment(d', e.cid, e.segments[s]) == OpenSegment(d, e.cid, e.segments[s])
  }

  /** The two disks differ only in files recovery does not read: unreferenced
      segments and manifests, and log records at or below the floor. */
  ghost predicate SameReading(d: Disk, d': Disk) {
    && d'.current == d.current
    && (d.current.Some? ==> d.current.value in d'.manifests)
    && Current(d') == Current(d)
    && (forall i :: 0 <= i < |Current(d).collections| ==> SameSegments(d, d', Current(d).collections[i]))
    && (forall key :: key in d'.dels ==> key.seg < Current(d).nextSeg)
    && Tail(d') == Tail(d)
  }

  lemma SameReadingLoad(d: Disk, d': Disk)
    requires SameReading(d, d')
    ensures Load(d') == Load(d)
    ensures forall i :: 0 <= i < |Current(d).collections| ==>
              LoadColl(d', Current(d).collections[i]) == LoadColl(d, Current(d).collections[i])
  {
    forall i | 0 <= i < |Current(d).collections|
      ensures LoadColl(d', Current(d).collections[i]) == LoadColl(d, Current(d).collections[i])
    {
      assert SameSegments(d, d', Current(d).collections[i]);
      LoadCollSame(d, d', Current(d).collections[i]);
    }
    LoadAllSame(d, d', Current(d).collections);
  }

  /** Garbage collection, log rotation and orphan files are invisible to recovery. */
  lemma SameReadingOk(d: Disk, d': Disk)
    requires DiskOk(d) && SameReading(d, d')
    ensures DiskOk(d') && Recover(d') == Recover(d) && RecoverNextCid(d') == RecoverNextCid(d)
  {
    SameReadingLoad(d, d');
    var m := Current(d);
    forall i | 0 <= i < |m.collections| ensures EntryOk(d', m, m.collections[i]) {
      assert EntryOk(d, m, m.collections[i]) && SameSegments(d, d', m.collections[i]);
    }
  }

  // ---- appending a record --------------------------------------------------

  function Advance(n: Counters, op: Op): Counters {
    n.(nextLsn := n.nextLsn + 1, nextCid := NextCidAfter(n.nextCid, op))
  }

  /** A durable append is the operation itself: recovery applies it. */
  lemma AppendInStep(k: Catalog, d: Disk, n: Counters, op: Op)
    requires InStep(k, d, n) && d.wal != []
    requires Appendable(DirectoryOf(k), Tail(d), op)
    ensures InStep(Apply(k, op), Append(d, Entry(n.nextLsn, op)), Advance(n, op))
  {
    var e := Entry(n.nextLsn, op);
    var d' := Append(d, e);
    AppendTail(d, e);
    AppendLog(d, e);
    DirectoryReplays(Load(d), Tail(d));
    LogOkAppend(DirectoryOf(Load(d)), Tail(d), n.nextCid, e);
    AppendEntriesOk(d, e);
  }

  lemma AppendEntriesOk(d: Disk, e: Entry)
    requires d.wal != [] && EntriesOk(d, Current(d))
    ensures EntriesOk(Append(d, e), Current(d))
  {
    var d', m := Append(d, e), Current(d);
    forall i | 0 <= i < |m.collections| ensures EntryOk(d', m, m.collections[i]) {
      assert EntryOk(d, m, m.collections[i]);
      LoadCollSame(d, d', m.collections[i]);
    }
  }

  // ---- tombstones written ahead of the manifest ----------------------------

  /** Row `r` of segment `seg` died in the current window of collection `cid`. */
  ghost predicate DiedInWindow(k: Catalog, key: SegKey, r: nat) {
    key.cid in k.cols &&
    exists s: nat :: s < |k.cols[key.cid].sealed| && k.cols[key.cid].sealed[s].segId == key.seg && WindowDead(k.cols[key.cid], s, r)
  }

  /** `d'` is `d` part-way into a checkpoint of `k`: some of the window's tombstones
      are already on disk, and new segment files may exist unreferenced. */
  ghost predicate HalfAdvanced(k: Catalog, d: Disk, d': Disk) {
    && d'.manifests == d.manifests && d'.current == d.current && d'.wal == d.wal
    && (forall key :: key in d.segs && key.seg < Current(d).nextSeg ==> key in d'.segs && d'.segs[key] == d.segs[key])
    && (forall key :: key in d'.dels ==> key.seg < Current(d).nextSeg)
    && (forall key :: DelOf(d, key) <= DelOf(d', key))
    && (forall key, r: nat :: r in DelOf(d', key) && r !in DelOf(d, key) ==> DiedInWindow(k, key, r))
  }

  /** The rows of one collection tombstoned early. */
  function Early(d: Disk, d': Disk, e: CollEntry): set<Loc> {
    set s, r | 0 <= s < |e.segments| && r in DelOf(d', SegKey(e.cid, e.segments[s]))
               && r !in DelOf(d, SegKey(e.cid, e.segments[s])) :: Loc(s, r)
  }

  lemma EarlyLoad(d: Disk, d': Disk, e: CollEntry)
    requires forall s :: 0 <= s < |e.segments| ==>
      FileOf(d', SegKey(e.cid, e.segments[s])) == FileOf(d, SegKey(e.cid, e.segments[s]))
    requires forall key :: DelOf(d, key) <= DelOf(d', key)
    ensures Ahead(LoadColl(d, e), LoadColl(d', e), Early(d, d', e))
  {
    var c, c', x := LoadColl(d, e), LoadColl(d', e), Early(d, d', e);
    forall s: nat, r: nat | InRange(c.sealed, s, r)
      ensures IsDead(c', s, r) <==> IsDead(c, s, r) || Loc(s, r) in x
    {
      var key := SegKey(e.cid, e.segments[s]);
      assert c.sealed[s].dead == DelOf(d, key) && c'.sealed[s].dead == DelOf(d', key);
    }
  }

  /** An early tombstone is a window tombstone of the same row in memory. */
  lemma EarlyIsDead(k: Catalog, d: Disk, d': Disk, e: CollEntry, es: seq<Entry>, l: Loc)
    requires HalfAdvanced(k, d, d')
    requires forall s, s' :: 0 <= s < s' < |e.segments| ==> e.segments[s] != e.segments[s']
    requires Get(k.cols, e.cid) == CollReplay(Some(LoadColl(d, e)), e.cid, es)
    requires l in Early(d, d', e)
    ensures !Resets(es, e.cid)
    ensures e.cid in k.cols && k.cols[e.cid].sealed == LoadColl(d, e).sealed && WindowDead(k.cols[e.cid], l.seg, l.row)
  {
    var key := SegKey(e.cid, e.segments[l.seg]);
    assert DiedInWindow(k, key, l.row);
    var c := k.cols[e.cid];
    var s: nat :| s < |c.sealed| && c.sealed[s].segId == key.seg && WindowDead(c, s, l.row);
    SegmentsMeanNoReset(Some(LoadColl(d, e)), e.cid, es);
    SegmentsKept(LoadColl(d, e), e.cid, es);
    assert c.sealed[s].segId == e.segments[s];
  }

  lemma MoreDeadOk(c: Coll, c': Coll, x: set<Loc>)
    requires CollOk(c) && Ahead(c, c', x) && c'.window == map[] && c'.index == map[]
    requires forall s, r :: 0 <= s < |c'.sealed| && r in c'.sealed[s].dead ==> r < |c'.sealed[s].file.ids|
    requires forall s: nat, r: nat :: InRange(c.sealed, s, r) && r in c.sealed[s].dead ==> r in c'.sealed[s].dead
    ensures CollOk(c')
  {
    assert SegmentsOk(c'.sealed);
    assert Shadowed(c'.sealed) by {
      forall s: nat, r: nat, s': nat, r': nat |
        InRange(c'.sealed, s, r) && InRange(c'.sealed, s', r') && s < s' && c'.sealed[s].file.ids[r] == c'.sealed[s'].file.ids[r']
        ensures r in c'.sealed[s].dead
      {
        assert InRange(c.sealed, s, r) && InRange(c.sealed, s', r');
      }
    }
  }

  lemma HalfAdvancedEntry(k: Catalog, d: Disk, d': Disk, e: CollEntry, es: seq<Entry>)
    requires HalfAdvanced(k, d, d') && EntryOk(d, Current(d), e)
    requires CatalogOk(k)
    requires Get(k.cols, e.cid) == CollReplay(Some(LoadColl(d, e)), e.cid, es)
    ensures EntryOk(d', Current(d), e)
    ensures var c' := CollReplay(Some(LoadColl(d', e)), e.cid, es);
      (c'.Some? <==> e.cid in k.cols) && (c'.Some? ==> TableOf(c'.value) == TableOf(k.cols[e.cid]))
  {
    var c, c', x := LoadColl(d, e), LoadColl(d', e), Early(d, d', e);
    EarlyLoad(d, d', e);
    forall l | l in x
      ensures e.cid in k.cols && InRange(k.cols[e.cid].sealed, l.seg, l.row) && IsDead(k.cols[e.cid], l.seg, l.row)
      ensures InRange(c.sealed, l.seg, l.row)
    {
      EarlyIsDead(k, d, d', e, es, l);
      assert CollOk(k.cols[e.cid]);
    }
    forall s, r | 0 <= s < |c'.sealed| && r in c'.sealed[s].dead ensures r < |c'.sealed[s].file.ids| {
      if r !in c.sealed[s].dead { assert Loc(s, r) in x; }
    }
    MoreDeadOk(c, c', x);
    ReplayAhead(Some(c), Some(c'), x, e.cid, es);
    var f, f' := CollReplay(Some(c), e.cid, es), CollReplay(Some(c'), e.cid, es);
    if f != f' {
      assert Get(k.cols, e.cid) == f;
      AheadOfDead(f.value, f'.value, x);
    }
  }

  /** The directory a manifest describes. */
  function ListedDirectory(entries: seq<CollEntry>): Directory {
    if entries == [] then Directory(map[], map[])
    else
      var rest := ListedDirectory(entries[..|entries| - 1]);
      var e := entries[|entries| - 1];
      Directory(rest.dir[e.cid := e.name], rest.names[e.name := e.cid])
  }

  lemma DirectoryInsert(cols: map<nat, Coll>, names: map<Bytes, nat>, cid: nat, c: Coll)
    ensures DirectoryOf(Catalog(cols[cid := c], names)).dir == DirectoryOf(Catalog(cols, names)).dir[cid := c.name]
  {}

  lemma {:induction false} LoadDirectory(d: Disk, entries: seq<CollEntry>)
    ensures DirectoryOf(LoadAll(d, entries)) == ListedDirectory(entries)
  {
    if entries != [] {
      var n := |entries| - 1;
      LoadDirectory(d, entries[..n]);
      DirectoryInsert(LoadAll(d, entries[..n]).cols, LoadAll(d, entries).names, entries[n].cid, LoadColl(d, entries[n]));
    }
  }

  lemma HalfAdvancedMeaning(k: Catalog, d: Disk, d': Disk, n: Counters)
    requires InStep(k, d, n) && CatalogOk(k) && HalfAdvanced(k, d, d')
    requires Recover(d').names == k.names
    ensures Meaning(Recover(d')) == Meaning(k)
  {
    var r := Recover(d');
    forall cid ensures cid in r.cols <==> cid in k.cols { HalfAdvancedColl(k, d, d', n, cid); }
    forall cid | cid in r.cols ensures TableOf(r.cols[cid]) == TableOf(k.cols[cid]) { HalfAdvancedColl(k, d, d', n, cid); }
    SameMeaning(r, k);
  }

  /** Replay tolerates half-advanced tombstones: whichever of the window's tombstones
      reached the disk, recovery yields the same ledger. */
  lemma HalfAdvancedOk(k: Catalog, d: Disk, d': Disk, n: Counters)
    requires InStep(k, d, n) && CatalogOk(k) && HalfAdvanced(k, d, d')
    ensures DiskOk(d') && Durable(d') == Durable(d)
  {
    var m := Current(d);
    assert Current(d') == m && Tail(d') == Tail(d);
    assert EntriesOk(d', m) by {
      forall i | 0 <= i < |m.collections| ensures EntryOk(d', m, m.collections[i]) { HalfAdvancedTable(k, d, d', n, i); }
    }
    LoadDirectory(d, m.collections);
    LoadDirectory(d', m.collections);
    DirectoryReplays(Load(d), Tail(d));
    DirectoryReplays(Load(d'), Tail(d));
    HalfAdvancedMeaning(k, d, d', n);
  }

  lemma HalfAdvancedTable(k: Catalog, d: Disk, d': Disk, n: Counters, i: nat)
    requires InStep(k, d, n) && CatalogOk(k) && HalfAdvanced(k, d, d')
    requires i < |Current(d).collections|
    ensures EntryOk(d', Current(d), Current(d).collections[i])
    ensures var e := Current(d).collections[i];
      var c' := CollReplay(Some(LoadColl(d', e)), e.cid, Tail(d));
      (c'.Some? <==> e.cid in k.cols) && (c'.Some? ==> TableOf(c'.value) == TableOf(k.cols[e.cid]))
  {
    var e := Current(d).collections[i];
    LoadAllCols(d, Current(d).collections);
    ReplayByCollection(Load(d), Tail(d), e.cid);
    HalfAdvancedEntry(k, d, d', e, Tail(d));
  }

  lemma HalfAdvancedColl(k: Catalog, d: Disk, d': Disk, n: Counters, cid: nat)
    requires InStep(k, d, n) && CatalogOk(k) && HalfAdvanced(k, d, d')
    ensures cid in Recover(d').cols <==> cid in k.cols
    ensures cid in k.cols ==> TableOf(Recover(d').cols[cid]) == TableOf(k.cols[cid])
  {
    hide LogOk, EntryOk, CollOk, LoadColl, CollReplay, TableOf;
    var m := Current(d);
    ReplayByCollection(Load(d'), Tail(d), cid);
    ReplayByCollection(Load(d), Tail(d), cid);
    LoadAllCols(d, m.collections);
    LoadAllCols(d', m.collections);
    if cid in Load(d).cols {
      var i :| 0 <= i < |m.collections| && m.collections[i].cid == cid;
      HalfAdvancedTable(k, d, d', n, i);
    } else {
      assert cid !in Load(d').cols;
    }
  }
}
