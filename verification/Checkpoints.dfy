/** What a checkpoint writes, phase by phase, and why its manifest may be published
    (crates/quiver-core/src/store.rs, `checkpoint_with_index_snapshots`). */
module Checkpoints {
  import opened ByteStrings
  import opened SecondaryIndex
  import opened Segments
  import opened Descriptors
  import opened Collections
  import opened CollectionLayout
  import opened Replay
  import opened WindowReplay
  import opened Disks
  import opened DiskSteps
  import opened Publishing

  /** The disk holds exactly these segments, tombstones included. */
  ghost predicate OnDisk(d: Disk, cid: nat, segs: seq<Sealed>) {
    forall s :: 0 <= s < |segs| ==> SegKey(cid, segs[s].segId) in d.segs && OpenSegment(d, cid, segs[s].segId) == segs[s]
  }

  /** Distinct segment ids, all handed out. */
  predicate IdsBelow(segs: seq<Sealed>, bound: nat) {
    && (forall s :: 0 <= s < |segs| ==> segs[s].segId < bound)
    && (forall s, s' :: 0 <= s < s' < |segs| ==> segs[s].segId != segs[s'].segId)
  }

  function SegIds(segs: seq<Sealed>): (ids: seq<nat>)
    ensures |ids| == |segs|
    ensures forall s :: 0 <= s < |segs| ==> ids[s] == segs[s].segId
  {
    seq(|segs|, s requires 0 <= s < |segs| => segs[s].segId)
  }

  lemma EntryOnDisk(d: Disk, m: Manifest, e: CollEntry)
    requires EntryOk(d, m, e)
    ensures OnDisk(d, e.cid, LoadColl(d, e).sealed) && IdsBelow(LoadColl(d, e).sealed, m.nextSeg)
  {}

  /** In steady state the disk holds every segment memory holds. */
  lemma MemoryOnDisk(k: Catalog, d: Disk, n: Counters, cid: nat)
    requires InStep(k, d, n) && cid in k.cols
    ensures OnDisk(d, cid, k.cols[cid].sealed) && IdsBelow(k.cols[cid].sealed, Current(d).nextSeg)
  {
    hide LogOk, EntryOk, OnDisk, IdsBelow;
    var entries, es := Current(d).collections, Tail(d);
    ReplayByCollection(Load(d), es, cid);
    if k.cols[cid].sealed == [] {
      NothingOnDisk(d, cid);
    } else {
      SegmentsMeanNoReset(Get(Load(d).cols, cid), cid, es);
      LoadAllCols(d, entries);
      var i :| 0 <= i < |entries| && entries[i].cid == cid;
      SegmentsKept(LoadColl(d, entries[i]), cid, es);
      EntryOnDisk(d, Current(d), entries[i]);
    }
  }

  /** The disk holds every segment of `k`, all with ids handed out before. */
  ghost predicate Holds(k: Catalog, d: Disk, n: Counters) {
    && Current(d).nextSeg <= n.nextSeg && (forall key :: key in d.dels ==> key.seg < Current(d).nextSeg)
    && forall cid :: cid in k.cols ==> OnDisk(d, cid, k.cols[cid].sealed) && IdsBelow(k.cols[cid].sealed, Current(d).nextSeg)
  }

  lemma InStepHolds(k: Catalog, d: Disk, n: Counters)
    requires InStep(k, d, n)
    ensures Holds(k, d, n)
  {
    hide EntriesOk, LogOk, OnDisk, IdsBelow;
    forall cid | cid in k.cols ensures OnDisk(d, cid, k.cols[cid].sealed) && IdsBelow(k.cols[cid].sealed, Current(d).nextSeg) {
      MemoryOnDisk(k, d, n, cid);
    }
  }

  lemma NothingOnDisk(d: Disk, cid: nat)
    ensures OnDisk(d, cid, []) && IdsBelow([], Current(d).nextSeg)
  {}

  // ---- phase A -------------------------------------------------------------

  function WriteDel(d: Disk, key: SegKey, rows: set<nat>): Disk { d.(dels := d.dels[key := rows]) }

  function WriteSeg(d: Disk, key: SegKey, file: SegFile): Disk { d.(segs := d.segs[key := file]) }

  /** Folding one segment's window tombstones. */
  function FoldedTo(c: Coll, n: nat): seq<Sealed>
    requires n <= |c.sealed|
  {
    Folded(c)[..n] + c.sealed[n..]
  }

  /** Nothing is folded yet; everything is. */
  lemma FoldedEnds(c: Coll)
    ensures FoldedTo(c, 0) == c.sealed && FoldedTo(c, |c.sealed|) == Folded(c)
  {}

  lemma FoldedAt(c: Coll, s: nat)
    requires s < |c.sealed| && s in c.window
    ensures Folded(c)[s].dead == c.sealed[s].dead + c.window[s]
  {}

  lemma NotPending(c: Coll)
    requires c.window == map[]
    ensures Folded(c) == c.sealed
  {
    forall s | 0 <= s < |c.sealed| ensures Folded(c)[s] == c.sealed[s] {
      assert c.sealed[s].dead + {} == c.sealed[s].dead;
    }
  }

  /** A segment the window did not touch needs no rewrite. */
  lemma UntouchedSegment(c: Coll, s: nat)
    requires s < |c.sealed| && s !in c.window
    ensures FoldedTo(c, s + 1) == FoldedTo(c, s)
  {
    assert Folded(c)[s] == c.sealed[s];
    assert Folded(c)[..s + 1] == Folded(c)[..s] + [c.sealed[s]];
    assert c.sealed[s..] == [c.sealed[s]] + c.sealed[s + 1..];
  }

  /** Rewriting a segment's tombstones with the window's merged in. */
  lemma DelStep(k: Catalog, d: Disk, d': Disk, cid: nat, s: nat)
    requires HalfAdvanced(k, d, d')
    requires cid in k.cols && s < |k.cols[cid].sealed|
    requires OnDisk(d, cid, k.cols[cid].sealed) && IdsBelow(k.cols[cid].sealed, Current(d).nextSeg)
    requires OnDisk(d', cid, FoldedTo(k.cols[cid], s))
    ensures var c := k.cols[cid];
      var d1 := WriteDel(d', SegKey(cid, c.sealed[s].segId), Folded(c)[s].dead);
      HalfAdvanced(k, d, d1) && OnDisk(d1, cid, FoldedTo(c, s + 1))
  {
    hide HalfAdvanced, OpenSegment, FoldedTo, Folded, Current, WriteDel, IdsBelow;
    DelStepAdvanced(k, d, d', cid, s);
    var c := k.cols[cid];
    var rows := Folded(c)[s].dead;
    var d1 := WriteDel(d', SegKey(cid, c.sealed[s].segId), rows);
    var f, f1 := FoldedTo(c, s), FoldedTo(c, s + 1);
    FoldedToShape(c, s);
    FoldedToShape(c, s + 1);
    forall i | 0 <= i < |f1| ensures SegKey(cid, f1[i].segId) in d1.segs && OpenSegment(d1, cid, f1[i].segId) == f1[i] {
      assert SegKey(cid, f[i].segId) in d'.segs && OpenSegment(d', cid, f[i].segId) == f[i];
      FoldedToAt(c, s, i);
      FoldedToAt(c, s + 1, i);
      DistinctIds(c.sealed, Current(d).nextSeg, i, s);
      OpenAfterDel(d', cid, f[i].segId, c.sealed[s].segId, rows);
    }
  }

  lemma FoldedToShape(c: Coll, n: nat)
    requires n <= |c.sealed|
    ensures |FoldedTo(c, n)| == |c.sealed|
  {}

  lemma FoldedToAt(c: Coll, n: nat, i: nat)
    requires n <= |c.sealed| && i < |c.sealed|
    ensures FoldedTo(c, n)[i] == if i < n then c.sealed[i].(dead := Folded(c)[i].dead) else c.sealed[i]
  {}

  lemma DistinctIds(segs: seq<Sealed>, bound: nat, i: nat, j: nat)
    requires IdsBelow(segs, bound) && i < |segs| && j < |segs|
    ensures segs[i].segId == segs[j].segId <==> i == j
  {}

  lemma OpenAfterDel(d: Disk, cid: nat, seg: nat, key: nat, rows: set<nat>)
    ensures var d1 := WriteDel(d, SegKey(cid, key), rows);
      d1.segs == d.segs && OpenSegment(d1, cid, seg) == if seg == key then OpenSegment(d, cid, seg).(dead := rows) else OpenSegment(d, cid, seg)
  {}

  lemma DelStepAdvanced(k: Catalog, d: Disk, d': Disk, cid: nat, s: nat)
    requires HalfAdvanced(k, d, d')
    requires cid in k.cols && s < |k.cols[cid].sealed|
    requires OnDisk(d, cid, k.cols[cid].sealed) && IdsBelow(k.cols[cid].sealed, Current(d).nextSeg)
    ensures HalfAdvanced(k, d, WriteDel(d', SegKey(cid, k.cols[cid].sealed[s].segId), Folded(k.cols[cid])[s].dead))
  {
    var c := k.cols[cid];
    var key := SegKey(cid, c.sealed[s].segId);
    var rows := Folded(c)[s].dead;
    var d1 := WriteDel(d', key, rows);
    assert DelOf(d, key) == c.sealed[s].dead;
    forall x, r: nat | r in DelOf(d1, x) && r !in DelOf(d, x) ensures DiedInWindow(k, x, r) {
      if x == key { assert WindowDead(c, s, r); } else { assert DelOf(d1, x) == DelOf(d', x); }
    }
    forall x ensures DelOf(d, x) <= DelOf(d1, x) {
      if x != key { assert DelOf(d1, x) == DelOf(d', x); }
    }
  }

  /** Writing a new, still unreferenced segment. */
  lemma SegStep(k: Catalog, d: Disk, d': Disk, cid: nat, segs: seq<Sealed>, segId: nat, file: SegFile)
    requires HalfAdvanced(k, d, d') && segId >= Current(d).nextSeg
    requires OnDisk(d', cid, segs) && forall s :: 0 <= s < |segs| ==> segs[s].segId < segId
    ensures HalfAdvanced(k, d, WriteSeg(d', SegKey(cid, segId), file))
    ensures OnDisk(WriteSeg(d', SegKey(cid, segId), file), cid, segs + [Sealed(segId, file, {})])
  {
    var d1, key := WriteSeg(d', SegKey(cid, segId), file), SegKey(cid, segId);
    assert forall x :: DelOf(d1, x) == DelOf(d', x);
    assert DelOf(d1, key) == {};
    var all := segs + [Sealed(segId, file, {})];
    forall s | 0 <= s < |all| ensures SegKey(cid, all[s].segId) in d1.segs && OpenSegment(d1, cid, all[s].segId) == all[s] {
      if s < |segs| { assert OpenSegment(d', cid, segs[s].segId) == segs[s]; }
    }
  }

  /** A step on one collection's files leaves the others' as they were. */
  ghost predicate OthersKept(d: Disk, d': Disk, cid: nat) {
    && (forall key: SegKey :: key.cid != cid && key in d.segs ==> key in d'.segs && d'.segs[key] == d.segs[key])
    && (forall key: SegKey :: key.cid != cid ==> DelOf(d', key) == DelOf(d, key))
  }

  lemma OthersKeptSteps(d: Disk, d': Disk, cid: nat, seg: nat, rows: set<nat>, file: SegFile)
    requires OthersKept(d, d', cid)
    ensures OthersKept(d, WriteDel(d', SegKey(cid, seg), rows), cid)
    ensures OthersKept(d, WriteSeg(d', SegKey(cid, seg), file), cid)
  {
    var a, b := WriteDel(d', SegKey(cid, seg), rows), WriteSeg(d', SegKey(cid, seg), file);
    forall key: SegKey | key.cid != cid ensures DelOf(a, key) == DelOf(d, key) && DelOf(b, key) == DelOf(d, key) {
      assert DelOf(d', key) == DelOf(d, key);
    }
  }

  lemma OthersKeptStart(d: Disk, cid: nat)
    ensures OthersKept(d, d, cid)
  {}

  lemma OtherCollections(d: Disk, d': Disk, cid: nat, other: nat, segs: seq<Sealed>)
    requires other != cid && OnDisk(d, other, segs) && OthersKept(d, d', cid)
    ensures OnDisk(d', other, segs)
  {
    forall s | 0 <= s < |segs| ensures SegKey(other, segs[s].segId) in d'.segs && OpenSegment(d', other, segs[s].segId) == segs[s] {
      var key := SegKey(other, segs[s].segId);
      assert OpenSegment(d, other, segs[s].segId) == segs[s];
      assert DelOf(d', key) == DelOf(d, key);
    }
  }

  lemma OthersKeptTrans(a: Disk, b: Disk, c: Disk, cid: nat)
    requires OthersKept(a, b, cid) && OthersKept(b, c, cid)
    ensures OthersKept(a, c, cid)
  {
    forall key: SegKey | key.cid != cid ensures DelOf(c, key) == DelOf(a, key) { assert DelOf(b, key) == DelOf(a, key); }
  }

  lemma FoldedIds(c: Coll, low: nat, bound: nat)
    requires IdsBelow(c.sealed, low) && low <= bound
    ensures IdsBelow(Folded(c), low) && IdsBelow(Folded(c), bound) && IdsBelow(c.sealed, bound)
  {}

  lemma SegAfter(k: Catalog, d: Disk, d': Disk, cid: nat, segId: nat, file: SegFile)
    requires cid in k.cols
    requires HalfAdvanced(k, d, d') && Current(d).nextSeg <= segId
    requires OnDisk(d', cid, Folded(k.cols[cid])) && IdsBelow(Folded(k.cols[cid]), segId)
    ensures HalfAdvanced(k, d, WriteSeg(d', SegKey(cid, segId), file))
    ensures OnDisk(WriteSeg(d', SegKey(cid, segId), file), cid, Folded(k.cols[cid]) + [Sealed(segId, file, {})])
    ensures IdsBelow(Folded(k.cols[cid]) + [Sealed(segId, file, {})], segId + 1)
  {
    hide HalfAdvanced, OnDisk, Folded;
    SegStep(k, d, d', cid, Folded(k.cols[cid]), segId, file);
  }

  // ---- phase B -------------------------------------------------------------

  /** The new segments of each collection: at most one. */
  type Plan = map<nat, seq<Sealed>>

  /** One collection is ready to be listed: its tombstones are folded on disk and its
      active buffer is sealed in a fresh segment. */
  ghost predicate Ready(c: Coll, d: Disk, cid: nat, added: seq<Sealed>, bound: nat) {
    && Seals(c, added)
    && OnDisk(d, cid, Folded(c) + added)
    && IdsBelow(Folded(c) + added, bound)
    && forall s :: 0 <= s < |added| ==> Indexed(added[s].file, c.desc.filterable)
  }

  lemma ReadyUnsealed(c: Coll, d: Disk, cid: nat, bound: nat)
    requires c.index == map[] && OnDisk(d, cid, Folded(c)) && IdsBelow(Folded(c), bound)
    ensures Ready(c, d, cid, [], bound)
  {
    hide OnDisk, IdsBelow, Folded;
    assert Folded(c) + [] == Folded(c);
  }

  lemma ReadySealed(c: Coll, d: Disk, cid: nat, segId: nat, file: SegFile)
    requires c.index != map[] && SealsActive(c, file) && Indexed(file, c.desc.filterable)
    requires OnDisk(d, cid, Folded(c) + [Sealed(segId, file, {})]) && IdsBelow(Folded(c) + [Sealed(segId, file, {})], segId + 1)
    ensures Ready(c, d, cid, [Sealed(segId, file, {})], segId + 1)
  {
    hide OnDisk, IdsBelow, Folded, SealsActive, Indexed;
  }

  ghost predicate AllReady(k: Catalog, d: Disk, plan: Plan, bound: nat) {
    forall cid :: cid in k.cols ==> cid in plan && Ready(k.cols[cid], d, cid, plan[cid], bound)
  }

  function Rest(cids: seq<nat>, i: nat): set<nat>
    requires i <= |cids|
  {
    set cid | cid in cids[i..]
  }

  lemma RestAll(cids: seq<nat>)
    ensures forall cid :: cid in cids ==> cid in Rest(cids, 0)
  {
    assert cids[0..] == cids;
  }

  lemma RestNone(cids: seq<nat>)
    ensures Rest(cids, |cids|) == {}
  {}

  lemma RestStep(cids: seq<nat>, i: nat)
    requires i < |cids| && forall a, b :: 0 <= a < b < |cids| ==> cids[a] < cids[b]
    ensures cids[i] in Rest(cids, i) && Rest(cids, i) - {cids[i]} == Rest(cids, i + 1)
  {
    assert cids[i..] == [cids[i]] + cids[i + 1..];
    assert cids[i] !in cids[i + 1..];
  }

  /** After the first collections are prepared: they are ready, the rest untouched. */
  ghost predicate Prepared(k: Catalog, d: Disk, plan: Plan, bound: nat, todo: set<nat>) {
    && (forall cid :: cid in k.cols && cid !in todo ==> cid in plan && Ready(k.cols[cid], d, cid, plan[cid], bound))
    && (forall cid :: cid in k.cols && cid in todo ==> OnDisk(d, cid, k.cols[cid].sealed))
  }

  lemma ReadyKept(c: Coll, d: Disk, d': Disk, cid: nat, other: nat, added: seq<Sealed>, bound: nat, bound': nat)
    requires other != cid && OthersKept(d, d', cid) && bound <= bound'
    requires Ready(c, d, other, added, bound)
    ensures Ready(c, d', other, added, bound')
  {
    hide OnDisk, OthersKept, Seals, Indexed, Folded;
    OtherCollections(d, d', cid, other, Folded(c) + added);
  }

  lemma PreparedStep(k: Catalog, d: Disk, d': Disk, plan: Plan, bound: nat, bound': nat, todo: set<nat>, cid: nat, added: seq<Sealed>)
    requires Prepared(k, d, plan, bound, todo) && cid in todo && cid in k.cols
    requires OthersKept(d, d', cid) && bound <= bound' && Ready(k.cols[cid], d', cid, added, bound')
    ensures Prepared(k, d', plan[cid := added], bound', todo - {cid})
  {
    hide OnDisk, OthersKept, Ready;
    forall x | x in k.cols && x !in todo - {cid} ensures Ready(k.cols[x], d', x, plan[cid := added][x], bound') {
      if x != cid { ReadyKept(k.cols[x], d, d', cid, x, plan[x], bound, bound'); }
    }
    forall x | x in k.cols && x in todo - {cid} ensures OnDisk(d', x, k.cols[x].sealed) {
      OtherCollections(d, d', cid, x, k.cols[x].sealed);
    }
  }

  lemma PreparedStart(k: Catalog, d: Disk, n: Counters, todo: set<nat>)
    requires Holds(k, d, n) && k.cols.Keys <= todo
    ensures Prepared(k, d, map[], n.nextSeg, todo)
  {
    hide OnDisk, IdsBelow;
  }

  lemma HalfAdvancedStart(k: Catalog, d: Disk)
    requires DiskOk(d)
    ensures HalfAdvanced(k, d, d)
  {}

  lemma StartAdvancing(k: Catalog, d: Disk, n: Counters, todo: set<nat>)
    requires DiskOk(d) && Holds(k, d, n) && forall cid :: cid in k.cols ==> cid in todo
    ensures HalfAdvanced(k, d, d) && Prepared(k, d, map[], n.nextSeg, todo) && Current(d).nextSeg <= n.nextSeg
  {
    hide DiskOk, HalfAdvanced, Prepared;
    PreparedStart(k, d, n, todo);
    HalfAdvancedStart(k, d);
  }

  lemma PreparedTodo(k: Catalog, d: Disk, plan: Plan, bound: nat, todo: set<nat>, cid: nat)
    requires Prepared(k, d, plan, bound, todo) && cid in todo && cid in k.cols
    ensures OnDisk(d, cid, k.cols[cid].sealed)
  {}

  lemma PreparedAll(k: Catalog, d: Disk, plan: Plan, bound: nat)
    requires Prepared(k, d, plan, bound, {})
    ensures AllReady(k, d, plan, bound)
  {
    hide Ready;
  }

  function SealedCatalog(k: Catalog, plan: Plan): Catalog
    requires forall cid :: cid in k.cols ==> cid in plan
  {
    Catalog(map cid | cid in k.cols :: SealedUp(k.cols[cid], plan[cid]), k.names)
  }

  /** The catalog with only the collections of `done` sealed up. */
  function SealedSome(k: Catalog, plan: Plan, done: set<nat>): Catalog
    requires forall cid :: cid in k.cols ==> cid in plan
  {
    Catalog(map cid | cid in k.cols :: if cid in done then SealedUp(k.cols[cid], plan[cid]) else k.cols[cid], k.names)
  }

  lemma SealedNone(k: Catalog, plan: Plan)
    requires forall cid :: cid in k.cols ==> cid in plan
    ensures SealedSome(k, plan, {}) == k
  {
    assert SealedSome(k, plan, {}).cols == k.cols;
  }

  lemma SealedMore(k: Catalog, plan: Plan, done: set<nat>, cid: nat)
    requires forall x :: x in k.cols ==> x in plan
    requires cid in k.cols && cid !in done
    ensures SealedSome(k, plan, done).cols[cid] == k.cols[cid]
    ensures SealedSome(k, plan, done + {cid}) ==
      SealedSome(k, plan, done).(cols := SealedSome(k, plan, done).cols[cid := SealedUp(k.cols[cid], plan[cid])])
  {
    hide SealedUp;
    assert SealedSome(k, plan, done + {cid}).cols == SealedSome(k, plan, done).cols[cid := SealedUp(k.cols[cid], plan[cid])];
  }

  lemma SealedEvery(k: Catalog, plan: Plan, done: set<nat>)
    requires forall cid :: cid in k.cols ==> cid in plan && cid in done
    ensures SealedSome(k, plan, done) == SealedCatalog(k, plan)
  {
    hide SealedUp;
    assert SealedSome(k, plan, done).cols == SealedCatalog(k, plan).cols;
  }

  function EntryFor(cid: nat, c: Coll, segs: seq<Sealed>): CollEntry {
    CollEntry(cid, c.name, c.desc, SegIds(segs))
  }

  lemma EntryLoads(d: Disk, cid: nat, c: Coll, segs: seq<Sealed>)
    requires OnDisk(d, cid, segs)
    ensures LoadColl(d, EntryFor(cid, c, segs)) == Coll(c.name, c.desc, segs, [], map[], map[])
  {
    var e := EntryFor(cid, c, segs);
    forall s | 0 <= s < |segs| ensures OpenSegments(d, cid, e.segments)[s] == segs[s] {
      assert OpenSegment(d, cid, segs[s].segId) == segs[s];
    }
    assert OpenSegments(d, cid, e.segments) == segs;
  }

  lemma SealedUpOk(c: Coll, added: seq<Sealed>)
    requires CollOk(c) && Seals(c, added)
    requires forall s :: 0 <= s < |added| ==> Indexed(added[s].file, c.desc.filterable)
    ensures CollOk(SealedUp(c, added)) && TableOf(SealedUp(c, added)) == TableOf(c)
  {
    hide Indexed;
    SealedUpContents(c, added);
    var d := SealedUp(c, added);
    forall s | 0 <= s < |d.sealed| ensures Indexed(d.sealed[s].file, d.desc.filterable) {
      if s < |c.sealed| { assert d.sealed[s].file == c.sealed[s].file; }
    }
  }

  lemma ReadyEntry(c: Coll, d: Disk, cid: nat, added: seq<Sealed>, m: Manifest)
    requires CollOk(c) && Ready(c, d, cid, added, m.nextSeg)
    ensures var e := EntryFor(cid, c, Folded(c) + added);
      LoadColl(d, e) == SealedUp(c, added) && EntryOk(d, m, e)
  {
    hide Seals, CollOk, Indexed;
    EntryLoads(d, cid, c, Folded(c) + added);
    SealedUpOk(c, added);
  }

  /** The entries list each collection of `k` once, in id order, as planned. */
  ghost predicate EntriesFor(entries: seq<CollEntry>, cids: seq<nat>, k: Catalog, plan: Plan) {
    && |entries| == |cids|
    && (forall i, j :: 0 <= i < j < |cids| ==> cids[i] < cids[j])
    && (forall cid :: cid in cids <==> cid in k.cols)
    && (forall i :: 0 <= i < |cids| ==> cids[i] in k.cols && cids[i] in plan)
    && (forall i :: 0 <= i < |cids| ==> entries[i] == EntryFor(cids[i], k.cols[cids[i]], Folded(k.cols[cids[i]]) + plan[cids[i]]))
  }

  lemma SealedCatalogOk(k: Catalog, d: Disk, plan: Plan, bound: nat)
    requires CatalogOk(k) && AllReady(k, d, plan, bound)
    ensures CatalogOk(SealedCatalog(k, plan))
    ensures Meaning(SealedCatalog(k, plan)) == Meaning(k)
    ensures DirectoryOf(SealedCatalog(k, plan)) == DirectoryOf(k)
  {
    hide CollOk, Indexed, Seals, OnDisk, IdsBelow, TableOf;
    var k' := SealedCatalog(k, plan);
    forall cid | cid in k.cols ensures CollOk(k'.cols[cid]) && TableOf(k'.cols[cid]) == TableOf(k.cols[cid]) {
      assert Ready(k.cols[cid], d, cid, plan[cid], bound);
      SealedUpOk(k.cols[cid], plan[cid]);
    }
    SameMeaning(k', k);
    assert DirectoryOf(k').dir == DirectoryOf(k).dir;
  }

  /** A planned entry is well-formed and loads as the sealed collection. */
  lemma PlannedEntry(k: Catalog, d: Disk, plan: Plan, m: Manifest, cids: seq<nat>, i: nat)
    requires CatalogOk(k) && AllReady(k, d, plan, m.nextSeg)
    requires EntriesFor(m.collections, cids, k, plan) && i < |m.collections|
    ensures m.collections[i].cid == cids[i] && cids[i] in k.cols && cids[i] in plan
    ensures EntryOk(d, m, m.collections[i])
    ensures LoadColl(d, m.collections[i]) == SealedUp(k.cols[cids[i]], plan[cids[i]])
  {
    hide CollOk, EntryOk;
    var cid := cids[i];
    assert Ready(k.cols[cid], d, cid, plan[cid], m.nextSeg);
    ReadyEntry(k.cols[cid], d, cid, plan[cid], m);
  }

  /** Once every collection is ready, the manifest that lists them may be swapped in. */
  lemma PlanPublishable(k: Catalog, d: Disk, plan: Plan, m: Manifest, cids: seq<nat>)
    requires CatalogOk(k) && AllReady(k, d, plan, m.nextSeg)
    requires EntriesFor(m.collections, cids, k, plan)
    requires WellNamed(DirectoryOf(k))
    requires forall key :: key in d.dels ==> key.seg < m.nextSeg
    ensures Publishable(d, m, SealedCatalog(k, plan))
  {
    hide EntryOk, CatalogOk, CollOk, Ready, SealedUp, Folded, WellNamed, AllReady, EntryFor, LoadColl, DirectoryOf, Publishable;
    AllPlanned(k, d, plan, m.nextSeg);
    var k' := SealedCatalog(k, plan);
    SealedCatalogOk(k, d, plan, m.nextSeg);
    forall i | 0 <= i < |cids| ensures ListedAs(d, m, m.collections[i], cids[i], k') {
      PlannedEntry(k, d, plan, m, cids, i);
    }
    ListingPublishable(d, m, cids, k');
  }

  lemma HalfAdvancedFacts(k: Catalog, h: Catalog, d: Disk, d': Disk, n: Counters)
    requires InStep(h, d, n) && HalfAdvanced(k, d, d')
    ensures Current(d') == Current(d) && d'.wal == d.wal && n.version == Current(d).version
    ensures forall key :: key in d'.dels ==> key.seg < n.nextSeg
    ensures forall i :: 0 <= i < |Log(d')| ==> Log(d')[i].lsn < n.nextLsn
  {
    hide DiskOk, Recover, RecoverNextCid, Flatten;
    assert Log(d') == Log(d);
  }

  function CheckpointManifest(n: Counters, nextSeg: nat, entries: seq<CollEntry>): Manifest
    requires n.nextLsn > 0
  {
    Manifest(n.version + 1, n.nextLsn - 1, n.nextCid, nextSeg, entries)
  }

  /** Publishing a prepared checkpoint moves the floor over the whole log and keeps
      the state of memory, whatever the log replays to. */
  lemma CheckpointPublishes(k: Catalog, h: Catalog, d0: Disk, d: Disk, n: Counters, nextSeg: nat, plan: Plan, cids: seq<nat>, entries: seq<CollEntry>)
    requires CatalogOk(k) && InStep(h, d0, n) && HalfAdvanced(k, d0, d)
    requires AllReady(k, d, plan, nextSeg) && n.nextSeg <= nextSeg && n.nextLsn > 0
    requires EntriesFor(entries, cids, k, plan)
    requires WellNamed(DirectoryOf(k)) && forall cid :: cid in k.cols ==> cid < n.nextCid
    ensures forall cid :: cid in k.cols ==> cid in plan
    ensures var m, k' := CheckpointManifest(n, nextSeg, entries), SealedCatalog(k, plan);
      && m.version != Current(d).version
      && InStep(k', Install(d, m), Counters(n.nextLsn, n.nextCid, nextSeg, n.version + 1, n.nextLsn - 1))
      && CatalogOk(k') && Meaning(k') == Meaning(k)
  {
    AllPlanned(k, d, plan, nextSeg);
    hide CatalogOk, InStep, HalfAdvanced, AllReady, EntriesFor, WellNamed, DirectoryOf, Publishable, SealedUp, Current, Install, Meaning;
    var m := CheckpointManifest(n, nextSeg, entries);
    HalfAdvancedFacts(k, h, d0, d, n);
    SealedCatalogOk(k, d, plan, nextSeg);
    PlanPublishable(k, d, plan, m, cids);
    CheckpointInStep(SealedCatalog(k, plan), d, m, Counters(n.nextLsn, n.nextCid, nextSeg, n.version + 1, n.nextLsn - 1));
  }

  lemma AllPlanned(k: Catalog, d: Disk, plan: Plan, bound: nat)
    requires AllReady(k, d, plan, bound)
    ensures forall cid :: cid in k.cols ==> cid in plan
  {}
}
