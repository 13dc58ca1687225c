/** Memory against what its log replays to when the log also holds records of batches that
    were refused part-way: memory never applied them, replay does
    (crates/quiver-core/src/store.rs, `upsert_batch`). */
module Shadows {
  import opened ByteStrings
  import opened SecondaryIndex
  import opened Segments
  import opened Descriptors
  import opened Collections
  import opened CollectionLayout
  import opened Replay
  import opened WindowReplay
  import RecoveryTails
  import opened Disks
  import opened DiskSteps
  import opened Publishing
  import opened Checkpoints
  import opened Compactions

  /** `c` in memory and `h` replayed have the same segments, and every pending tombstone of
      memory is one of replay. */
  ghost predicate Trails(c: Coll, h: Coll) {
    && h.name == c.name && h.desc == c.desc && h.sealed == c.sealed
    && forall s: nat, r: nat :: WindowDead(c, s, r) ==> WindowDead(h, s, r)
  }

  ghost predicate AllTrail(k: Catalog, h: Catalog) {
    && k.names == h.names && (forall cid :: cid in k.cols <==> cid in h.cols)
    && forall cid :: cid in k.cols ==> Trails(k.cols[cid], h.cols[cid])
  }

  lemma AllTrailSelf(k: Catalog)
    ensures AllTrail(k, k)
  {}

  // ---- logged operations ---------------------------------------------------

  /** A kill that memory needs, replay has had or makes too. */
  lemma TrailKill(c: Coll, h: Coll, id: Id)
    requires Trails(c, h) && Valid(h)
    ensures LocateSealed(c, id).Some? ==>
      var l := LocateSealed(c, id).value; if id in h.index then WindowDead(h, l.seg, l.row) else WindowDead(h.(window := Kill(h, id)), l.seg, l.row)
  {
    if LocateSealed(c, id).Some? {
      var l := LocateSealed(c, id).value;
      if id in h.index { assert IsDead(h, l.seg, l.row); }
    }
  }

  lemma TrailUpsert(c: Coll, h: Coll, id: Id, row: Row)
    requires Trails(c, h) && Valid(h)
    ensures Trails(Upserted(c, id, row), Upserted(h, id, row)) && Trails(c, Upserted(h, id, row))
  {
    hide Valid, LocateSealed;
    TrailKill(c, h, id);
    var c', h' := Upserted(c, id, row), Upserted(h, id, row);
    forall s: nat, r: nat | WindowDead(h, s, r) ensures WindowDead(h', s, r) {}
    forall s: nat, r: nat | WindowDead(c', s, r) ensures WindowDead(h', s, r) {
      if !WindowDead(c, s, r) { assert LocateSealed(c, id) == Some(Loc(s, r)); }
    }
  }

  lemma TrailDelete(c: Coll, h: Coll, id: Id)
    requires Trails(c, h) && Valid(h)
    ensures Trails(Deleted(c, id), Deleted(h, id))
  {
    hide Valid, LocateSealed;
    TrailKill(c, h, id);
    var c', h' := Deleted(c, id), Deleted(h, id);
    forall s: nat, r: nat | WindowDead(h, s, r) ensures WindowDead(h', s, r) {}
    forall s: nat, r: nat | WindowDead(c', s, r) ensures WindowDead(h', s, r) {
      if !WindowDead(c, s, r) { assert LocateSealed(c, id) == Some(Loc(s, r)); }
    }
  }

  lemma TrailNew(name: Bytes, desc: Descriptor)
    ensures Trails(NewColl(name, desc), NewColl(name, desc))
  {}

  /** An operation applied to both. */
  lemma TrailApply(k: Catalog, h: Catalog, op: Op)
    requires AllTrail(k, h) && CatalogOk(h)
    ensures AllTrail(Apply(k, op), Apply(h, op))
  {
    hide Trails, Upserted, Deleted, Valid, AllIndexed;
    match op {
      case Create(cid, name, desc) => TrailNew(name, desc);
      case Drop(cid) => if cid in k.cols { TrailNamed(k.cols[cid], h.cols[cid]); }
      case Upsert(cid, id, row) => if cid in k.cols { CatalogHas(h, cid); TrailUpsert(k.cols[cid], h.cols[cid], id, row); }
      case Delete(cid, id) => if cid in k.cols { CatalogHas(h, cid); TrailDelete(k.cols[cid], h.cols[cid], id); }
      case CheckpointMark =>
    }
  }

  lemma TrailNamed(c: Coll, h: Coll)
    requires Trails(c, h)
    ensures c.name == h.name
  {}

  /** A refused upsert, which replay alone applies. */
  lemma TrailRefused(k: Catalog, h: Catalog, op: Op)
    requires AllTrail(k, h) && CatalogOk(h) && op.Upsert?
    ensures AllTrail(k, Apply(h, op))
  {
    hide Trails, Upserted, Valid, AllIndexed;
    if op.cid in k.cols {
      CatalogHas(h, op.cid);
      TrailUpsert(k.cols[op.cid], h.cols[op.cid], op.id, op.row);
    }
  }

  lemma TrailDirectory(k: Catalog, h: Catalog)
    requires AllTrail(k, h)
    ensures DirectoryOf(k) == DirectoryOf(h)
  {
    assert DirectoryOf(k).dir == DirectoryOf(h).dir;
  }

  lemma TrailBase(k: Catalog, h: Catalog, target: nat, seg: Sealed)
    requires AllTrail(k, h)
    ensures BaseCatalog(k, target, seg) == BaseCatalog(h, target, seg)
  {
    assert BaseCatalog(k, target, seg).cols == BaseCatalog(h, target, seg).cols;
  }

  lemma TrailAdvanced(k: Catalog, h: Catalog, d: Disk, d': Disk)
    requires AllTrail(k, h) && HalfAdvanced(k, d, d')
    ensures HalfAdvanced(h, d, d')
  {
    forall key, r: nat | DiedInWindow(k, key, r) ensures DiedInWindow(h, key, r) {
      var c := k.cols[key.cid];
      var s: nat :| s < |c.sealed| && c.sealed[s].segId == key.seg && WindowDead(c, s, r);
      assert WindowDead(h.cols[key.cid], s, r);
    }
  }

  // ---- a compaction of memory, replayed over -------------------------------

  function RowsApply(rows: map<Id, Row>, cid: nat, op: Op): map<Id, Row> {
    match op
    case Upsert(x, id, row) => if x == cid then rows[id := row] else rows
    case Delete(x, id) => if x == cid then rows - {id} else rows
    case _ => rows
  }

  /** What a log does to one collection's rows when it neither creates nor drops it. */
  function RowsReplay(rows: map<Id, Row>, cid: nat, es: seq<Entry>): map<Id, Row> {
    if es == [] then rows else RowsApply(RowsReplay(rows, cid, es[..|es| - 1]), cid, es[|es| - 1].op)
  }

  lemma {:induction false} ReplayRows(c: Coll, cid: nat, es: seq<Entry>)
    requires CollOk(c) && !Resets(es, cid)
    ensures CollReplay(Some(c), cid, es).Some? && CollOk(CollReplay(Some(c), cid, es).value)
    ensures Contents(CollReplay(Some(c), cid, es).value) == RowsReplay(Contents(c), cid, es)
  {
    hide CollOk, Contents, Upserted, Deleted;
    if es != [] {
      var n := |es| - 1;
      ResetsPrefix(es, n, cid);
      ReplayRows(c, cid, es[..n]);
      var d := CollReplay(Some(c), cid, es[..n]).value;
      assert !ResetsColl(es[n].op, cid);
      match es[n].op {
        case Upsert(x, id, row) => UpsertedOk(d, id, row);
        case Delete(x, id) => DeletedOk(d, id);
        case _ =>
      }
    }
  }

  predicate Touched(es: seq<Entry>, cid: nat, id: Id) { exists i :: 0 <= i < |es| && Touches(es[i].op, cid, id) }

  lemma TouchedMore(es: seq<Entry>, cid: nat, id: Id)
    requires es != []
    ensures Touched(es, cid, id) <==> Touched(es[..|es| - 1], cid, id) || Touches(es[|es| - 1].op, cid, id)
  {
    var n := |es| - 1;
    if Touched(es[..n], cid, id) {
      var i :| 0 <= i < n && Touches(es[..n][i].op, cid, id);
      assert Touches(es[i].op, cid, id);
    }
    if Touched(es, cid, id) && !Touches(es[n].op, cid, id) {
      var i :| 0 <= i < |es| && Touches(es[i].op, cid, id);
      assert es[..n][i] == es[i];
    }
  }

  function RowOf(rows: map<Id, Row>, id: Id): Option<Row> { if id in rows then Some(rows[id]) else None }

  /** The last record that touches an id decides its row. */
  lemma {:induction false} LastTouchDecides(a: map<Id, Row>, b: map<Id, Row>, cid: nat, es: seq<Entry>, id: Id)
    requires Touched(es, cid, id) || RowOf(a, id) == RowOf(b, id)
    ensures RowOf(RowsReplay(a, cid, es), id) == RowOf(RowsReplay(b, cid, es), id)
  {
    if es != [] {
      TouchedMore(es, cid, id);
      if !Touches(es[|es| - 1].op, cid, id) { LastTouchDecides(a, b, cid, es[..|es| - 1], id); }
    }
  }

  lemma SameRows(a: map<Id, Row>, b: map<Id, Row>)
    requires forall id :: RowOf(a, id) == RowOf(b, id)
    ensures a == b
  {
    forall id ensures id in a <==> id in b { assert RowOf(a, id) == RowOf(b, id); }
    forall id | id in a ensures a[id] == b[id] { assert RowOf(a, id) == RowOf(b, id); }
  }

  /** A pending tombstone comes from a record. */
  lemma {:induction false} PendingWasTouched(c: Coll, cid: nat, es: seq<Entry>, s: nat, r: nat)
    requires c.window == map[] && !Resets(es, cid)
    requires CollReplay(Some(c), cid, es).Some? && WindowDead(CollReplay(Some(c), cid, es).value, s, r)
    ensures InRange(c.sealed, s, r) && Touched(es, cid, c.sealed[s].file.ids[r])
  {
    var n := |es| - 1;
    ResetsPrefix(es, n, cid);
    SegmentsKept(c, cid, es[..n]);
    var d := CollReplay(Some(c), cid, es[..n]).value;
    assert !ResetsColl(es[n].op, cid);
    if WindowDead(d, s, r) {
      PendingWasTouched(c, cid, es[..n], s, r);
      TouchedMore(es, cid, c.sealed[s].file.ids[r]);
    } else {
      assert Touches(es[n].op, cid, c.sealed[s].file.ids[r]);
    }
  }

  /** Memory's merged segment in place of the segments: the log still replays to the same rows,
      and still trails memory. */
  lemma MergedUnderReplay(c0: Coll, c: Coll, h: Coll, cid: nat, es: seq<Entry>, seg: Sealed)
    requires CollOk(c0) && c0 == Base(c0) && !Resets(es, cid) && CollReplay(Some(c0), cid, es) == Some(h)
    requires Trails(c, h) && CollOk(c) && Merges(c, seg.file) && seg.dead == {} && Indexed(seg.file, c.desc.filterable)
    ensures var g := CollReplay(Some(c0.(sealed := [seg])), cid, es);
      g.Some? && TableOf(g.value) == TableOf(h) && Trails(Compacted(c, seg), g.value)
  {
    hide CollOk, Contents, Merges, Indexed, Valid, CollReplay, RowsReplay, Touched;
    var c1 := c0.(sealed := [seg]);
    SegmentsKept(c0, cid, es);
    SegmentsKept(c1, cid, es);
    assert Base(c) == c0 && Base(Compacted(c, seg)) == c1;
    OkValid(c);
    CompactedOk(c, seg);
    RecoveryTails.CompactedBase(c, seg);
    ReplayRows(c0, cid, es);
    ReplayRows(c1, cid, es);
    var a, b := Contents(c0), Contents(c1);
    forall id: Id ensures RowOf(RowsReplay(a, cid, es), id) == RowOf(RowsReplay(b, cid, es), id) {
      if id in TailDeleted(c) { DeletedWasTouched(c0, c, h, cid, es, id); }
      LastTouchDecides(a, b, cid, es, id);
    }
    SameRows(RowsReplay(a, cid, es), RowsReplay(b, cid, es));
  }

  lemma OkValid(c: Coll)
    requires CollOk(c)
    ensures Valid(c)
  {}

  lemma DeletedWasTouched(c0: Coll, c: Coll, h: Coll, cid: nat, es: seq<Entry>, id: Id)
    requires c0 == Base(c0) && !Resets(es, cid) && CollReplay(Some(c0), cid, es) == Some(h)
    requires Trails(c, h) && id in TailDeleted(c) && c.sealed == c0.sealed
    ensures Touched(es, cid, id)
  {
    hide CollReplay, Touched;
    var s, r :| s in c.window && r in c.window[s] && InRange(c.sealed, s, r) && c.sealed[s].file.ids[r] == id;
    assert WindowDead(c, s, r);
    PendingWasTouched(c0, cid, es, s, r);
  }
}
