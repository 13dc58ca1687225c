/** How far a command may move a collection's checkpointed rows: openings and writes not at
    all, maintenance only as the recovery tail shows
    (crates/quiver-core/src/store.rs, `recovery_tail`). */
module Marks {
  import opened ByteStrings
  import opened Segments
  import opened Collections
  import opened CollectionLayout
  import opened Replay
  import opened WindowReplay
  import opened Shadows
  import opened TailLoss
  import opened Disks
  import opened DiskSteps
  import opened Publishing
  import opened Checkpoints

  /** What runs since the mark was taken. */
  datatype Care = Quiescent | Writing | Compacting | Checkpointing

  /** The collections and the floor before a command. */
  datatype Mark = Mark(cols: map<nat, Coll>, floor: nat, care: Care)

  /** Segments are untouched, and a new collection has none. */
  ghost predicate Grown(a: map<nat, Coll>, b: map<nat, Coll>) {
    forall cid :: cid in b ==> b[cid].sealed == if cid in a then a[cid].sealed else []
  }

  ghost predicate AllLose(a: map<nat, Coll>, b: map<nat, Coll>) {
    (forall cid :: cid in a <==> cid in b) && forall cid :: cid in a ==> Loses(a[cid], b[cid])
  }

  ghost predicate AllLoseTo(a: map<nat, Coll>, b: map<nat, Coll>) {
    (forall cid :: cid in a <==> cid in b) && forall cid :: cid in a ==> LosesTo(a[cid], b[cid])
  }

  /** Nothing buffered and nothing pending: the segments hold everything. */
  ghost predicate AllBase(b: map<nat, Coll>) { forall cid :: cid in b ==> b[cid] == Base(b[cid]) }

  /** A later memory and floor, seen from a mark. */
  ghost predicate Marked(cols: map<nat, Coll>, floor: nat, w: Mark) {
    match w.care
    case Quiescent => floor == w.floor && cols == w.cols
    case Writing => floor == w.floor && Grown(w.cols, cols)
    case Compacting => floor == w.floor && AllLose(w.cols, cols)
    case Checkpointing => if floor == w.floor then AllLose(w.cols, cols) else AllBase(cols)
  }

  /** A recovered catalog, which may have replayed refused records, seen from a mark. */
  ghost predicate MarkedTo(cols: map<nat, Coll>, floor: nat, w: Mark) {
    match w.care
    case Quiescent => floor == w.floor && cols == w.cols
    case Writing => floor == w.floor && Grown(w.cols, cols)
    case Compacting => floor == w.floor && AllLoseTo(w.cols, cols)
    case Checkpointing => if floor == w.floor then AllLoseTo(w.cols, cols) else AllBase(cols)
  }

  /** What a disk recovers to, seen from a mark. */
  ghost predicate DiskMarked(d: Disk, w: Mark) { MarkedTo(Recover(d).cols, Current(d).floor, w) }

  lemma LosesWeaker(a: map<nat, Coll>, b: map<nat, Coll>)
    requires AllLose(a, b)
    ensures AllLoseTo(a, b)
  {
    hide Contents, BaseRows, TailDeleted;
  }

  lemma MarkedWeaker(cols: map<nat, Coll>, floor: nat, w: Mark)
    requires Marked(cols, floor, w)
    ensures MarkedTo(cols, floor, w)
  {
    hide AllLose, AllLoseTo, AllBase, Grown;
    if w.care == Compacting || (w.care == Checkpointing && floor == w.floor) { LosesWeaker(w.cols, cols); }
  }

  lemma MarkedAtOnce(w: Mark)
    ensures Marked(w.cols, w.floor, w)
  {
    hide Loses;
    forall cid | cid in w.cols ensures Loses(w.cols[cid], w.cols[cid]) { LosesNothing(w.cols[cid]); }
  }

  /** A disk that memory trails. Where the mark asks for equality, memory must be exactly what
      the disk recovers to. */
  lemma TrailMarked(k: Catalog, h: Catalog, floor: nat, w: Mark)
    requires AllTrail(k, h) && CatalogOk(h) && Marked(k.cols, floor, w)
    requires w.care == Quiescent || floor != w.floor ==> h == k
    ensures MarkedTo(h.cols, floor, w)
  {
    hide CatalogOk, Loses, LosesTo;
    MarkedWeaker(k.cols, floor, w);
    if w.care == Compacting || w.care == Checkpointing {
      if floor == w.floor {
        forall cid | cid in w.cols ensures cid in h.cols && LosesTo(w.cols[cid], h.cols[cid]) {
          CatalogHas(h, cid);
          TrailLoses(k.cols[cid], h.cols[cid]);
          LosesThenTo(w.cols[cid], k.cols[cid], h.cols[cid]);
        }
      }
    }
  }

  lemma SameReadingMarked(d: Disk, d': Disk, w: Mark)
    requires DiskOk(d) && SameReading(d, d') && DiskMarked(d, w) && Current(d').floor == Current(d).floor
    ensures DiskMarked(d', w)
  {
    hide DiskOk, MarkedTo;
    SameReadingOk(d, d');
  }

  /** A half-advanced checkpoint. */
  lemma AdvancedMarked(k: Catalog, h: Catalog, d: Disk, d': Disk, n: Counters, w: Mark)
    requires InStep(h, d, n) && CatalogOk(k) && CatalogOk(h) && AllTrail(k, h) && HalfAdvanced(k, d, d') && CatalogOk(Recover(d'))
    requires forall cid :: cid in Recover(d').cols <==> cid in h.cols
    requires w.care == Checkpointing && w.floor == n.floor && Marked(k.cols, n.floor, w)
    ensures DiskMarked(d', w)
  {
    hide DiskOk, CatalogOk, Loses, LosesTo, Recover, Trails;
    forall cid | cid in w.cols ensures cid in Recover(d').cols && LosesTo(w.cols[cid], Recover(d').cols[cid]) {
      HalfAdvancedLosesTo(k, h, d, d', n, cid);
      CatalogHas(Recover(d'), cid);
      LosesThenTo(w.cols[cid], k.cols[cid], Recover(d').cols[cid]);
    }
  }

  /** A merged collection. */
  lemma CompactedMarked(k: Catalog, target: nat, seg: Sealed, floor: nat, w: Mark)
    requires CatalogOk(k) && target in k.cols && Merges(k.cols[target], seg.file) && seg.dead == {}
    requires (w.care == Checkpointing || w.care == Compacting) && Marked(k.cols, floor, w)
    ensures Marked(CompactedCatalog(k, target, seg).cols, floor, w)
  {
    hide CollOk, Loses, Merges;
    CatalogHas(k, target);
    OkIsValid(k.cols[target]);
    CompactionLoses(k.cols[target], seg);
    if target in w.cols && target in k.cols && Loses(w.cols[target], k.cols[target]) {
      LosesMore(w.cols[target], k.cols[target], Compacted(k.cols[target], seg));
    }
  }

  /** A published checkpoint. */
  lemma SealedMarked(k: Catalog, plan: Plan, floor: nat, w: Mark)
    requires forall cid :: cid in k.cols ==> cid in plan
    requires w.care == Checkpointing && floor != w.floor
    ensures Marked(SealedCatalog(k, plan).cols, floor, w)
  {}

  /** One logged operation; a creation is of a new collection. */
  lemma AppliedGrown(k: Catalog, op: Op)
    requires op.Create? ==> op.cid !in k.cols
    ensures Grown(k.cols, Apply(k, op).cols)
  {}

  lemma UpsertGrown(a: map<nat, Coll>, k: Catalog, op: Op)
    requires op.Upsert? && Grown(a, k.cols)
    ensures Grown(a, Apply(k, op).cols)
  {}
}
