/** Replaying logged operations onto a catalog of collections, against the ledger of
    plain maps they stand for (crates/quiver-core/src/store.rs, `apply_wal_entry`). */
module Replay {
  import opened ByteStrings
  import opened Segments
  import opened Descriptors
  import opened Collections
  import SecondaryIndex

  datatype Op =
    | Create(cid: nat, name: Bytes, desc: Descriptor)
    | Drop(cid: nat)
    | Upsert(cid: nat, id: Id, row: Row)
    | Delete(cid: nat, id: Id)
    | CheckpointMark

  /** A log record: an operation with its log sequence number. */
  datatype Entry = Entry(lsn: nat, op: Op)

  /** Collections by id, and the name index over them. */
  datatype Catalog = Catalog(cols: map<nat, Coll>, names: map<Bytes, nat>)

  function Apply(k: Catalog, op: Op): Catalog {
    match op
    case Create(cid, name, desc) => Catalog(k.cols[cid := NewColl(name, desc)], k.names[name := cid])
    case Drop(cid) => if cid in k.cols then Catalog(k.cols - {cid}, k.names - {k.cols[cid].name}) else k
    case Upsert(cid, id, row) => if cid in k.cols then k.(cols := k.cols[cid := Upserted(k.cols[cid], id, row)]) else k
    case Delete(cid, id) => if cid in k.cols then k.(cols := k.cols[cid := Deleted(k.cols[cid], id)]) else k
    case CheckpointMark => k
  }

  function ReplayAll(k: Catalog, es: seq<Entry>): Catalog {
    if es == [] then k else Apply(ReplayAll(k, es[..|es| - 1]), es[|es| - 1].op)
  }

  lemma {:induction false} ReplayAppend(k: Catalog, es: seq<Entry>, more: seq<Entry>)
    ensures ReplayAll(k, es + more) == ReplayAll(ReplayAll(k, es), more)
  {
    if more == [] {
      assert es + more == es;
    } else {
      var n := |more| - 1;
      ReplayAppend(k, es, more[..n]);
      assert (es + more)[..|es| + n] == es + more[..n];
    }
  }

  // ---- the ledger ----------------------------------------------------------

  /** What a collection means: a name, a schema and a map. */
  datatype Table = Table(name: Bytes, desc: Descriptor, rows: map<Id, Row>)

  datatype Ledger = Ledger(tables: map<nat, Table>, names: map<Bytes, nat>)

  function LedgerApply(l: Ledger, op: Op): Ledger {
    match op
    case Create(cid, name, desc) => Ledger(l.tables[cid := Table(name, desc, map[])], l.names[name := cid])
    case Drop(cid) => if cid in l.tables then Ledger(l.tables - {cid}, l.names - {l.tables[cid].name}) else l
    case Upsert(cid, id, row) =>
      if cid in l.tables then l.(tables := l.tables[cid := l.tables[cid].(rows := l.tables[cid].rows[id := row])]) else l
    case Delete(cid, id) =>
      if cid in l.tables then l.(tables := l.tables[cid := l.tables[cid].(rows := l.tables[cid].rows - {id})]) else l
    case CheckpointMark => l
  }

  function LedgerReplay(l: Ledger, ops: seq<Op>): Ledger {
    if ops == [] then l else LedgerApply(LedgerReplay(l, ops[..|ops| - 1]), ops[|ops| - 1])
  }

  function TableOf(c: Coll): Table { Table(c.name, c.desc, Contents(c)) }

  /** The ledger a catalog stands for. */
  function Meaning(k: Catalog): Ledger {
    Ledger(map cid | cid in k.cols :: TableOf(k.cols[cid]), k.names)
  }

  ghost predicate CollOk(c: Coll) { Valid(c) && AllIndexed(c) }

  ghost predicate CatalogOk(k: Catalog) {
    forall cid :: cid in k.cols ==> CollOk(k.cols[cid])
  }

  lemma CatalogHas(k: Catalog, cid: nat)
    requires CatalogOk(k) && cid in k.cols
    ensures CollOk(k.cols[cid])
  {}

  lemma UpsertedOk(c: Coll, id: Id, row: Row)
    requires CollOk(c)
    ensures CollOk(Upserted(c, id, row))
    ensures TableOf(Upserted(c, id, row)) == TableOf(c).(rows := Contents(c)[id := row])
  {
    UpsertedContents(c, id, row);
  }

  lemma DeletedOk(c: Coll, id: Id)
    requires CollOk(c)
    ensures CollOk(Deleted(c, id))
    ensures TableOf(Deleted(c, id)) == TableOf(c).(rows := Contents(c) - {id})
  {
    DeletedContents(c, id);
  }

  lemma NewCollOk(name: Bytes, desc: Descriptor)
    ensures CollOk(NewColl(name, desc))
    ensures TableOf(NewColl(name, desc)) == Table(name, desc, map[])
  {}

  /** Catalogs that agree table by table mean the same. */
  lemma SameMeaning(a: Catalog, b: Catalog)
    requires a.names == b.names
    requires forall cid :: cid in a.cols <==> cid in b.cols
    requires forall cid :: cid in a.cols ==> TableOf(a.cols[cid]) == TableOf(b.cols[cid])
    ensures Meaning(a) == Meaning(b)
  {
    assert Meaning(a).tables == Meaning(b).tables;
  }

  /** Replacing one collection replaces one table. */
  lemma MeaningUpdate(k: Catalog, cid: nat, c: Coll)
    requires CatalogOk(k) && CollOk(c)
    ensures CatalogOk(k.(cols := k.cols[cid := c]))
    ensures Meaning(k.(cols := k.cols[cid := c])).tables == Meaning(k).tables[cid := TableOf(c)]
  {
    hide CollOk, TableOf;
  }

  lemma MeaningDrop(k: Catalog, cid: nat)
    requires CatalogOk(k)
    ensures CatalogOk(k.(cols := k.cols - {cid}))
    ensures Meaning(k.(cols := k.cols - {cid})).tables == Meaning(k).tables - {cid}
  {}

  lemma UpsertRefines(k: Catalog, cid: nat, id: Id, row: Row)
    requires CatalogOk(k)
    ensures CatalogOk(Apply(k, Upsert(cid, id, row)))
    ensures Meaning(Apply(k, Upsert(cid, id, row))) == LedgerApply(Meaning(k), Upsert(cid, id, row))
  {
    if cid in k.cols {
      UpsertedOk(k.cols[cid], id, row);
      MeaningUpdate(k, cid, Upserted(k.cols[cid], id, row));
    }
  }

  lemma DeleteRefines(k: Catalog, cid: nat, id: Id)
    requires CatalogOk(k)
    ensures CatalogOk(Apply(k, Delete(cid, id)))
    ensures Meaning(Apply(k, Delete(cid, id))) == LedgerApply(Meaning(k), Delete(cid, id))
  {
    if cid in k.cols {
      DeletedOk(k.cols[cid], id);
      MeaningUpdate(k, cid, Deleted(k.cols[cid], id));
    }
  }

  /** One logged operation acts on the catalog as it acts on the plain maps. */
  lemma ApplyRefines(k: Catalog, op: Op)
    requires CatalogOk(k)
    ensures CatalogOk(Apply(k, op))
    ensures Meaning(Apply(k, op)) == LedgerApply(Meaning(k), op)
  {
    match op {
      case Create(cid, name, desc) =>
        NewCollOk(name, desc);
        MeaningUpdate(k, cid, NewColl(name, desc));
      case Drop(cid) => MeaningDrop(k, cid);
      case Upsert(cid, id, row) => UpsertRefines(k, cid, id, row);
      case Delete(cid, id) => DeleteRefines(k, cid, id);
      case CheckpointMark =>
    }
  }

  lemma {:induction false} ReplayOk(k: Catalog, es: seq<Entry>)
    requires CatalogOk(k)
    ensures CatalogOk(ReplayAll(k, es))
  {
    if es != [] {
      ReplayOk(k, es[..|es| - 1]);
      ApplyRefines(ReplayAll(k, es[..|es| - 1]), es[|es| - 1].op);
    }
  }

  // ---- one collection at a time --------------------------------------------

  function Get<V>(m: map<nat, V>, cid: nat): Option<V> {
    if cid in m then Some(m[cid]) else None
  }

  function CollApply(c: Option<Coll>, cid: nat, op: Op): Option<Coll> {
    match op
    case Create(x, name, desc) => if x == cid then Some(NewColl(name, desc)) else c
    case Drop(x) => if x == cid then None else c
    case Upsert(x, id, row) => if x == cid && c.Some? then Some(Upserted(c.value, id, row)) else c
    case Delete(x, id) => if x == cid && c.Some? then Some(Deleted(c.value, id)) else c
    case CheckpointMark => c
  }

  function CollReplay(c: Option<Coll>, cid: nat, es: seq<Entry>): Option<Coll> {
    if es == [] then c else CollApply(CollReplay(c, cid, es[..|es| - 1]), cid, es[|es| - 1].op)
  }

  /** Replay acts on each collection by itself. */
  lemma {:induction false} ReplayByCollection(k: Catalog, es: seq<Entry>, cid: nat)
    ensures Get(ReplayAll(k, es).cols, cid) == CollReplay(Get(k.cols, cid), cid, es)
  {
    if es != [] { ReplayByCollection(k, es[..|es| - 1], cid); }
  }

  predicate ResetsColl(op: Op, cid: nat) {
    (op.Create? || op.Drop?) && op.cid == cid
  }

  predicate Resets(es: seq<Entry>, cid: nat) {
    exists i :: 0 <= i < |es| && ResetsColl(es[i].op, cid)
  }

  /** Once the log creates or drops a collection, the state before does not matter. */
  lemma {:induction false} ResetForgets(c: Option<Coll>, d: Option<Coll>, cid: nat, es: seq<Entry>)
    requires Resets(es, cid)
    ensures CollReplay(c, cid, es) == CollReplay(d, cid, es)
  {
    var n := |es| - 1;
    if !ResetsColl(es[n].op, cid) {
      var i :| 0 <= i < |es| && ResetsColl(es[i].op, cid);
      assert es[..n][i] == es[i];
      ResetForgets(c, d, cid, es[..n]);
    }
  }

  /** A collection that still has segments was neither created nor dropped by the log. */
  lemma {:induction false} SegmentsMeanNoReset(c: Option<Coll>, cid: nat, es: seq<Entry>)
    requires CollReplay(c, cid, es).Some? && CollReplay(c, cid, es).value.sealed != []
    ensures !Resets(es, cid)
    ensures c.Some?
  {
    if es != [] {
      var n := |es| - 1;
      SegmentsMeanNoReset(c, cid, es[..n]);
      forall i | 0 <= i < |es| ensures !ResetsColl(es[i].op, cid) {
        if i < n { assert es[..n][i] == es[i]; }
      }
    }
  }

  lemma ResetsPrefix(es: seq<Entry>, n: nat, cid: nat)
    requires !Resets(es, cid) && n <= |es|
    ensures !Resets(es[..n], cid)
  {
    forall i | 0 <= i < n ensures !ResetsColl(es[..n][i].op, cid) { assert es[..n][i] == es[i]; }
  }

  /** Without a reset, replay keeps name, schema and segments. */
  lemma {:induction false} SegmentsKept(c: Coll, cid: nat, es: seq<Entry>)
    requires !Resets(es, cid)
    ensures CollReplay(Some(c), cid, es).Some?
    ensures var d := CollReplay(Some(c), cid, es).value;
      d.name == c.name && d.desc == c.desc && d.sealed == c.sealed
  {
    if es != [] {
      ResetsPrefix(es, |es| - 1, cid);
      SegmentsKept(c, cid, es[..|es| - 1]);
    }
  }

  // ---- half-advanced tombstones --------------------------------------------

  predicate SameFiles(a: seq<Sealed>, b: seq<Sealed>) {
    |a| == |b| && forall s :: 0 <= s < |a| ==> a[s].segId == b[s].segId && a[s].file == b[s].file
  }

  /** `d` is `c` with the rows of `extra` already tombstoned. */
  ghost predicate Ahead(c: Coll, d: Coll, extra: set<Loc>) {
    && d.name == c.name && d.desc == c.desc && d.active == c.active && d.index == c.index
    && SameFiles(c.sealed, d.sealed)
    && forall s: nat, r: nat :: InRange(c.sealed, s, r) ==>
         (IsDead(d, s, r) <==> IsDead(c, s, r) || Loc(s, r) in extra)
  }

  lemma {:induction false} NewestByFiles(a: seq<Sealed>, b: seq<Sealed>, id: Id)
    requires SameFiles(a, b)
    ensures Newest(a, id) == Newest(b, id)
  {
    if a != [] { NewestByFiles(a[..|a| - 1], b[..|b| - 1], id); }
  }

  /** After a kill, the newest copy of the id is dead; every other row is as before. */
  lemma KillEffect(c: Coll, id: Id, s: nat, r: nat)
    requires InRange(c.sealed, s, r)
    ensures IsDead(c.(window := Kill(c, id)), s, r) <==> IsDead(c, s, r) || Newest(c.sealed, id) == Some(Loc(s, r))
  {}

  lemma KillAhead(c: Coll, d: Coll, extra: set<Loc>, id: Id)
    requires Ahead(c, d, extra)
    ensures Ahead(c.(window := Kill(c, id)), d.(window := Kill(d, id)), extra)
  {
    NewestByFiles(c.sealed, d.sealed, id);
    forall s: nat, r: nat | InRange(c.sealed, s, r)
      ensures IsDead(d.(window := Kill(d, id)), s, r) <==>
              IsDead(c.(window := Kill(c, id)), s, r) || Loc(s, r) in extra
    {
      KillEffect(c, id, s, r);
      KillEffect(d, id, s, r);
    }
  }

  lemma UpsertedAhead(c: Coll, d: Coll, extra: set<Loc>, id: Id, row: Row)
    requires Ahead(c, d, extra)
    ensures Ahead(Upserted(c, id, row), Upserted(d, id, row), extra)
  {
    if id !in c.index { KillAhead(c, d, extra, id); }
    var c', d' := Upserted(c, id, row), Upserted(d, id, row);
    var kc, kd := c.(window := c'.window), d.(window := d'.window);
    assert Ahead(kc, kd, extra);
    assert forall s: nat, r: nat :: InRange(c.sealed, s, r) ==>
      IsDead(c', s, r) == IsDead(kc, s, r) && IsDead(d', s, r) == IsDead(kd, s, r);
  }

  lemma DeletedAhead(c: Coll, d: Coll, extra: set<Loc>, id: Id)
    requires Ahead(c, d, extra)
    ensures Ahead(Deleted(c, id), Deleted(d, id), extra)
  {
    if id !in c.index { KillAhead(c, d, extra, id); }
  }

  /** Replay keeps an early tombstone early and changes nothing else. */
  lemma {:induction false} ReplayAhead(c: Option<Coll>, d: Option<Coll>, extra: set<Loc>, cid: nat, es: seq<Entry>)
    requires c == d || (c.Some? && d.Some? && Ahead(c.value, d.value, extra))
    ensures var c', d' := CollReplay(c, cid, es), CollReplay(d, cid, es);
      c' == d' || (c'.Some? && d'.Some? && Ahead(c'.value, d'.value, extra))
  {
    if es != [] {
      var n := |es| - 1;
      ReplayAhead(c, d, extra, cid, es[..n]);
      var c', d' := CollReplay(c, cid, es[..n]), CollReplay(d, cid, es[..n]);
      if c' != d' {
        match es[n].op {
          case Upsert(x, id, row) => UpsertedAhead(c'.value, d'.value, extra, id, row);
          case Delete(x, id) => DeletedAhead(c'.value, d'.value, extra, id);
          case _ =>
        }
      }
    }
  }

  /** Early tombstones of rows that are dead anyway do not change the map. */
  lemma AheadOfDead(c: Coll, d: Coll, extra: set<Loc>)
    requires Ahead(c, d, extra)
    requires forall l :: l in extra && InRange(c.sealed, l.seg, l.row) ==> IsDead(c, l.seg, l.row)
    ensures TableOf(d) == TableOf(c)
  {
    forall id: Id ensures Lookup(d, id) == Lookup(c, id) {
      NewestByFiles(c.sealed, d.sealed, id);
      var hit := Newest(c.sealed, id);
      if hit.Some? { assert IsDead(d, hit.value.seg, hit.value.row) == IsDead(c, hit.value.seg, hit.value.row); }
    }
    ContentsEqual(c, d);
  }

  // ---- compaction inside a window ------------------------------------------

  /** No sealed copy of the id is live. */
  predicate Settled(c: Coll, id: Id) { LocateSealed(c, id).None? }

  lemma IndexedIsSettled(c: Coll, id: Id)
    requires Valid(c) && id in c.index
    ensures Settled(c, id)
  {
    if LocateSealed(c, id).Some? {
      var l := LocateSealed(c, id).value;
      OneLiveRow(c, id, l.seg, l.row);
    }
  }

  /** Tombstones are never taken back within a window. */
  lemma SettledStays(c: Coll, id: Id, other: Id, row: Row)
    requires Settled(c, id)
    ensures Settled(Upserted(c, other, row), id)
    ensures Settled(Deleted(c, other), id)
  {
    var hit := Newest(c.sealed, id);
    if hit.Some? { KillEffect(c, other, hit.value.seg, hit.value.row); }
  }

  lemma TouchSettles(c: Coll, id: Id, row: Row)
    requires Valid(c)
    ensures Settled(Upserted(c, id, row), id)
    ensures Settled(Deleted(c, id), id)
  {
    var hit := Newest(c.sealed, id);
    if id in c.index { IndexedIsSettled(c, id); }
    if hit.Some? { KillEffect(c, id, hit.value.seg, hit.value.row); }
  }

  predicate Touches(op: Op, cid: nat, id: Id) {
    (op.Upsert? || op.Delete?) && op.cid == cid && op.id == id
  }

  lemma CollApplyOk(c: Coll, cid: nat, op: Op)
    requires CollOk(c) && !ResetsColl(op, cid)
    ensures CollApply(Some(c), cid, op).Some? && CollOk(CollApply(Some(c), cid, op).value)
  {
    match op {
      case Upsert(x, id, row) => UpsertedOk(c, id, row);
      case Delete(x, id) => DeletedOk(c, id);
      case _ =>
    }
  }

  lemma {:induction false} CollReplayOk(c: Coll, cid: nat, es: seq<Entry>)
    requires CollOk(c) && !Resets(es, cid)
    ensures CollReplay(Some(c), cid, es).Some? && CollOk(CollReplay(Some(c), cid, es).value)
  {
    if es != [] {
      var n := |es| - 1;
      ResetsPrefix(es, n, cid);
      CollReplayOk(c, cid, es[..n]);
      CollApplyOk(CollReplay(Some(c), cid, es[..n]).value, cid, es[n].op);
    }
  }

  /** An id the window touched has no live sealed row. */
  lemma {:induction false} TouchedIsSettled(c: Coll, cid: nat, es: seq<Entry>, i: nat, id: Id)
    requires CollOk(c) && !Resets(es, cid)
    requires i < |es| && Touches(es[i].op, cid, id)
    ensures CollReplay(Some(c), cid, es).Some? && Settled(CollReplay(Some(c), cid, es).value, id)
  {
    var n := |es| - 1;
    ResetsPrefix(es, n, cid);
    CollReplayOk(c, cid, es[..n]);
    var d := CollReplay(Some(c), cid, es[..n]).value;
    var row := if es[n].op.Upsert? then es[n].op.row else Row([], SecondaryIndex.Payload([], map[]));
    assert !ResetsColl(es[n].op, cid);
    if i == n {
      TouchSettles(d, id, row);
    } else {
      assert es[..n][i] == es[i];
      TouchedIsSettled(c, cid, es[..n], i, id);
      if es[n].op.Upsert? || es[n].op.Delete? { SettledStays(d, id, es[n].op.id, row); }
    }
  }
}
