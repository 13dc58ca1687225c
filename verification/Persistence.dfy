/** Acknowledged writes last (the durability contract of crates/quiver-core/src/store.rs):
    what a reader sees of a point or a collection that was written, deleted or dropped,
    after anything that may follow, said without reference to the log. */
module Persistence {
  import opened ByteStrings
  import opened Segments
  import opened Descriptors
  import opened Collections
  import opened Replay
  import opened WindowReplay
  import opened Disks
  import opened CollectionStates
  import opened Commands
  import opened Points
  import opened Streams
  import opened Stores
  import opened Effects
  import opened Marks
  import opened Runs

  // ---- what the permitted operations keep, every run keeps -----------------

  /** Permitted operations keep the property. */
  ghost predicate Closed(keeps: State -> bool, permits: Op -> bool) {
    forall s: State, op: Op :: keeps(s) && permits(op) ==> keeps(StateApply(s, op))
  }

  predicate AllPermitted(ops: seq<Op>, permits: Op -> bool) { forall i :: 0 <= i < |ops| ==> permits(ops[i]) }

  /** In memory, and in every state a crash may leave. */
  ghost predicate Everywhere(v: Worlds, keeps: State -> bool, permits: Op -> bool) {
    keeps(v.now) && keeps(v.kept) && AllPermitted(v.pending, permits)
  }

  /** In every state with the property, the command logs only permitted operations. */
  ghost predicate Obeys(cmd: Command, keeps: State -> bool, permits: Op -> bool) {
    forall s: State :: keeps(s) && Named(s.ledger) ==> AllPermitted(Ops(s, cmd), permits)
  }

  lemma {:induction false} ReplayKeeps(s: State, ops: seq<Op>, keeps: State -> bool, permits: Op -> bool)
    requires Closed(keeps, permits) && keeps(s) && AllPermitted(ops, permits)
    ensures keeps(StateReplay(s, ops))
  {
    hide StateApply;
    if ops != [] { ReplayKeeps(s, ops[..|ops| - 1], keeps, permits); }
  }

  lemma CompletedKeeps(v: Worlds, cmd: Command, lsn: nat, fits: Entry -> bool, keeps: State -> bool, permits: Op -> bool)
    requires Closed(keeps, permits) && Everywhere(v, keeps, permits) && AllPermitted(Ops(v.now, cmd), permits)
    ensures Everywhere(Completed(v, cmd, lsn, fits), keeps, permits)
  {
    hide Ops, Closed, StateReplay, Taken;
    var ops := Ops(v.now, cmd);
    ReplayKeeps(v.now, ops, keeps, permits);
    ReplayKeeps(v.kept, v.pending + ops, keeps, permits);
  }

  lemma CrashedKeeps(v: Worlds, cmd: Command, steps: nat, lost: nat, o: Outcome, fits: Entry -> bool, keeps: State -> bool, permits: Op -> bool)
    requires Closed(keeps, permits) && Everywhere(v, keeps, permits) && AllPermitted(Ops(v.now, cmd), permits)
    ensures keeps(Crashed(v, cmd, steps, lost, o, fits))
  {
    hide Ops, Closed, StateReplay, Taken;
    var ops := Ops(v.now, cmd);
    var written := v.pending + ops[..Min(steps, Taken(fits, o.lsn, ops))];
    ReplayKeeps(v.kept, written, keeps, permits);
    ReplayKeeps(v.kept, written[..|written| - Min(lost, |written|)], keeps, permits);
  }

  lemma ExpectedKeeps(v: Worlds, ev: Event, o: Outcome, fits: Entry -> bool, keeps: State -> bool, permits: Op -> bool)
    requires Closed(keeps, permits) && Everywhere(v, keeps, permits) && Named(v.now.ledger) && Obeys(ev.cmd, keeps, permits)
    ensures Everywhere(Expected(v, ev, o, fits), keeps, permits)
  {
    hide Ops, Closed, Completed, Crashed, Named;
    assert AllPermitted(Ops(v.now, ev.cmd), permits);
    match ev
    case Completes(cmd) => CompletedKeeps(v, cmd, o.lsn, fits, keeps, permits);
    case CrashesIn(cmd, steps, lost, _) => CrashedKeeps(v, cmd, steps, lost, o, fits, keeps, permits);
  }

  /** Run any further events, crashes and reopenings that log only what is permitted. */
  method Continue(start: Store, events: seq<Event>, ghost keeps: State -> bool, ghost permits: Op -> bool) returns (store: Store)
    requires start.Valid() && Closed(keeps, permits) && Everywhere(start.Worlds(), keeps, permits)
    requires forall i :: 0 <= i < |events| ==> Obeys(events[i].cmd, keeps, permits)
    modifies start, start.collections.Values
    ensures store.Valid() && keeps(store.Acknowledged())
  {
    hide Expected, Plausible, Store.Valid, MarkedTo, Meaning, Closed, Obeys, Named;
    store := start;
    for i := 0 to |events|
      invariant store.Valid() && fresh({store} - {start}) && fresh(store.collections.Values - old(start.collections.Values))
      invariant Everywhere(store.Worlds(), keeps, permits)
    {
      ghost var v := store.Worlds();
      store.ValidFacts();
      store.LedgerNamed();
      var o;
      store, o := Step(store, events[i]);
      ExpectedKeeps(v, events[i], o, store.fits, keeps, permits);
    }
  }

  /** In memory and in what is synced, with nothing else in the log. */
  ghost predicate Settled(v: Worlds, keeps: State -> bool) { keeps(v.now) && keeps(v.kept) && v.pending == [] }

  /** All the events log only what is permitted. */
  ghost predicate Safe(v: Worlds, events: seq<Event>, keeps: State -> bool, permits: Op -> bool) {
    && Closed(keeps, permits) && Everywhere(v, keeps, permits)
    && forall i :: 0 <= i < |events| ==> Obeys(events[i].cmd, keeps, permits)
  }

  lemma AnythingGoes(v: Worlds, events: seq<Event>)
    ensures Safe(v, events, s => true, op => true)
  {}

  method ReadLater(start: Store, events: seq<Event>, ghost keeps: State -> bool, ghost permits: Op -> bool, cid: nat, id: Id)
    returns (r: Result<Option<Row>, Error>, ghost s: State)
    requires start.Valid() && Safe(start.Worlds(), events, keeps, permits)
    modifies start, start.collections.Values
    ensures keeps(s)
    ensures r == if cid !in s.ledger.tables then Err(NotFound)
                 else if id in s.ledger.tables[cid].rows then Ok(Some(s.ledger.tables[cid].rows[id]))
                 else Ok(None)
  {
    hide Store.Valid, Closed, Obeys, Everywhere, Meaning;
    var store := Continue(start, events, keeps, permits);
    s := store.Acknowledged();
    r := store.Get(cid, id);
  }

  // ---- a point that was written --------------------------------------------

  ghost predicate HoldsRow(s: State, cid: nat, id: Id, row: Row, name: Bytes) {
    && cid < s.nextCid && cid in s.ledger.tables && s.ledger.tables[cid].name == name
    && id in s.ledger.tables[cid].rows && s.ledger.tables[cid].rows[id] == row
  }

  predicate KeepsRow(op: Op, cid: nat, id: Id) {
    op.CheckpointMark? || op.cid != cid || ((op.Upsert? || op.Delete?) && op.id != id)
  }

  /** The command upserts this point, alone or in a batch. */
  predicate Upserts(cmd: Command, cid: nat, id: Id) {
    match cmd
    case UpsertPoint(c, i, _) => c == cid && i == id
    case UpsertBatch(c, records) => c == cid && Includes(records, id)
    case _ => false
  }

  /** The command writes or deletes this point, or drops its collection. */
  predicate Disturbs(cmd: Command, cid: nat, id: Id, name: Bytes) {
    Upserts(cmd, cid, id) || cmd == DeletePoint(cid, id) || cmd == DropCollection(name)
  }

  lemma RowIsClosed(cid: nat, id: Id, row: Row, name: Bytes)
    ensures Closed(s => HoldsRow(s, cid, id, row, name), op => KeepsRow(op, cid, id))
  {
    forall s: State, op: Op | HoldsRow(s, cid, id, row, name) && KeepsRow(op, cid, id) ensures HoldsRow(StateApply(s, op), cid, id, row, name) {}
  }

  lemma RowIsObeyed(cmd: Command, cid: nat, id: Id, row: Row, name: Bytes)
    requires !Disturbs(cmd, cid, id, name)
    ensures Obeys(cmd, s => HoldsRow(s, cid, id, row, name), op => KeepsRow(op, cid, id))
  {
    forall s: State, i | HoldsRow(s, cid, id, row, name) && Named(s.ledger) && 0 <= i < |Ops(s, cmd)| ensures KeepsRow(Ops(s, cmd)[i], cid, id) {
      match cmd
      case UpsertBatch(c, records) => if c == cid { assert Ops(s, cmd) == UpsertOps(c, records); assert records[i].0 != id; }
      case _ =>
    }
  }

  /** An accepted upsert is in memory and in what the log replays to. */
  lemma UpsertSettles(v: Worlds, v': Worlds, cid: nat, id: Id, row: Row, lsn: nat, fits: Entry -> bool)
    requires v' == Completed(v, Commands.UpsertPoint(cid, id, row), lsn, fits) && RightSize(v.now.ledger, cid, row) && fits(Entry(lsn, Upsert(cid, id, row)))
    ensures v'.pending == [] && (cid in v'.kept.ledger.tables ==> id in v'.kept.ledger.tables[cid].rows && v'.kept.ledger.tables[cid].rows[id] == row)
  {
    var op := Upsert(cid, id, row);
    TakenIs(fits, lsn, [op], 1);
    assert (v.pending + [op])[..|v.pending|] == v.pending;
    assert v'.kept == StateApply(StateReplay(v.kept, v.pending), op);
  }

  method PutPoint(store: Store, cid: nat, id: Id, row: Row) returns (written: Result<nat, Error>, name: Bytes)
    requires store.Valid()
    modifies store, store.collections.Values
    ensures store.Valid() && fresh(store.collections.Values - old(store.collections.Values))
    ensures written.Ok? ==> Settled(store.Worlds(), s => HoldsRow(s, cid, id, row, name))
  {
    hide Store.Valid, Meaning, Completed, Framed, Logged, Spent, Recorded, Appends, Marked, AllMarked, RowsBecome, HoldsRow, Settled;
    ghost var v, lsn := store.Worlds(), store.nextLsn;
    written := store.UpsertPoint(cid, id, row);
    name := [];
    if written.Ok? {
      RowsBecameRow(v.now, store.Acknowledged(), cid, id, row);
      UpsertSettles(v, store.Worlds(), cid, id, row, lsn, store.fits);
      store.KeptTable(cid);
      name := store.collections[cid].name;
      RowIsSettled(store.Worlds(), cid, id, row, name);
    }
  }

  lemma RowIsSettled(v: Worlds, cid: nat, id: Id, row: Row, name: Bytes)
    requires cid < v.now.nextCid == v.kept.nextCid && cid in v.now.ledger.tables && cid in v.kept.ledger.tables
    requires v.now.ledger.tables[cid].name == v.kept.ledger.tables[cid].name == name && v.pending == []
    requires id in v.now.ledger.tables[cid].rows && v.now.ledger.tables[cid].rows[id] == row
    requires id in v.kept.ledger.tables[cid].rows && v.kept.ledger.tables[cid].rows[id] == row
    ensures Settled(v, s => HoldsRow(s, cid, id, row, name))
  {}

  lemma RowsBecameRow(s: State, s': State, cid: nat, id: Id, row: Row)
    requires cid in s.ledger.tables && RowsBecome(s, s', cid, s.ledger.tables[cid].rows[id := row])
    ensures cid in s'.ledger.tables && id in s'.ledger.tables[cid].rows && s'.ledger.tables[cid].rows[id] == row
  {}

  lemma RowIsSafe(v: Worlds, after: seq<Event>, cid: nat, id: Id, row: Row, name: Bytes)
    requires Settled(v, s => HoldsRow(s, cid, id, row, name)) && forall i :: 0 <= i < |after| ==> !Disturbs(after[i].cmd, cid, id, name)
    ensures Safe(v, after, s => HoldsRow(s, cid, id, row, name), op => KeepsRow(op, cid, id))
  {
    hide Closed, Obeys, Disturbs;
    RowIsClosed(cid, id, row, name);
    forall i | 0 <= i < |after| ensures Obeys(after[i].cmd, s => HoldsRow(s, cid, id, row, name), op => KeepsRow(op, cid, id)) {
      RowIsObeyed(after[i].cmd, cid, id, row, name);
    }
  }

  /** An accepted upsert is read back after anything that may follow, until the point is
      written or deleted again or its collection is dropped. */
  method UpsertLasts(before: seq<Event>, cid: nat, id: Id, row: Row, after: seq<Event>, fits: Entry -> bool)
    returns (written: Result<nat, Error>, name: Bytes, r: Result<Option<Row>, Error>)
    ensures written.Ok? && (forall i :: 0 <= i < |after| ==> !Disturbs(after[i].cmd, cid, id, name)) ==> r == Ok(Some(row))
  {
    hide ExpectedAfter, AllPlausible, Store.Valid, Settled, Safe, Disturbs;
    var store, _ := Run(before, fits);
    written, name := PutPoint(store, cid, id, row);
    ghost var keeps, permits := (s: State) => true, (op: Op) => true;
    AnythingGoes(store.Worlds(), after);
    if written.Ok? && forall i :: 0 <= i < |after| ==> !Disturbs(after[i].cmd, cid, id, name) {
      RowIsSafe(store.Worlds(), after, cid, id, row, name);
      keeps, permits := s => HoldsRow(s, cid, id, row, name), op => KeepsRow(op, cid, id);
    }
    ghost var s;
    r, s := ReadLater(store, after, keeps, permits, cid, id);
  }

  // ---- a batch that was written --------------------------------------------

  /** An accepted batch is in memory and in what the log replays to. */
  lemma BatchSettles(v: Worlds, v': Worlds, cid: nat, records: seq<(Id, Row)>, i: nat)
    requires v'.kept == StateReplay(v.kept, v.pending + UpsertOps(cid, records)) && LastOf(records, i) && cid in v'.kept.ledger.tables
    ensures records[i].0 in v'.kept.ledger.tables[cid].rows && v'.kept.ledger.tables[cid].rows[records[i].0] == records[i].1
  {
    hide StateApply, StateReplay, LastOf;
    var full := StateReplay(v.kept, v.pending);
    StateReplayAppend(v.kept, v.pending, UpsertOps(cid, records));
    UpsertsAddNoTable(full, UpsertOps(cid, records), cid);
    BatchEffect(full, cid, records);
  }

  lemma {:induction false} UpsertsAddNoTable(s: State, ops: seq<Op>, cid: nat)
    requires forall i :: 0 <= i < |ops| ==> ops[i].Upsert?
    ensures cid in StateReplay(s, ops).ledger.tables ==> cid in s.ledger.tables
  {
    if ops != [] { UpsertsAddNoTable(s, ops[..|ops| - 1], cid); }
  }

  lemma BatchBecameRow(s: State, s': State, cid: nat, records: seq<(Id, Row)>, i: nat)
    requires BatchWritten(s, s', cid, records) && LastOf(records, i)
    ensures cid in s'.ledger.tables && records[i].0 in s'.ledger.tables[cid].rows && s'.ledger.tables[cid].rows[records[i].0] == records[i].1
  {}

  lemma BatchRow(v: Worlds, v': Worlds, cid: nat, records: seq<(Id, Row)>, i: nat, lsn: nat, fits: Entry -> bool, steps: seq<Point>)
    requires Wrote(v, v', Commands.UpsertBatch(cid, records), lsn, fits, steps) && LastOf(records, i) && cid in v.now.ledger.tables
    requires forall j :: 0 <= j < |records| ==> |records[j].1.vector| == v.now.ledger.tables[cid].desc.dim
    requires forall j :: 0 <= j < |records| ==> fits(Entry(lsn + j, Upsert(cid, records[j].0, records[j].1)))
    ensures v'.pending == [] && cid in v'.now.ledger.tables
    ensures records[i].0 in v'.now.ledger.tables[cid].rows && v'.now.ledger.tables[cid].rows[records[i].0] == records[i].1
    ensures cid in v'.kept.ledger.tables ==> records[i].0 in v'.kept.ledger.tables[cid].rows && v'.kept.ledger.tables[cid].rows[records[i].0] == records[i].1
  {
    hide Wrote, BatchWritten, LastOf, Taken, Ops, StateReplay;
    LastIsIndex(records, i);
    AllTaken(fits, lsn, cid, records);
    BatchOps(v.now, cid, records);
    BatchWrote(v, v', cid, records, lsn, fits, steps);
    BatchBecameRow(v.now, v'.now, cid, records, i);
    if cid in v'.kept.ledger.tables { BatchSettles(v, v', cid, records, i); }
  }

  method PutBatch(store: Store, cid: nat, records: seq<(Id, Row)>, i: nat) returns (written: Result<nat, Error>, name: Bytes)
    requires store.Valid() && LastOf(records, i)
    modifies store, store.collections.Values
    ensures store.Valid() && fresh(store.collections.Values - old(store.collections.Values))
    ensures written.Ok? ==> Settled(store.Worlds(), s => HoldsRow(s, cid, records[i].0, records[i].1, name))
  {
    hide Store.Valid, Meaning, Wrote, Logged, Spent, Recorded, Appends, Marked, AllMarked, BatchWritten, LastOf, HoldsRow, Settled;
    ghost var v, lsn, t := store.Worlds(), store.nextLsn, store.trace;
    LastIsIndex(records, i);
    written := store.UpsertBatch(cid, records);
    name := [];
    if written.Ok? {
      BatchRow(v, store.Worlds(), cid, records, i, lsn, store.fits, store.trace[|t|..]);
      store.KeptTable(cid);
      name := store.collections[cid].name;
      RowIsSettled(store.Worlds(), cid, records[i].0, records[i].1, name);
    }
  }

  lemma LastIsIndex(records: seq<(Id, Row)>, i: int)
    requires LastOf(records, i)
    ensures 0 <= i < |records|
  {}

  /** Every record of an accepted batch, the last one for its id, is read back likewise. */
  method BatchLasts(before: seq<Event>, cid: nat, records: seq<(Id, Row)>, i: nat, after: seq<Event>, fits: Entry -> bool)
    returns (written: Result<nat, Error>, name: Bytes, r: Result<Option<Row>, Error>)
    requires LastOf(records, i)
    ensures written.Ok? && (forall j :: 0 <= j < |after| ==> !Disturbs(after[j].cmd, cid, records[i].0, name)) ==> r == Ok(Some(records[i].1))
  {
    hide ExpectedAfter, AllPlausible, Store.Valid, Settled, Safe, Disturbs;
    var id, row := records[i].0, records[i].1;
    var store, _ := Run(before, fits);
    written, name := PutBatch(store, cid, records, i);
    ghost var keeps, permits := (s: State) => true, (op: Op) => true;
    AnythingGoes(store.Worlds(), after);
    if written.Ok? && forall j :: 0 <= j < |after| ==> !Disturbs(after[j].cmd, cid, id, name) {
      RowIsSafe(store.Worlds(), after, cid, id, row, name);
      keeps, permits := s => HoldsRow(s, cid, id, row, name), op => KeepsRow(op, cid, id);
    }
    ghost var s;
    r, s := ReadLater(store, after, keeps, permits, cid, id);
  }

  // ---- a point that was deleted --------------------------------------------

  predicate LacksRow(s: State, cid: nat, id: Id) {
    cid < s.nextCid && (cid in s.ledger.tables ==> id !in s.ledger.tables[cid].rows)
  }

  predicate AddsNoRow(op: Op, cid: nat, id: Id) {
    (op.Create? ==> op.cid != cid) && (op.Upsert? ==> op.cid != cid || op.id != id)
  }

  lemma DeleteSettles(v: Worlds, v': Worlds, cid: nat, id: Id, lsn: nat, fits: Entry -> bool)
    requires v' == Completed(v, Commands.DeletePoint(cid, id), lsn, fits) && fits(Entry(lsn, Delete(cid, id)))
    requires cid in v.now.ledger.tables && id in v.now.ledger.tables[cid].rows
    ensures v'.pending == [] && (cid in v'.kept.ledger.tables ==> id !in v'.kept.ledger.tables[cid].rows)
  {
    var op := Delete(cid, id);
    TakenIs(fits, lsn, [op], 1);
    assert (v.pending + [op])[..|v.pending|] == v.pending;
    assert v'.kept == StateApply(StateReplay(v.kept, v.pending), op);
  }

  lemma RowsBecameNone(s: State, s': State, cid: nat, id: Id)
    requires cid in s.ledger.tables && RowsBecome(s, s', cid, s.ledger.tables[cid].rows - {id})
    ensures cid in s'.ledger.tables && id !in s'.ledger.tables[cid].rows
  {}

  method RemovePoint(store: Store, cid: nat, id: Id) returns (deleted: Result<bool, Error>)
    requires store.Valid()
    modifies store, store.collections.Values
    ensures store.Valid() && fresh(store.collections.Values - old(store.collections.Values))
    ensures deleted == Ok(true) ==> Settled(store.Worlds(), s => LacksRow(s, cid, id))
  {
    hide Store.Valid, Meaning, Completed, Framed, Logged, Spent, Recorded, Appends, Marked, AllMarked, RowsBecome;
    ghost var v, lsn := store.Worlds(), store.nextLsn;
    deleted := store.DeletePoint(cid, id);
    if deleted == Ok(true) {
      RowsBecameNone(v.now, store.Acknowledged(), cid, id);
      store.KeptTable(cid);
      DeleteSettles(v, store.Worlds(), cid, id, lsn, store.fits);
    }
  }

  lemma NoneIsSafe(v: Worlds, after: seq<Event>, cid: nat, id: Id)
    requires Settled(v, s => LacksRow(s, cid, id)) && forall i :: 0 <= i < |after| ==> !Upserts(after[i].cmd, cid, id)
    ensures Safe(v, after, s => LacksRow(s, cid, id), op => AddsNoRow(op, cid, id))
  {
    hide Closed, Obeys, Upserts;
    NoneIsClosed(cid, id);
    forall i | 0 <= i < |after| ensures Obeys(after[i].cmd, s => LacksRow(s, cid, id), op => AddsNoRow(op, cid, id)) {
      NoneIsObeyed(after[i].cmd, cid, id);
    }
  }

  lemma NoneIsClosed(cid: nat, id: Id)
    ensures Closed(s => LacksRow(s, cid, id), op => AddsNoRow(op, cid, id))
  {
    forall s: State, op: Op | LacksRow(s, cid, id) && AddsNoRow(op, cid, id) ensures LacksRow(StateApply(s, op), cid, id) {}
  }

  lemma NoneIsObeyed(cmd: Command, cid: nat, id: Id)
    requires !Upserts(cmd, cid, id)
    ensures Obeys(cmd, s => LacksRow(s, cid, id), op => AddsNoRow(op, cid, id))
  {
    forall s: State, i | LacksRow(s, cid, id) && Named(s.ledger) && 0 <= i < |Ops(s, cmd)| ensures AddsNoRow(Ops(s, cmd)[i], cid, id) {
      match cmd
      case UpsertBatch(c, records) => if c == cid { assert Ops(s, cmd) == UpsertOps(c, records); assert records[i].0 != id; }
      case _ =>
    }
  }

  /** A deleted point stays gone through anything that may follow, until it is upserted. */
  method DeleteLasts(before: seq<Event>, cid: nat, id: Id, after: seq<Event>, fits: Entry -> bool)
    returns (deleted: Result<bool, Error>, r: Result<Option<Row>, Error>)
    ensures deleted == Ok(true) && (forall i :: 0 <= i < |after| ==> !Upserts(after[i].cmd, cid, id)) ==> r == Ok(None) || r == Err(NotFound)
  {
    hide ExpectedAfter, AllPlausible, Store.Valid, Settled, Safe, Upserts;
    var store, _ := Run(before, fits);
    deleted := RemovePoint(store, cid, id);
    ghost var keeps, permits := (s: State) => true, (op: Op) => true;
    AnythingGoes(store.Worlds(), after);
    if deleted == Ok(true) && forall i :: 0 <= i < |after| ==> !Upserts(after[i].cmd, cid, id) {
      NoneIsSafe(store.Worlds(), after, cid, id);
      keeps, permits := s => LacksRow(s, cid, id), op => AddsNoRow(op, cid, id);
    }
    ghost var s;
    r, s := ReadLater(store, after, keeps, permits, cid, id);
  }

  // ---- a collection that was dropped ---------------------------------------

  predicate LacksTable(s: State, cid: nat) { cid < s.nextCid && cid !in s.ledger.tables }

  predicate AddsNoTable(op: Op, cid: nat) { op.Create? ==> op.cid != cid }

  /** Look the collection up, read one point of it, and drop it. */
  method RemoveCollection(store: Store, name: Bytes, id: Id) returns (cid: nat, was: Result<Option<Row>, Error>, dropped: Result<bool, Error>)
    requires store.Valid()
    modifies store, store.collections.Values
    ensures store.Valid() && fresh(store.collections.Values - old(store.collections.Values))
    ensures dropped == Ok(true) ==> was != Err(NotFound) && Settled(store.Worlds(), s => LacksTable(s, cid))
  {
    hide Store.Valid, Store.Linked, CatalogOk, Meaning, Completed, Framed, Logged, Spent, Recorded, Appends, Marked, AllMarked;
    store.ValidFacts();
    store.NamesAreMeant();
    store.WellNamedMemory();
    store.LedgerNamed();
    cid := if name in store.nameIndex then store.nameIndex[name] else 0;
    was := store.Get(cid, id);
    dropped := store.DropCollection(name);
    if dropped == Ok(true) { store.KeptTable(cid); }
  }

  lemma TableIsSafe(v: Worlds, after: seq<Event>, cid: nat)
    requires Settled(v, s => LacksTable(s, cid))
    ensures Safe(v, after, s => LacksTable(s, cid), op => AddsNoTable(op, cid))
  {
    hide Obeys;
    forall s: State, op: Op | LacksTable(s, cid) && AddsNoTable(op, cid) ensures LacksTable(StateApply(s, op), cid) {}
    forall i | 0 <= i < |after| ensures Obeys(after[i].cmd, s => LacksTable(s, cid), op => AddsNoTable(op, cid)) { TableIsObeyed(after[i].cmd, cid); }
  }

  lemma TableIsObeyed(cmd: Command, cid: nat)
    ensures Obeys(cmd, s => LacksTable(s, cid), op => AddsNoTable(op, cid))
  {
    forall s: State, i | LacksTable(s, cid) && Named(s.ledger) && 0 <= i < |Ops(s, cmd)| ensures AddsNoTable(Ops(s, cmd)[i], cid) {}
  }

  /** A dropped collection is never found again, whatever follows: not even a collection
      created later under its name answers to its id. */
  method DropLasts(before: seq<Event>, name: Bytes, id: Id, after: seq<Event>, fits: Entry -> bool)
    returns (was: Result<Option<Row>, Error>, dropped: Result<bool, Error>, r: Result<Option<Row>, Error>)
    ensures dropped == Ok(true) ==> was != Err(NotFound) && r == Err(NotFound)
  {
    hide ExpectedAfter, AllPlausible, Store.Valid, Settled, Safe;
    var store, _ := Run(before, fits);
    var cid;
    cid, was, dropped := RemoveCollection(store, name, id);
    ghost var keeps, permits := (s: State) => true, (op: Op) => true;
    AnythingGoes(store.Worlds(), after);
    if dropped == Ok(true) {
      TableIsSafe(store.Worlds(), after, cid);
      keeps, permits := s => LacksTable(s, cid), op => AddsNoTable(op, cid);
    }
    ghost var s;
    r, s := ReadLater(store, after, keeps, permits, cid, id);
  }
}
