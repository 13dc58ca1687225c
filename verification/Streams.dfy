/** Replication streams: operation sequences a fresh follower can apply one by one,
    and the snapshot that starts one (crates/quiver-core/src/store.rs,
    `replication_snapshot`, `apply_replicated`). */
module Streams {
  import opened ByteStrings
  import opened Segments
  import opened Replay
  import opened WindowReplay
  import opened Disks
  import opened Commands
  import opened Points
  import opened Reads

  const EMPTY_LEDGER := Ledger(map[], map[])

  predicate CreatesIn(ops: seq<Op>, cid: nat) { exists i :: 0 <= i < |ops| && ops[i].Create? && ops[i].cid == cid }

  /** After `ops`, leading to `l`: a new id under a free name, or a live collection. */
  predicate NextOk(l: Ledger, ops: seq<Op>, op: Op) {
    match op
    case Create(cid, name, _) => !CreatesIn(ops, cid) && name !in l.names
    case Drop(cid) => cid in l.tables
    case _ => true
  }

  /** Every operation is one its predecessors allow. */
  ghost predicate Streamable(ops: seq<Op>) {
    forall i :: 0 <= i < |ops| ==> NextOk(LedgerReplay(EMPTY_LEDGER, ops[..i]), ops[..i], ops[i])
  }

  lemma StreamExtend(ops: seq<Op>, op: Op)
    requires Streamable(ops) && NextOk(LedgerReplay(EMPTY_LEDGER, ops), ops, op)
    ensures Streamable(ops + [op])
    ensures LedgerReplay(EMPTY_LEDGER, ops + [op]) == LedgerApply(LedgerReplay(EMPTY_LEDGER, ops), op)
  {
    hide NextOk, LedgerApply;
    var all := ops + [op];
    assert all[..|ops|] == ops;
    forall i | 0 <= i < |all| ensures NextOk(LedgerReplay(EMPTY_LEDGER, all[..i]), all[..i], all[i]) {
      if i < |ops| { assert all[..i] == ops[..i]; }
    }
  }

  lemma CreatesExtend(ops: seq<Op>, op: Op, cid: nat)
    ensures CreatesIn(ops + [op], cid) <==> CreatesIn(ops, cid) || (op.Create? && op.cid == cid)
  {
    var all := ops + [op];
    if CreatesIn(ops, cid) {
      var i :| 0 <= i < |ops| && ops[i].Create? && ops[i].cid == cid;
      assert all[i] == ops[i];
    }
    assert all[|ops|] == op;
  }

  /** Names and collections of a ledger correspond one to one. */
  ghost predicate Named(l: Ledger) {
    && (forall n :: n in l.names ==> l.names[n] in l.tables && l.tables[l.names[n]].name == n)
    && (forall cid :: cid in l.tables ==> l.tables[cid].name in l.names && l.names[l.tables[cid].name] == cid)
  }

  // ---- the snapshot --------------------------------------------------------

  /** The part of a ledger already sent. */
  function Part(l: Ledger, done: set<nat>): Ledger {
    Ledger(map cid | cid in l.tables && cid in done :: l.tables[cid], map n | n in l.names && l.names[n] in done :: l.names[n])
  }

  function AddRows(rows: map<Id, Row>, more: seq<(Id, Row)>): map<Id, Row> {
    if more == [] then rows else AddRows(rows, more[..|more| - 1])[more[|more| - 1].0 := more[|more| - 1].1]
  }

  function WithRows(l: Ledger, cid: nat, rows: map<Id, Row>): Ledger {
    if cid in l.tables then l.(tables := l.tables[cid := l.tables[cid].(rows := rows)]) else l
  }

  /** A scan sent row by row rebuilds the map it lists. */
  lemma {:induction false} AddedAre(rows: map<Id, Row>, more: seq<(Id, Row)>, id: Id)
    requires forall i :: 0 <= i < |more| ==> more[i].0 in rows && rows[more[i].0] == more[i].1
    ensures id in AddRows(map[], more) <==> exists i :: 0 <= i < |more| && more[i].0 == id
    ensures id in AddRows(map[], more) ==> id in rows && AddRows(map[], more)[id] == rows[id]
  {
    if more != [] {
      var n := |more| - 1;
      assert forall i :: 0 <= i < n ==> more[..n][i] == more[i];
      AddedAre(rows, more[..n], id);
      if id == more[n].0 { assert more[n].0 == id; }
    }
  }

  lemma ScanRebuilds(rows: map<Id, Row>, out: seq<(Id, Row)>)
    requires ScanOf(rows, out)
    ensures AddRows(map[], out) == rows
  {
    forall id: Id ensures id in AddRows(map[], out) <==> id in rows
                  ensures id in rows ==> AddRows(map[], out)[id] == rows[id]
    {
      AddedAre(rows, out, id);
      if id in rows {
        var i :| 0 <= i < |out| && out[i] == (id, rows[id]);
        assert out[i].0 == id;
      }
    }
  }

  /** Sending a new collection's rows after its creation. */
  lemma {:induction false} RowsStream(ops: seq<Op>, cid: nat, rows: seq<(Id, Row)>)
    requires Streamable(ops) && cid in LedgerReplay(EMPTY_LEDGER, ops).tables
    ensures Streamable(ops + UpsertOps(cid, rows))
    ensures var l := LedgerReplay(EMPTY_LEDGER, ops);
      LedgerReplay(EMPTY_LEDGER, ops + UpsertOps(cid, rows)) == WithRows(l, cid, AddRows(l.tables[cid].rows, rows))
    ensures forall c: nat :: CreatesIn(ops + UpsertOps(cid, rows), c) <==> CreatesIn(ops, c)
  {
    hide Streamable;
    var l := LedgerReplay(EMPTY_LEDGER, ops);
    if rows == [] {
      assert ops + UpsertOps(cid, rows) == ops;
      assert l.tables[cid := l.tables[cid].(rows := l.tables[cid].rows)] == l.tables;
    } else {
      var n := |rows| - 1;
      var op := Upsert(cid, rows[n].0, rows[n].1);
      RowsStream(ops, cid, rows[..n]);
      var before := ops + UpsertOps(cid, rows[..n]);
      assert ops + UpsertOps(cid, rows) == before + [op];
      StreamExtend(before, op);
      forall c: nat ensures CreatesIn(before + [op], c) <==> CreatesIn(ops, c) { CreatesExtend(before, op, c); }
      assert LedgerApply(LedgerReplay(EMPTY_LEDGER, before), op) == WithRows(l, cid, AddRows(l.tables[cid].rows, rows));
    }
  }

  /** One more collection of the snapshot. */
  lemma CollectionStream(l: Ledger, done: set<nat>, ops: seq<Op>, cid: nat, rows: seq<(Id, Row)>)
    requires Named(l) && cid in l.tables && cid !in done && ScanOf(l.tables[cid].rows, rows)
    requires Streamable(ops) && LedgerReplay(EMPTY_LEDGER, ops) == Part(l, done)
    requires forall c: nat :: CreatesIn(ops, c) ==> c in done
    ensures var more := ops + [Create(cid, l.tables[cid].name, l.tables[cid].desc)] + UpsertOps(cid, rows);
      && Streamable(more) && LedgerReplay(EMPTY_LEDGER, more) == Part(l, done + {cid})
      && forall c: nat :: CreatesIn(more, c) ==> c in done + {cid}
  {
    hide Streamable, ScanOf, LedgerReplay;
    var Table(name, desc, r) := l.tables[cid];
    var op := Create(cid, name, desc);
    StreamExtend(ops, op);
    forall c: nat ensures CreatesIn(ops + [op], c) ==> c in done + {cid} { CreatesExtend(ops, op, c); }
    RowsStream(ops + [op], cid, rows);
    ScanRebuilds(r, rows);
    PartGrows(l, done, cid);
  }

  lemma PartGrows(l: Ledger, done: set<nat>, cid: nat)
    requires Named(l) && cid in l.tables && cid !in done
    ensures var Table(name, desc, r) := l.tables[cid];
      WithRows(LedgerApply(Part(l, done), Create(cid, name, desc)), cid, r) == Part(l, done + {cid})
  {
    var Table(name, desc, r) := l.tables[cid];
    var a, b := WithRows(LedgerApply(Part(l, done), Create(cid, name, desc)), cid, r), Part(l, done + {cid});
    assert a.tables == b.tables;
    assert a.names == b.names;
  }

  lemma PartWhole(l: Ledger, done: set<nat>)
    requires Named(l) && forall cid :: cid in l.tables ==> cid in done
    ensures Part(l, done) == l
  {
    assert Part(l, done).tables == l.tables && Part(l, done).names == l.names;
  }

  lemma PartNothing(l: Ledger)
    ensures Part(l, {}) == EMPTY_LEDGER == LedgerReplay(EMPTY_LEDGER, [])
  {}

  lemma NothingStreamed()
    ensures Streamable([]) && forall cid: nat :: !CreatesIn([], cid)
  {}

  // ---- the leader's further operations -------------------------------------

  /** The stream leads to the state, and uses no id the state has yet to hand out. */
  ghost predicate StreamOf(ops: seq<Op>, s: State) {
    && Streamable(ops) && LedgerReplay(EMPTY_LEDGER, ops) == s.ledger
    && forall cid: nat :: CreatesIn(ops, cid) ==> cid < s.nextCid
  }

  /** What a leader goes on to log extends its snapshot to a stream. */
  lemma CommandStream(ops: seq<Op>, s: State, cmd: Command)
    requires StreamOf(ops, s) && Named(s.ledger)
    ensures StreamOf(ops + Ops(s, cmd), StateReplay(s, Ops(s, cmd)))
  {
    match cmd {
      case UpsertBatch(cid, records) => PointsStream(ops, s, Ops(s, cmd));
      case UpsertPoint(cid, id, row) => PointsStream(ops, s, Ops(s, cmd));
      case DeletePoint(cid, id) => PointsStream(ops, s, Ops(s, cmd));
      case Checkpoint => PointsStream(ops, s, []);
      case Compact => PointsStream(ops, s, []);
      case CreateCollection(name, desc) =>
        if Ops(s, cmd) == [] { PointsStream(ops, s, []); } else { OneMore(ops, s, Create(s.nextCid, name, desc)); }
      case DropCollection(name) =>
        if Ops(s, cmd) == [] { PointsStream(ops, s, []); } else { OneMore(ops, s, Drop(s.ledger.names[name])); }
    }
  }

  /** What it publishes, when the log refuses a record: nothing. */
  lemma PublishedStream(ops: seq<Op>, v: Worlds, cmd: Command, lsn: nat, fits: Entry -> bool)
    requires StreamOf(ops, v.now) && Named(v.now.ledger)
    ensures StreamOf(ops + Logged(v.now, cmd, lsn, fits), Completed(v, cmd, lsn, fits).now)
  {
    hide StreamOf, Named, StateReplay, Taken;
    CommandStream(ops, v.now, cmd);
    NothingMore(ops, v.now);
    if cmd.Checkpoint? { assert Ops(v.now, cmd) == []; }
  }

  lemma NothingMore(ops: seq<Op>, s: State)
    ensures ops + [] == ops && StateReplay(s, []) == s
  {}

  lemma OneMore(ops: seq<Op>, s: State, op: Op)
    requires StreamOf(ops, s) && NextOk(s.ledger, ops, op)
    ensures StreamOf(ops + [op], StateReplay(s, [op]))
  {
    hide Streamable, LedgerApply, LedgerReplay;
    StreamExtend(ops, op);
    StateReplayOne(s, op);
    forall c: nat ensures CreatesIn(ops + [op], c) ==> CreatesIn(ops, c) || (op.Create? && op.cid == c) { CreatesExtend(ops, op, c); }
  }

  lemma {:induction false} PointsStream(ops: seq<Op>, s: State, more: seq<Op>)
    requires StreamOf(ops, s)
    requires forall i :: 0 <= i < |more| ==> more[i].Upsert? || more[i].Delete?
    ensures StreamOf(ops + more, StateReplay(s, more))
  {
    hide StreamOf, LedgerApply;
    if more == [] {
      assert ops + more == ops;
    } else {
      var n := |more| - 1;
      PointsStream(ops, s, more[..n]);
      var before, s' := ops + more[..n], StateReplay(s, more[..n]);
      OneMore(before, s', more[n]);
      StateReplayOne(s', more[n]);
      assert ops + more == before + [more[n]];
    }
  }
}
