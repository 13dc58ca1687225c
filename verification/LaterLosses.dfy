/** A second loss: records that survived a crash without having been synced are replayed by the
    next opening and stay in the old log file, which is not synced then either. A later power
    failure may take them away from under the writes acknowledged since
    (crates/quiver-core/src/store.rs, `open_with_keyring`). */
module LaterLosses {
  import opened ByteStrings
  import opened Segments
  import opened Descriptors
  import opened Collections
  import opened Replay
  import opened WindowReplay
  import opened Disks
  import opened DiskSteps
  import opened Housekeeping
  import opened Shadows
  import opened Cuts
  import opened Survivors
  import opened Commands
  import opened Points
  import opened Marks
  import opened Streams
  import opened Stores
  import opened Runs
  import opened Residues

  // ---- one table -----------------------------------------------------------

  predicate ResetIn(ops: seq<Op>, cid: nat) { exists i :: 0 <= i < |ops| && ResetsColl(ops[i], cid) }

  predicate TouchedIn(ops: seq<Op>, cid: nat, id: Id) { exists i :: 0 <= i < |ops| && Touches(ops[i], cid, id) }

  function TableApply(t: Option<Table>, cid: nat, op: Op): Option<Table> {
    match op
    case Create(x, name, desc) => if x == cid then Some(Table(name, desc, map[])) else t
    case Drop(x) => if x == cid then None else t
    case _ => if t.Some? then Some(t.value.(rows := RowsApply(t.value.rows, cid, op))) else None
  }

  function TableReplay(t: Option<Table>, cid: nat, ops: seq<Op>): Option<Table> {
    if ops == [] then t else TableApply(TableReplay(t, cid, ops[..|ops| - 1]), cid, ops[|ops| - 1])
  }

  /** Replay acts on each table by itself. */
  lemma {:induction false} ReplayByTable(l: Ledger, ops: seq<Op>, cid: nat)
    ensures Get(LedgerReplay(l, ops).tables, cid) == TableReplay(Get(l.tables, cid), cid, ops)
  {
    if ops != [] { ReplayByTable(l, ops[..|ops| - 1], cid); }
  }

  lemma ResetMore(ops: seq<Op>, cid: nat)
    requires ops != []
    ensures ResetIn(ops, cid) <==> ResetIn(ops[..|ops| - 1], cid) || ResetsColl(ops[|ops| - 1], cid)
  {
    var n := |ops| - 1;
    if ResetIn(ops[..n], cid) {
      var i :| 0 <= i < n && ResetsColl(ops[..n][i], cid);
      assert ResetsColl(ops[i], cid);
    }
    if ResetIn(ops, cid) && !ResetsColl(ops[n], cid) {
      var i :| 0 <= i < |ops| && ResetsColl(ops[i], cid);
      assert ops[..n][i] == ops[i];
    }
  }

  lemma TouchMore(ops: seq<Op>, cid: nat, id: Id)
    requires ops != []
    ensures TouchedIn(ops, cid, id) <==> TouchedIn(ops[..|ops| - 1], cid, id) || Touches(ops[|ops| - 1], cid, id)
  {
    var n := |ops| - 1;
    if TouchedIn(ops[..n], cid, id) {
      var i :| 0 <= i < n && Touches(ops[..n][i], cid, id);
      assert Touches(ops[i], cid, id);
    }
    if TouchedIn(ops, cid, id) && !Touches(ops[n], cid, id) {
      var i :| 0 <= i < |ops| && Touches(ops[i], cid, id);
      assert ops[..n][i] == ops[i];
    }
  }

  /** Once a table is created or dropped, what was before does not matter. */
  lemma {:induction false} ResetDecides(a: Option<Table>, b: Option<Table>, cid: nat, ops: seq<Op>)
    requires ResetIn(ops, cid)
    ensures TableReplay(a, cid, ops) == TableReplay(b, cid, ops)
  {
    ResetMore(ops, cid);
    if !ResetsColl(ops[|ops| - 1], cid) { ResetDecides(a, b, cid, ops[..|ops| - 1]); }
  }

  function RowIn(t: Option<Table>, id: Id): Option<Row> { if t.Some? then RowOf(t.value.rows, id) else None }

  /** Without that a table keeps its name and schema, and the last touch of an id decides its
      row. */
  lemma {:induction false} NoReset(t: Option<Table>, cid: nat, ops: seq<Op>)
    requires !ResetIn(ops, cid)
    ensures var r := TableReplay(t, cid, ops); r.Some? == t.Some? && (t.Some? ==> r.value.name == t.value.name && r.value.desc == t.value.desc)
  {
    if ops != [] {
      ResetMore(ops, cid);
      NoReset(t, cid, ops[..|ops| - 1]);
    }
  }

  lemma {:induction false} RowDecided(a: Option<Table>, b: Option<Table>, cid: nat, ops: seq<Op>, id: Id)
    requires !ResetIn(ops, cid) && a.Some? && b.Some?
    ensures RowIn(TableReplay(a, cid, ops), id) == RowIn(TableReplay(b, cid, ops), id) <==> TouchedIn(ops, cid, id) || RowIn(a, id) == RowIn(b, id)
  {
    if ops != [] {
      var n := |ops| - 1;
      ResetMore(ops, cid);
      TouchMore(ops, cid, id);
      NoReset(a, cid, ops[..n]);
      NoReset(b, cid, ops[..n]);
      RowDecided(a, b, cid, ops[..n], id);
    }
  }

  /** The two tables are the same, or agree on everything the operations do not touch. */
  ghost predicate AgreeUntouched(a: Option<Table>, b: Option<Table>, cid: nat, ops: seq<Op>) {
    && a.Some? == b.Some?
    && (a.Some? ==>
          && a.value.name == b.value.name && a.value.desc == b.value.desc
          && forall id :: TouchedIn(ops, cid, id) || RowIn(a, id) == RowIn(b, id))
  }

  lemma TableIff(a: Option<Table>, b: Option<Table>, cid: nat, ops: seq<Op>)
    ensures TableReplay(a, cid, ops) == TableReplay(b, cid, ops) <==> ResetIn(ops, cid) || AgreeUntouched(a, b, cid, ops)
  {
    hide TableReplay, TouchedIn;
    if ResetIn(ops, cid) {
      ResetDecides(a, b, cid, ops);
    } else {
      NoReset(a, cid, ops);
      NoReset(b, cid, ops);
      if a.Some? && b.Some? {
        var x, y := TableReplay(a, cid, ops), TableReplay(b, cid, ops);
        forall id ensures RowIn(x, id) == RowIn(y, id) <==> TouchedIn(ops, cid, id) || RowIn(a, id) == RowIn(b, id) { RowDecided(a, b, cid, ops, id); }
        if AgreeUntouched(a, b, cid, ops) {
          forall id ensures RowOf(x.value.rows, id) == RowOf(y.value.rows, id) { assert RowIn(x, id) == RowIn(y, id); }
          SameRows(x.value.rows, y.value.rows);
        }
      }
    }
  }

  // ---- names ---------------------------------------------------------------

  /** An operation a store that holds `s` may log. */
  predicate LegalOp(s: State, op: Op) {
    match op
    case Create(cid, name, _) => cid >= s.nextCid && name !in s.ledger.names
    case Drop(cid) => cid in s.ledger.tables
    case _ => true
  }

  ghost predicate Legal(s: State, ops: seq<Op>) { forall i :: 0 <= i < |ops| ==> LegalOp(StateReplay(s, ops[..i]), ops[i]) }

  ghost predicate Proper(s: State) { Named(s.ledger) && forall cid :: cid in s.ledger.tables ==> cid < s.nextCid }

  lemma ProperStep(s: State, op: Op)
    requires Proper(s) && LegalOp(s, op)
    ensures Proper(StateApply(s, op))
  {}

  /** `a` is `b` without some operations: its own index is sound, and where both have a collection
      they have it under the same name and `a` finds it by that name. */
  ghost predicate Behind(a: State, b: State) {
    && Proper(b) && a.nextCid <= b.nextCid && (forall cid :: cid in a.ledger.tables ==> cid < a.nextCid)
    && (forall n :: n in a.ledger.names ==> a.ledger.names[n] in a.ledger.tables && a.ledger.tables[a.ledger.names[n]].name == n)
    && (forall cid :: cid in a.ledger.tables && cid in b.ledger.tables ==>
          var n := a.ledger.tables[cid].name;
          b.ledger.tables[cid].name == n && n in a.ledger.names && a.ledger.names[n] == cid)
  }

  lemma BehindSelf(a: State)
    requires Proper(a)
    ensures Behind(a, a)
  {}

  /** An operation only `b` has. */
  lemma BehindMissing(a: State, b: State, op: Op)
    requires Behind(a, b) && LegalOp(b, op)
    ensures Behind(a, StateApply(b, op))
  {
    ProperStep(b, op);
  }

  /** An operation both have. */
  lemma BehindBoth(a: State, b: State, op: Op)
    requires Behind(a, b) && LegalOp(b, op)
    ensures Behind(StateApply(a, op), StateApply(b, op))
  {
    ProperStep(b, op);
    match op {
      case Create(cid, name, desc) => BehindCreate(a, b, cid, name, desc);
      case Drop(cid) => BehindDrop(a, b, cid);
      case _ =>
    }
  }

  lemma BehindCreate(a: State, b: State, cid: nat, name: Bytes, desc: Descriptor)
    requires Behind(a, b) && cid >= b.nextCid && name !in b.ledger.names && Proper(StateApply(b, Create(cid, name, desc)))
    ensures Behind(StateApply(a, Create(cid, name, desc)), StateApply(b, Create(cid, name, desc)))
  {}

  lemma BehindDrop(a: State, b: State, cid: nat)
    requires Behind(a, b) && cid in b.ledger.tables && Proper(StateApply(b, Drop(cid)))
    ensures Behind(StateApply(a, Drop(cid)), StateApply(b, Drop(cid)))
  {}

  lemma {:induction false} BehindReplay(a: State, b: State, ops: seq<Op>)
    requires Behind(a, b) && Legal(b, ops)
    ensures Behind(a, StateReplay(b, ops)) && Behind(StateReplay(a, ops), StateReplay(b, ops))
  {
    hide Behind, LegalOp, StateApply;
    if ops != [] {
      var n := |ops| - 1;
      LegalPrefix(b, ops, n);
      BehindReplay(a, b, ops[..n]);
      BehindMissing(a, StateReplay(b, ops[..n]), ops[n]);
      BehindBoth(StateReplay(a, ops[..n]), StateReplay(b, ops[..n]), ops[n]);
    }
  }

  lemma LegalPrefix(s: State, ops: seq<Op>, n: nat)
    requires Legal(s, ops) && n <= |ops|
    ensures Legal(s, ops[..n])
  {
    hide LegalOp, StateReplay;
    forall i | 0 <= i < n ensures LegalOp(StateReplay(s, ops[..n][..i]), ops[..n][i]) { assert ops[..n][..i] == ops[..i]; }
  }

  /** Same tables, same index. */
  lemma BehindEqual(a: State, b: State)
    requires Behind(a, b) && a.ledger.tables == b.ledger.tables
    ensures a.ledger == b.ledger
  {
    var x, y := a.ledger.names, b.ledger.names;
    forall n ensures n in x <==> n in y {}
    forall n | n in x ensures x[n] == y[n] {}
    assert x == y;
  }

  // ---- the exact condition -------------------------------------------------

  /** Every collection the two states do not agree on is created or dropped by the operations, or
      differs only in rows they write or delete. */
  ghost predicate Overwritten(a: State, b: State, ops: seq<Op>) {
    forall cid :: ResetIn(ops, cid) || AgreeUntouched(Get(a.ledger.tables, cid), Get(b.ledger.tables, cid), cid, ops)
  }

  lemma StateIsLedger(s: State, ops: seq<Op>)
    ensures StateReplay(s, ops).ledger == LedgerReplay(s.ledger, ops)
  {
    if ops != [] { StateIsLedger(s, ops[..|ops| - 1]); }
  }

  lemma SameGetTables(m: map<nat, Table>, n: map<nat, Table>)
    requires forall x :: Get(m, x) == Get(n, x)
    ensures m == n
  {
    forall x ensures x in m <==> x in n { assert Get(m, x) == Get(n, x); }
    forall x | x in m ensures m[x] == n[x] { assert Get(m, x) == Get(n, x); }
  }

  /** The same operations lead from a state and from one without its last operations to the same
      ledger if and only if they overwrite all the two disagree on. */
  lemma OverwrittenIff(a: State, b: State, ops: seq<Op>)
    requires Behind(a, b) && Legal(b, ops)
    ensures StateReplay(a, ops).ledger == StateReplay(b, ops).ledger <==> Overwritten(a, b, ops)
  {
    hide Behind, Legal, StateReplay, AgreeUntouched, TableReplay, LedgerReplay;
    BehindReplay(a, b, ops);
    StateIsLedger(a, ops);
    StateIsLedger(b, ops);
    var x, y := LedgerReplay(a.ledger, ops), LedgerReplay(b.ledger, ops);
    forall cid: nat ensures Get(x.tables, cid) == Get(y.tables, cid) <==>
      ResetIn(ops, cid) || AgreeUntouched(Get(a.ledger.tables, cid), Get(b.ledger.tables, cid), cid, ops)
    {
      ReplayByTable(a.ledger, ops, cid);
      ReplayByTable(b.ledger, ops, cid);
      TableIff(Get(a.ledger.tables, cid), Get(b.ledger.tables, cid), cid, ops);
    }
    if Overwritten(a, b, ops) {
      SameGetTables(x.tables, y.tables);
      BehindEqual(StateReplay(a, ops), StateReplay(b, ops));
    }
  }

  // ---- what a store logs is legal ------------------------------------------

  /** The same collections under the same names, and the same next id; rows may differ. */
  ghost predicate SameShape(s: State, t: State) {
    && s.nextCid == t.nextCid && s.ledger.names == t.ledger.names
    && (forall cid :: cid in s.ledger.tables <==> cid in t.ledger.tables)
    && forall cid :: cid in s.ledger.tables ==> s.ledger.tables[cid].name == t.ledger.tables[cid].name
  }

  lemma ShapeStep(s: State, t: State, op: Op)
    requires SameShape(s, t)
    ensures SameShape(StateApply(s, op), StateApply(t, op)) && (op.Upsert? ==> SameShape(s, StateApply(t, op)))
  {}

  lemma {:induction false} ShapeReplay(s: State, t: State, ops: seq<Op>)
    requires SameShape(s, t)
    ensures SameShape(StateReplay(s, ops), StateReplay(t, ops))
    ensures (forall i :: 0 <= i < |ops| ==> ops[i].Upsert?) ==> SameShape(s, StateReplay(t, ops))
  {
    hide SameShape, StateApply;
    if ops != [] {
      var n := |ops| - 1;
      ShapeReplay(s, t, ops[..n]);
      ShapeStep(StateReplay(s, ops[..n]), StateReplay(t, ops[..n]), ops[n]);
      if forall i :: 0 <= i < |ops| ==> ops[i].Upsert? { ShapeStep(s, StateReplay(t, ops[..n]), ops[n]); }
    }
  }

  lemma ShapeProper(s: State, t: State)
    requires SameShape(s, t) && Proper(s)
    ensures Proper(t)
  {}

  lemma OverlayShape(s: State, z: Residue)
    ensures SameShape(s, Overlay(s, z))
  {}

  lemma {:induction false} LegalAppend(s: State, ops: seq<Op>, more: seq<Op>)
    requires Legal(s, ops) && Legal(StateReplay(s, ops), more)
    ensures Legal(s, ops + more)
  {
    hide LegalOp, StateReplay;
    var all := ops + more;
    forall i | 0 <= i < |all| ensures LegalOp(StateReplay(s, all[..i]), all[i]) {
      if i < |ops| {
        assert all[..i] == ops[..i];
      } else {
        assert all[..i] == ops + more[..i - |ops|];
        StateReplayAppend(s, ops, more[..i - |ops|]);
      }
    }
  }

  lemma LegalRest(s: State, ops: seq<Op>, n: nat)
    requires Legal(s, ops) && n <= |ops|
    ensures Legal(StateReplay(s, ops[..n]), ops[n..])
  {
    hide LegalOp, StateReplay;
    var rest := ops[n..];
    forall i | 0 <= i < |rest| ensures LegalOp(StateReplay(StateReplay(s, ops[..n]), rest[..i]), rest[i]) {
      assert ops[..n + i] == ops[..n] + rest[..i];
      StateReplayAppend(s, ops[..n], rest[..i]);
    }
  }

  lemma UpsertsLegal(s: State, ops: seq<Op>)
    requires forall i :: 0 <= i < |ops| ==> ops[i].Upsert?
    ensures Legal(s, ops)
  {}

  /** What a command asks the log to take is legal in any state of the acknowledged one's shape. */
  lemma CommandLegal(now: State, s: State, cmd: Command, n: nat)
    requires SameShape(now, s) && Proper(now) && n <= |Ops(now, cmd)|
    ensures Legal(s, Ops(now, cmd)[..n])
  {
    var ops := Ops(now, cmd)[..n];
    if cmd.UpsertBatch? {
      UpsertsLegal(s, ops);
    } else {
      forall i | 0 <= i < |ops| ensures LegalOp(StateReplay(s, ops[..i]), ops[i]) { assert ops[..i] == []; }
    }
  }

  // ---- a window of commands after an opening -------------------------------

  /** What some completed commands leave: the acknowledged and the synced state, the next sequence
      number, and the operations of all the records the log took. */
  datatype Span = Span(v: Worlds, lsn: nat, ops: seq<Op>)

  function Window(s: State, lsn: nat, cmds: seq<Command>, fits: Entry -> bool): Span {
    if cmds == [] then Span(AtRest(s), lsn, [])
    else
      var w, cmd := Window(s, lsn, cmds[..|cmds| - 1], fits), cmds[|cmds| - 1];
      Span(Completed(w.v, cmd, w.lsn, fits), w.lsn + Spent(w.v.now, cmd, w.lsn, fits), w.ops + Recorded(w.v.now, cmd, w.lsn, fits))
  }

  predicate AllWrites(cmds: seq<Command>) { forall i :: 0 <= i < |cmds| ==> CareOf(cmds[i]) == Writing }

  /** The records not synced are the last the log took, and the others replay to the synced
      state. */
  ghost predicate Accounted(s: State, w: Span) {
    var m := |w.ops| - |w.v.pending|;
    m >= 0 && w.ops[m..] == w.v.pending && w.v.kept == StateReplay(s, w.ops[..m])
  }

  lemma AccountedStep(s: State, w: Span, cmd: Command, fits: Entry -> bool)
    requires Accounted(s, w) && CareOf(cmd) == Writing
    ensures Accounted(s, Span(Completed(w.v, cmd, w.lsn, fits), 0, w.ops + Recorded(w.v.now, cmd, w.lsn, fits)))
  {
    hide Ops, StateReplay;
    var ops, m := Ops(w.v.now, cmd), |w.ops| - |w.v.pending|;
    TakenBound(fits, w.lsn, ops);
    var n := Taken(fits, w.lsn, ops);
    var all := w.ops + ops[..n];
    assert w.ops == w.ops[..m] + w.v.pending;
    if ops != [] && n == |ops| {
      assert ops[..n] == ops && all == w.ops[..m] + (w.v.pending + ops) && all[..|all|] == all && all[|all|..] == [];
      StateReplayAppend(s, w.ops[..m], w.v.pending + ops);
    } else if ops != [] {
      assert all[m..] == w.v.pending + ops[..n] && all[..m] == w.ops[..m];
    } else {
      assert all == w.ops;
    }
  }

  lemma {:induction false} WindowAccounted(s: State, lsn: nat, cmds: seq<Command>, fits: Entry -> bool)
    requires AllWrites(cmds)
    ensures Accounted(s, Window(s, lsn, cmds, fits))
  {
    hide Completed, Spent, Recorded, CareOf;
    if cmds == [] {
      assert StateReplay(s, []) == s;
    } else {
      var n := |cmds| - 1;
      WindowAccounted(s, lsn, cmds[..n], fits);
      AccountedStep(s, Window(s, lsn, cmds[..n], fits), cmds[n], fits);
    }
  }

  /** So a reopening after them shows the first state and all surviving records. */
  lemma WindowReopens(s: State, w: Span, lost: nat)
    requires Accounted(s, w)
    ensures ReopensTo(w.v, lost) == StateReplay(s, w.ops[..|w.ops| - Min(lost, |w.v.pending|)])
  {
    hide StateReplay;
    var m, k := |w.ops| - |w.v.pending|, |w.v.pending| - Min(lost, |w.v.pending|);
    StateReplayAppend(s, w.ops[..m], w.v.pending[..k]);
    assert w.ops[..m + k] == w.ops[..m] + w.v.pending[..k];
  }

  lemma LegalStep(s: State, w: Span, cmd: Command, fits: Entry -> bool)
    requires Legal(s, w.ops) && Proper(w.v.now) && SameShape(w.v.now, StateReplay(s, w.ops)) && CareOf(cmd) == Writing
    ensures var v, ops := Completed(w.v, cmd, w.lsn, fits), w.ops + Recorded(w.v.now, cmd, w.lsn, fits);
      Legal(s, ops) && Proper(v.now) && SameShape(v.now, StateReplay(s, ops))
  {
    hide Ops, StateReplay, Legal, Proper, SameShape;
    var ops := Ops(w.v.now, cmd);
    TakenBound(fits, w.lsn, ops);
    var n := Taken(fits, w.lsn, ops);
    var full := StateReplay(s, w.ops);
    CommandLegal(w.v.now, full, cmd, n);
    LegalAppend(s, w.ops, ops[..n]);
    StateReplayAppend(s, w.ops, ops[..n]);
    ShapeReplay(w.v.now, full, ops[..n]);
    if ops != [] && n == |ops| {
      assert ops[..n] == ops;
      ShapeSelf(w.v.now);
      CommandLegal(w.v.now, w.v.now, cmd, n);
      ProperReplay(w.v.now, ops);
    } else if ops != [] {
      forall i | 0 <= i < n ensures ops[..n][i].Upsert? { RefusedAreUpserts(w.v.now, cmd, n, i); }
    } else {
      assert w.ops + ops[..n] == w.ops;
    }
  }

  lemma ShapeSelf(s: State)
    ensures SameShape(s, s)
  {}

  lemma {:induction false} ProperReplay(s: State, ops: seq<Op>)
    requires Proper(s) && Legal(s, ops)
    ensures Proper(StateReplay(s, ops))
  {
    hide Proper, LegalOp, StateApply;
    if ops != [] {
      var n := |ops| - 1;
      LegalPrefix(s, ops, n);
      ProperReplay(s, ops[..n]);
      ProperStep(StateReplay(s, ops[..n]), ops[n]);
    }
  }

  lemma {:induction false} WindowLegal(s: State, lsn: nat, cmds: seq<Command>, fits: Entry -> bool)
    requires AllWrites(cmds) && Proper(s)
    ensures var w := Window(s, lsn, cmds, fits); Legal(s, w.ops) && Proper(w.v.now) && SameShape(w.v.now, StateReplay(s, w.ops))
  {
    hide Completed, Spent, Recorded, CareOf, Legal, Proper, SameShape;
    if cmds == [] {
      UpsertsLegal(s, []);
      ShapeSelf(s);
      assert StateReplay(s, []) == s;
    } else {
      var n := |cmds| - 1;
      WindowLegal(s, lsn, cmds[..n], fits);
      LegalStep(s, Window(s, lsn, cmds[..n], fits), cmds[n], fits);
    }
  }

  // ---- the crash before it -------------------------------------------------

  /** What a crash leaves is behind what it leaves when it loses less. */
  lemma CrashBehind(v: Worlds, z: Residue, cmd: Command, at: nat, lost: nat, more: nat, o: Outcome, fits: Entry -> bool)
    requires Tallies(v, z) && Proper(v.now)
    ensures Behind(Crashed(v, cmd, at, lost + more, o, fits), Crashed(v, cmd, at, lost, o, fits))
  {
    hide Ops, StateReplay, Legal, Proper, SameShape, Behind, Overlay, Taken;
    var ops := Ops(v.now, cmd);
    TakenBound(fits, o.lsn, ops);
    var n := Taken(fits, o.lsn, ops);
    OverlayShape(v.now, z);
    ShapeProper(v.now, v.kept);
    ShapeReplay(v.now, v.kept, v.pending);
    UpsertsLegal(v.kept, v.pending);
    var written := v.pending + ops[..Min(at, n)];
    CommandLegal(v.now, StateReplay(v.kept, v.pending), cmd, Min(at, n));
    LegalAppend(v.kept, v.pending, ops[..Min(at, n)]);
    if cmd.Checkpoint? && o.moved {
      BehindSelf(v.now);
    } else if ops != [] && n == |ops| && at > n {
      ProperReplay(v.kept, written);
      BehindSelf(StateReplay(v.kept, written));
    } else {
      PrefixBehind(v.kept, written, |written| - Min(lost + more, |written|), |written| - Min(lost, |written|));
    }
  }

  lemma PrefixBehind(s: State, ops: seq<Op>, i: nat, j: nat)
    requires Proper(s) && Legal(s, ops) && i <= j <= |ops|
    ensures Behind(StateReplay(s, ops[..i]), StateReplay(s, ops[..j]))
  {
    hide Legal, Proper, Behind, StateReplay;
    var some := ops[..j];
    LegalPrefix(s, ops, j);
    LegalPrefix(s, some, i);
    assert some[..i] == ops[..i];
    ProperReplay(s, ops[..i]);
    LegalRest(s, some, i);
    var a := StateReplay(s, ops[..i]);
    BehindSelf(a);
    BehindReplay(a, a, some[i..]);
    assert ops[..j] == ops[..i] + some[i..];
    StateReplayAppend(s, ops[..i], some[i..]);
  }

  // ---- the disk after the second loss --------------------------------------

  function OpsOf(es: seq<Entry>): (ops: seq<Op>)
    ensures |ops| == |es| && forall i :: 0 <= i < |es| ==> ops[i] == es[i].op
  {
    seq(|es|, i requires 0 <= i < |es| => es[i].op)
  }

  lemma {:induction false} ReplayIsState(k: Catalog, n: nat, es: seq<Entry>)
    requires CatalogOk(k)
    ensures CatalogOk(ReplayAll(k, es)) && State(Meaning(ReplayAll(k, es)), NextCidOver(n, es)) == StateReplay(State(Meaning(k), n), OpsOf(es))
  {
    hide CatalogOk, Apply, Meaning, LedgerApply;
    if es != [] {
      var m := |es| - 1;
      ReplayIsState(k, n, es[..m]);
      assert OpsOf(es)[..m] == OpsOf(es[..m]);
      ApplyRefines(ReplayAll(k, es[..m]), es[m].op);
    }
  }

  lemma {:induction false} NextCidAppend(n: nat, es: seq<Entry>, more: seq<Entry>)
    ensures NextCidOver(n, es + more) == NextCidOver(NextCidOver(n, es), more)
  {
    if more == [] {
      assert es + more == es;
    } else {
      var m := |more| - 1;
      NextCidAppend(n, es, more[..m]);
      assert (es + more)[..|es + more| - 1] == es + more[..m];
    }
  }

  /** The dead log files hold nothing to replay. */
  lemma {:induction false} LiveIsAll(wal: seq<seq<Entry>>, floor: nat)
    ensures Above(Flatten(LiveLogs(wal, floor)), floor) == Above(Flatten(wal), floor)
  {
    hide Above, Flatten;
    if wal != [] {
      var n := |wal| - 1;
      LiveIsAll(wal[..n], floor);
      assert wal == wal[..n] + [wal[n]];
      FlattenAppend(wal[..n], [wal[n]]);
      FlattenOne(wal[n]);
      AboveAppend(Flatten(wal[..n]), wal[n], floor);
      if NoneLive(wal[n], floor) {
        AboveNone(wal[n], floor);
      } else {
        FlattenAppend(LiveLogs(wal[..n], floor), [wal[n]]);
        AboveAppend(Flatten(LiveLogs(wal[..n], floor)), wal[n], floor);
      }
    }
  }

  /** `less` is `d` with its newest log file cut. */
  ghost predicate Shorter(d: Disk, less: Disk) {
    && less == d.(wal := less.wal)
    && (less != d ==> d.wal != [] && less.wal != [] && less.wal[..|less.wal| - 1] == d.wal[..|d.wal| - 1] && NewestLog(less) <= NewestLog(d))
  }

  /** `x` was opened from `d` and written to since; the records that `less` does not have are lost
      from the log file they are in. */
  function Lost(x: Disk, d: Disk, less: Disk): Disk {
    if d.wal == [] || less.wal == [] || x.wal == [] then x
    else
      var floor := Current(d).floor;
      var live := LiveLogs(d.wal[..|d.wal| - 1], floor);
      x.(wal := live + (if NoneLive(NewestLog(d), floor) then [] else [NewestLog(less)]) + [NewestLog(x)])
  }

  /** If `d` loses nothing, nothing is lost. */
  lemma LostNothing(x: Disk, d: Disk)
    requires x.wal != [] && x.wal == LiveLogs(d.wal, Current(d).floor) + [NewestLog(x)]
    ensures Lost(x, d, d) == x
  {}

  predicate AllAbove(es: seq<Entry>, floor: nat) { forall i :: 0 <= i < |es| ==> es[i].lsn > floor }

  lemma {:induction false} AboveAll(es: seq<Entry>, floor: nat)
    requires AllAbove(es, floor)
    ensures Above(es, floor) == es
  {
    if es != [] {
      AboveAll(es[..|es| - 1], floor);
      assert es == es[..|es| - 1] + [es[|es| - 1]];
    }
  }

  lemma LostTail(x: Disk, d: Disk, less: Disk)
    requires x.wal != [] && x.wal == LiveLogs(d.wal, Current(d).floor) + [NewestLog(x)] && Current(x) == Current(d)
    requires Shorter(d, less) && AllAbove(NewestLog(x), Current(d).floor)
    ensures Tail(Lost(x, d, less)) == Tail(less) + NewestLog(x)
  {
    hide Above, Flatten, LiveLogs, Current;
    var floor, es := Current(d).floor, NewestLog(x);
    assert Current(less) == Current(d) && Current(Lost(x, d, less)) == Current(x) by { SameManifest(x, d, less); }
    AboveAll(es, floor);
    if d.wal == [] || less.wal == [] {
      LiveIsAll(d.wal, floor);
      FlattenAppend(LiveLogs(d.wal, floor), [es]);
      FlattenOne(es);
      AboveAppend(Flatten(LiveLogs(d.wal, floor)), es, floor);
    } else {
      var init, last := d.wal[..|d.wal| - 1], NewestLog(less);
      assert less.wal == init + [last];
      FlattenAppend(init, [last]);
      FlattenOne(last);
      FlattenOne(es);
      AboveAppend(Flatten(init), last, floor);
      LiveIsAll(init, floor);
      var live := LiveLogs(init, floor);
      AboveAppend(Flatten(live), last, floor);
      if NoneLive(NewestLog(d), floor) {
        AboveNone(last, floor);
        assert live + [] + [es] == live + [es];
        FlattenAppend(live, [es]);
        AboveAppend(Flatten(live), es, floor);
      } else {
        FlattenAppend(live, [last]);
        FlattenAppend(live + [last], [es]);
        AboveAppend(Flatten(live + [last]), es, floor);
      }
    }
  }

  lemma SameManifest(x: Disk, d: Disk, less: Disk)
    requires Shorter(d, less)
    ensures Current(less) == Current(d) && Current(Lost(x, d, less)) == Current(x) && Lost(x, d, less) == x.(wal := Lost(x, d, less).wal)
  {}

  /** What is recovered: the state the shorter disk stood for, and the new file's records. */
  lemma LostDurable(x: Disk, d: Disk, less: Disk)
    requires x.wal != [] && x.wal == LiveLogs(d.wal, Current(d).floor) + [NewestLog(x)] && Current(x) == Current(d) && Load(x) == Load(d)
    requires Shorter(d, less) && DiskOk(less) && AllAbove(NewestLog(x), Current(d).floor)
    ensures Durable(Lost(x, d, less)) == StateReplay(Durable(less), OpsOf(NewestLog(x)))
  {
    hide DiskOk, LiveLogs, Above, Flatten, Current, Meaning, CatalogOk, Log, LoadColl, LoadAll;
    var y, es := Lost(x, d, less), NewestLog(x);
    LostTail(x, d, less);
    SameManifest(x, d, less);
    LoadAllLog(x, y);
    LoadAllLog(d, less);
    RecoveredOk(less);
    ReplayAppend(Load(d), Tail(less), es);
    NextCidAppend(Current(d).nextCid, Tail(less), es);
    ReplayIsState(Recover(less), RecoverNextCid(less), es);
  }

  // ---- runs ----------------------------------------------------------------

  /** `x` was opened from `d`; its own log file holds `es`, the old ones are as they were. */
  ghost predicate OpenedFrom(x: Disk, d: Disk, es: seq<Entry>) {
    && x.wal == LiveLogs(d.wal, Current(d).floor) + [es] && Current(x) == Current(d) && Load(x) == Load(d) && AllAbove(es, Current(d).floor)
  }

  lemma OpenedNow(x: Disk, d: Disk)
    requires x.wal == LiveLogs(d.wal, Current(d).floor) + [[]] && Current(x) == Current(d) && Load(x) == Load(d)
    ensures OpenedFrom(x, d, []) && OpsOf([]) == []
  {}

  lemma OpenedMore(x: Disk, d: Disk, es: seq<Entry>, steps: seq<Point>, x': Disk, lsn: nat, ops: seq<Op>)
    requires OpenedFrom(x, d, es) && Appends(x, steps, x', lsn, ops) && lsn > Current(d).floor
    ensures OpenedFrom(x', d, es + Numbered(lsn, ops)) && OpsOf(es + Numbered(lsn, ops)) == OpsOf(es) + ops
  {
    hide LiveLogs, Current, AppendsThese, LoadAll;
    LoadAllLog(x, x');
    assert NewestLog(x) == es;
  }

  lemma OpenedCut(x: Disk, d: Disk, es: seq<Entry>, m: nat)
    requires OpenedFrom(x, d, es) && m <= |es|
    ensures OpenedFrom(Cut(x, m), d, es[..|es| - m]) && OpsOf(es[..|es| - m]) == OpsOf(es)[..|es| - m]
  {
    hide LiveLogs, Current, LoadAll;
    LoadAllLog(x, Cut(x, m));
    assert NewestLog(x) == es && es[..|es|] == es;
    assert x.wal[..|x.wal| - 1] == LiveLogs(d.wal, Current(d).floor);
  }

  lemma RecoversIs(d: Disk, s: State)
    requires Recovers(d, s)
    ensures DiskOk(d) && Durable(d) == s
  {}

  lemma ProperNow(store: Store)
    requires store.Valid()
    ensures Proper(store.Acknowledged())
  {
    hide Store.Linked, CatalogOk, Tracks, Leaves, Store.Exact, Named, Meaning;
    store.LedgerNamed();
  }

  lemma AboveFloor(store: Store)
    requires store.Valid()
    ensures store.nextLsn > store.floor
  {
    hide Store.Linked, CatalogOk, Tracks, Leaves, Store.Exact, Meaning;
    TrackedFloor(store.memory, store.disk, |store.pending|, store.Counts());
  }

  lemma WindowStarts(s: State, lsn: nat, fits: Entry -> bool)
    ensures Window(s, lsn, [], fits) == Span(AtRest(s), lsn, [])
  {}

  lemma WindowNext(s: State, lsn: nat, cmds: seq<Command>, i: nat, fits: Entry -> bool)
    requires i < |cmds|
    ensures var w := Window(s, lsn, cmds[..i], fits);
      Window(s, lsn, cmds[..i + 1], fits) ==
        Span(Completed(w.v, cmds[i], w.lsn, fits), w.lsn + Spent(w.v.now, cmds[i], w.lsn, fits), w.ops + Recorded(w.v.now, cmds[i], w.lsn, fits))
  {
    hide Completed, Spent, Recorded;
    assert cmds[..i + 1][..i] == cmds[..i];
  }

  lemma CutLeaves(store: Store, lost: nat)
    requires store.Valid()
    ensures Recovers(Cut(store.disk, Min(lost, |store.pending|)), ReopensTo(store.Worlds(), lost))
  {
    hide Store.Linked, CatalogOk, Tracks, Store.Exact, Meaning, Recovers, StateReplay;
  }

  /** Open what a crash left, run some writes, and crash again with the loss of at most `lost` of
      the new records that are not synced. */
  method RunOn(d: Disk, window: seq<Command>, lost: nat, fits: Entry -> bool, ghost b: State) returns (x: Disk, ghost es: seq<Entry>, first: nat)
    requires Recovers(d, b) && AllWrites(window)
    ensures OpenedFrom(x, d, es)
    ensures var w := Window(b, first, window, fits);
      |w.v.pending| <= |w.ops| && OpsOf(es) == w.ops[..|w.ops| - Min(lost, |w.v.pending|)] && Recovers(x, ReopensTo(w.v, lost))
    ensures Proper(b)
  {
    hide DiskOk, Durable, Store.Valid, OpenedFrom, AllRecover, Marked, AllMarked, Appends, Performed, Meaning, Window, Completed, Spent, Recorded, Logged,
      CareOf, Recover, Current, Load, LiveLogs, Recovers, StateReplay, Proper;
    RecoversIs(d, b);
    var store := new Store(d, fits);
    first := store.nextLsn;
    OpenedNow(store.disk, d);
    ProperNow(store);
    es := [];
    WindowStarts(b, first, fits);
    assert window[..0] == [];
    for i := 0 to |window|
      invariant fresh(store) && fresh(store.collections.Values) && store.Valid() && store.fits == fits && store.floor == Current(d).floor
      invariant OpenedFrom(store.disk, d, es)
      invariant var w := Window(b, first, window[..i], fits); w.v == store.Worlds() && w.lsn == store.nextLsn && OpsOf(es) == w.ops
    {
      ghost var x0, t, lsn, s, mark := store.disk, store.trace, store.nextLsn, store.Acknowledged(), Mark(store.memory.cols, store.floor, CareOf(window[i]));
      WindowNext(b, first, window, i, fits);
      AboveFloor(store);
      Execute(store, window[i]);
      OpenedMore(x0, d, es, store.trace[|t|..], store.disk, lsn, Recorded(s, window[i], lsn, fits));
      WritingFloor(store.memory.cols, store.floor, mark);
      es := es + Numbered(lsn, Recorded(s, window[i], lsn, fits));
    }
    assert window[..|window|] == window;
    WindowAccounted(b, first, window, fits);
    ghost var m := Min(lost, |store.pending|);
    CutLeaves(store, lost);
    OpenedCut(store.disk, d, es, m);
    x := Cut(store.disk, Min(lost, |store.pending|));
    es := es[..|es| - m];
  }

  lemma RemainsShorter(p: Point, lost: nat, more: nat)
    requires Cuttable(p.disk, p.loose)
    ensures Shorter(Remains(p, lost), Remains(p, lost + more))
  {
    var d, less := Remains(p, lost), Remains(p, lost + more);
    if less != d {
      var i, j, file := Min(lost, p.loose), Min(lost + more, p.loose), NewestLog(p.disk);
      assert NewestLog(less) == file[..|file| - j];
      assert NewestLog(d) == file[..|file| - i];
      assert d.wal[..|d.wal| - 1] == p.disk.wal[..|p.disk.wal| - 1] == less.wal[..|less.wal| - 1];
    }
  }

  /** A store after any script, cut by a crash in one more command. */
  method RunToCrash(script: seq<Event>, cmd: Command, at: nat, fits: Entry -> bool) returns (ghost p: Point, disk: Disk, loose: nat, outs: seq<Outcome>, o: Outcome)
    ensures |outs| == |script| && AllPlausible(script, outs, o.lsn, fits) && (o.moved ==> cmd.Checkpoint? && at > 0)
    ensures p == Point(disk, loose) && Cuttable(p.disk, p.loose) && Proper(ExpectedAfter(script, outs, fits).now)
    ensures var v := ExpectedAfter(script, outs, fits); forall lost: nat :: Recovers(Remains(p, lost), Crashed(v, cmd, at, lost, o, fits))
  {
    hide Performed, Recovers, Remains, LeftAt, CutAt, Marked, PointMarked, AllMarked, Completed, Crashed, Store.Valid, Current, Appends, Logged, Spent,
      Meaning, Recover, ExpectedAfter, Proper, AllPlausible;
    var store;
    store, outs := Run(script, fits);
    ghost var v, floor := store.Worlds(), store.floor;
    ghost var w := Mark(store.memory.cols, store.floor, CareOf(cmd));
    ProperNow(store);
    var before, n, lsn := Point(store.disk, |store.pending|), |store.trace|, store.nextLsn;
    var floor0 := store.floor;
    Before(store, w);
    Execute(store, cmd);
    var q := CutAt(before, store.trace[n..], at);
    o := Outcome(lsn, Current(q.disk).floor != floor0);
    forall lost: nat ensures Recovers(Remains(q, lost), Crashed(v, cmd, at, lost, o, fits)) {
      CutRecovers(before, store.trace[n..], v, cmd, floor, at, lost, o, fits);
    }
    CutLoose(before, store.trace[n..], v, cmd, lsn, floor, at, fits);
    if o.moved {
      CutMarked(before, store.trace[n..], w, at, 0);
      RemainsCurrent(q, 0, w);
      OnlyCheckpointsMove(Recover(Remains(q, 0)).cols, Current(q.disk).floor, w, cmd);
      if at == 0 { CutAtOnce(before, store.trace[n..]); }
    }
    p, disk, loose := q, q.disk, q.loose;
  }

  lemma CutLoose(before: Point, steps: seq<Point>, v: Worlds, cmd: Command, lsn: nat, floor: nat, at: nat, fits: Entry -> bool)
    requires LeftAt(before, v.kept, v.pending) && Performed(steps, v, cmd, lsn, floor, fits)
    ensures var p := CutAt(before, steps, at); Cuttable(p.disk, p.loose)
  {
    hide Recovers, Ops, StateReplay, Taken, Current;
  }

  /** Run any script; crash anywhere in one more command, losing at most `lost` of the records not
      synced; reopen and run any writes; then lose at most `more` of the records that had survived
      without a sync, and at most `again` of the new ones. What recovery then yields is what the
      new records make of the smaller state, and it is the ledger the reopening would otherwise
      show if and only if the new records overwrite all that the lost ones had changed. */
  method RunAndLose(script: seq<Event>, cmd: Command, at: nat, lost: nat, window: seq<Command>, more: nat, again: nat, fits: Entry -> bool)
    returns (ghost p: Point, x: Disk, outs: seq<Outcome>, o: Outcome, first: nat)
    requires AllWrites(window)
    ensures |outs| == |script| && AllPlausible(script, outs, o.lsn, fits) && (o.moved ==> cmd.Checkpoint? && at > 0)
    ensures var v := ExpectedAfter(script, outs, fits);
      var a, b := Crashed(v, cmd, at, lost + more, o, fits), Crashed(v, cmd, at, lost, o, fits);
      var w := Window(b, first, window, fits);
      && Recovers(Remains(p, lost), b) && Recovers(x, ReopensTo(w.v, again)) && |w.v.pending| <= |w.ops|
      && var ops, y := w.ops[..|w.ops| - Min(again, |w.v.pending|)], Lost(x, Remains(p, lost), Remains(p, lost + more));
      && Durable(y) == StateReplay(a, ops) && (more == 0 ==> y == x)
      && (Durable(y).ledger == ReopensTo(w.v, again).ledger <==> Overwritten(a, b, ops))
  {
    hide Recovers, Remains, Crashed, ExpectedAfter, AllPlausible, Proper, Window, ReopensTo, StateReplay, Durable, Lost, Overwritten, OpenedFrom,
      Cuttable, AllWrites;
    var disk, loose;
    p, disk, loose, outs, o := RunToCrash(script, cmd, at, fits);
    ghost var v := ExpectedAfter(script, outs, fits);
    ghost var a, b := Crashed(v, cmd, at, lost + more, o, fits), Crashed(v, cmd, at, lost, o, fits);
    ghost var es;
    x, es, first := RunOn(Remains(Point(disk, loose), lost), window, again, fits, b);
    RemainsShorter(p, lost, more);
    LostRecovers(x, Remains(p, lost), Remains(p, lost + more), es, a);
    RunTallies(script, outs, fits);
    CrashBehind(v, ResidueAfter(script, outs, fits), cmd, at, lost, more, o, fits);
    LossIff(a, b, first, window, fits, again);
    if more == 0 { LostNone(x, Remains(p, lost), es); }
  }

  lemma LostNone(x: Disk, d: Disk, es: seq<Entry>)
    requires OpenedFrom(x, d, es)
    ensures Lost(x, d, d) == x
  {
    hide Lost, LiveLogs, Current;
    LostNothing(x, d);
  }

  lemma LostRecovers(x: Disk, d: Disk, less: Disk, es: seq<Entry>, a: State)
    requires OpenedFrom(x, d, es) && Shorter(d, less) && Recovers(less, a)
    ensures Durable(Lost(x, d, less)) == StateReplay(a, OpsOf(es))
  {
    hide DiskOk, Durable, Lost, Shorter, LiveLogs, StateReplay;
    assert NewestLog(x) == es;
    LostDurable(x, d, less);
  }

  lemma LossIff(a: State, b: State, first: nat, window: seq<Command>, fits: Entry -> bool, again: nat)
    requires AllWrites(window) && Behind(a, b) && Proper(b)
    ensures var w := Window(b, first, window, fits);
      && |w.v.pending| <= |w.ops|
      && var ops := w.ops[..|w.ops| - Min(again, |w.v.pending|)];
      && ReopensTo(w.v, again) == StateReplay(b, ops)
      && (StateReplay(a, ops).ledger == ReopensTo(w.v, again).ledger <==> Overwritten(a, b, ops))
  {
    hide Window, ReopensTo, StateReplay, Behind, Proper, Overwritten, Legal, SameShape, AllWrites;
    var w := Window(b, first, window, fits);
    WindowAccounted(b, first, window, fits);
    WindowReopens(b, w, again);
    WindowLegal(b, first, window, fits);
    LegalPrefix(b, w.ops, |w.ops| - Min(again, |w.v.pending|));
    OverwrittenIff(a, b, w.ops[..|w.ops| - Min(again, |w.v.pending|)]);
  }

  // ---- a collection is lost with all that was acknowledged in it -----------

  const NOTHING := State(Ledger(map[], map[]), 0)

  function OneTable(name: Bytes, desc: Descriptor, rows: map<Id, Row>): State { State(Ledger(map[0 := Table(name, desc, rows)], map[name := 0]), 1) }

  /** A crash between the append and the sync of a creation, with the record surviving or not. */
  lemma CreationCut(name: Bytes, desc: Descriptor, o: Outcome, fits: Entry -> bool, lost: nat)
    requires ValidName(name) && desc.dim != 0 && fits(Entry(o.lsn, Create(0, name, desc)))
    ensures Crashed(AtRest(NOTHING), CreateCollection(name, desc), 1, lost, o, fits) == if lost == 0 then OneTable(name, desc, map[]) else NOTHING
  {
    hide Ops, StateReplay, ValidName, StateApply;
    var op, cmd := Create(0, name, desc), CreateCollection(name, desc);
    CreationOps(name, desc);
    TakenIs(fits, o.lsn, [op], 1);
    WholeCrash(NOTHING, cmd, 1, lost, o, fits);
    StateReplayOne(NOTHING, op);
    ReplayNothing(NOTHING);
    CreationApplied(name, desc);
    assert [op][..1] == [op] && [op][..0] == [];
  }

  lemma CreationOps(name: Bytes, desc: Descriptor)
    requires ValidName(name) && desc.dim != 0
    ensures Ops(NOTHING, CreateCollection(name, desc)) == [Create(0, name, desc)]
  {}

  lemma CreationApplied(name: Bytes, desc: Descriptor)
    ensures StateApply(NOTHING, Create(0, name, desc)) == OneTable(name, desc, map[])
  {}

  lemma ReplayNothing(s: State)
    ensures StateReplay(s, []) == s
  {}

  lemma OneUpsert(s: State, id: Id, row: Row, first: nat, fits: Entry -> bool)
    requires RightSize(s.ledger, 0, row) && fits(Entry(first, Upsert(0, id, row)))
    ensures var w := Window(s, first, [UpsertPoint(0, id, row)], fits);
      w.v.now == StateApply(s, Upsert(0, id, row)) && w.v.pending == [] && w.ops == [Upsert(0, id, row)]
  {
    hide Ops, StateReplay, Window, Spent, StateApply;
    var op, cmd := Upsert(0, id, row), UpsertPoint(0, id, row);
    UpsertOne(s, id, row);
    WindowStarts(s, first, fits);
    WindowNext(s, first, [cmd], 0, fits);
    assert [cmd][..0] == [] && [cmd][..1] == [cmd];
    TakenIs(fits, first, [op], 1);
    StateReplayOne(s, op);
    assert [op][..1] == [op] && [] + [op] == [op];
  }

  lemma UpsertOne(s: State, id: Id, row: Row)
    requires RightSize(s.ledger, 0, row)
    ensures Ops(s, UpsertPoint(0, id, row)) == [Upsert(0, id, row)]
  {}

  /** The record of a creation survives a crash without a sync, a point is upserted into the
      collection and acknowledged, and the record is lost after all: the collection is gone, and
      the point with it. */
  lemma LostCreation(name: Bytes, desc: Descriptor, id: Id, row: Row, o: Outcome, first: nat, fits: Entry -> bool, more: nat)
    requires ValidName(name) && desc.dim != 0 && |row.vector| == desc.dim && more > 0
    requires fits(Entry(o.lsn, Create(0, name, desc))) && fits(Entry(first, Upsert(0, id, row)))
    ensures var v, cmd := AtRest(NOTHING), CreateCollection(name, desc);
      var w := Window(Crashed(v, cmd, 1, 0, o, fits), first, [UpsertPoint(0, id, row)], fits);
      && w.v.now == OneTable(name, desc, map[id := row]) && w.v.pending == []
      && StateReplay(Crashed(v, cmd, 1, more, o, fits), w.ops) == NOTHING
  {
    hide Crashed, Window, StateReplay;
    CreationCut(name, desc, o, fits, 0);
    CreationCut(name, desc, o, fits, more);
    OneUpsert(OneTable(name, desc, map[]), id, row, first, fits);
    StateReplayOne(NOTHING, Upsert(0, id, row));
  }
}
