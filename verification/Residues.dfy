/** What a reopening shows beside the acknowledged state: rows of refused batches whose records
    stayed in the log (crates/quiver-core/src/store.rs, `upsert_batch`). */
module Residues {
  import opened ByteStrings
  import opened SecondaryIndex
  import opened Segments
  import opened Descriptors
  import opened Replay
  import opened Disks
  import opened Commands

  /** By collection and id, the row of a refused batch that replay would show. */
  type Residue = map<nat, map<Id, Row>>

  function RowsOf(z: Residue, cid: nat): map<Id, Row> { if cid in z then z[cid] else map[] }

  /** An accepted operation overrides what the log held for the ids it writes. */
  function Cleared(z: Residue, op: Op): Residue {
    match op
    case Create(cid, _, _) => z - {cid}
    case Drop(cid) => z - {cid}
    case Upsert(cid, id, _) => z[cid := RowsOf(z, cid) - {id}]
    case Delete(cid, id) => z[cid := RowsOf(z, cid) - {id}]
    case CheckpointMark => z
  }

  function ClearedAll(z: Residue, ops: seq<Op>): Residue {
    if ops == [] then z else Cleared(ClearedAll(z, ops[..|ops| - 1]), ops[|ops| - 1])
  }

  /** A refused upsert whose record stays in the log. */
  function Noted(z: Residue, op: Op): Residue {
    if op.Upsert? then z[op.cid := RowsOf(z, op.cid)[op.id := op.row]] else z
  }

  function NotedAll(z: Residue, ops: seq<Op>): Residue {
    if ops == [] then z else Noted(NotedAll(z, ops[..|ops| - 1]), ops[|ops| - 1])
  }

  /** The residue among the synced records after one event: an accepted write syncs the records
      before it; a checkpoint and a reopening leave none. */
  function ResidueStep(z: Residue, v: Worlds, ev: Event, o: Outcome, fits: Entry -> bool): Residue {
    if ev.CrashesIn? || ev.cmd.Checkpoint? then map[]
    else
      var ops := Ops(v.now, ev.cmd);
      if ops != [] && Taken(fits, o.lsn, ops) == |ops| then ClearedAll(NotedAll(z, v.pending), ops) else z
  }

  function ResidueAfter(script: seq<Event>, outs: seq<Outcome>, fits: Entry -> bool): Residue
    requires |outs| == |script|
  {
    var n := |script| - 1;
    if script == [] then map[]
    else ResidueStep(ResidueAfter(script[..n], outs[..n], fits), ExpectedAfter(script[..n], outs[..n], fits), script[n], outs[n], fits)
  }

  /** A state with the residue's rows over its own. */
  function Overlaid(t: Table, rows: map<Id, Row>): Table { t.(rows := t.rows + rows) }

  function Overlay(s: State, z: Residue): State {
    s.(ledger := s.ledger.(tables := map cid | cid in s.ledger.tables :: Overlaid(s.ledger.tables[cid], RowsOf(z, cid))))
  }

  // ---- one operation -------------------------------------------------------

  lemma SameStates(a: State, b: State)
    requires a.nextCid == b.nextCid && a.ledger.names == b.ledger.names && forall cid :: cid in a.ledger.tables <==> cid in b.ledger.tables
    requires forall cid :: cid in a.ledger.tables ==> a.ledger.tables[cid] == b.ledger.tables[cid]
    ensures a == b
  {
    assert a.ledger.tables == b.ledger.tables;
  }

  lemma OverlayNothing(s: State)
    ensures Overlay(s, map[]) == s
  {
    forall cid | cid in s.ledger.tables ensures Overlay(s, map[]).ledger.tables[cid] == s.ledger.tables[cid] {
      assert s.ledger.tables[cid].rows + map[] == s.ledger.tables[cid].rows;
    }
    SameStates(Overlay(s, map[]), s);
  }

  lemma RowsUnder(rows: map<Id, Row>, over: map<Id, Row>, id: Id, row: Row)
    ensures (rows + over)[id := row] == rows[id := row] + (over - {id}) == rows + over[id := row]
  {}

  lemma RowsWithout(rows: map<Id, Row>, over: map<Id, Row>, id: Id)
    ensures (rows + over) - {id} == (rows - {id}) + (over - {id})
  {}

  lemma OverlayApply(s: State, z: Residue, op: Op)
    ensures StateApply(Overlay(s, z), op) == Overlay(StateApply(s, op), Cleared(z, op))
  {
    match op {
      case Upsert(cid, id, row) => OverlayUpsert(s, z, cid, id, row);
      case Delete(cid, id) => OverlayDelete(s, z, cid, id);
      case _ =>
        var a, b := StateApply(Overlay(s, z), op), Overlay(StateApply(s, op), Cleared(z, op));
        forall x | x in a.ledger.tables ensures x in b.ledger.tables && a.ledger.tables[x] == b.ledger.tables[x] {}
        SameStates(a, b);
    }
  }

  lemma OverlayUpsert(s: State, z: Residue, cid: nat, id: Id, row: Row)
    ensures var op := Upsert(cid, id, row); StateApply(Overlay(s, z), op) == Overlay(StateApply(s, op), Cleared(z, op)) == Overlay(s, Noted(z, op))
  {
    var op := Upsert(cid, id, row);
    var a, b, c := StateApply(Overlay(s, z), op), Overlay(StateApply(s, op), Cleared(z, op)), Overlay(s, Noted(z, op));
    forall x | x in s.ledger.tables ensures a.ledger.tables[x] == b.ledger.tables[x] == c.ledger.tables[x] {
      if x == cid { RowsUnder(s.ledger.tables[x].rows, RowsOf(z, x), id, row); }
    }
    SameStates(a, b);
    SameStates(a, c);
  }

  lemma OverlayDelete(s: State, z: Residue, cid: nat, id: Id)
    ensures var op := Delete(cid, id); StateApply(Overlay(s, z), op) == Overlay(StateApply(s, op), Cleared(z, op))
  {
    var op := Delete(cid, id);
    var a, b := StateApply(Overlay(s, z), op), Overlay(StateApply(s, op), Cleared(z, op));
    forall x | x in s.ledger.tables ensures a.ledger.tables[x] == b.ledger.tables[x] {
      if x == cid {
        RowsWithout(s.ledger.tables[x].rows, RowsOf(z, x), id);
      }
    }
    SameStates(a, b);
  }

  lemma {:induction false} OverlayReplay(s: State, z: Residue, ops: seq<Op>)
    ensures StateReplay(Overlay(s, z), ops) == Overlay(StateReplay(s, ops), ClearedAll(z, ops))
  {
    hide Overlay, StateApply, Cleared;
    if ops != [] {
      var n := |ops| - 1;
      OverlayReplay(s, z, ops[..n]);
      OverlayApply(StateReplay(s, ops[..n]), ClearedAll(z, ops[..n]), ops[n]);
    }
  }

  lemma {:induction false} OverlayNotes(s: State, z: Residue, ops: seq<Op>)
    requires forall i :: 0 <= i < |ops| ==> ops[i].Upsert?
    ensures StateReplay(Overlay(s, z), ops) == Overlay(s, NotedAll(z, ops))
  {
    hide Overlay, StateApply, Noted;
    if ops != [] {
      var n := |ops| - 1;
      OverlayNotes(s, z, ops[..n]);
      OverlayUpsert(s, NotedAll(z, ops[..n]), ops[n].cid, ops[n].id, ops[n].row);
    }
  }

  // ---- runs ----------------------------------------------------------------

  /** Only a batch can be refused after its first record. */
  lemma RefusedAreUpserts(s: State, cmd: Command, n: nat, i: nat)
    requires n < |Ops(s, cmd)| && i < n
    ensures Ops(s, cmd)[i].Upsert?
  {}

  /** What a run has logged past its last sync are upserts, and what it has synced is the
      acknowledged state under the residue. */
  ghost predicate Tallies(v: Worlds, z: Residue) {
    v.kept == Overlay(v.now, z) && forall i :: 0 <= i < |v.pending| ==> v.pending[i].Upsert?
  }

  lemma TalliesAtRest(s: State)
    ensures Tallies(AtRest(s), map[])
  {
    OverlayNothing(s);
  }

  lemma TalliesStep(v: Worlds, z: Residue, ev: Event, o: Outcome, fits: Entry -> bool)
    requires Tallies(v, z)
    ensures Tallies(Expected(v, ev, o, fits), ResidueStep(z, v, ev, o, fits))
  {
    hide Ops, StateReplay, Overlay, ClearedAll, NotedAll, Taken, Crashed;
    if ev.CrashesIn? || ev.cmd.Checkpoint? {
      TalliesAtRest(Expected(v, ev, o, fits).now);
    } else {
      var ops := Ops(v.now, ev.cmd);
      var n := Taken(fits, o.lsn, ops);
      TakenBound(fits, o.lsn, ops);
      if ops != [] && n == |ops| {
        StateReplayAppend(v.kept, v.pending, ops);
        OverlayNotes(v.now, z, v.pending);
        OverlayReplay(v.now, NotedAll(z, v.pending), ops);
      } else if ops != [] {
        forall i | 0 <= i < n ensures ops[i].Upsert? { RefusedAreUpserts(v.now, ev.cmd, n, i); }
      }
    }
  }

  lemma TakenBound(fits: Entry -> bool, lsn: nat, ops: seq<Op>)
    ensures Taken(fits, lsn, ops) <= |ops|
  {}

  lemma {:induction false} RunTallies(script: seq<Event>, outs: seq<Outcome>, fits: Entry -> bool)
    requires |outs| == |script|
    ensures Tallies(ExpectedAfter(script, outs, fits), ResidueAfter(script, outs, fits))
  {
    hide Tallies, Expected, ResidueStep;
    if script == [] {
      TalliesAtRest(State(Ledger(map[], map[]), 0));
    } else {
      var n := |script| - 1;
      RunTallies(script[..n], outs[..n], fits);
      TalliesStep(ExpectedAfter(script[..n], outs[..n], fits), ResidueAfter(script[..n], outs[..n], fits), script[n], outs[n], fits);
    }
  }

  /** What a crash leaves between two commands, with the loss of at most `lost` records. */
  function ReopensTo(v: Worlds, lost: nat): State {
    StateReplay(v.kept, v.pending[..|v.pending| - Min(lost, |v.pending|)])
  }

  /** It is what any command leaves that crashes before its first step. */
  lemma CrashBetween(v: Worlds, cmd: Command, lost: nat, o: Outcome, fits: Entry -> bool)
    requires cmd.Checkpoint? ==> !o.moved
    ensures Crashed(v, cmd, 0, lost, o, fits) == ReopensTo(v, lost)
  {
    assert v.pending + Ops(v.now, cmd)[..0] == v.pending;
  }

  /** After any script, whatever is lost past the last sync, a reopening shows the acknowledged
      state with the rows of refused batches over it: those synced since, and those that
      survived unsynced. */
  lemma ReopenedIs(script: seq<Event>, outs: seq<Outcome>, fits: Entry -> bool, lost: nat)
    requires |outs| == |script|
    ensures var v, z := ExpectedAfter(script, outs, fits), ResidueAfter(script, outs, fits);
      ReopensTo(v, lost) == Overlay(v.now, NotedAll(z, v.pending[..|v.pending| - Min(lost, |v.pending|)]))
  {
    hide ExpectedAfter, ResidueAfter, StateReplay, Overlay, NotedAll;
    var v, z := ExpectedAfter(script, outs, fits), ResidueAfter(script, outs, fits);
    RunTallies(script, outs, fits);
    OverlayNotes(v.now, z, v.pending[..|v.pending| - Min(lost, |v.pending|)]);
  }

  // ---- when a reopening shows what was acknowledged -------------------------

  /** The collection is gone or holds this very row. */
  predicate Holds(s: State, cid: nat, id: Id, row: Row) {
    cid in s.ledger.tables ==> id in s.ledger.tables[cid].rows && s.ledger.tables[cid].rows[id] == row
  }

  ghost predicate Agrees(s: State, z: Residue) {
    forall cid, id :: cid in z && id in z[cid] ==> Holds(s, cid, id, z[cid][id])
  }

  ghost predicate AllHeld(s: State, ops: seq<Op>) {
    forall i :: 0 <= i < |ops| && ops[i].Upsert? ==> Holds(s, ops[i].cid, ops[i].id, ops[i].row)
  }

  lemma OverlayIff(s: State, z: Residue)
    ensures Overlay(s, z) == s <==> Agrees(s, z)
  {
    var a := Overlay(s, z);
    if Agrees(s, z) {
      forall cid | cid in s.ledger.tables ensures a.ledger.tables[cid] == s.ledger.tables[cid] {
        forall id | id in RowsOf(z, cid) ensures Holds(s, cid, id, RowsOf(z, cid)[id]) { assert cid in z && id in z[cid]; }
        assert s.ledger.tables[cid].rows + RowsOf(z, cid) == s.ledger.tables[cid].rows;
      }
      assert a.ledger.tables == s.ledger.tables;
    }
    if a == s {
      forall cid, id | cid in z && id in z[cid] ensures Holds(s, cid, id, z[cid][id]) {
        if cid in s.ledger.tables { assert a.ledger.tables[cid].rows[id] == z[cid][id]; }
      }
    }
  }

  /** Writing a row where it is already changes nothing; elsewhere it does. */
  lemma HeldIff(s: State, op: Op)
    requires op.Upsert?
    ensures StateApply(s, op) == s <==> Holds(s, op.cid, op.id, op.row)
  {
    var a := StateApply(s, op);
    if op.cid in s.ledger.tables {
      var rows := s.ledger.tables[op.cid].rows;
      if Holds(s, op.cid, op.id, op.row) {
        assert rows[op.id := op.row] == rows;
        assert a.ledger.tables == s.ledger.tables;
      } else {
        assert a.ledger.tables[op.cid].rows[op.id] == op.row;
      }
    }
  }

  lemma {:induction false} AllHeldReplay(s: State, ops: seq<Op>)
    requires AllHeld(s, ops) && forall i :: 0 <= i < |ops| ==> ops[i].Upsert?
    ensures StateReplay(s, ops) == s
  {
    hide StateApply, Holds;
    if ops != [] {
      var n := |ops| - 1;
      assert forall i :: 0 <= i < n ==> ops[..n][i] == ops[i];
      AllHeldReplay(s, ops[..n]);
      HeldIff(s, ops[n]);
    }
  }

  /** After any script: every crash there and then reopens to exactly the acknowledged state if
      and only if every row of the residue, and every record not synced, is what the
      acknowledged state holds already. */
  lemma ReopensExactlyIff(script: seq<Event>, outs: seq<Outcome>, fits: Entry -> bool)
    requires |outs| == |script|
    ensures var v, z := ExpectedAfter(script, outs, fits), ResidueAfter(script, outs, fits);
      (forall lost: nat :: ReopensTo(v, lost) == v.now) <==> Agrees(v.now, z) && AllHeld(v.now, v.pending)
  {
    hide ExpectedAfter, ResidueAfter, StateReplay, Overlay, Agrees, AllHeld;
    var v, z := ExpectedAfter(script, outs, fits), ResidueAfter(script, outs, fits);
    RunTallies(script, outs, fits);
    OverlayIff(v.now, z);
    if Agrees(v.now, z) && AllHeld(v.now, v.pending) {
      forall lost: nat ensures ReopensTo(v, lost) == v.now { HeldSurvives(v, lost); }
    } else if forall lost: nat :: ReopensTo(v, lost) == v.now {
      ExactMeansHeld(v);
      assert false;
    }
  }

  lemma HeldSurvives(v: Worlds, lost: nat)
    requires v.kept == v.now && AllHeld(v.now, v.pending) && forall i :: 0 <= i < |v.pending| ==> v.pending[i].Upsert?
    ensures ReopensTo(v, lost) == v.now
  {
    AllHeldReplay(v.now, v.pending[..|v.pending| - Min(lost, |v.pending|)]);
  }

  lemma ExactMeansHeld(v: Worlds)
    requires (forall lost: nat :: ReopensTo(v, lost) == v.now) && forall i :: 0 <= i < |v.pending| ==> v.pending[i].Upsert?
    ensures v.kept == v.now && AllHeld(v.now, v.pending)
  {
    hide StateApply, Holds;
    var m := |v.pending|;
    assert ReopensTo(v, m) == v.now && v.pending[..0] == [];
    forall i | 0 <= i < m ensures Holds(v.now, v.pending[i].cid, v.pending[i].id, v.pending[i].row) {
      assert ReopensTo(v, m - i) == v.now && ReopensTo(v, m - (i + 1)) == v.now;
      assert v.pending[..i + 1][..i] == v.pending[..i];
      HeldIff(v.now, v.pending[i]);
    }
  }

  // ---- runs in which no batch is refused after its first record -------------

  /** The log takes the whole of every command, or none of it. */
  ghost predicate WholeOrNone(script: seq<Event>, outs: seq<Outcome>, fits: Entry -> bool)
    requires |outs| == |script|
  {
    forall i :: 0 <= i < |script| ==>
      var ops := Ops(ExpectedAfter(script[..i], outs[..i], fits).now, script[i].cmd);
      Taken(fits, outs[i].lsn, ops) == 0 || Taken(fits, outs[i].lsn, ops) == |ops|
  }

  lemma WholeStep(s: State, ev: Event, o: Outcome, fits: Entry -> bool)
    requires var ops := Ops(s, ev.cmd); Taken(fits, o.lsn, ops) == 0 || Taken(fits, o.lsn, ops) == |ops|
    ensures var v := Expected(AtRest(s), ev, o, fits); v == AtRest(v.now)
  {
    var ops := Ops(s, ev.cmd);
    assert [] + ops == ops && [] + ops[..0] == [];
  }

  /** Then every crash between commands reopens to exactly the acknowledged state. */
  lemma {:induction false} WholeRuns(script: seq<Event>, outs: seq<Outcome>, fits: Entry -> bool)
    requires |outs| == |script| && WholeOrNone(script, outs, fits)
    ensures var v := ExpectedAfter(script, outs, fits); v == AtRest(v.now) && forall lost: nat :: ReopensTo(v, lost) == v.now
  {
    hide Expected, Ops, Taken;
    if script != [] {
      var n := |script| - 1;
      var before, seen := script[..n], outs[..n];
      forall i | 0 <= i < n ensures before[..i] == script[..i] && seen[..i] == outs[..i] {}
      assert WholeOrNone(before, seen, fits) by {
        forall i | 0 <= i < n
          ensures var ops := Ops(ExpectedAfter(before[..i], seen[..i], fits).now, before[i].cmd);
            Taken(fits, seen[i].lsn, ops) == 0 || Taken(fits, seen[i].lsn, ops) == |ops|
        {
          assert before[..i] == script[..i] && seen[..i] == outs[..i] && before[i] == script[i];
        }
      }
      WholeRuns(before, seen, fits);
      WholeStep(ExpectedAfter(before, seen, fits).now, script[n], outs[n], fits);
    }
  }

  /** How many of a command's records survive a crash after `steps` steps that loses at most
      `lost` unsynced ones, when the log takes `n` of all `total`. */
  function Surviving(steps: nat, lost: nat, n: nat, total: nat): (m: nat)
    requires n <= total
    ensures m <= n && m <= steps
  {
    if 0 < total == n < steps then n else Min(steps, n) - Min(lost, Min(steps, n))
  }

  /** And a crash inside a command leaves the acknowledged state and a prefix of what that one
      command asks the log to take. */
  lemma WholeCrash(s: State, cmd: Command, steps: nat, lost: nat, o: Outcome, fits: Entry -> bool)
    ensures var ops := Ops(s, cmd);
      Crashed(AtRest(s), cmd, steps, lost, o, fits) == StateReplay(s, ops[..Surviving(steps, lost, Taken(fits, o.lsn, ops), |ops|)])
  {
    hide Ops, Taken;
    var ops := Ops(s, cmd);
    TakenBound(fits, o.lsn, ops);
    var n := Taken(fits, o.lsn, ops);
    if cmd.Checkpoint? { NoOps(s); }
    var m, written := Surviving(steps, lost, n, |ops|), ops[..Min(steps, n)];
    assert [] + written == written;
    assert written[..m] == ops[..m] && written[..|written|] == written;
  }

  lemma NoOps(s: State)
    ensures Ops(s, Checkpoint) == []
  {}

  /** One command after a clean start: whatever is lost, a reopening shows what is acknowledged
      if and only if the log took the whole command, or each record it took before refusing one
      writes what is there already. */
  lemma OneCommandIff(s: State, cmd: Command, o: Outcome, fits: Entry -> bool)
    ensures var v, ops := Expected(AtRest(s), Completes(cmd), o, fits), Ops(s, cmd);
      var n := Taken(fits, o.lsn, ops);
      (forall lost: nat :: ReopensTo(v, lost) == v.now) <==> n == |ops| || AllHeld(s, ops[..n])
  {
    hide Ops, Taken, AllHeld, StateReplay;
    var v, ops := Expected(AtRest(s), Completes(cmd), o, fits), Ops(s, cmd);
    TakenBound(fits, o.lsn, ops);
    var n := Taken(fits, o.lsn, ops);
    if cmd.Checkpoint? { NoOps(s); }
    if n == |ops| {
      assert [] + ops == ops;
      forall lost: nat ensures ReopensTo(v, lost) == v.now { AtRestReopens(v.now, lost); }
    } else {
      assert [] + ops[..n] == ops[..n];
      forall i | 0 <= i < n ensures ops[i].Upsert? { RefusedAreUpserts(s, cmd, n, i); }
      if AllHeld(s, ops[..n]) {
        forall lost: nat ensures ReopensTo(v, lost) == v.now { HeldSurvives(v, lost); }
      } else if forall lost: nat :: ReopensTo(v, lost) == v.now {
        ExactMeansHeld(v);
        assert false;
      }
    }
  }

  lemma AtRestReopens(s: State, lost: nat)
    ensures ReopensTo(AtRest(s), lost) == s
  {}

  // ---- a refused row comes back --------------------------------------------

  /** Create a collection; upsert a batch of two whose second record is too large, which is
      refused; upsert another point; delete the first point of the batch, which is not there. */
  function RefusedScript(name: Bytes, desc: Descriptor, a: Id, b: Id, c: Id, row: Row): seq<Event> {
    [Completes(CreateCollection(name, desc)), Completes(UpsertBatch(0, [(a, row), (b, row)])), Completes(UpsertPoint(0, c, row)), Completes(DeletePoint(0, a))]
  }

  lemma ExpectedNext(script: seq<Event>, ev: Event, outs: seq<Outcome>, o: Outcome, fits: Entry -> bool)
    requires |outs| == |script|
    ensures ExpectedAfter(script + [ev], outs + [o], fits) == Expected(ExpectedAfter(script, outs, fits), ev, o, fits)
  {
    assert (script + [ev])[..|script|] == script && (outs + [o])[..|outs|] == outs;
  }

  lemma NoneExpected(fits: Entry -> bool)
    ensures ExpectedAfter([], [], fits) == AtRest(State(Ledger(map[], map[]), 0))
  {}

  /** Four events from nothing. */
  lemma Four(script: seq<Event>, outs: seq<Outcome>, fits: Entry -> bool)
    requires |script| == 4 && |outs| == 4
    ensures var v := AtRest(State(Ledger(map[], map[]), 0));
      ExpectedAfter(script, outs, fits) == Expected(Expected(Expected(Expected(v, script[0], outs[0], fits), script[1], outs[1], fits), script[2], outs[2], fits), script[3], outs[3], fits)
  {
    hide Expected, ExpectedAfter;
    NoneExpected(fits);
    ExpectedNext([], script[0], [], outs[0], fits);
    ExpectedNext([] + [script[0]], script[1], [] + [outs[0]], outs[1], fits);
    ExpectedNext([] + [script[0]] + [script[1]], script[2], [] + [outs[0]] + [outs[1]], outs[2], fits);
    ExpectedNext([] + [script[0]] + [script[1]] + [script[2]], script[3], [] + [outs[0]] + [outs[1]] + [outs[2]], outs[3], fits);
    assert script == [] + [script[0]] + [script[1]] + [script[2]] + [script[3]] && outs == [] + [outs[0]] + [outs[1]] + [outs[2]] + [outs[3]];
  }

  /** The log takes the creation, the first record of the batch and the later upsert, and not the
      second record of the batch. */
  predicate RefusedSizes(name: Bytes, desc: Descriptor, a: Id, b: Id, c: Id, row: Row, outs: seq<Outcome>, fits: Entry -> bool)
    requires |outs| >= 3
  {
    && fits(Entry(outs[0].lsn, Create(0, name, desc))) && fits(Entry(outs[1].lsn, Upsert(0, a, row)))
    && !fits(Entry(outs[1].lsn + 1, Upsert(0, b, row))) && fits(Entry(outs[2].lsn, Upsert(0, c, row)))
  }

  /** Before a reopening the point of the refused batch is not there; after one it is. */
  lemma RefusedRowReturns(name: Bytes, desc: Descriptor, a: Id, b: Id, c: Id, row: Row, outs: seq<Outcome>, fits: Entry -> bool)
    requires ValidName(name) && desc.dim != 0 && |row.vector| == desc.dim && a != b && a != c && b != c && |outs| == 4
    requires RefusedSizes(name, desc, a, b, c, row, outs, fits)
    ensures var v := ExpectedAfter(RefusedScript(name, desc, a, b, c, row), outs, fits);
      && 0 in v.now.ledger.tables && v.now.ledger.tables[0].rows == map[c := row]
      && forall lost: nat :: 0 in ReopensTo(v, lost).ledger.tables && ReopensTo(v, lost).ledger.tables[0].rows == map[a := row, c := row]
  {
    hide ExpectedAfter, Expected;
    var script := RefusedScript(name, desc, a, b, c, row);
    Four(script, outs, fits);
    var s0 := State(Ledger(map[], map[]), 0);
    var s1 := State(Ledger(map[0 := Table(name, desc, map[])], map[name := 0]), 1);
    var v1 := AtRest(s1);
    var v2 := v1.(pending := [Upsert(0, a, row)]);
    Created(name, desc, outs[0], fits);
    Refused(s1, a, b, row, outs[1], fits);
    var s3 := Put(s1, 0, c, row);
    var v3 := Worlds(s3, Put(Put(s1, 0, a, row), 0, c, row), []);
    Accepted(s1, a, c, row, outs[2], fits);
    NotThere(v3, a, outs[3], fits);
    assert Expected(v3, script[3], outs[3], fits) == v3;
    assert v3.now.ledger.tables[0].rows == map[c := row];
    assert v3.kept.ledger.tables[0].rows == map[a := row, c := row];
  }

  /** So a crash right after those four commands brings it back, whatever is lost. */
  lemma RefusedRowRecovered(name: Bytes, desc: Descriptor, a: Id, b: Id, c: Id, row: Row, outs: seq<Outcome>, fits: Entry -> bool, lost: nat, reopenings: seq<nat>)
    requires ValidName(name) && desc.dim != 0 && |row.vector| == desc.dim && a != b && a != c && b != c && |outs| == 5
    requires RefusedSizes(name, desc, a, b, c, row, outs, fits)
    ensures var v := ExpectedAfter(RefusedScript(name, desc, a, b, c, row) + [CrashesIn(Compact, 0, lost, reopenings)], outs, fits);
      0 in v.now.ledger.tables && v.now.ledger.tables[0].rows == map[a := row, c := row]
  {
    hide ExpectedAfter, ReopensTo, Crashed;
    var script, crash := RefusedScript(name, desc, a, b, c, row), CrashesIn(Compact, 0, lost, reopenings);
    RefusedRowReturns(name, desc, a, b, c, row, outs[..4], fits);
    assert outs == outs[..4] + [outs[4]];
    ExpectedNext(script, crash, outs[..4], outs[4], fits);
    CrashBetween(ExpectedAfter(script, outs[..4], fits), Compact, lost, outs[4], fits);
  }

  function Put(s: State, cid: nat, id: Id, row: Row): State { StateApply(s, Upsert(cid, id, row)) }

  lemma Created(name: Bytes, desc: Descriptor, o: Outcome, fits: Entry -> bool)
    requires ValidName(name) && desc.dim != 0 && fits(Entry(o.lsn, Create(0, name, desc)))
    ensures Expected(AtRest(State(Ledger(map[], map[]), 0)), Completes(CreateCollection(name, desc)), o, fits)
      == AtRest(State(Ledger(map[0 := Table(name, desc, map[])], map[name := 0]), 1))
  {
    var s, op := State(Ledger(map[], map[]), 0), Create(0, name, desc);
    assert Ops(s, CreateCollection(name, desc)) == [op];
    hide Ops, StateReplay, ValidName, Taken;
    assert StateApply(s, op) == State(Ledger(map[0 := Table(name, desc, map[])], map[name := 0]), 1);
    TakenIs(fits, o.lsn, [op], 1);
    StateReplayOne(s, op);
    assert [] + [op] == [op];
  }

  lemma Refused(s: State, a: Id, b: Id, row: Row, o: Outcome, fits: Entry -> bool)
    requires RightSize(s.ledger, 0, row) && fits(Entry(o.lsn, Upsert(0, a, row))) && !fits(Entry(o.lsn + 1, Upsert(0, b, row)))
    ensures Expected(AtRest(s), Completes(UpsertBatch(0, [(a, row), (b, row)])), o, fits) == Worlds(s, s, [Upsert(0, a, row)])
  {
    var ops := [Upsert(0, a, row), Upsert(0, b, row)];
    assert Ops(s, UpsertBatch(0, [(a, row), (b, row)])) == ops;
    TakenIs(fits, o.lsn, ops, 1);
    assert [] + ops[..1] == [Upsert(0, a, row)];
  }

  lemma Accepted(s: State, a: Id, c: Id, row: Row, o: Outcome, fits: Entry -> bool)
    requires RightSize(s.ledger, 0, row) && fits(Entry(o.lsn, Upsert(0, c, row)))
    ensures Expected(Worlds(s, s, [Upsert(0, a, row)]), Completes(UpsertPoint(0, c, row)), o, fits)
      == Worlds(Put(s, 0, c, row), Put(Put(s, 0, a, row), 0, c, row), [])
  {
    var op := Upsert(0, c, row);
    assert Ops(s, UpsertPoint(0, c, row)) == [op];
    TakenIs(fits, o.lsn, [op], 1);
    StateReplayOne(s, op);
    StateReplayAppend(s, [Upsert(0, a, row)], [op]);
    StateReplayOne(s, Upsert(0, a, row));
    StateReplayOne(Put(s, 0, a, row), op);
  }

  lemma NotThere(v: Worlds, a: Id, o: Outcome, fits: Entry -> bool)
    requires 0 in v.now.ledger.tables ==> a !in v.now.ledger.tables[0].rows
    ensures Expected(v, Completes(DeletePoint(0, a)), o, fits) == v
  {}
}
