/** What the store promises: commands, the operations they log, and the state a
    script of commands and crashes must leave (the durability contract of
    crates/quiver-core/src/store.rs). */
module Commands {
  import opened ByteStrings
  import opened Segments
  import opened Descriptors
  import opened Collections
  import opened Replay
  import opened WindowReplay
  import opened Disks

  datatype Command =
    | CreateCollection(name: Bytes, desc: Descriptor)
    | DropCollection(name: Bytes)
    | UpsertPoint(cid: nat, id: Id, row: Row)
    | UpsertBatch(cid: nat, records: seq<(Id, Row)>)
    | DeletePoint(cid: nat, id: Id)
    | Checkpoint
    | Compact

  const MAX_COLLECTION_NAME_LEN: nat := 255

  /** ASCII letters, digits, '-', '_' and '.', not empty and not too long. */
  predicate ValidName(name: Bytes) {
    && 0 < |name| <= MAX_COLLECTION_NAME_LEN
    && forall i :: 0 <= i < |name| ==>
         || 48 <= name[i] <= 57 || 65 <= name[i] <= 90 || 97 <= name[i] <= 122
         || name[i] == 45 || name[i] == 95 || name[i] == 46
  }

  predicate RightSize(l: Ledger, cid: nat, row: Row) {
    cid in l.tables && |row.vector| == l.tables[cid].desc.dim
  }

  function UpsertOps(cid: nat, records: seq<(Id, Row)>): (ops: seq<Op>)
    ensures |ops| == |records|
    ensures forall i :: 0 <= i < |ops| ==> ops[i] == Upsert(cid, records[i].0, records[i].1)
  {
    seq(|records|, i requires 0 <= i < |records| => Upsert(cid, records[i].0, records[i].1))
  }

  /** The operations a command asks the log to take in a given state; none when it is refused
      before that or has nothing to do. */
  function Ops(s: State, cmd: Command): seq<Op> {
    match cmd
    case CreateCollection(name, desc) =>
      if ValidName(name) && name !in s.ledger.names && desc.dim != 0 then [Create(s.nextCid, name, desc)] else []
    case DropCollection(name) => if name in s.ledger.names then [Drop(s.ledger.names[name])] else []
    case UpsertPoint(cid, id, row) => if RightSize(s.ledger, cid, row) then [Upsert(cid, id, row)] else []
    case UpsertBatch(cid, records) =>
      if forall i :: 0 <= i < |records| ==> RightSize(s.ledger, cid, records[i].1) then UpsertOps(cid, records) else []
    case DeletePoint(cid, id) =>
      if cid in s.ledger.tables && id in s.ledger.tables[cid].rows then [Delete(cid, id)] else []
    case Checkpoint => []
    case Compact => []
  }

  function StateApply(s: State, op: Op): State {
    State(LedgerApply(s.ledger, op), NextCidAfter(s.nextCid, op))
  }

  function StateReplay(s: State, ops: seq<Op>): State {
    if ops == [] then s else StateApply(StateReplay(s, ops[..|ops| - 1]), ops[|ops| - 1])
  }

  lemma StateReplayOne(s: State, op: Op)
    ensures StateReplay(s, [op]) == StateApply(s, op)
  {
    assert [op][..0] == [];
  }

  lemma {:induction false} StateReplayAppend(s: State, a: seq<Op>, b: seq<Op>)
    ensures StateReplay(s, a + b) == StateReplay(StateReplay(s, a), b)
  {
    if b == [] {
      assert a + b == a;
    } else {
      var n := |b| - 1;
      StateReplayAppend(s, a, b[..n]);
      assert (a + b)[..|a + b| - 1] == a + b[..n];
    }
  }

  function Min(a: nat, b: nat): nat { if a <= b then a else b }

  // ---- what the log takes --------------------------------------------------

  /** How many of the operations, numbered from `lsn`, the log takes before one is too large
      for it. */
  function Taken(fits: Entry -> bool, lsn: nat, ops: seq<Op>): (n: nat)
    ensures n <= |ops| && (n < |ops| ==> !fits(Entry(lsn + n, ops[n])))
    ensures forall i :: 0 <= i < n ==> fits(Entry(lsn + i, ops[i]))
    decreases |ops|
  {
    if ops == [] || !fits(Entry(lsn, ops[0])) then 0 else 1 + Taken(fits, lsn + 1, ops[1..])
  }

  /** It is the number of operations before the first that is too large. */
  lemma TakenIs(fits: Entry -> bool, lsn: nat, ops: seq<Op>, n: nat)
    requires n <= |ops| && (forall i :: 0 <= i < n ==> fits(Entry(lsn + i, ops[i]))) && (n < |ops| ==> !fits(Entry(lsn + n, ops[n])))
    ensures Taken(fits, lsn, ops) == n
  {
    assert Taken(fits, lsn, ops) <= |ops|;
  }

  /** The acknowledged state; the state of all synced records; and the operations of the records
      after those, all of refused batches. */
  datatype Worlds = Worlds(now: State, kept: State, pending: seq<Op>)

  function AtRest(s: State): Worlds { Worlds(s, s, []) }

  /** What the log replays to, unless a crash loses records that were not synced. */
  function Full(v: Worlds): State { StateReplay(v.kept, v.pending) }

  /** A completed command. When the log takes every record, one sync makes them and all earlier
      ones durable, and memory applies them. When it refuses one, memory is as it was and the
      records before that one stay in the log. A checkpoint leaves nothing to replay. */
  function Completed(v: Worlds, cmd: Command, lsn: nat, fits: Entry -> bool): Worlds {
    if cmd.Checkpoint? then AtRest(v.now)
    else
      var ops := Ops(v.now, cmd);
      var n := Taken(fits, lsn, ops);
      if ops == [] then v
      else if n == |ops| then Worlds(StateReplay(v.now, ops), StateReplay(v.kept, v.pending + ops), [])
      else v.(pending := v.pending + ops[..n])
  }

  /** What one event of a run did: the sequence number it started from, and whether it moved the
      replay floor. */
  datatype Outcome = Outcome(lsn: nat, moved: bool)

  /** The state a crash leaves, after `steps` durable steps of a command and the loss of at most
      `lost` records past the last sync. A writing command appends its records one step each and
      then syncs; a checkpoint that moved the floor has made memory's state durable. */
  function Crashed(v: Worlds, cmd: Command, steps: nat, lost: nat, o: Outcome, fits: Entry -> bool): State {
    if cmd.Checkpoint? && o.moved then v.now
    else
      var ops := Ops(v.now, cmd);
      var n := Taken(fits, o.lsn, ops);
      var written := v.pending + ops[..Min(steps, n)];
      if ops != [] && n == |ops| && steps > n then StateReplay(v.kept, written)
      else StateReplay(v.kept, written[..|written| - Min(lost, |written|)])
  }

  // ---- scripts -------------------------------------------------------------

  /** A script event: a command that completes, or one cut by a crash, followed by reopenings of
      which all but the last are themselves cut after the given numbers of steps. */
  datatype Event = Completes(cmd: Command) | CrashesIn(cmd: Command, steps: nat, lost: nat, reopenings: seq<nat>)

  function Expected(v: Worlds, ev: Event, o: Outcome, fits: Entry -> bool): Worlds {
    match ev
    case Completes(cmd) => Completed(v, cmd, o.lsn, fits)
    case CrashesIn(cmd, steps, lost, _) => AtRest(Crashed(v, cmd, steps, lost, o, fits))
  }

  function ExpectedAfter(script: seq<Event>, outs: seq<Outcome>, fits: Entry -> bool): Worlds
    requires |outs| == |script|
  {
    var n := |script| - 1;
    if script == [] then AtRest(State(Ledger(map[], map[]), 0))
    else Expected(ExpectedAfter(script[..n], outs[..n], fits), script[n], outs[n], fits)
  }

  // ---- batches -------------------------------------------------------------

  function ApplyAll(k: Catalog, ops: seq<Op>): Catalog {
    if ops == [] then k else Apply(ApplyAll(k, ops[..|ops| - 1]), ops[|ops| - 1])
  }

  /** The next record of a batch. */
  lemma BatchStep(k: Catalog, ops: seq<Op>, i: nat, s: State)
    requires i < |ops|
    ensures ApplyAll(k, ops[..i + 1]) == Apply(ApplyAll(k, ops[..i]), ops[i])
    ensures StateReplay(s, ops[..i + 1]) == StateApply(StateReplay(s, ops[..i]), ops[i])
  {
    assert ops[..i + 1][..i] == ops[..i];
  }

  /** Memory after a batch stands for the ledger after it. */
  lemma {:induction false} ApplyAllRefines(k: Catalog, n: nat, ops: seq<Op>)
    requires CatalogOk(k) && forall i :: 0 <= i < |ops| ==> ops[i].Upsert?
    ensures CatalogOk(ApplyAll(k, ops)) && State(Meaning(ApplyAll(k, ops)), n) == StateReplay(State(Meaning(k), n), ops)
  {
    hide Apply, LedgerApply, Meaning, CatalogOk;
    if ops != [] {
      var i := |ops| - 1;
      ApplyAllRefines(k, n, ops[..i]);
      ApplyRefines(ApplyAll(k, ops[..i]), ops[i]);
    }
  }
}
