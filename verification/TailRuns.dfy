/** The recovery tail over whole runs: what an index snapshot taken at a checkpoint has to do
    to catch up after any further commands and crashes
    (crates/quiver-core/src/store.rs, `recovery_tail`). */
module TailRuns {
  import opened ByteStrings
  import opened Segments
  import opened Collections
  import opened CollectionLayout
  import opened Replay
  import opened WindowReplay
  import opened RecoveryTails
  import opened TailLoss
  import opened Disks
  import opened Commands
  import opened Points
  import opened Survivors
  import opened Residues
  import opened Marks
  import opened Streams
  import opened CollectionStates
  import opened Stores
  import opened Runs
  import opened Publishing
  import Reads

  /** A tail as the store returns it: buffered upserts and deleted ids. */
  type Tails = (seq<(Id, Row)>, seq<Id>)

  /** A snapshot after the tail: its deletions first, then its upserts. */
  function Replayed(rows: map<Id, Row>, tail: Tails): map<Id, Row> {
    (rows - (set id | id in tail.1)) + AddRows(map[], tail.0)
  }

  function RowsIn(s: State, cid: nat): map<Id, Row> { if cid in s.ledger.tables then s.ledger.tables[cid].rows else map[] }

  /** The rows a collection's segments hold are the given ones; a collection not named has none. */
  ghost predicate BaseIs(cols: map<nat, Coll>, b: map<nat, map<Id, Row>>) {
    forall cid :: cid in cols ==> BaseRows(cols[cid]) == if cid in b then b[cid] else map[]
  }

  ghost predicate Below(b: map<nat, map<Id, Row>>, n: nat) { forall cid :: cid in b ==> cid < n }

  // ---- new collections have new ids ----------------------------------------

  lemma OpsCreateNext(s: State, cmd: Command)
    ensures forall i :: 0 <= i < |Ops(s, cmd)| && Ops(s, cmd)[i].Create? ==> Ops(s, cmd)[i].cid == s.nextCid
  {}

  lemma {:induction false} ReplayTables(s: State, ops: seq<Op>, n: nat, cid: nat)
    requires forall i :: 0 <= i < |ops| && ops[i].Create? ==> ops[i].cid >= n
    ensures cid in StateReplay(s, ops).ledger.tables && cid !in s.ledger.tables ==> cid >= n
    ensures StateReplay(s, ops).nextCid >= s.nextCid
  {
    if ops != [] { ReplayTables(s, ops[..|ops| - 1], n, cid); }
  }

  /** The refused records create nothing: what may be left has the collections of what is
      acknowledged. */
  ghost predicate Sane(v: Worlds) {
    && v.kept.nextCid == v.now.nextCid && (forall cid :: cid in v.kept.ledger.tables <==> cid in v.now.ledger.tables)
    && forall i :: 0 <= i < |v.pending| ==> v.pending[i].Upsert?
  }

  lemma SaneAfter(script: seq<Event>, outs: seq<Outcome>, fits: Entry -> bool)
    requires |outs| == |script|
    ensures Sane(ExpectedAfter(script, outs, fits))
  {
    hide ExpectedAfter, ResidueAfter;
    RunTallies(script, outs, fits);
  }

  lemma ExpectedTables(v: Worlds, ev: Event, o: Outcome, fits: Entry -> bool, cid: nat)
    requires Sane(v)
    ensures cid in Expected(v, ev, o, fits).now.ledger.tables && cid !in v.now.ledger.tables ==> cid >= v.now.nextCid
    ensures Expected(v, ev, o, fits).now.nextCid >= v.now.nextCid
  {
    hide Ops, StateReplay, Taken;
    OpsCreateNext(v.now, ev.cmd);
    var ops := Ops(v.now, ev.cmd);
    TakenBound(fits, o.lsn, ops);
    ReplayTables(v.now, ops, v.now.nextCid, cid);
    if ev.CrashesIn? {
      var written := v.pending + ops[..Min(ev.steps, Taken(fits, o.lsn, ops))];
      ReplayTables(v.kept, written, v.now.nextCid, cid);
      ReplayTables(v.kept, written[..|written| - Min(ev.lost, |written|)], v.now.nextCid, cid);
    }
  }

  // ---- one event of a window -----------------------------------------------

  lemma NoSegments(c: Coll)
    requires c.sealed == []
    ensures BaseRows(c) == map[]
  {
    forall id: Id ensures id !in BaseRows(c) { ContentsIsLookup(Base(c), id); }
  }

  /** Writes leave the rows of the segments alone. */
  lemma GrownBase(a: map<nat, Coll>, z: map<nat, Coll>, b: map<nat, map<Id, Row>>)
    requires Grown(a, z) && BaseIs(a, b) && forall cid :: cid in z && cid !in a ==> cid !in b
    ensures BaseIs(z, b)
  {
    hide BaseRows;
    forall cid | cid in z ensures BaseRows(z[cid]) == if cid in b then b[cid] else map[] {
      if cid in a { SealedDecides(z[cid], a[cid]); } else { NoSegments(z[cid]); }
    }
  }

  lemma MeaningKeys(k: Catalog, cid: nat)
    ensures cid in Meaning(k).tables <==> cid in k.cols
    ensures cid in k.cols ==> Meaning(k).tables[cid].rows == Contents(k.cols[cid])
  {}

  lemma WriteBase(k: Catalog, n: nat, k': Catalog, n': nat, v: Worlds, ev: Event, o: Outcome, fits: Entry -> bool, floor: nat, b: map<nat, map<Id, Row>>)
    requires Sane(v) && v.now == State(Meaning(k), n) && State(Meaning(k'), n') == Expected(v, ev, o, fits).now
    requires MarkedTo(k'.cols, floor, Mark(k.cols, floor, Writing))
    requires BaseIs(k.cols, b) && Below(b, n)
    ensures BaseIs(k'.cols, b) && Below(b, n')
  {
    hide Meaning, Expected, BaseIs, Grown, Sane;
    forall cid | cid in k'.cols && cid !in k.cols ensures cid !in b {
      MeaningKeys(k, cid);
      MeaningKeys(k', cid);
      ExpectedTables(v, ev, o, fits, cid);
    }
    ExpectedTables(v, ev, o, fits, 0);
    GrownBase(k.cols, k'.cols, b);
  }

  // ---- the tail of one collection ------------------------------------------

  lemma TailIs(c: Coll, rows: map<Id, Row>, tail: Tails)
    requires Valid(c) && Reads.ScanOf(TailUpserts(c), tail.0) && forall id :: id in tail.1 <==> id in TailDeleted(c)
    ensures Replayed(rows, tail) == CaughtUp(rows, c)
  {
    hide Contents, TailDeleted, TailUpserts, AddRows;
    ScanRebuilds(TailUpserts(c), tail.0);
    assert (set id | id in tail.1) == TailDeleted(c);
  }

  /** From what the segments hold, the tail always leads to the current map. */
  lemma TailFromBase(c: Coll, tail: Tails)
    requires Valid(c) && Reads.ScanOf(TailUpserts(c), tail.0) && forall id :: id in tail.1 <==> id in TailDeleted(c)
    ensures Replayed(BaseRows(c), tail) == Contents(c)
  {
    hide Valid, Contents, TailDeleted, Reads.ScanOf;
    TailIs(c, BaseRows(c), tail);
    TailCatchesUp(c);
  }

  // ---- runs ----------------------------------------------------------------

  function AllRows(s: State): map<nat, map<Id, Row>> { map cid | cid in s.ledger.tables :: s.ledger.tables[cid].rows }

  /** When the floor covers the log, the segments hold everything. */
  lemma CoveredIsBase(k: Catalog, d: Disk, n: Counters)
    requires InStep(k, d, n) && n.nextLsn == n.floor + 1
    ensures AllBase(k.cols)
  {
    hide LogOk, EntryOk;
    AboveNone(Log(d), n.floor);
    assert Tail(d) == [];
    forall cid | cid in k.cols ensures k.cols[cid] == Base(k.cols[cid]) { LoadedAreBases(d, cid); }
  }

  lemma BaseIsRows(k: Catalog, n: nat)
    requires AllBase(k.cols)
    ensures BaseIs(k.cols, AllRows(State(Meaning(k), n)))
  {
    hide Contents;
  }

  /** A window of writes: commands that complete or crash, with any reopenings. */
  predicate Writes(events: seq<Event>) { forall i :: 0 <= i < |events| ==> CareOf(events[i].cmd) == Writing }

  method RunWindow(store: Store, full: seq<Event>, seen: seq<Outcome>, ghost b: map<nat, map<Id, Row>>) returns (next: Store, outs: seq<Outcome>)
    requires store.Valid() && |seen| <= |full| && store.Worlds() == ExpectedAfter(full[..|seen|], seen, store.fits)
    requires Writes(full[|seen|..]) && BaseIs(store.memory.cols, b) && Below(b, store.nextCid)
    modifies store, store.collections.Values
    ensures |outs| == |full| && seen <= outs && next.Valid() && next.Worlds() == ExpectedAfter(full, outs, store.fits)
    ensures BaseIs(next.memory.cols, b) && Below(b, next.nextCid) && next.floor == old(store.floor)
    ensures fresh({next} - {store}) && fresh(next.collections.Values - old(store.collections.Values))
  {
    hide Expected, ExpectedAfter, BaseIs, Below, Grown, CareOf, Store.Valid, Meaning, Spent, Sane;
    next, outs := store, seen;
    for i := |seen| to |full|
      invariant |outs| == i && seen <= outs && next.Valid() && next.fits == store.fits && next.Worlds() == ExpectedAfter(full[..i], outs, store.fits)
      invariant BaseIs(next.memory.cols, b) && Below(b, next.nextCid) && next.floor == old(store.floor)
      invariant fresh({next} - {store}) && fresh(next.collections.Values - old(store.collections.Values))
    {
      assert full[|seen|..][i - |seen|] == full[i];
      ghost var k, n, v := next.memory, next.nextCid, next.Worlds();
      var o;
      next, o := Step(next, full[i]);
      NextExpected(full, outs, store.fits, o);
      SaneAfter(full[..i], outs, store.fits);
      WriteBase(k, n, next.memory, next.nextCid, v, full[i], o, store.fits, next.floor, b);
      outs := outs + [o];
    }
    assert full[..|full|] == full;
  }

  /** Run a script and checkpoint. */
  method RunToCheckpoint(script: seq<Event>, fits: Entry -> bool) returns (store: Store, outs: seq<Outcome>)
    ensures store.Valid() && fresh(store) && fresh(store.collections.Values) && store.fits == fits && |outs| == |script| + 1
    ensures store.Worlds() == AtRest(ExpectedAfter(script, outs[..|script|], fits).now) == ExpectedAfter(script + [Completes(Checkpoint)], outs, fits)
    ensures var rows := AllRows(ExpectedAfter(script, outs[..|script|], fits).now); BaseIs(store.memory.cols, rows) && Below(rows, store.nextCid)
    ensures AllBase(store.memory.cols)
  {
    hide Expected, ExpectedAfter, BaseIs, Below, Store.Linked, CatalogOk, InStep, Tracks, Leaves, Meaning, AllRows, AllBase, Marked,
      AllMarked, Maintained;
    var seen;
    store, seen := Run(script, fits);
    var lsn, floor := store.nextLsn, store.floor;
    store.Checkpoint();
    outs := seen + [Outcome(lsn, store.floor != floor)];
    assert outs[..|script|] == seen;
    CheckpointExpected(script, seen, outs[|script|], fits);
    CoveredIsBase(store.memory, store.disk, store.Counts());
    BaseIsRows(store.memory, store.nextCid);
    store.WellNamedMemory();
    RowsBelow(store.memory, store.nextCid);
  }

  lemma CheckpointExpected(script: seq<Event>, outs: seq<Outcome>, o: Outcome, fits: Entry -> bool)
    requires |outs| == |script|
    ensures ExpectedAfter(script + [Completes(Checkpoint)], outs + [o], fits) == AtRest(ExpectedAfter(script, outs, fits).now)
  {
    assert (script + [Completes(Checkpoint)])[..|script|] == script && (outs + [o])[..|outs|] == outs;
  }

  lemma RowsBelow(k: Catalog, n: nat)
    requires forall cid :: cid in k.cols ==> cid < n
    ensures Below(AllRows(State(Meaning(k), n)), n)
  {}

  /** What the store returns as a collection's tail. */
  ghost predicate IsTail(k: Catalog, cid: nat, r: Result<Tails, Error>) {
    if cid !in k.cols then r == Err(NotFound)
    else
      && r.Ok? && Valid(k.cols[cid])
      && Reads.ScanOf(TailUpserts(k.cols[cid]), r.value.0)
      && (forall id :: id in r.value.1 <==> id in TailDeleted(k.cols[cid]))
  }

  method TailOf(store: Store, cid: nat) returns (r: Result<Tails, Error>)
    requires store.Valid()
    ensures IsTail(store.memory, cid, r)
  {
    hide Store.Valid, Meaning, Contents, TailDeleted, TailUpserts;
    r := store.RecoveryTail(cid);
  }

  /** Checkpoint, then run any writes, completed, refused or crashed, with any reopenings: the
      tail turns the checkpointed rows of every collection into its current ones. */
  method TailAfter(script: seq<Event>, window: seq<Event>, fits: Entry -> bool, cid: nat) returns (r: Result<Tails, Error>, outs: seq<Outcome>)
    requires Writes(window)
    ensures |outs| == |script| + 1 + |window|
    ensures var before, after := ExpectedAfter(script, outs[..|script|], fits).now, ExpectedAfter(script + [Completes(Checkpoint)] + window, outs, fits).now;
      && (cid !in after.ledger.tables ==> r == Err(NotFound))
      && (cid in after.ledger.tables ==> r.Ok? && Replayed(RowsIn(before, cid), r.value) == RowsIn(after, cid))
  {
    hide Expected, ExpectedAfter, Store.Valid, AllBase, Meaning, Contents, TailDeleted, TailUpserts, Replayed, Writes, Reads.ScanOf, Valid;
    var store, seen := RunToCheckpoint(script, fits);
    var full := script + [Completes(Checkpoint)] + window;
    assert full[..|seen|] == script + [Completes(Checkpoint)] && full[|seen|..] == window;
    ghost var rows := AllRows(ExpectedAfter(script, seen[..|script|], fits).now);
    store, outs := RunWindow(store, full, seen, rows);
    assert outs[..|script|] == seen[..|script|];
    r := TailOf(store, cid);
    MeaningKeys(store.memory, cid);
    if cid in store.memory.cols { TailFromBase(store.memory.cols[cid], r.value); }
  }

  /** Right after a checkpoint the tail is empty: it never holds more than what came since. */
  method TailStartsEmpty(script: seq<Event>, fits: Entry -> bool, cid: nat) returns (r: Result<Tails, Error>)
    ensures r == Err(NotFound) || r == Ok(([], []))
  {
    hide ExpectedAfter, Store.Valid, Meaning, Contents, IsTail;
    var store, _ := RunToCheckpoint(script, fits);
    r := TailOf(store, cid);
    EmptyTail(store.memory, cid, r);
  }

  lemma NoneListed(tail: Tails)
    ensures Reads.ScanOf(map[], tail.0) ==> tail.0 == []
    ensures (forall id :: id !in tail.1) ==> tail.1 == []
  {
    var rows: map<Id, Row> := map[];
    if tail.0 != [] { assert tail.0[0].0 !in rows; }
    if tail.1 != [] { assert tail.1[0] in tail.1; }
  }

  lemma EmptyTail(k: Catalog, cid: nat, r: Result<Tails, Error>)
    requires AllBase(k.cols) && IsTail(k, cid, r)
    ensures r == Err(NotFound) || r == Ok(([], []))
  {
    hide Valid;
    if cid in k.cols {
      assert k.cols[cid] == Base(k.cols[cid]);
      NoneListed(r.value);
    }
  }

  // ---- any events at all ---------------------------------------------------

  /** A maintenance event took an id's deletion out of the tail. */
  ghost predicate Forgets(before: Result<Tails, Error>, next: Result<Tails, Error>, id: Id) {
    before.Ok? && next.Ok? && id in before.value.1 && id !in next.value.1
  }

  predicate Maintains(ev: Event) { CareOf(ev.cmd) != Writing }

  /** Some maintenance event from `from` on forgot the id. `tails[j]` is the tail before event `j`. */
  ghost predicate Lost(tails: seq<Result<Tails, Error>>, events: seq<Event>, from: nat, id: Id) {
    exists j :: from <= j && j < |events| && j + 1 < |tails| && Maintains(events[j]) && Forgets(tails[j], tails[j + 1], id)
  }

  lemma LostMore(tails: seq<Result<Tails, Error>>, r: Result<Tails, Error>, events: seq<Event>, from: nat, id: Id)
    requires from < |tails| <= |events|
    ensures var n := |tails| - 1;
      Lost(tails + [r], events, from, id) <==> Lost(tails, events, from, id) || (Maintains(events[n]) && Forgets(tails[n], r, id))
  {
    hide Forgets, Maintains;
    var more, n := tails + [r], |tails| - 1;
    assert more[n] == tails[n] && more[n + 1] == r;
    if Lost(tails, events, from, id) {
      var j :| from <= j && j < |events| && j + 1 < |tails| && Maintains(events[j]) && Forgets(tails[j], tails[j + 1], id);
      assert more[j] == tails[j] && more[j + 1] == tails[j + 1];
    }
  }

  /** The rows of the last checkpoint that the segments no longer hold are those forgotten
      since. A collection that is not there was dropped, or has not been there at all. */
  ghost predicate Kept(k: Catalog, n: nat, cid: nat, rows: map<Id, Row>, tails: seq<Result<Tails, Error>>, events: seq<Event>, from: nat) {
    if cid in k.cols then
      && cid < n && Within(BaseRows(k.cols[cid]), rows)
      && (forall id :: id in rows && id !in BaseRows(k.cols[cid]) <==> Lost(tails, events, from, id))
    else cid < n || (rows == map[] && forall j :: from <= j < |tails| ==> tails[j].Err?)
  }

  lemma KeptAtStart(k: Catalog, n: nat, cid: nat, tails: seq<Result<Tails, Error>>, events: seq<Event>)
    requires AllBase(k.cols) && (cid in k.cols ==> cid < n) && tails != [] && IsTail(k, cid, tails[|tails| - 1])
    ensures Kept(k, n, cid, RowsIn(State(Meaning(k), n), cid), tails, events, |tails| - 1)
  {
    hide Contents;
    MeaningKeys(k, cid);
  }

  lemma NothingLost(tails: seq<Result<Tails, Error>>, events: seq<Event>, from: nat, id: Id)
    requires forall j :: from <= j < |tails| - 1 ==> tails[j].Err?
    ensures !Lost(tails, events, from, id)
  {}

  /** A write, completed or crashed. */
  lemma KeptWrite(k: Catalog, n: nat, k': Catalog, n': nat, v: Worlds, ev: Event, o: Outcome, fits: Entry -> bool, floor: nat, cid: nat, rows: map<Id, Row>,
                  tails: seq<Result<Tails, Error>>, r: Result<Tails, Error>, events: seq<Event>, from: nat)
    requires from < |tails| <= |events| && events[|tails| - 1] == ev && !Maintains(ev)
    requires Sane(v) && v.now == State(Meaning(k), n) && State(Meaning(k'), n') == Expected(v, ev, o, fits).now
    requires MarkedTo(k'.cols, floor, Mark(k.cols, floor, Writing)) && IsTail(k', cid, r) && (cid in k'.cols ==> cid < n')
    requires Kept(k, n, cid, rows, tails, events, from)
    ensures Kept(k', n', cid, rows, tails + [r], events, from)
  {
    hide Meaning, Expected, BaseRows, Valid, Reads.ScanOf, TailUpserts, TailDeleted, Lost, Maintains, Sane;
    MeaningKeys(k, cid);
    MeaningKeys(k', cid);
    ExpectedTables(v, ev, o, fits, cid);
    forall id ensures Lost(tails + [r], events, from, id) <==> Lost(tails, events, from, id) { LostMore(tails, r, events, from, id); }
    if cid in k'.cols {
      if cid in k.cols {
        SealedDecides(k.cols[cid], k'.cols[cid]);
      } else {
        NoSegments(k'.cols[cid]);
        forall id ensures !Lost(tails, events, from, id) { NothingLost(tails, events, from, id); }
      }
    }
  }

  /** Maintenance that published no checkpoint. */
  lemma KeptMaintenance(k: Catalog, n: nat, k': Catalog, n': nat, ev: Event, cid: nat, rows: map<Id, Row>,
                        tails: seq<Result<Tails, Error>>, r: Result<Tails, Error>, events: seq<Event>, from: nat)
    requires from < |tails| <= |events| && events[|tails| - 1] == ev && Maintains(ev)
    requires AllLoseTo(k.cols, k'.cols) && n <= n'
    requires IsTail(k, cid, tails[|tails| - 1]) && IsTail(k', cid, r)
    requires Kept(k, n, cid, rows, tails, events, from)
    ensures Kept(k', n', cid, rows, tails + [r], events, from)
  {
    hide BaseRows, Valid, Reads.ScanOf, TailUpserts, TailDeleted, Lost, Maintains;
    forall id ensures Lost(tails + [r], events, from, id) <==> Lost(tails, events, from, id) || Forgets(tails[|tails| - 1], r, id) {
      LostMore(tails, r, events, from, id);
    }
  }

  /** Any event: it keeps the window, or publishes a checkpoint and starts a new one. */
  lemma KeptEvent(k: Catalog, n: nat, floor: nat, k': Catalog, n': nat, floor': nat, v: Worlds, ev: Event, o: Outcome, fits: Entry -> bool, cid: nat, rows: map<Id, Row>,
                  tails: seq<Result<Tails, Error>>, r: Result<Tails, Error>, events: seq<Event>, from: nat)
    requires from < |tails| <= |events| && events[|tails| - 1] == ev
    requires Sane(v) && v.now == State(Meaning(k), n) && State(Meaning(k'), n') == Expected(v, ev, o, fits).now && forall c :: c in k'.cols ==> c < n'
    requires MarkedTo(k'.cols, floor', Mark(k.cols, floor, CareOf(ev.cmd)))
    requires IsTail(k, cid, tails[|tails| - 1]) && IsTail(k', cid, r) && Kept(k, n, cid, rows, tails, events, from)
    ensures floor' == floor ==> Kept(k', n', cid, rows, tails + [r], events, from)
    ensures floor' != floor ==> ev.cmd.Checkpoint? && Kept(k', n', cid, RowsIn(State(Meaning(k'), n'), cid), tails + [r], events, |tails|)
  {
    hide Expected, Meaning, Kept, IsTail, AllBase, AllLoseTo, Grown, RowsIn, Sane;
    if !Maintains(ev) {
      KeptWrite(k, n, k', n', v, ev, o, fits, floor, cid, rows, tails, r, events, from);
    } else {
      ExpectedTables(v, ev, o, fits, cid);
      if floor' == floor {
        KeptMaintenance(k, n, k', n', ev, cid, rows, tails, r, events, from);
      } else {
        KeptAtStart(k', n', cid, tails + [r], events);
      }
    }
  }

  /** At the end, the tail catches the checkpointed rows up exactly when every forgotten id
      exists again. */
  lemma KeptDecides(k: Catalog, n: nat, cid: nat, rows: map<Id, Row>, tails: seq<Result<Tails, Error>>, events: seq<Event>, from: nat)
    requires Kept(k, n, cid, rows, tails, events, from) && tails != [] && IsTail(k, cid, tails[|tails| - 1]) && cid in k.cols
    ensures Replayed(rows, tails[|tails| - 1].value) == Contents(k.cols[cid]) <==>
      forall id :: Lost(tails, events, from, id) ==> id in Contents(k.cols[cid])
  {
    hide Contents, Valid, Reads.ScanOf, TailUpserts, TailDeleted, Lost, Replayed;
    TailIs(k.cols[cid], rows, tails[|tails| - 1].value);
    CaughtUpIff(rows, k.cols[cid]);
  }

  /** What a run shows: what each event did; the tail before each event after the first
      checkpoint, and at the end; and the position of the last event that published a
      checkpoint, plus one. */
  datatype Seen = Seen(outs: seq<Outcome>, tails: seq<Result<Tails, Error>>, from: nat)

  /** Event `from - 1` published a checkpoint, and no later one did. */
  predicate LastPublished(outs: seq<Outcome>, start: nat, events: seq<Event>, from: nat, to: nat)
    requires from <= to <= |events| && |outs| == start + to
  {
    && (from > 0 ==> events[from - 1].cmd.Checkpoint? && outs[start + from - 1].moved)
    && forall j :: start + from <= j < |outs| ==> !outs[j].moved
  }

  lemma LastPublishedMore(outs: seq<Outcome>, start: nat, events: seq<Event>, from: nat, to: nat, o: Outcome)
    requires from <= to < |events| && |outs| == start + to && LastPublished(outs, start, events, from, to)
    ensures !o.moved ==> LastPublished(outs + [o], start, events, from, to + 1)
    ensures o.moved && events[to].cmd.Checkpoint? ==> LastPublished(outs + [o], start, events, to + 1, to + 1)
  {}

  /** What it promises. `start` is the script up to the first checkpoint. */
  ghost predicate SeenRight(x: Seen, start: seq<Event>, events: seq<Event>, fits: Entry -> bool, cid: nat) {
    && |x.outs| == |start| + |events| && |x.tails| == |events| + 1 && x.from <= |events|
    && LastPublished(x.outs, |start|, events, x.from, |events|)
    && var before, after := ExpectedAfter(start + events[..x.from], x.outs[..|start| + x.from], fits).now, ExpectedAfter(start + events, x.outs, fits).now;
    if cid !in after.ledger.tables then x.tails[|events|] == Err(NotFound)
    else
      && x.tails[|events|].Ok?
      && (Replayed(RowsIn(before, cid), x.tails[|events|].value) == RowsIn(after, cid) <==>
          forall id :: Lost(x.tails, events, x.from, id) ==> id in RowsIn(after, cid))
  }

  /** Checkpoint, then run any events at all: writes, compactions and checkpoints, completed,
      refused or crashed anywhere, with any reopenings. From the rows at the last checkpoint that
      was published, the tail leads to the current rows if and only if every id whose deletion a
      later compaction or crashed checkpoint took out of the tail exists again. */
  method TailOver(script: seq<Event>, events: seq<Event>, fits: Entry -> bool, cid: nat) returns (x: Seen)
    ensures SeenRight(x, script + [Completes(Checkpoint)], events, fits, cid)
  {
    hide Expected, ExpectedAfter, Store.Valid, Meaning, Kept, IsTail, AllBase, Lost, RowsIn, SeenRight, LastPublished, CareOf, MarkedTo,
      BaseIs, Below, AllRows, Spent, Sane;
    var start := script + [Completes(Checkpoint)];
    var store, outs := RunToCheckpoint(script, fits);
    var r := TailOf(store, cid);
    var tails, from := [r], 0;
    ghost var rows := RowsIn(store.Acknowledged(), cid);
    IdsBelowNext(store);
    KeptAtStart(store.memory, store.nextCid, cid, tails, events);
    assert events[..0] == [] && start + [] == start && outs[..|start|] == outs;
    assert LastPublished(outs, |start|, events, 0, 0) by { NonePublished(outs, |start|, events); }
    for i := 0 to |events|
      invariant fresh(store) && fresh(store.collections.Values) && store.Valid() && store.fits == fits
      invariant |outs| == |start| + i && store.Worlds() == ExpectedAfter(start + events[..i], outs, fits)
      invariant |tails| == i + 1 && from <= i && IsTail(store.memory, cid, tails[i])
      invariant LastPublished(outs, |start|, events, from, i)
      invariant rows == RowsIn(ExpectedAfter(start + events[..from], outs[..|start| + from], fits).now, cid)
      invariant Kept(store.memory, store.nextCid, cid, rows, tails, events, from)
    {
      ghost var k, n, v, floor := store.memory, store.nextCid, store.Worlds(), store.floor;
      SaneAfter(start + events[..i], outs, fits);
      var o;
      store, o := Step(store, events[i]);
      r := TailOf(store, cid);
      IdsBelowNext(store);
      NextEvent(start, events, i, outs, o, fits);
      KeptEvent(k, n, floor, store.memory, store.nextCid, store.floor, v, events[i], o, fits, cid, rows, tails, r, events, from);
      LastPublishedMore(outs, |start|, events, from, i, o);
      assert (outs + [o])[..|start| + from] == outs[..|start| + from];
      tails, outs := tails + [r], outs + [o];
      if o.moved {
        from := i + 1;
        rows := RowsIn(store.Acknowledged(), cid);
        assert outs[..|start| + from] == outs;
      }
    }
    assert events[..|events|] == events;
    x := Seen(outs, tails, from);
    SeenIs(x, start, events, fits, cid, store.memory, store.nextCid);
  }

  lemma IdsBelowNext(store: Store)
    requires store.Valid()
    ensures forall cid :: cid in store.memory.cols ==> cid < store.nextCid
  {
    hide Store.Linked, CatalogOk, Tracks, Leaves, Store.Exact;
    store.WellNamedMemory();
  }

  lemma NonePublished(outs: seq<Outcome>, start: nat, events: seq<Event>)
    requires |outs| == start
    ensures LastPublished(outs, start, events, 0, 0)
  {}

  lemma SeenIs(x: Seen, start: seq<Event>, events: seq<Event>, fits: Entry -> bool, cid: nat, k: Catalog, n: nat)
    requires |x.outs| == |start| + |events| && |x.tails| == |events| + 1 && x.from <= |events| && LastPublished(x.outs, |start|, events, x.from, |events|)
    requires IsTail(k, cid, x.tails[|events|]) && State(Meaning(k), n) == ExpectedAfter(start + events, x.outs, fits).now
    requires Kept(k, n, cid, RowsIn(ExpectedAfter(start + events[..x.from], x.outs[..|start| + x.from], fits).now, cid), x.tails, events, x.from)
    ensures SeenRight(x, start, events, fits, cid)
  {
    hide ExpectedAfter, Meaning, Kept, Lost, Valid, Contents, Reads.ScanOf, TailUpserts, TailDeleted, Replayed, LastPublished;
    MeaningKeys(k, cid);
    if cid in k.cols {
      KeptDecides(k, n, cid, RowsIn(ExpectedAfter(start + events[..x.from], x.outs[..|start| + x.from], fits).now, cid), x.tails, events, x.from);
    }
  }

  lemma NextEvent(start: seq<Event>, events: seq<Event>, i: nat, outs: seq<Outcome>, o: Outcome, fits: Entry -> bool)
    requires i < |events| && |outs| == |start| + i
    ensures ExpectedAfter(start + events[..i + 1], outs + [o], fits) == Expected(ExpectedAfter(start + events[..i], outs, fits), events[i], o, fits)
  {
    hide Expected;
    var more, all := start + events[..i + 1], outs + [o];
    assert more[..|more| - 1] == start + events[..i] && more[|more| - 1] == events[i] && all[..|more| - 1] == outs;
  }
}
