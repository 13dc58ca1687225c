/** Whole runs: any script of commands, crashes and interrupted reopenings
    (the durability contract of crates/quiver-core/src/store.rs). */
module Runs {
  import opened ByteStrings
  import opened Segments
  import opened Collections
  import opened Replay
  import opened WindowReplay
  import opened Disks
  import opened CollectionStates
  import opened Commands
  import opened Cuts
  import opened Survivors
  import opened Points
  import opened Stores
  import opened Opening
  import opened Marks

  /** How a command may move the checkpointed rows. */
  function CareOf(cmd: Command): Care {
    match cmd
    case Checkpoint => Checkpointing
    case Compact => Compacting
    case _ => Writing
  }

  /** The durable steps of a command that began at `v`. */
  ghost predicate Performed(steps: seq<Point>, v: Worlds, cmd: Command, lsn: nat, floor: nat, fits: Entry -> bool) {
    match CareOf(cmd)
    case Checkpointing => Maintained(steps, v, floor)
    case Compacting => forall i :: 0 <= i < |steps| ==> LeftAt(steps[i], v.kept, v.pending)
    case _ => Framed(steps, v, Ops(v.now, cmd), Taken(fits, lsn, Ops(v.now, cmd)))
  }

  /** Execute one command to completion. */
  method Execute(store: Store, cmd: Command)
    requires store.Valid()
    modifies store, store.collections.Values
    ensures store.Valid() && fresh(store.collections.Values - old(store.collections.Values))
    ensures store.Worlds() == Completed(old(store.Worlds()), cmd, old(store.nextLsn), store.fits)
    ensures store.published == old(store.published) + Logged(old(store.Acknowledged()), cmd, old(store.nextLsn), store.fits)
    ensures store.nextLsn == old(store.nextLsn) + Spent(old(store.Acknowledged()), cmd, old(store.nextLsn), store.fits)
    ensures old(store.trace) <= store.trace
    ensures Performed(store.trace[|old(store.trace)|..], old(store.Worlds()), cmd, old(store.nextLsn), old(store.floor), store.fits)
    ensures var w := Mark(old(store.memory).cols, old(store.floor), CareOf(cmd));
      Marked(store.memory.cols, store.floor, w) && AllMarked(store.trace[|old(store.trace)|..], w)
    ensures CareOf(cmd) == Writing ==>
      Appends(old(store.disk), store.trace[|old(store.trace)|..], store.disk, old(store.nextLsn),
        Recorded(old(store.Acknowledged()), cmd, old(store.nextLsn), store.fits))
  {
    hide Ops, Framed, Maintained, LeftAt, StateReplay, Store.Valid, Marked, AllMarked, Appends, Recorded, Taken, Completed, Meaning;
    OpsOfMaintenance(store.Worlds(), store.nextLsn, store.fits);
    match cmd {
      case CreateCollection(name, desc) => var _ := store.CreateCollection(name, desc);
      case DropCollection(name) => var _ := store.DropCollection(name);
      case UpsertPoint(cid, id, row) => var _ := store.UpsertPoint(cid, id, row);
      case UpsertBatch(cid, records) => var _ := store.UpsertBatch(cid, records);
      case DeletePoint(cid, id) => var _ := store.DeletePoint(cid, id);
      case Checkpoint => store.Checkpoint();
      case Compact =>
        ghost var v, t, w := store.Worlds(), store.trace, Mark(store.memory.cols, store.floor, Compacting);
        store.Compact();
        FloorKept(store.trace[|t|..], v, w);
    }
  }

  lemma OpsOfMaintenance(v: Worlds, lsn: nat, fits: Entry -> bool)
    ensures Logged(v.now, Checkpoint, lsn, fits) == [] && Logged(v.now, Compact, lsn, fits) == []
    ensures Completed(v, Checkpoint, lsn, fits) == AtRest(v.now) && Completed(v, Compact, lsn, fits) == v
  {}

  /** A compaction never moves the floor. */
  lemma FloorKept(steps: seq<Point>, v: Worlds, w: Mark)
    requires Maintained(steps, v, w.floor) && AllMarked(steps, w) && w.care == Compacting
    ensures forall i :: 0 <= i < |steps| ==> LeftAt(steps[i], v.kept, v.pending)
  {
    hide LeftAt, AllLoseTo, Recover, Current;
    forall i | 0 <= i < |steps| ensures LeftAt(steps[i], v.kept, v.pending) {
      assert PointMarked(steps[i], w);
      CutNothing(steps[i].disk);
      assert DiskMarked(Cut(steps[i].disk, 0), w);
    }
  }

  /** The point a crash finds: after `at` of the new durable steps, or after all. */
  function CutAt(before: Point, steps: seq<Point>, at: nat): Point {
    if at == 0 || steps == [] then before
    else if at <= |steps| then steps[at - 1]
    else steps[|steps| - 1]
  }

  /** A crash anywhere inside a command, with any loss past the last sync, recovers to what the
      script expects. */
  lemma CutRecovers(before: Point, steps: seq<Point>, v: Worlds, cmd: Command, floor: nat, at: nat, lost: nat, o: Outcome, fits: Entry -> bool)
    requires LeftAt(before, v.kept, v.pending) && Current(before.disk).floor == floor && Performed(steps, v, cmd, o.lsn, floor, fits)
    requires o.moved <==> Current(CutAt(before, steps, at).disk).floor != floor
    ensures Recovers(Remains(CutAt(before, steps, at), lost), Crashed(v, cmd, at, lost, o, fits))
  {
    hide Ops, LeftAt, StateReplay, Current, Taken, Recovers, Remains;
    var p := CutAt(before, steps, at);
    match CareOf(cmd) {
      case Checkpointing =>
        OpsOfWorlds(v, cmd);
        if o.moved { LosesNone(p, v.now, [], lost); } else { LosesSome(p, v.kept, v.pending, lost); }
      case Compacting =>
        OpsOfWorlds(v, cmd);
        LosesSome(p, v.kept, v.pending, lost);
      case _ => CutFrames(before, steps, v, Ops(v.now, cmd), Taken(fits, o.lsn, Ops(v.now, cmd)), at, lost);
    }
  }

  lemma OpsOfWorlds(v: Worlds, cmd: Command)
    ensures CareOf(cmd) != Writing ==> Ops(v.now, cmd) == [] && v.pending + [] == v.pending
  {}

  lemma LosesSome(p: Point, kept: State, pending: seq<Op>, lost: nat)
    requires LeftAt(p, kept, pending)
    ensures Recovers(Remains(p, lost), StateReplay(kept, pending[..|pending| - Min(lost, |pending|)]))
  {}

  lemma LosesNone(p: Point, s: State, pending: seq<Op>, lost: nat)
    requires LeftAt(p, s, []) && pending == []
    ensures Recovers(Remains(p, lost), s)
  {
    hide Recovers;
    CutNothing(p.disk);
  }

  /** A crash between the records of a writing command, or after its sync. */
  lemma CutFrames(before: Point, steps: seq<Point>, v: Worlds, ops: seq<Op>, n: nat, at: nat, lost: nat)
    requires LeftAt(before, v.kept, v.pending) && Framed(steps, v, ops, n)
    ensures var written := v.pending + ops[..Min(at, n)];
      Recovers(Remains(CutAt(before, steps, at), lost),
        if ops != [] && n == |ops| && at > n then StateReplay(v.kept, written) else StateReplay(v.kept, written[..|written| - Min(lost, |written|)]))
  {
    hide LeftAt, StateReplay, Recovers, Remains;
    var p := CutAt(before, steps, at);
    if at == 0 || steps == [] {
      assert v.pending + ops[..0] == v.pending;
      LosesSome(p, v.kept, v.pending, lost);
    } else if ops != [] && n == |ops| && at > n {
      assert ops[..n] == ops;
      LosesNone(p, StateReplay(v.kept, v.pending + ops), [], lost);
    } else {
      LosesSome(p, v.kept, v.pending + ops[..Min(at, n)], lost);
    }
  }

  lemma CutMarked(before: Point, steps: seq<Point>, w: Mark, at: nat, lost: nat)
    requires PointMarked(before, w) && AllMarked(steps, w)
    ensures DiskMarked(Remains(CutAt(before, steps, at), lost), w)
  {
    hide DiskMarked;
    assert PointMarked(CutAt(before, steps, at), w);
  }

  /** An opening cut short leaves what it found. */
  lemma CutKeeps(d: Disk, steps: seq<Point>, s: State, w: Mark, at: nat)
    requires Recovers(d, s) && DiskMarked(d, w) && AllRecover(steps, AtRest(s), w) && w.care == Quiescent
    ensures var d' := CutAt(Point(d, 0), steps, at).disk; Recovers(d', s) && DiskMarked(d', w)
  {
    hide Recovers, DiskMarked;
    var p := CutAt(Point(d, 0), steps, at);
    if p != Point(d, 0) {
      assert PointOk(p, AtRest(s), w);
      LosesNone(p, s, [], 0);
      CutNothing(p.disk);
    }
  }

  /** Reopen after a crash; each opening but the last is itself cut short. */
  method Reopen(crashed: Disk, reopenings: seq<nat>, fits: Entry -> bool, ghost s: State) returns (store: Store)
    requires Recovers(crashed, s)
    ensures store.Valid() && fresh(store) && fresh(store.collections.Values) && store.Worlds() == AtRest(s) && store.fits == fits
    ensures store.memory.cols == Recover(crashed).cols && store.floor == Current(crashed).floor
  {
    hide AllRecover, CutAt, DiskOk, Durable, MarkedTo, Store.Valid, Meaning, Recover, Current;
    ghost var w := Mark(Recover(crashed).cols, Current(crashed).floor, Quiescent);
    MarkedSelf(crashed, w);
    var d := crashed;
    for i := 0 to |reopenings|
      invariant Recovers(d, s) && DiskMarked(d, w)
    {
      var cut := new Store(d, fits);
      SeenSelf(d, w);
      CutKeeps(d, cut.trace, s, w, reopenings[i]);
      d := CutAt(Point(d, 0), cut.trace, reopenings[i]).disk;
    }
    SeenSelf(d, w);
    store := new Store(d, fits);
  }

  lemma MarkedSelf(d: Disk, w: Mark)
    requires w == Mark(Recover(d).cols, Current(d).floor, Quiescent)
    ensures DiskMarked(d, w)
  {}

  lemma SeenSelf(d: Disk, w: Mark)
    requires DiskMarked(d, w) && w.care == Quiescent
    ensures Mark(Recover(d).cols, Current(d).floor, Quiescent) == w
  {}

  /** Only a checkpoint moves the floor, and not before its first step. A completed command has
      used up its own sequence numbers. */
  predicate Plausible(s: State, ev: Event, o: Outcome, next: nat, fits: Entry -> bool) {
    && (o.moved ==> ev.cmd.Checkpoint? && (ev.CrashesIn? ==> ev.steps > 0))
    && (ev.Completes? ==> next == o.lsn + Spent(s, ev.cmd, o.lsn, fits))
  }

  /** Each event of a run did what it may; the next one would start from `next`. */
  ghost predicate AllPlausible(script: seq<Event>, outs: seq<Outcome>, next: nat, fits: Entry -> bool)
    requires |outs| == |script|
  {
    var n := |script| - 1;
    script == [] || (
      && Plausible(ExpectedAfter(script[..n], outs[..n], fits).now, script[n], outs[n], next, fits)
      && AllPlausible(script[..n], outs[..n], outs[n].lsn, fits))
  }

  lemma NextPlausible(script: seq<Event>, outs: seq<Outcome>, fits: Entry -> bool, o: Outcome, next: nat)
    requires |outs| < |script| && AllPlausible(script[..|outs|], outs, o.lsn, fits)
    requires Plausible(ExpectedAfter(script[..|outs|], outs, fits).now, script[|outs|], o, next, fits)
    ensures AllPlausible(script[..|outs| + 1], outs + [o], next, fits)
  {
    hide Plausible, ExpectedAfter;
    var i := |outs|;
    assert script[..i + 1][..i] == script[..i] && (outs + [o])[..i] == outs;
  }

  /** Writes and compactions keep the floor. */
  lemma OnlyCheckpointsMove(cols: map<nat, Coll>, floor: nat, w: Mark, cmd: Command)
    requires MarkedTo(cols, floor, w) && w.care == CareOf(cmd) && floor != w.floor
    ensures cmd.Checkpoint?
  {}

  method Step(store: Store, ev: Event) returns (next: Store, o: Outcome)
    requires store.Valid()
    modifies store, store.collections.Values
    ensures next.Valid() && next.fits == store.fits && next.Worlds() == Expected(old(store.Worlds()), ev, o, store.fits)
    ensures o == Outcome(old(store.nextLsn), next.floor != old(store.floor))
    ensures Plausible(old(store.Acknowledged()), ev, o, next.nextLsn, store.fits)
    ensures fresh({next} - {store}) && fresh(next.collections.Values - old(store.collections.Values))
    ensures MarkedTo(next.memory.cols, next.floor, Mark(old(store.memory).cols, old(store.floor), CareOf(ev.cmd)))
  {
    hide Performed, Recovers, Remains, LeftAt, CutAt, Marked, MarkedTo, PointMarked, AllMarked, Completed, Crashed, Store.Valid, Current,
      Appends, Logged, Spent, Meaning, Recover;
    ghost var v := store.Worlds();
    ghost var w := Mark(store.memory.cols, store.floor, CareOf(ev.cmd));
    var before, n, lsn, floor := Point(store.disk, |store.pending|), |store.trace|, store.nextLsn, store.floor;
    Before(store, w);
    Execute(store, ev.cmd);
    match ev {
      case Completes(_) =>
        MarkedWeaker(store.memory.cols, store.floor, w);
        next, o := store, Outcome(lsn, store.floor != floor);
      case CrashesIn(cmd, at, lost, reopenings) =>
        var p := CutAt(before, store.trace[n..], at);
        o := Outcome(lsn, Current(p.disk).floor != floor);
        CutRecovers(before, store.trace[n..], v, cmd, floor, at, lost, o, store.fits);
        CutMarked(before, store.trace[n..], w, at, lost);
        RemainsCurrent(p, lost, w);
        next := Reopen(Remains(p, lost), reopenings, store.fits, Crashed(v, cmd, at, lost, o, store.fits));
        if at == 0 { CutAtOnce(before, store.trace[n..]); }
    }
    if o.moved { OnlyCheckpointsMove(next.memory.cols, next.floor, w, ev.cmd); }
  }

  lemma CutAtOnce(before: Point, steps: seq<Point>)
    ensures CutAt(before, steps, 0) == before
  {}

  lemma RemainsCurrent(p: Point, lost: nat, w: Mark)
    requires DiskMarked(Remains(p, lost), w)
    ensures Current(Remains(p, lost)) == Current(p.disk) && MarkedTo(Recover(Remains(p, lost)).cols, Current(p.disk).floor, w)
  {
    hide MarkedTo, Recover;
    CutCurrent(p.disk, Min(lost, p.loose));
  }

  /** What a crash before the first step finds. */
  lemma Before(store: Store, w: Mark)
    requires store.Valid() && w == Mark(store.memory.cols, store.floor, w.care) && w.care != Quiescent
    ensures var p := Point(store.disk, |store.pending|);
      LeftAt(p, store.kept, store.pending) && PointMarked(p, w) && Current(store.disk).floor == store.floor
  {
    hide Store.Linked, CatalogOk, Leaves, Store.Exact, Follows, Marked, DiskMarked, Recover, Current;
    var k, d, n := store.memory, store.disk, store.Counts();
    MarkedAtOnce(w);
    TracksFull(k, d, |store.pending|, n);
    FollowsOk(k, d, n);
    forall j: nat | j <= |store.pending| ensures DiskMarked(Cut(d, j), w) {
      assert Follows(k, Cut(d, j), n);
      FollowsMarked(k, Cut(d, j), n, w);
    }
  }

  lemma NothingExpected(fits: Entry -> bool)
    ensures ExpectedAfter([], [], fits) == AtRest(State(Ledger(map[], map[]), 0))
  {}

  lemma NextExpected(script: seq<Event>, outs: seq<Outcome>, fits: Entry -> bool, o: Outcome)
    requires |outs| < |script|
    ensures var i := |outs|;
      ExpectedAfter(script[..i + 1], outs + [o], fits) == Expected(ExpectedAfter(script[..i], outs, fits), script[i], o, fits)
  {
    var i := |outs|;
    assert script[..i + 1][..i] == script[..i] && (outs + [o])[..i] == outs;
  }

  /** After any script, the store holds exactly what the script promises, given the sequence
      number each event started from and whether it moved the replay floor. */
  method Run(script: seq<Event>, fits: Entry -> bool) returns (store: Store, outs: seq<Outcome>)
    ensures |outs| == |script| && store.Valid() && store.fits == fits && store.Worlds() == ExpectedAfter(script, outs, fits)
    ensures AllPlausible(script, outs, store.nextLsn, fits)
    ensures fresh(store) && fresh(store.collections.Values)
  {
    hide Expected, ExpectedAfter, Plausible, DiskOk, Durable, AllRecover, Store.Valid, MarkedTo, Meaning;
    EmptyDiskOk();
    NothingExpected(fits);
    store := new Store(EMPTY_DISK, fits);
    outs := [];
    assert script[..0] == [];
    for i := 0 to |script|
      invariant fresh(store) && fresh(store.collections.Values) && store.Valid() && store.fits == fits
      invariant |outs| == i && store.Worlds() == ExpectedAfter(script[..i], outs, fits) && AllPlausible(script[..i], outs, store.nextLsn, fits)
    {
      var o;
      store, o := Step(store, script[i]);
      NextExpected(script, outs, fits, o);
      NextPlausible(script, outs, fits, o, store.nextLsn);
      outs := outs + [o];
    }
    assert script[..|script|] == script;
  }

  /** What a reader sees after any script of commands and crashes. */
  method RunAndGet(script: seq<Event>, fits: Entry -> bool, cid: nat, id: Id) returns (r: Result<Option<Row>, Error>, outs: seq<Outcome>, ghost next: nat)
    ensures |outs| == |script| && AllPlausible(script, outs, next, fits)
    ensures var tables := ExpectedAfter(script, outs, fits).now.ledger.tables;
      r == if cid !in tables then Err(NotFound)
           else if id in tables[cid].rows then Ok(Some(tables[cid].rows[id]))
           else Ok(None)
  {
    hide ExpectedAfter, AllPlausible, Store.Valid, Meaning;
    var store;
    store, outs := Run(script, fits);
    next := store.nextLsn;
    r := store.Get(cid, id);
  }
}
