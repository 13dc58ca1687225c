/** The storage engine (crates/quiver-core/src/store.rs, `Store`). Every durable step
    is recorded in a trace; every method promises what each step would recover
    to if the process died right after it, whichever records past the last sync are lost. */
module Stores {
  import opened ByteStrings
  import opened KeyOrder
  import opened SecondaryIndex
  import opened Segments
  import opened Descriptors
  import opened Collections
  import opened CollectionLayout
  import opened Replay
  import opened WindowReplay
  import opened Disks
  import opened DiskSteps
  import opened Publishing
  import opened CollectionStates
  import opened Commands
  import opened Marks
  import opened Shadows
  import opened Cuts
  import opened Survivors
  import opened Points
  import opened Checkpoints
  import opened Housekeeping
  import opened Compactions
  import opened Opening
  import Reads
  import Filters
  import opened Streams
  import opened Effects
  import Sorting

  predicate AllFit(fits: Entry -> bool, es: seq<Entry>) { forall i :: 0 <= i < |es| ==> fits(es[i]) }

  class Store {
    const fits: Entry -> bool // the records the log is not too small for
    var disk: Disk
    var trace: seq<Point>     // every durable step so far
    var published: seq<Op>    // what the commit observer has been handed
    var pending: seq<Op>      // the operations logged since the last sync, all of refused batches
    ghost var kept: State     // what the records up to the last sync replay to
    ghost var memory: Catalog // the catalog the objects below represent
    var collections: map<nat, CollectionState>
    var nameIndex: map<Bytes, nat>
    var nextLsn: nat
    var nextCid: nat
    var nextSeg: nat
    var version: nat
    var floor: nat

    ghost function Counts(): Counters
      reads this`nextLsn, this`nextCid, this`nextSeg, this`version, this`floor
    {
      Counters(nextLsn, nextCid, nextSeg, version, floor)
    }

    /** The objects represent `memory`, each collection with its own object. */
    ghost predicate Linked()
      reads this`collections, this`nameIndex, this`memory, collections.Values
    {
      && collections.Keys == memory.cols.Keys
      && nameIndex == memory.names
      && (forall cid :: cid in collections ==> collections[cid].cid == cid && collections[cid].View() == memory.cols[cid])
    }

    /** Every disk a crash may leave replays to `kept` and a part of `pending`, and memory trails
        it. Once the floor covers the log, memory is exactly what recovery would rebuild. */
    ghost predicate Valid()
      reads this, collections.Values
    {
      Steady() && disk.wal != [] && AllFit(fits, NewestLog(disk)) && (nextLsn == floor + 1 ==> Exact())
    }

    /** As `Valid`, but the log may not have been started yet. */
    ghost predicate Steady()
      reads this, collections.Values
    {
      Linked() && CatalogOk(memory) && Tracks(memory, disk, |pending|, Counts()) && Leaves(disk, kept, pending)
    }

    /** Memory is exactly what recovery from the disk would rebuild, and all of it is synced. */
    ghost predicate Exact()
      reads this
    {
      InStep(memory, disk, Counts()) && pending == [] && kept == Acknowledged()
    }

    /** The acknowledged state. */
    ghost function Acknowledged(): State
      reads this`memory, this`nextCid
    {
      State(Meaning(memory), nextCid)
    }

    /** It, and what a crash may leave. */
    ghost function Worlds(): Worlds
      reads this`memory, this`nextCid, this`kept, this`pending
    {
      Commands.Worlds(Acknowledged(), kept, pending)
    }

    /** `d` may be the next disk of maintenance that began at `v` and mark `w`. */
    ghost predicate Sound(d: Disk, v: Worlds, w: Mark)
      reads this, collections.Values
    {
      Linked() && Standing(memory, d, Counts(), kept, pending, v, w)
    }

    /** Every step since `t` is one of such maintenance. */
    ghost predicate Traced(t: seq<Point>, v: Worlds, w: Mark)
      reads this`trace
    {
      t <= trace && AllRecover(trace[|t|..], v, w)
    }

    lemma TracedStart(v: Worlds, w: Mark)
      ensures Traced(trace, v, w)
    {
      assert trace[|trace|..] == [];
      NoneRecover(v, w);
    }

    lemma SoundFacts(v: Worlds, w: Mark)
      requires Sound(disk, v, w)
      ensures Steady()
    {}

    /** Maintenance may begin. */
    lemma ValidIsSound(w: Mark)
      requires Valid() && Marked(memory.cols, floor, w) && floor == w.floor && w.care != Quiescent
      ensures Sound(disk, Worlds(), w) && disk.wal != [] && AllFit(fits, NewestLog(disk)) && floor < nextLsn
      ensures nextLsn == floor + 1 ==> pending == [] && memory == Recover(disk) && kept == Acknowledged()
    {
      hide Linked, CatalogOk, InStep, Tracks, Leaves, Marked, Recover, Meaning;
      TrackedFloor(memory, disk, |pending|, Counts());
      if nextLsn == floor + 1 { MemoryIs(memory, disk, Counts()); }
    }

    /** Maintenance that leaves the store as fit as it was may end. */
    lemma SoundIsValid(v: Worlds, w: Mark)
      requires Sound(disk, v, w) && disk.wal != [] && AllFit(fits, NewestLog(disk))
      requires nextLsn == floor + 1 ==> floor != w.floor || w.care == Quiescent || (v.pending == [] && memory == Recover(disk))
      ensures Valid() && Marked(memory.cols, floor, w) && Worlds() == if floor == w.floor then v else AtRest(v.now)
    {
      hide Linked, CatalogOk, InStep, Tracks, Leaves, Marked, Recover, Meaning;
      if nextLsn == floor + 1 { StandingIsExact(memory, disk, Counts(), kept, pending, v, w); }
    }

    // ---- opening -----------------------------------------------------------

    /** Open a store on any disk a crash may have left. */
    constructor (d: Disk, fits: Entry -> bool)
      requires DiskOk(d)
      ensures Valid() && fresh(collections.Values) && this.fits == fits
      ensures Worlds() == AtRest(Durable(d))
      ensures memory == Recover(d) && floor == Current(d).floor
      ensures trace != [] && AllRecover(trace, AtRest(Durable(d)), Mark(Recover(d).cols, Current(d).floor, Quiescent))
      ensures Orphans(disk) == {} && published == []
      ensures disk.wal == LiveLogs(d.wal, floor) + [[]] && Load(disk) == Load(d) && Current(disk) == Current(d)
    {
      hide DiskOk, Durable, InStep, AllRecover, CatalogOk, Linked, Current, Meaning, Orphans, Recover, Valid, NoneLive;
      var m := Current(d);
      this.fits := fits;
      disk, trace, published, pending, memory := d, [], [], [], Catalog(map[], map[]);
      kept := State(Ledger(map[], map[]), 0);
      collections, nameIndex := map[], map[];
      nextLsn, nextCid, nextSeg, version, floor := 0, 0, m.nextSeg, m.version, m.floor;
      new;
      LoadSegments();
      var live := ReplayLog();
      InStepIs(memory, d, Counts());
      MemoryIs(memory, d, Counts());
      Start(live);
    }

    /** Everything replayed counts as synced. */
    method Start(live: seq<bool>)
      requires Linked() && CatalogOk(memory) && InStep(memory, disk, Counts()) && trace == [] && pending == []
      requires |live| == |disk.wal| && forall f :: 0 <= f < |live| ==> (live[f] <==> !NoneLive(disk.wal[f], floor))
      modifies this`disk, this`trace, this`kept
      ensures Valid() && Orphans(disk) == {} && kept == Acknowledged()
      ensures disk.wal == LiveLogs(old(disk).wal, floor) + [[]] && Load(disk) == Load(old(disk)) && Current(disk) == Current(old(disk))
      ensures trace != [] && AllRecover(trace, AtRest(Acknowledged()), Mark(memory.cols, floor, Quiescent))
    {
      hide Valid, Standing, Linked, CatalogOk, InStep, AllRecover, Marked, Meaning, Orphans, NoneLive;
      kept := Acknowledged();
      ghost var w := Mark(memory.cols, floor, Quiescent);
      MarkedAtOnce(w);
      StandingExactly(memory, disk, Counts(), Worlds(), w);
      TracedStart(Worlds(), w);
      CleanUp(live, Worlds(), w);
      assert trace[0..] == trace;
    }

    /** Delete what the manifest does not reference, start a log file, and delete the earlier ones
        that held no live record. */
    method CleanUp(live: seq<bool>, ghost v: Worlds, ghost w: Mark)
      requires Sound(disk, v, w) && w.care == Quiescent && Traced([], v, w)
      requires |live| == |disk.wal| && forall f :: 0 <= f < |live| ==> (live[f] <==> !NoneLive(disk.wal[f], floor))
      modifies this`disk, this`trace
      ensures Valid() && Orphans(disk) == {}
      ensures disk.wal == LiveLogs(old(disk).wal, floor) + [[]] && Load(disk) == Load(old(disk)) && Current(disk) == Current(old(disk))
      ensures trace != [] && Traced([], v, w)
    {
      hide Valid, Standing, Linked, Traced, Orphans, NoneLive, Recover;
      var wal := disk.wal;
      CollectGarbage(v, [], w);
      StandingLogStarted(memory, disk, Counts(), kept, pending, v, w);
      LogsKeepLoad(disk, 0);
      CommitSound(StartLog(disk), v, [], w);
      RemoveDeadLogs(wal, live, v, [], w);
    }

    /** Open the segments the manifest references. */
    method LoadSegments()
      requires DiskOk(disk) && memory == Catalog(map[], map[]) && collections == map[] && nameIndex == map[]
      modifies this`memory, this`collections, this`nameIndex
      ensures Linked() && memory == Load(disk) && fresh(collections.Values)
    {
      hide DiskOk, LoadColl;
      var entries := Current(disk).collections;
      assert entries[..0] == [];
      for i := 0 to |entries|
        invariant Linked() && memory == LoadAll(disk, entries[..i]) && fresh(collections.Values)
      {
        LoadStep(disk, entries, i);
        var state := LoadState(entries[i]);
        AddLoaded(state, entries[i]);
      }
      assert entries[..|entries|] == entries;
    }

    method LoadState(e: CollEntry) returns (state: CollectionState)
      ensures fresh(state) && state.cid == e.cid && state.View() == LoadColl(disk, e)
    {
      state := new CollectionState(e.cid, e.name, e.desc);
      var all := OpenSegments(disk, e.cid, e.segments);
      for s := 0 to |e.segments|
        invariant state.cid == e.cid && state.View() == NewColl(e.name, e.desc).(sealed := all[..s])
      {
        state.Attach(OpenSegment(disk, e.cid, e.segments[s]));
      }
      assert all[..|all|] == all;
    }

    method AddLoaded(state: CollectionState, e: CollEntry)
      requires Linked() && state !in collections.Values && state.cid == e.cid && state.View() == LoadColl(disk, e)
      modifies this`memory, this`collections, this`nameIndex
      ensures Linked()
      ensures memory == Catalog(old(memory).cols[e.cid := LoadColl(disk, e)], old(memory).names[e.name := e.cid])
      ensures collections.Values <= old(collections.Values) + {state}
    {
      hide LoadColl;
      nameIndex := nameIndex[e.name := e.cid];
      collections := collections[e.cid := state];
      memory := Catalog(memory.cols[e.cid := LoadColl(disk, e)], memory.names[e.name := e.cid]);
    }

    /** Replay every record past the floor, and note which files hold one. */
    method ReplayLog() returns (live: seq<bool>)
      requires DiskOk(disk) && Linked() && memory == Load(disk)
      requires nextSeg == Current(disk).nextSeg && version == Current(disk).version && floor == Current(disk).floor
      modifies this`memory, this`collections, this`nameIndex, this`nextLsn, this`nextCid, collections.Values
      ensures Linked() && CatalogOk(memory) && InStep(memory, disk, Counts()) && fresh(collections.Values - old(collections.Values))
      ensures |live| == |disk.wal| && forall f :: 0 <= f < |live| ==> (live[f] <==> !NoneLive(disk.wal[f], floor))
    {
      hide DiskOk, Linked, CatalogOk, Replayed, Load, Current, Flatten, NoneLive;
      LoadOk(disk);
      ReplayedStart(disk);
      var maxLsn, createdBelow: nat := floor, 0;
      live := [];
      assert disk.wal[..0] == [];
      FlattenNothing();
      for f := 0 to |disk.wal|
        invariant Linked() && CatalogOk(memory) && fresh(collections.Values - old(collections.Values))
        invariant Replayed(disk, Flatten(disk.wal[..f]), memory, maxLsn, createdBelow)
        invariant |live| == f && forall g :: 0 <= g < f ==> (live[g] <==> !NoneLive(disk.wal[g], floor))
      {
        LogBeforeFile(disk.wal, f);
        var hadLive;
        maxLsn, createdBelow, hadLive := ReplayFile(f, maxLsn, createdBelow);
        live := live + [hadLive];
      }
      assert disk.wal[..|disk.wal|] == disk.wal;
      OpenedInStep(disk, memory, maxLsn, createdBelow);
      nextLsn := maxLsn + 1;
      nextCid := Max(Current(disk).nextCid, createdBelow);
    }

    method ReplayFile(f: nat, maxLsn0: nat, createdBelow0: nat) returns (maxLsn: nat, createdBelow: nat, hadLive: bool)
      requires f < |disk.wal| && Linked() && CatalogOk(memory) && floor == Current(disk).floor
      requires Replayed(disk, LogBefore(disk.wal, f, 0), memory, maxLsn0, createdBelow0)
      modifies this`memory, this`collections, this`nameIndex, collections.Values
      ensures Linked() && CatalogOk(memory) && fresh(collections.Values - old(collections.Values))
      ensures Replayed(disk, LogBefore(disk.wal, f, |disk.wal[f]|), memory, maxLsn, createdBelow)
      ensures hadLive <==> !NoneLive(disk.wal[f], floor)
    {
      hide Linked, CatalogOk, Replayed, Current, LogBefore, Apply;
      maxLsn, createdBelow, hadLive := maxLsn0, createdBelow0, false;
      for i := 0 to |disk.wal[f]|
        invariant Linked() && CatalogOk(memory) && fresh(collections.Values - old(collections.Values))
        invariant Replayed(disk, LogBefore(disk.wal, f, i), memory, maxLsn, createdBelow)
        invariant hadLive <==> !forall j :: 0 <= j < i ==> disk.wal[f][j].lsn <= floor
      {
        var e := disk.wal[f][i];
        LogBeforeStep(disk.wal, f, i);
        ReplayedRecord(disk, LogBefore(disk.wal, f, i), e, memory, maxLsn, createdBelow);
        if e.lsn > floor {
          hadLive := true;
          if e.lsn > maxLsn { maxLsn := e.lsn; }
          if e.op.Create? { createdBelow := Max(createdBelow, e.op.cid + 1); }
          ApplyEntry(e.op);
        }
      }
    }

    /** Delete the earlier log files that held no live record. */
    method RemoveDeadLogs(wal: seq<seq<Entry>>, live: seq<bool>, ghost v: Worlds, ghost t: seq<Point>, ghost w: Mark)
      requires Sound(disk, v, w) && w.care == Quiescent && disk.wal == wal + [[]] && Traced(t, v, w)
      requires |live| == |wal| && forall f :: 0 <= f < |live| ==> (live[f] <==> !NoneLive(wal[f], floor))
      modifies this`disk, this`trace
      ensures Valid() && Orphans(disk) == old(Orphans(disk))
      ensures disk.wal == LiveLogs(wal, floor) + [[]] && Load(disk) == Load(old(disk)) && Current(disk) == Current(old(disk))
      ensures |trace| >= |old(trace)| && Traced(t, v, w)
    {
      hide Valid, Standing, Linked, Traced, NoneLive, Orphans, Recover, Load, Current, LiveLogs, RemoveLog;
      var kept := 0;
      PartlyStart(wal, floor);
      for f := 0 to |wal|
        invariant Sound(disk, v, w) && Partly(disk.wal, kept, wal, f, floor)
        invariant Load(disk) == Load(old(disk)) && Current(disk) == Current(old(disk)) && Orphans(disk) == old(Orphans(disk))
        invariant |trace| >= |old(trace)| && Traced(t, v, w)
      {
        PartlyNext(disk, kept, wal, f, floor);
        if live[f] {
          kept := kept + 1;
        } else {
          StandingLogRemoved(memory, disk, Counts(), kept, this.kept, pending, v, w);
          LogsKeepLoad(disk, kept);
          CommitSound(RemoveLog(disk, kept), v, t, w);
        }
      }
      PartlyDone(disk.wal, kept, wal, floor);
      SoundIsValid(v, w);
    }

    // ---- durable steps -----------------------------------------------------

    /** Make one durable step. */
    method Commit(d: Disk)
      modifies this`disk, this`trace
      ensures disk == d && trace == old(trace) + [Point(d, |pending|)]
    {
      disk := d;
      trace := trace + [Point(d, |pending|)];
    }

    /** Sync the log: every record in it is durable. */
    method Sync()
      requires Leaves(disk, kept, pending)
      modifies this`trace, this`pending, this`kept
      ensures kept == StateReplay(old(kept), old(pending)) && pending == [] && Leaves(disk, kept, pending)
      ensures trace == old(trace) + [Point(disk, 0)]
    {
      hide Leaves, StateReplay;
      LeavesSynced(disk, kept, pending);
      kept := StateReplay(kept, pending);
      pending := [];
      trace := trace + [Point(disk, 0)];
    }

    /** Commit a step of maintenance. */
    method CommitSound(d: Disk, ghost v: Worlds, ghost t: seq<Point>, ghost w: Mark)
      requires Sound(d, v, w) && Traced(t, v, w)
      modifies this`disk, this`trace
      ensures disk == d && Sound(disk, v, w) && Traced(t, v, w) && |trace| == |old(trace)| + 1 && PointOk(Point(disk, |pending|), v, w)
    {
      hide Linked, Standing, AllRecover, PointOk;
      StandingPoint(memory, d, Counts(), kept, pending, v, w);
      ghost var before := trace[|t|..];
      Commit(d);
      AllRecoverExtend(before, Point(d, |pending|), v, w);
      assert trace[|t|..] == before + [Point(d, |pending|)];
    }

    // ---- memory ------------------------------------------------------------

    method AddCollection(cid: nat, name: Bytes, desc: Descriptor)
      requires Linked()
      modifies this`collections, this`nameIndex, this`memory
      ensures Linked() && memory == Apply(old(memory), Create(cid, name, desc))
      ensures fresh(collections.Values - old(collections.Values))
    {
      var state := new CollectionState(cid, name, desc);
      nameIndex := nameIndex[name := cid];
      collections := collections[cid := state];
      memory := Apply(memory, Create(cid, name, desc));
    }

    method RemoveCollection(cid: nat)
      requires Linked()
      modifies this`collections, this`nameIndex, this`memory
      ensures Linked() && memory == Apply(old(memory), Drop(cid))
      ensures collections.Values <= old(collections.Values)
    {
      memory := Apply(memory, Drop(cid));
      if cid in collections {
        nameIndex := nameIndex - {collections[cid].name};
        collections := collections - {cid};
      }
    }

    /** After one collection's object changed, the ghost memory follows. */
    ghost method Relink(cid: nat, c: Coll)
      requires collections.Keys == memory.cols.Keys && nameIndex == memory.names
      requires forall x :: x in collections ==> collections[x].cid == x
      requires forall x :: x in collections && x != cid ==> collections[x].View() == memory.cols[x]
      requires cid in collections && collections[cid].View() == c
      modifies this`memory
      ensures Linked() && memory == old(memory).(cols := old(memory).cols[cid := c])
    {
      memory := memory.(cols := memory.cols[cid := c]);
    }

    twostate lemma OthersUntouched(cid: nat)
      requires old(Linked()) && old(cid in collections)
      requires unchanged(this) && forall o: object :: o in old(collections.Values) && o != old(collections[cid]) ==> unchanged(o)
      ensures forall x :: x in collections ==> collections[x].cid == x
      ensures forall x :: x in collections && x != cid ==> collections[x].View() == memory.cols[x]
    {
      forall x | x in collections && x != cid ensures collections[x].View() == memory.cols[x] {
        assert collections[x] != collections[cid];
        assert collections[x] in old(collections.Values);
      }
    }

    method UpsertInto(cid: nat, id: Id, row: Row)
      requires Linked() && cid in collections && CollOk(memory.cols[cid])
      modifies this`memory, collections[cid]
      ensures Linked() && memory == Apply(old(memory), Upsert(cid, id, row))
    {
      hide CollOk, Upserted, Contents;
      ghost var c := memory.cols[cid];
      collections[cid].ApplyUpsert(id, row);
      OthersUntouched(cid);
      Relink(cid, Upserted(c, id, row));
    }

    method DeleteFrom(cid: nat, id: Id)
      requires Linked() && cid in collections && CollOk(memory.cols[cid])
      modifies this`memory, collections[cid]
      ensures Linked() && memory == Apply(old(memory), Delete(cid, id))
    {
      hide CollOk, Deleted, Contents;
      ghost var c := memory.cols[cid];
      var _ := collections[cid].ApplyDelete(id);
      OthersUntouched(cid);
      Relink(cid, Deleted(c, id));
    }

    /** Apply one logged operation to memory; shared by the write path and by replay. */
    method ApplyEntry(op: Op)
      requires Linked() && CatalogOk(memory)
      modifies this`collections, this`nameIndex, this`memory, collections.Values
      ensures Linked() && CatalogOk(memory)
      ensures memory == Apply(old(memory), op)
      ensures fresh(collections.Values - old(collections.Values))
    {
      hide CatalogOk, CollOk;
      ApplyRefines(memory, op);
      match op {
        case Create(cid, name, desc) => AddCollection(cid, name, desc);
        case Drop(cid) => RemoveCollection(cid);
        case Upsert(cid, id, row) =>
          if cid in collections {
            CatalogHas(memory, cid);
            UpsertInto(cid, id, row);
          }
        case Delete(cid, id) =>
          if cid in collections {
            CatalogHas(memory, cid);
            DeleteFrom(cid, id);
          }
        case CheckpointMark =>
      }
    }

    /** Append one record and sync, with every record before it. */
    method AppendSync(op: Op)
      requires Valid() && Appendable(DirectoryOf(memory), Tail(disk), op) && fits(Entry(nextLsn, op))
      modifies this`disk, this`trace, this`pending, this`kept
      ensures disk == Append(old(disk), Entry(nextLsn, op)) && Tail(disk) == old(Tail(disk)) + [Entry(nextLsn, op)]
      ensures disk.wal != [] && AllFit(fits, NewestLog(disk)) && floor < nextLsn
      ensures Tracks(Apply(memory, op), disk, 0, Advance(Counts(), op)) && Leaves(disk, kept, []) && Leaves(disk, old(kept), old(pending) + [op])
      ensures pending == [] && kept == StateReplay(old(kept), old(pending) + [op])
      ensures trace == old(trace) + [Point(disk, |old(pending)| + 1), Point(disk, 0)]
      ensures var w := Mark(memory.cols, floor, Writing);
        Marked(Apply(memory, op).cols, floor, w) && PointMarked(Point(disk, |old(pending)| + 1), w) && PointMarked(Point(disk, 0), w)
    {
      hide Exact, Linked, Apply, CatalogOk, Appendable, DirectoryOf, Tail, Marked, PointMarked, Tracks, Leaves, StateReplay, Append, AllFit;
      StepAccepted(memory, disk, Counts(), op, kept, pending);
      AppendFits(fits, disk, Entry(nextLsn, op));
      TrackedFloor(memory, disk, |pending|, Counts());
      pending := pending + [op];
      Commit(Append(disk, Entry(nextLsn, op)));
      Sync();
    }

    /** Append one record durably, then apply it. A record too large for the log is refused and
        changes nothing. */
    method LogAndApply(op: Op) returns (ok: bool)
      requires Valid() && Appendable(DirectoryOf(memory), Tail(disk), op)
      modifies this`disk, this`trace, this`published, this`pending, this`kept, this`nextLsn, this`nextCid, this`collections, this`nameIndex, this`memory, collections.Values
      ensures Valid() && fresh(collections.Values - old(collections.Values))
      ensures ok <==> fits(Entry(old(nextLsn), op))
      ensures !ok ==> Worlds() == old(Worlds()) && memory == old(memory) && disk == old(disk) && trace == old(trace) && published == old(published)
      ensures nextLsn == old(nextLsn) + if ok then 1 else 0
      ensures ok ==>
        && Worlds() == Commands.Worlds(StateApply(old(Acknowledged()), op), StateReplay(old(kept), old(pending) + [op]), [])
        && disk == Append(old(disk), Entry(old(nextLsn), op)) && Tail(disk) == old(Tail(disk)) + [Entry(old(nextLsn), op)]
        && trace == old(trace) + [Point(disk, |old(pending)| + 1), Point(disk, 0)]
        && Leaves(disk, old(kept), old(pending) + [op]) && Leaves(disk, kept, []) && published == old(published) + [op]
      ensures var w := Mark(old(memory).cols, floor, Writing);
        Marked(memory.cols, floor, w) && (ok ==> PointMarked(Point(disk, |old(pending)| + 1), w) && PointMarked(Point(disk, 0), w))
    {
      hide Valid, Linked, Apply, Meaning, CatalogOk, Appendable, DirectoryOf, LedgerApply, Tail, Marked, PointMarked, Tracks, Leaves,
        StateReplay, Append, AllFit;
      ghost var k := memory;
      StartsLogging();
      MarkedAtOnce(Mark(memory.cols, floor, Writing));
      if !fits(Entry(nextLsn, op)) { return false; }
      AppendSync(op);
      ApplyRefines(k, op);
      nextLsn := nextLsn + 1;
      nextCid := NextCidAfter(nextCid, op);
      ApplyEntry(op);
      published := published + [op];
      EndsLogging();
      return true;
    }

    // ---- commands ----------------------------------------------------------

    lemma LinkedHas(cid: nat)
      requires Linked()
      ensures cid in collections <==> cid in memory.cols
      ensures cid in collections <==> cid in Meaning(memory).tables
      ensures cid in collections ==>
        && collections[cid].View() == memory.cols[cid]
        && Meaning(memory).tables[cid] == TableOf(memory.cols[cid])
    {}

    lemma LinkedKeys()
      requires Linked()
      ensures forall cid :: cid in collections <==> cid in memory.cols
    {}

    lemma NamesAreMeant()
      requires Linked()
      ensures nameIndex == Meaning(memory).names == DirectoryOf(memory).names
      ensures forall cid :: cid in memory.cols <==> cid in DirectoryOf(memory).dir
    {}

    lemma ValidFacts()
      requires Valid()
      ensures Linked() && CatalogOk(memory) && Steady() && disk.wal != []
    {}

    lemma NextIsFree()
      requires Steady()
      ensures nextCid !in DirectoryOf(memory).dir && Unmentioned(Tail(disk), nextCid)
    {
      hide Linked, CatalogOk, Leaves, Follows, Recover, DirectoryOf, Unmentioned, WellNamed;
      TracksFull(memory, disk, |pending|, Counts());
      FollowsNamed(memory, disk, Counts());
    }

    lemma WellNamedMemory()
      requires Steady()
      ensures WellNamed(DirectoryOf(memory))
      ensures forall cid :: cid in memory.cols ==> cid < nextCid
    {
      hide Linked, CatalogOk, Leaves, Follows, Recover, DirectoryOf, Unmentioned, WellNamed;
      TracksFull(memory, disk, |pending|, Counts());
      FollowsNamed(memory, disk, Counts());
    }

    /** Create a collection under a free, well-formed name. */
    method CreateCollection(name: Bytes, desc: Descriptor) returns (r: Result<nat, Error>)
      requires Valid()
      modifies this, collections.Values
      ensures Valid() && fresh(collections.Values - old(collections.Values))
      ensures old(trace) <= trace && Wrote(old(Worlds()), Worlds(), Commands.CreateCollection(name, desc), old(nextLsn), fits, trace[|old(trace)|..])
      ensures published == old(published) + Logged(old(Acknowledged()), Commands.CreateCollection(name, desc), old(nextLsn), fits)
      ensures nextLsn == old(nextLsn) + Spent(old(Acknowledged()), Commands.CreateCollection(name, desc), old(nextLsn), fits)
      ensures var w := Mark(old(memory).cols, old(floor), Writing); Marked(memory.cols, floor, w) && AllMarked(trace[|old(trace)|..], w)
      ensures Appends(old(disk), trace[|old(trace)|..], disk, old(nextLsn), Recorded(old(Acknowledged()), Commands.CreateCollection(name, desc), old(nextLsn), fits))
      ensures r == if !ValidName(name) then Err(InvalidArgument)
                   else if name in old(Acknowledged()).ledger.names then Err(AlreadyExists)
                   else if desc.dim == 0 then Err(InvalidArgument)
                   else if !fits(Entry(old(nextLsn), Create(old(nextCid), name, desc))) then Err(TooLarge)
                   else Ok(old(nextCid))
      ensures r.Ok? ==> pending == [] && TableAdded(old(Acknowledged()), Acknowledged(), name, desc)
      ensures r.Err? ==> Worlds() == old(Worlds())
    {
      hide Valid, Steady, Linked, CatalogOk, Meaning, DirectoryOf, StateApply, StateReplay, Marked, PointMarked, AllMarked, Leaves, Append,
        Appends, Wrote, Logged, Spent, Recorded, RowsBecome, TableAdded, TableRemoved, BatchWritten;
      ghost var v, w, t, d := Worlds(), Mark(memory.cols, floor, Writing), trace, disk;
      var lsn := nextLsn;
      ValidFacts();
      MarkedAtOnce(w);
      NoneMarked(w);
      AppendsNothing(disk, lsn);
      assert trace[|trace|..] == [];
      NamesAreMeant();
      if !ValidName(name) || name in nameIndex || desc.dim == 0 { WroteNothing(v, Commands.CreateCollection(name, desc), lsn, fits); }
      if !ValidName(name) { return Err(InvalidArgument); }
      if name in nameIndex { return Err(AlreadyExists); }
      if desc.dim == 0 { return Err(InvalidArgument); }
      NextIsFree();
      var cid := nextCid;
      var ok := LogAndApply(Create(cid, name, desc));
      if !ok {
        WroteNothing(v, Commands.CreateCollection(name, desc), lsn, fits);
        return Err(TooLarge);
      }
      WroteOne(v, Commands.CreateCollection(name, desc), Create(cid, name, desc), lsn, fits, Point(disk, |v.pending| + 1), Point(disk, 0));
      TwoSteps(t, trace, Point(disk, |v.pending| + 1), Point(disk, 0), w);
      AppendsOne(d, lsn, Create(cid, name, desc), |v.pending| + 1);
      CreateEffect(v.now, name, desc);
      return Ok(cid);
    }

    /** Drop a collection by name. */
    method DropCollection(name: Bytes) returns (r: Result<bool, Error>)
      requires Valid()
      modifies this, collections.Values
      ensures Valid() && fresh(collections.Values - old(collections.Values))
      ensures old(trace) <= trace && Wrote(old(Worlds()), Worlds(), Commands.DropCollection(name), old(nextLsn), fits, trace[|old(trace)|..])
      ensures published == old(published) + Logged(old(Acknowledged()), Commands.DropCollection(name), old(nextLsn), fits)
      ensures nextLsn == old(nextLsn) + Spent(old(Acknowledged()), Commands.DropCollection(name), old(nextLsn), fits)
      ensures var w := Mark(old(memory).cols, old(floor), Writing); Marked(memory.cols, floor, w) && AllMarked(trace[|old(trace)|..], w)
      ensures Appends(old(disk), trace[|old(trace)|..], disk, old(nextLsn), Recorded(old(Acknowledged()), Commands.DropCollection(name), old(nextLsn), fits))
      ensures r == if name !in old(Acknowledged()).ledger.names then Ok(false)
                   else if !fits(Entry(old(nextLsn), Drop(old(Acknowledged()).ledger.names[name]))) then Err(TooLarge)
                   else Ok(true)
      ensures r == Ok(true) ==> pending == [] && TableRemoved(old(Acknowledged()), Acknowledged(), name)
      ensures r != Ok(true) ==> Worlds() == old(Worlds())
    {
      hide Valid, Steady, Linked, CatalogOk, Meaning, DirectoryOf, StateApply, StateReplay, Marked, PointMarked, AllMarked, Leaves, Append,
        Appends, Wrote, Logged, Spent, Recorded, RowsBecome, TableAdded, TableRemoved, BatchWritten;
      ghost var v, w, t, d := Worlds(), Mark(memory.cols, floor, Writing), trace, disk;
      var lsn := nextLsn;
      ValidFacts();
      MarkedAtOnce(w);
      NoneMarked(w);
      AppendsNothing(disk, lsn);
      assert trace[|trace|..] == [];
      NamesAreMeant();
      WellNamedMemory();
      LedgerNamed();
      if name !in nameIndex {
        WroteNothing(v, Commands.DropCollection(name), lsn, fits);
        return Ok(false);
      }
      var cid := nameIndex[name];
      var ok := LogAndApply(Drop(cid));
      if !ok {
        WroteNothing(v, Commands.DropCollection(name), lsn, fits);
        return Err(TooLarge);
      }
      WroteOne(v, Commands.DropCollection(name), Drop(cid), lsn, fits, Point(disk, |v.pending| + 1), Point(disk, 0));
      TwoSteps(t, trace, Point(disk, |v.pending| + 1), Point(disk, 0), w);
      AppendsOne(d, lsn, Drop(cid), |v.pending| + 1);
      DropEffect(v.now, name);
      return Ok(true);
    }

    /** Insert or replace a point. */
    method UpsertPoint(cid: nat, id: Id, row: Row) returns (r: Result<nat, Error>)
      requires Valid()
      modifies this, collections.Values
      ensures Valid() && fresh(collections.Values - old(collections.Values))
      ensures old(trace) <= trace && Wrote(old(Worlds()), Worlds(), Commands.UpsertPoint(cid, id, row), old(nextLsn), fits, trace[|old(trace)|..])
      ensures published == old(published) + Logged(old(Acknowledged()), Commands.UpsertPoint(cid, id, row), old(nextLsn), fits)
      ensures nextLsn == old(nextLsn) + Spent(old(Acknowledged()), Commands.UpsertPoint(cid, id, row), old(nextLsn), fits)
      ensures var w := Mark(old(memory).cols, old(floor), Writing); Marked(memory.cols, floor, w) && AllMarked(trace[|old(trace)|..], w)
      ensures Appends(old(disk), trace[|old(trace)|..], disk, old(nextLsn), Recorded(old(Acknowledged()), Commands.UpsertPoint(cid, id, row), old(nextLsn), fits))
      ensures r == if cid !in old(Acknowledged()).ledger.tables then Err(NotFound)
                   else if |row.vector| != old(Acknowledged()).ledger.tables[cid].desc.dim then Err(InvalidArgument)
                   else if !fits(Entry(old(nextLsn), Upsert(cid, id, row))) then Err(TooLarge)
                   else Ok(old(nextLsn))
      ensures r.Ok? ==> pending == [] && RowsBecome(old(Acknowledged()), Acknowledged(), cid, old(Acknowledged()).ledger.tables[cid].rows[id := row])
      ensures r.Err? ==> Worlds() == old(Worlds())
    {
      hide Valid, Steady, Linked, CatalogOk, Meaning, DirectoryOf, StateApply, StateReplay, Marked, PointMarked, AllMarked, Leaves, Append,
        Appends, Wrote, Logged, Spent, Recorded, Contents, RowsBecome, TableAdded, TableRemoved, BatchWritten;
      ghost var v, w, t, d := Worlds(), Mark(memory.cols, floor, Writing), trace, disk;
      var lsn := nextLsn;
      ValidFacts();
      MarkedAtOnce(w);
      NoneMarked(w);
      AppendsNothing(disk, lsn);
      assert trace[|trace|..] == [];
      LinkedHas(cid);
      if cid !in collections || |row.vector| != collections[cid].desc.dim { WroteNothing(v, Commands.UpsertPoint(cid, id, row), lsn, fits); }
      if cid !in collections { return Err(NotFound); }
      if |row.vector| != collections[cid].desc.dim { return Err(InvalidArgument); }
      var ok := LogAndApply(Upsert(cid, id, row));
      if !ok {
        WroteNothing(v, Commands.UpsertPoint(cid, id, row), lsn, fits);
        return Err(TooLarge);
      }
      WroteOne(v, Commands.UpsertPoint(cid, id, row), Upsert(cid, id, row), lsn, fits, Point(disk, |v.pending| + 1), Point(disk, 0));
      TwoSteps(t, trace, Point(disk, |v.pending| + 1), Point(disk, 0), w);
      AppendsOne(d, lsn, Upsert(cid, id, row), |v.pending| + 1);
      UpsertEffect(v.now, cid, id, row);
      return Ok(lsn);
    }

    /** The log is ready for record `lsn`, whatever numbers memory has handed out. */
    ghost predicate Logging(lsn: nat)
      reads this
    {
      && Tracks(memory, disk, |pending|, Counts().(nextLsn := lsn)) && Leaves(disk, kept, pending)
      && disk.wal != [] && AllFit(fits, NewestLog(disk))
    }

    /** Append one frame of a batch, without a sync. */
    method AppendFrame(op: Op, lsn: nat)
      requires Logging(lsn) && op.Upsert? && fits(Entry(lsn, op))
      modifies this`disk, this`trace, this`pending
      ensures Logging(lsn + 1) && old(disk).wal != [] && disk == Append(old(disk), Entry(lsn, op)) && Recover(disk) == Apply(old(Recover(disk)), op)
      ensures pending == old(pending) + [op] && trace == old(trace) + [Point(disk, |pending|)]
      ensures Leaves(disk, kept, pending) && PointMarked(Point(disk, |pending|), Mark(memory.cols, floor, Writing))
    {
      hide Apply, Append, Marked, PointMarked, Tracks, Leaves, Recover, AllFit;
      ghost var w := Mark(memory.cols, floor, Writing);
      MarkedAtOnce(w);
      StepFrame(memory, disk, Counts().(nextLsn := lsn), op, kept, pending, w);
      AppendFits(fits, disk, Entry(lsn, op));
      pending := pending + [op];
      Commit(Append(disk, Entry(lsn, op)));
    }

    lemma LoggingStarts(lsn: nat, ops: seq<Op>)
      requires Logging(lsn)
      ensures disk.wal != [] && AllTrail(memory, Recover(disk)) && CatalogOk(Recover(disk)) && ApplyAll(Recover(disk), ops[..0]) == Recover(disk)
    {
      hide Recover, AllTrail, CatalogOk, Follows, Tracks, Leaves;
      TrackedTrail(memory, disk, |pending|, Counts().(nextLsn := lsn));
      TracksFull(memory, disk, |pending|, Counts().(nextLsn := lsn));
      FollowsOk(memory, disk, Counts().(nextLsn := lsn));
    }

    lemma LoggingLater(lsn: nat, later: nat)
      requires Logging(lsn) && lsn <= later
      ensures Logging(later)
    {
      hide Tracks, Leaves;
      TracksLater(memory, disk, |pending|, Counts().(nextLsn := lsn), later);
    }

    /** Sync after the last frame of a batch. */
    method SyncBatch(ghost h: Catalog, ops: seq<Op>, lsn: nat)
      requires Logging(lsn) && AllTrail(memory, h) && CatalogOk(h) && Recover(disk) == ApplyAll(h, ops)
      modifies this`trace, this`pending, this`kept
      ensures Tracks(ApplyAll(memory, ops), disk, 0, Counts().(nextLsn := lsn)) && Leaves(disk, kept, []) && disk.wal != [] && AllFit(fits, NewestLog(disk))
      ensures pending == [] && kept == StateReplay(old(kept), old(pending)) && trace == old(trace) + [Point(disk, 0)]
    {
      hide Recover, AllTrail, CatalogOk, Tracks, Leaves, ApplyAll, AllFit, StateReplay;
      TracksFull(memory, disk, |pending|, Counts().(nextLsn := lsn));
      BatchApplied(memory, h, disk, Counts().(nextLsn := lsn), ops);
      Sync();
    }

    /** Append the records of a batch, one frame each, before the one sync. At a record too large
        for the log the loop returns: the frames before it stay in the log, not synced. */
    method AppendBatch(ops: seq<Op>, first: nat) returns (ok: bool)
      requires Logging(first) && ops != [] && forall i :: 0 <= i < |ops| ==> ops[i].Upsert?
      modifies this`disk, this`trace, this`pending, this`kept
      ensures ok <==> Taken(fits, first, ops) == |ops|
      ensures ok ==>
        && pending == [] && kept == StateReplay(old(kept), old(pending) + ops) && Leaves(disk, kept, pending) && disk.wal != [] && AllFit(fits, NewestLog(disk))
        && Tracks(ApplyAll(memory, ops), disk, 0, Counts().(nextLsn := first + |ops|))
      ensures !ok ==> pending == old(pending) + ops[..Taken(fits, first, ops)] && kept == old(kept) && Logging(first + |ops|)
      ensures old(trace) <= trace && Framed(trace[|old(trace)|..], old(Worlds()), ops, Taken(fits, first, ops))
      ensures AllMarked(trace[|old(trace)|..], Mark(memory.cols, floor, Writing))
      ensures Appends(old(disk), trace[|old(trace)|..], disk, first, ops[..Taken(fits, first, ops)])
    {
      hide Logging, Meaning, Apply, Append, Batched, PointMarked, AllMarked, Appends, Tracks, Leaves, StateReplay, Framed, Recover, AllFit,
        ApplyAll, AllTrail, CatalogOk, Taken;
      ghost var v, t, w := Worlds(), trace, Mark(memory.cols, floor, Writing);
      ghost var steps, h := [], Recover(disk);
      LoggingStarts(first, ops);
      assert v.pending + ops[..0] == v.pending;
      BatchedNone(disk, first, v, ops, w);
      for i := 0 to |ops|
        invariant trace == t + steps && |steps| == i && kept == v.kept && pending == v.pending + ops[..i]
        invariant Logging(first + i) && Recover(disk) == ApplyAll(h, ops[..i])
        invariant forall j :: 0 <= j < i ==> fits(Entry(first + j, ops[j]))
        invariant Batched(old(disk), disk, steps, first, v, ops, w)
      {
        if !fits(Entry(first + i, ops[i])) {
          TakenIs(fits, first, ops, i);
          BatchedRefused(old(disk), disk, steps, first, v, ops, w);
          LoggingLater(first + i, first + |ops|);
          assert trace[|t|..] == steps;
          return false;
        }
        BatchStep(h, ops, i, v.kept);
        ghost var d := disk;
        AppendFrame(ops[i], first + i);
        assert v.pending + ops[..i] + [ops[i]] == v.pending + ops[..i + 1];
        BatchedMore(old(disk), d, steps, first, v, ops, w);
        steps := steps + [Point(disk, |pending|)];
      }
      assert ops[..|ops|] == ops;
      TakenIs(fits, first, ops, |ops|);
      SyncBatch(h, ops, first + |ops|);
      BatchedSynced(old(disk), disk, steps, first, v, ops, w);
      assert trace[|t|..] == steps + [Point(disk, 0)];
      return true;
    }

    method ApplyBatch(cid: nat, records: seq<(Id, Row)>)
      requires Linked() && CatalogOk(memory) && cid in collections
      modifies this`memory, collections.Values
      ensures Linked() && CatalogOk(memory)
      ensures memory == ApplyAll(old(memory), UpsertOps(cid, records))
    {
      hide CatalogOk, CollOk, Apply;
      ghost var k := memory;
      ghost var ops := UpsertOps(cid, records);
      assert ops[..0] == [];
      for i := 0 to |records|
        invariant Linked() && CatalogOk(memory)
        invariant memory == ApplyAll(k, ops[..i])
      {
        BatchStep(k, ops, i, State(Meaning(k), 0));
        CatalogHas(memory, cid);
        ApplyRefines(memory, ops[i]);
        UpsertInto(cid, records[i].0, records[i].1);
      }
      assert ops[..|records|] == ops;
    }

    lemma StartsLogging()
      requires Valid()
      ensures Linked() && CatalogOk(memory) && Logging(nextLsn) && floor < nextLsn
    {
      hide Linked, CatalogOk, Tracks, Leaves, Exact;
      TrackedFloor(memory, disk, |pending|, Counts());
    }

    lemma EndsLogging()
      requires Linked() && CatalogOk(memory) && Logging(nextLsn) && nextLsn > floor + 1
      ensures Valid()
    {
      hide Linked, CatalogOk, Tracks, Leaves, Exact;
      assert Counts().(nextLsn := nextLsn) == Counts();
    }

    /** Log a batch of the right sizes and, unless a record is refused, apply it. */
    method LogBatch(cid: nat, records: seq<(Id, Row)>) returns (ok: bool)
      requires Valid() && cid in collections && records != [] && Ops(Acknowledged(), Commands.UpsertBatch(cid, records)) == UpsertOps(cid, records)
      modifies this`disk, this`trace, this`published, this`pending, this`kept, this`nextLsn, this`memory, collections.Values
      ensures Valid() && nextLsn == old(nextLsn) + |records| && (ok <==> Taken(fits, old(nextLsn), UpsertOps(cid, records)) == |records|)
      ensures old(trace) <= trace && Wrote(old(Worlds()), Worlds(), Commands.UpsertBatch(cid, records), old(nextLsn), fits, trace[|old(trace)|..])
      ensures published == old(published) + Logged(old(Acknowledged()), Commands.UpsertBatch(cid, records), old(nextLsn), fits)
      ensures var w := Mark(old(memory).cols, old(floor), Writing); Marked(memory.cols, floor, w) && AllMarked(trace[|old(trace)|..], w)
      ensures Appends(old(disk), trace[|old(trace)|..], disk, old(nextLsn), Recorded(old(Acknowledged()), Commands.UpsertBatch(cid, records), old(nextLsn), fits))
    {
      hide Valid, Linked, CatalogOk, Meaning, StateReplay, Marked, AllMarked, Tracks, Leaves, Appends, Wrote, Logged, Exact, Framed, Ops,
        ApplyAll, AllFit, Completed, Taken;
      ghost var v, w, t := Worlds(), Mark(memory.cols, floor, Writing), trace;
      var ops, lsn := UpsertOps(cid, records), nextLsn;
      MarkedAtOnce(w);
      StartsLogging();
      ApplyAllRefines(memory, nextCid, ops);
      UpsertsMarked(memory, ops, floor, w);
      nextLsn := nextLsn + |records|;
      ok := AppendBatch(ops, lsn);
      if !ok {
        EndsLogging();
        WroteSome(v, Commands.UpsertBatch(cid, records), lsn, fits, trace[|t|..]);
        return;
      }
      WroteAll(v, Commands.UpsertBatch(cid, records), lsn, fits, trace[|t|..]);
      ApplyBatch(cid, records);
      published := published + ops;
      assert Logging(nextLsn);
      EndsLogging();
    }

    /** Upsert a batch: every record is appended, then all are applied. A crash part-way leaves a
        prefix of the batch. If a record is too large for the log, nothing is applied, but every
        sequence number of the batch is spent and the records before that one stay in the log. */
    method UpsertBatch(cid: nat, records: seq<(Id, Row)>) returns (r: Result<nat, Error>)
      requires Valid()
      modifies this, collections.Values
      ensures Valid() && collections == old(collections)
      ensures old(trace) <= trace && Wrote(old(Worlds()), Worlds(), Commands.UpsertBatch(cid, records), old(nextLsn), fits, trace[|old(trace)|..])
      ensures published == old(published) + Logged(old(Acknowledged()), Commands.UpsertBatch(cid, records), old(nextLsn), fits)
      ensures var w := Mark(old(memory).cols, old(floor), Writing); Marked(memory.cols, floor, w) && AllMarked(trace[|old(trace)|..], w)
      ensures Appends(old(disk), trace[|old(trace)|..], disk, old(nextLsn), Recorded(old(Acknowledged()), Commands.UpsertBatch(cid, records), old(nextLsn), fits))
      ensures nextLsn == old(nextLsn) + Spent(old(Acknowledged()), Commands.UpsertBatch(cid, records), old(nextLsn), fits)
      ensures r == if records == [] then Ok(0)
                   else if cid !in old(Acknowledged()).ledger.tables then Err(NotFound)
                   else if exists i :: 0 <= i < |records| && |records[i].1.vector| != old(Acknowledged()).ledger.tables[cid].desc.dim
                     then Err(InvalidArgument)
                   else if exists i :: 0 <= i < |records| && !fits(Entry(old(nextLsn) + i, Upsert(cid, records[i].0, records[i].1)))
                     then Err(TooLarge)
                   else Ok(|records|)
      ensures r.Ok? && records != [] ==> pending == [] && BatchWritten(old(Acknowledged()), Acknowledged(), cid, records)
      ensures r.Err? || records == [] ==> Acknowledged() == old(Acknowledged())
    {
      hide Valid, Steady, Linked, CatalogOk, Meaning, DirectoryOf, StateApply, StateReplay, Marked, PointMarked, AllMarked, Leaves, Append,
        Appends, Wrote, Logged, Taken, Recorded, Contents, Framed, Ops, RowsBecome, TableAdded, TableRemoved, BatchWritten;
      ghost var v, w, t, d := Worlds(), Mark(memory.cols, floor, Writing), trace, disk;
      var lsn := nextLsn;
      ValidFacts();
      MarkedAtOnce(w);
      NoneMarked(w);
      AppendsNothing(disk, lsn);
      assert trace[|trace|..] == [];
      BatchOps(v.now, cid, records);
      if records == [] {
        WroteNothing(v, Commands.UpsertBatch(cid, records), lsn, fits);
        return Ok(0);
      }
      LinkedHas(cid);
      if cid !in collections {
        WroteNothing(v, Commands.UpsertBatch(cid, records), lsn, fits);
        return Err(NotFound);
      }
      var sized := AllOfSize(records, collections[cid].desc.dim);
      if !sized {
        WroteNothing(v, Commands.UpsertBatch(cid, records), lsn, fits);
        return Err(InvalidArgument);
      }
      AllTaken(fits, lsn, cid, records);
      var ok := LogBatch(cid, records);
      BatchWrote(v, Worlds(), cid, records, lsn, fits, trace[|t|..]);
      return if ok then Ok(|records|) else Err(TooLarge);
    }

    /** Delete a point; a point that does not exist logs nothing. */
    method DeletePoint(cid: nat, id: Id) returns (r: Result<bool, Error>)
      requires Valid()
      modifies this, collections.Values
      ensures Valid() && fresh(collections.Values - old(collections.Values))
      ensures old(trace) <= trace && Wrote(old(Worlds()), Worlds(), Commands.DeletePoint(cid, id), old(nextLsn), fits, trace[|old(trace)|..])
      ensures published == old(published) + Logged(old(Acknowledged()), Commands.DeletePoint(cid, id), old(nextLsn), fits)
      ensures nextLsn == old(nextLsn) + Spent(old(Acknowledged()), Commands.DeletePoint(cid, id), old(nextLsn), fits)
      ensures var w := Mark(old(memory).cols, old(floor), Writing); Marked(memory.cols, floor, w) && AllMarked(trace[|old(trace)|..], w)
      ensures Appends(old(disk), trace[|old(trace)|..], disk, old(nextLsn), Recorded(old(Acknowledged()), Commands.DeletePoint(cid, id), old(nextLsn), fits))
      ensures r == if cid !in old(Acknowledged()).ledger.tables then Err(NotFound)
                   else if id !in old(Acknowledged()).ledger.tables[cid].rows then Ok(false)
                   else if !fits(Entry(old(nextLsn), Delete(cid, id))) then Err(TooLarge)
                   else Ok(true)
      ensures r == Ok(true) ==> pending == [] && RowsBecome(old(Acknowledged()), Acknowledged(), cid, old(Acknowledged()).ledger.tables[cid].rows - {id})
      ensures r != Ok(true) ==> Worlds() == old(Worlds())
    {
      hide Valid, Steady, Linked, CatalogOk, Meaning, DirectoryOf, StateApply, StateReplay, Marked, PointMarked, AllMarked, Leaves, Append,
        Appends, Wrote, Logged, Spent, Recorded, Contents, Collections.Valid, RowsBecome, TableAdded, TableRemoved, BatchWritten;
      ghost var v, w, t, d := Worlds(), Mark(memory.cols, floor, Writing), trace, disk;
      var lsn := nextLsn;
      ValidFacts();
      MarkedAtOnce(w);
      NoneMarked(w);
      AppendsNothing(disk, lsn);
      assert trace[|trace|..] == [];
      LinkedHas(cid);
      if cid !in collections {
        WroteNothing(v, Commands.DeletePoint(cid, id), lsn, fits);
        return Err(NotFound);
      }
      CatalogHas(memory, cid);
      LocateIsContents(memory.cols[cid], id);
      var at := collections[cid].LocateId(id);
      if at.None? {
        WroteNothing(v, Commands.DeletePoint(cid, id), lsn, fits);
        return Ok(false);
      }
      var ok := LogAndApply(Delete(cid, id));
      if !ok {
        WroteNothing(v, Commands.DeletePoint(cid, id), lsn, fits);
        return Err(TooLarge);
      }
      WroteOne(v, Commands.DeletePoint(cid, id), Delete(cid, id), lsn, fits, Point(disk, |v.pending| + 1), Point(disk, 0));
      TwoSteps(t, trace, Point(disk, |v.pending| + 1), Point(disk, 0), w);
      AppendsOne(d, lsn, Delete(cid, id), |v.pending| + 1);
      DeleteEffect(v.now, cid, id);
      return Ok(true);
    }

    /** Fetch a point. */
    method Get(cid: nat, id: Id) returns (r: Result<Option<Row>, Error>)
      requires Valid()
      ensures r == if cid !in Acknowledged().ledger.tables then Err(NotFound)
                   else if id in Acknowledged().ledger.tables[cid].rows then Ok(Some(Acknowledged().ledger.tables[cid].rows[id]))
                   else Ok(None)
    {
      hide Linked, Tracks, Leaves, Exact, CatalogOk, Meaning, Contents, Collections.Valid;
      LinkedHas(cid);
      if cid !in collections { return Err(NotFound); }
      CatalogHas(memory, cid);
      LocateIsContents(memory.cols[cid], id);
      var at := collections[cid].LocateId(id);
      if at.None? { return Ok(None); }
      return Ok(RecordAt(collections[cid].View(), at.value));
    }

    /** Every live record, in id order. */
    method Scan(cid: nat) returns (r: Result<seq<(Id, Row)>, Error>)
      requires Valid()
      ensures cid !in Acknowledged().ledger.tables ==> r == Err(NotFound)
      ensures cid in Acknowledged().ledger.tables ==> r.Ok? && Reads.ScanOf(Acknowledged().ledger.tables[cid].rows, r.value)
    {
      hide Linked, Tracks, Leaves, Exact, CatalogOk, Meaning, Contents, CollOk, Reads.ScanOf;
      LinkedHas(cid);
      if cid !in collections { return Err(NotFound); }
      CatalogHas(memory, cid);
      var out := Reads.Scan(collections[cid]);
      return Ok(out);
    }

    /** The number of live rows. */
    method Len(cid: nat) returns (r: Result<nat, Error>)
      requires Valid()
      ensures r == if cid !in Acknowledged().ledger.tables then Err(NotFound) else Ok(|Acknowledged().ledger.tables[cid].rows|)
    {
      hide Linked, Tracks, Leaves, Exact, CatalogOk, Meaning, Contents, CollOk;
      LinkedHas(cid);
      if cid !in collections { return Err(NotFound); }
      CatalogHas(memory, cid);
      var n := collections[cid].LiveRowCount();
      return Ok(n);
    }

    /** The live ids whose payload satisfies an indexed predicate. */
    method MatchingIds(cid: nat, p: SecPredicate) returns (r: Result<seq<Id>, Error>)
      requires Valid()
      ensures cid !in Acknowledged().ledger.tables ==> r == Err(NotFound)
      ensures cid in Acknowledged().ledger.tables ==>
        var Table(_, desc, rows) := Acknowledged().ledger.tables[cid];
        match FindField(desc.filterable, p.field)
        case None => r == Err(InvalidArgument)
        case Some(t) => r.Ok? && Reads.MatchListing(rows, p, t, r.value)
    {
      hide Linked, Tracks, Leaves, Exact, CatalogOk, Meaning, Contents, CollOk, FindField, Filters.Satisfies;
      LinkedHas(cid);
      if cid !in collections { return Err(NotFound); }
      CatalogHas(memory, cid);
      r := Reads.MatchingIds(collections[cid].View(), p);
    }

    /** The changes since the last checkpoint that an index snapshot replays. */
    method RecoveryTail(cid: nat) returns (r: Result<(seq<(Id, Row)>, seq<Id>), Error>)
      requires Valid()
      ensures cid !in memory.cols ==> r == Err(NotFound)
      ensures cid in memory.cols ==>
        && r.Ok? && Collections.Valid(memory.cols[cid])
        && Reads.ScanOf(TailUpserts(memory.cols[cid]), r.value.0)
        && forall id :: id in r.value.1 <==> id in TailDeleted(memory.cols[cid])
    {
      hide Linked, Tracks, Leaves, Exact, CatalogOk, TailUpserts, TailDeleted, Reads.ScanOf, AllIndexed, SegmentsOk, Shadowed;
      LinkedHas(cid);
      if cid !in collections { return Err(NotFound); }
      CatalogHas(memory, cid);
      var upserts := Reads.TailRows(collections[cid].View());
      var deleted := Reads.TailIds(collections[cid].View());
      return Ok((upserts, deleted));
    }

    // ---- replication -------------------------------------------------------

    lemma LedgerNamed()
      requires Steady()
      ensures Named(Acknowledged().ledger)
      ensures forall cid :: cid in Acknowledged().ledger.tables ==> cid < nextCid
    {
      hide Tracks, Leaves, Linked, CatalogOk;
      WellNamedMemory();
      var y := DirectoryOf(memory);
      assert forall cid :: cid in memory.cols ==> y.dir[cid] == memory.cols[cid].name;
    }

    /** What is synced has the names, the schemas and the next id of what is acknowledged. */
    lemma KeptDirectory()
      requires Steady()
      ensures kept.nextCid == nextCid && kept.ledger.names == Acknowledged().ledger.names
      ensures forall cid :: cid in kept.ledger.tables <==> cid in Acknowledged().ledger.tables
      ensures forall cid :: cid in kept.ledger.tables ==>
        kept.ledger.tables[cid].name == Acknowledged().ledger.tables[cid].name && kept.ledger.tables[cid].desc == Acknowledged().ledger.tables[cid].desc
    {
      hide Linked, CatalogOk, DiskOk, Recover, RecoverNextCid, Contents, Trails;
      var n := |pending|;
      var d := Cut(disk, n);
      assert Recovers(d, StateReplay(kept, pending[..n - n]));
      assert pending[..0] == [];
      assert Follows(memory, d, Counts());
      TrailMeaning(memory, Recover(d));
    }

    /** One collection: its name and id, in memory and in what is synced. */
    lemma KeptTable(cid: nat)
      requires Valid()
      ensures cid in collections <==> cid in Acknowledged().ledger.tables
      ensures cid in collections ==>
        && cid < nextCid == kept.nextCid && cid in kept.ledger.tables
        && collections[cid].name == Acknowledged().ledger.tables[cid].name == kept.ledger.tables[cid].name
      ensures cid !in collections ==> kept.nextCid == nextCid && cid !in kept.ledger.tables
    {
      hide Steady, Linked, CatalogOk, Contents, AllFit, Exact;
      ValidFacts();
      LinkedHas(cid);
      WellNamedMemory();
      KeptDirectory();
    }

    /** A creation per collection, in any order, each followed by its live rows: the
        operations that rebuild the acknowledged state from nothing. */
    method ReplicationSnapshot() returns (ops: seq<Op>)
      requires Valid()
      ensures StreamOf(ops, Acknowledged())
    {
      hide Tracks, Leaves, Exact, Linked, CatalogOk, Meaning, Streamable, Named, Reads.ScanOf, Contents, CreatesIn, LedgerReplay, Part;
      ghost var l := Acknowledged().ledger;
      LedgerNamed();
      PartNothing(l);
      NothingStreamed();
      ops := [];
      var todo, done: set<nat> := collections.Keys, {};
      while todo != {}
        invariant todo + done == collections.Keys && todo !! done
        invariant Streamable(ops) && LedgerReplay(EMPTY_LEDGER, ops) == Part(l, done)
        invariant forall cid: nat :: CreatesIn(ops, cid) ==> cid in done
        decreases todo
      {
        var cid :| cid in todo;
        LinkedHas(cid);
        var rows := Scan(cid);
        CollectionStream(l, done, ops, cid, rows.value);
        ops := ops + [Create(cid, collections[cid].name, collections[cid].desc)] + UpsertOps(cid, rows.value);
        todo, done := todo - {cid}, done + {cid};
      }
      forall cid | cid in l.tables ensures cid in done { LinkedHas(cid); }
      forall cid | cid in done ensures cid < nextCid { LinkedHas(cid); }
      PartWhole(l, done);
    }

    /** Apply a leader's operation under a local sequence number; checkpoint records
        are each node's own business. A creation raises the id allocator before the log is asked:
        when its record is too large for the log, that alone has changed. */
    method ApplyReplicated(op: Op) returns (ok: bool)
      requires Valid() && (op.CheckpointMark? || Appendable(DirectoryOf(memory), Tail(disk), op))
      modifies this`disk, this`trace, this`published, this`pending, this`kept, this`nextLsn, this`nextCid, this`collections, this`nameIndex,
        this`memory, collections.Values
      ensures ok <==> op.CheckpointMark? || fits(Entry(old(nextLsn), op))
      ensures ok || !op.Create? ==> Valid() && fresh(collections.Values - old(collections.Values))
      ensures ok || !op.Create? ==> Acknowledged() == if ok then StateApply(old(Acknowledged()), op) else old(Acknowledged())
      ensures !ok ==> disk == old(disk) && trace == old(trace) && memory == old(memory) && kept == old(kept) && pending == old(pending)
      ensures !ok && op.Create? ==> nextCid == Max(old(nextCid), op.cid + 1) && collections == old(collections) && nameIndex == old(nameIndex)
      ensures Tail(disk) == if op.CheckpointMark? || !ok then old(Tail(disk)) else old(Tail(disk)) + [Entry(old(nextLsn), op)]
      ensures published == old(published) + if op.CheckpointMark? || !ok then [] else [op]
      ensures nextLsn == old(nextLsn) + if op.CheckpointMark? || !ok then 0 else 1
    {
      hide Linked, Tracks, Leaves, Exact, CatalogOk, Meaning, DirectoryOf, Tail;
      if op.CheckpointMark? { return true; }
      if op.Create? && !fits(Entry(nextLsn, op)) {
        nextCid := Max(nextCid, op.cid + 1);
        return false;
      }
      ok := LogAndApply(op);
    }

    // ---- checkpoint --------------------------------------------------------

    /** Part-way into a checkpoint that began on disk `d0`: memory still stands for
        `d0`, and every step so far recovers as `d0` would. */
    ghost predicate Advancing(v: Worlds, d0: Disk, n0: Counters, w: Mark)
      reads this`memory, this`disk, this`pending
    {
      && CatalogOk(memory) && Tracks(memory, d0, |v.pending|, n0) && Leaves(d0, v.kept, v.pending) && HalfAdvanced(memory, d0, disk)
      && pending == v.pending && w.care == Checkpointing && w.floor == n0.floor && Marked(memory.cols, n0.floor, w)
    }

    /** Commit one step of an advancing checkpoint. */
    method CommitAdvanced(d: Disk, ghost d0: Disk, ghost n0: Counters, ghost v: Worlds, ghost t: seq<Point>, ghost w: Mark)
      requires Advancing(v, d0, n0, w) && HalfAdvanced(memory, d0, d) && Traced(t, v, w)
      modifies this`disk, this`trace
      ensures disk == d && Advancing(v, d0, n0, w) && Traced(t, v, w)
    {
      hide Tracks, Leaves, CatalogOk, HalfAdvanced, AllRecover, Marked, PointOk;
      AdvancedPoint(memory, d0, d, n0, v, w);
      ghost var before := trace[|t|..];
      Commit(d);
      AllRecoverExtend(before, Point(d, |pending|), v, w);
      assert trace[|t|..] == before + [Point(d, |pending|)];
    }

    /** Merge the window's dead rows into each affected segment's `.del`. */
    method AdvanceTombstones(cid: nat, ghost d0: Disk, ghost n0: Counters, ghost v: Worlds, ghost t: seq<Point>, ghost w: Mark)
      requires Linked() && cid in collections && Advancing(v, d0, n0, w)
      requires OnDisk(d0, cid, memory.cols[cid].sealed) && IdsBelow(memory.cols[cid].sealed, Current(d0).nextSeg)
      requires OnDisk(disk, cid, memory.cols[cid].sealed)
      requires Traced(t, v, w)
      modifies this`disk, this`trace
      ensures Advancing(v, d0, n0, w) && OnDisk(disk, cid, Folded(memory.cols[cid])) && OthersKept(old(disk), disk, cid)
      ensures Traced(t, v, w)
    {
      hide Tracks, Leaves, CatalogOk, HalfAdvanced, OnDisk, IdsBelow, Traced, Marked, Meaning, Current, Linked, FoldedTo, Folded,
        OthersKept, WriteDel;
      LinkedHas(cid);
      var state := collections[cid];
      ghost var c := memory.cols[cid];
      FoldedEnds(c);
      OthersKeptStart(disk, cid);
      for s := 0 to |state.sealed|
        invariant Advancing(v, d0, n0, w) && OnDisk(disk, cid, FoldedTo(c, s)) && OthersKept(old(disk), disk, cid)
        invariant Traced(t, v, w)
      {
        if s in state.window {
          var seg := state.sealed[s].segId;
          var merged := state.sealed[s].dead + state.window[s];
          FoldedAt(c, s);
          DelStep(memory, d0, disk, cid, s);
          OthersKeptSteps(old(disk), disk, cid, seg, merged, state.sealed[s].file);
          CommitAdvanced(WriteDel(disk, SegKey(cid, seg), merged), d0, n0, v, t, w);
        } else {
          UntouchedSegment(c, s);
        }
      }
    }

    /** Seal the active buffer, in id order, into a new segment if it holds anything. */
    method SealActive(cid: nat, ghost d0: Disk, ghost n0: Counters, ghost v: Worlds, ghost t: seq<Point>, ghost w: Mark) returns (added: seq<Sealed>)
      requires Linked() && cid in collections && Advancing(v, d0, n0, w) && Current(d0).nextSeg <= nextSeg
      requires OnDisk(disk, cid, Folded(memory.cols[cid])) && IdsBelow(Folded(memory.cols[cid]), nextSeg)
      requires Traced(t, v, w)
      modifies this`disk, this`trace, this`nextSeg
      ensures Advancing(v, d0, n0, w) && OthersKept(old(disk), disk, cid) && nextSeg >= old(nextSeg)
      ensures Ready(memory.cols[cid], disk, cid, added, nextSeg)
      ensures Traced(t, v, w)
    {
      hide Tracks, Leaves, CatalogOk, HalfAdvanced, OnDisk, IdsBelow, Traced, Marked, Meaning, Current, Linked, Folded, OthersKept,
        WriteSeg, Ready, Collections.Valid, SealsActive, Indexed;
      LinkedHas(cid);
      CatalogHas(memory, cid);
      var state := collections[cid];
      ghost var c := memory.cols[cid];
      OthersKeptStart(disk, cid);
      if state.index == map[] {
        ReadyUnsealed(c, disk, cid, nextSeg);
        return [];
      }
      var file := SealRows(state.View());
      var segId := nextSeg;
      SegAfter(memory, d0, disk, cid, segId, file);
      OthersKeptSteps(disk, disk, cid, segId, {}, file);
      ReadySealed(c, WriteSeg(disk, SegKey(cid, segId), file), cid, segId, file);
      nextSeg := nextSeg + 1;
      CommitAdvanced(WriteSeg(disk, SegKey(cid, segId), file), d0, n0, v, t, w);
      return [Sealed(segId, file, {})];
    }

    /** Phase A for one collection; a collection with nothing pending is skipped. */
    method PrepareCollection(cid: nat, ghost d0: Disk, ghost n0: Counters, ghost v: Worlds, ghost t: seq<Point>, ghost w: Mark) returns (added: seq<Sealed>)
      requires Linked() && cid in collections && Advancing(v, d0, n0, w) && Current(d0).nextSeg <= nextSeg
      requires OnDisk(disk, cid, memory.cols[cid].sealed)
      requires Traced(t, v, w)
      modifies this`disk, this`trace, this`nextSeg
      ensures Advancing(v, d0, n0, w) && OthersKept(old(disk), disk, cid) && nextSeg >= old(nextSeg)
      ensures Ready(memory.cols[cid], disk, cid, added, nextSeg)
      ensures Traced(t, v, w)
    {
      hide Tracks, Leaves, CatalogOk, HalfAdvanced, OnDisk, IdsBelow, Traced, Marked, Meaning, Current, Linked, Folded, OthersKept, Ready;
      LinkedHas(cid);
      var state := collections[cid];
      ghost var c := memory.cols[cid];
      TracksFull(memory, d0, |v.pending|, n0);
      FollowsHolds(memory, d0, n0);
      FoldedIds(c, Current(d0).nextSeg, nextSeg);
      if state.index == map[] && state.window == map[] {
        NotPending(c);
        OthersKeptStart(disk, cid);
        ReadyUnsealed(c, disk, cid, nextSeg);
        return [];
      }
      AdvanceTombstones(cid, d0, n0, v, t, w);
      ghost var mid := disk;
      added := SealActive(cid, d0, n0, v, t, w);
      OthersKeptTrans(old(disk), mid, disk, cid);
    }

    lemma StartsAdvancing(v: Worlds, d0: Disk, n0: Counters, t: seq<Point>, w: Mark, todo: set<nat>)
      requires CatalogOk(memory) && Tracks(memory, d0, |v.pending|, n0) && Leaves(d0, v.kept, v.pending) && disk == d0
      requires pending == v.pending && w.care == Checkpointing && w.floor == n0.floor && Marked(memory.cols, n0.floor, w)
      requires t == trace && forall cid :: cid in memory.cols ==> cid in todo
      ensures Advancing(v, d0, n0, w) && Traced(t, v, w) && Prepared(memory, disk, map[], n0.nextSeg, todo) && Current(d0).nextSeg <= n0.nextSeg
    {
      hide Tracks, Leaves, CatalogOk, HalfAdvanced, AllRecover, Marked, Prepared, Holds, Follows, Current;
      TracksFull(memory, d0, |v.pending|, n0);
      FollowsOk(memory, d0, n0);
      FollowsHolds(memory, d0, n0);
      StartAdvancing(memory, d0, n0, todo);
      NoneRecover(v, w);
      assert trace[|t|..] == [];
    }

    /** Phase A: prepare every collection, in id order. */
    method PrepareAll(cids: seq<nat>, ghost d0: Disk, ghost n0: Counters, ghost v: Worlds, ghost t: seq<Point>, ghost w: Mark) returns (plan: Plan)
      requires Linked() && CatalogOk(memory) && Tracks(memory, d0, |v.pending|, n0) && Leaves(d0, v.kept, v.pending) && disk == d0 && n0 == Counts()
      requires pending == v.pending && w.care == Checkpointing && w.floor == n0.floor && Marked(memory.cols, n0.floor, w)
      requires forall cid :: cid in cids <==> cid in collections
      requires forall i, j :: 0 <= i < j < |cids| ==> cids[i] < cids[j]
      requires t == trace
      modifies this`disk, this`trace, this`nextSeg
      ensures Advancing(v, d0, n0, w) && AllReady(memory, disk, plan, nextSeg) && nextSeg >= old(nextSeg) && Traced(t, v, w)
    {
      hide Advancing, Traced, CatalogOk, Tracks, Leaves, Marked, Current, Linked, OthersKept, Ready, Prepared, AllReady, OnDisk, Rest;
      plan := map[];
      LinkedKeys();
      RestAll(cids);
      StartsAdvancing(v, d0, n0, t, w, Rest(cids, 0));
      for i := 0 to |cids|
        invariant Advancing(v, d0, n0, w) && nextSeg >= n0.nextSeg && Traced(t, v, w)
        invariant Prepared(memory, disk, plan, nextSeg, Rest(cids, i))
      {
        var cid := cids[i];
        assert cid in cids;
        ghost var before, bound := disk, nextSeg;
        RestStep(cids, i);
        PreparedTodo(memory, disk, plan, nextSeg, Rest(cids, i), cid);
        var added := PrepareCollection(cid, d0, n0, v, t, w);
        PreparedStep(memory, before, disk, plan, bound, nextSeg, Rest(cids, i), cid, added);
        plan := plan[cid := added];
      }
      RestNone(cids);
      PreparedAll(memory, disk, plan, nextSeg);
    }

    /** The manifest entries of a prepared checkpoint, in id order. */
    method PlannedEntries(cids: seq<nat>, plan: Plan) returns (entries: seq<CollEntry>)
      requires Linked()
      requires forall cid :: cid in cids <==> cid in collections
      requires forall i, j :: 0 <= i < j < |cids| ==> cids[i] < cids[j]
      requires forall cid :: cid in collections ==> cid in plan
      ensures EntriesFor(entries, cids, memory, plan)
    {
      hide EntryFor, Folded;
      entries := [];
      for i := 0 to |cids|
        invariant |entries| == i
        invariant forall j :: 0 <= j < i ==> cids[j] in memory.cols && cids[j] in plan
        invariant forall j :: 0 <= j < i ==> entries[j] == EntryFor(cids[j], memory.cols[cids[j]], Folded(memory.cols[cids[j]]) + plan[cids[j]])
      {
        assert cids[i] in cids;
        var c := collections[cids[i]].View();
        entries := entries + [EntryFor(cids[i], c, Folded(c) + plan[cids[i]])];
      }
    }

    /** Fold one collection's tombstones, install its new segments and empty its buffer. */
    method SealOne(cid: nat, added: seq<Sealed>)
      requires Linked() && cid in collections
      modifies this`memory, collections[cid]
      ensures Linked()
      ensures cid in old(memory).cols && memory == old(memory).(cols := old(memory).cols[cid := SealedUp(old(memory).cols[cid], added)])
    {
      hide SealedUp;
      ghost var c := memory.cols[cid];
      collections[cid].Seal(added);
      OthersUntouched(cid);
      Relink(cid, SealedUp(c, added));
    }

    /** Phase C for the collections. */
    method CommitSealed(cids: seq<nat>, plan: Plan)
      requires Linked()
      requires forall cid :: cid in cids <==> cid in collections
      requires forall cid :: cid in collections ==> cid in plan
      requires forall i, j :: 0 <= i < j < |cids| ==> cids[i] < cids[j]
      modifies this`memory, collections.Values
      ensures Linked() && (forall cid :: cid in old(memory).cols ==> cid in plan) && memory == SealedCatalog(old(memory), plan)
    {
      hide SealedUp, Linked;
      LinkedKeys();
      ghost var k := memory;
      ghost var done: set<nat> := {};
      SealedNone(k, plan);
      for i := 0 to |cids|
        invariant Linked() && memory == SealedSome(k, plan, done)
        invariant forall j :: i <= j < |cids| ==> cids[j] !in done
        invariant forall j :: 0 <= j < i ==> cids[j] in done
      {
        var cid := cids[i];
        assert cid in cids;
        SealedMore(k, plan, done, cid);
        SealOne(cid, plan[cid]);
        done := done + {cid};
      }
      assert forall cid :: cid in k.cols ==> cid in cids;
      SealedEvery(k, plan, done);
    }

    /** Write a manifest file, then make `CURRENT` name it. `still` is what of the log is then past
        the last sync, and `durable` what the rest stands for. */
    method InstallManifest(m: Manifest, still: seq<Op>, ghost durable: State, ghost v: Worlds, ghost t: seq<Point>, ghost w: Mark)
      requires m.version != Current(disk).version && PointOk(Point(disk, |pending|), v, w) && PointOk(Point(Install(disk, m), |still|), v, w)
      requires Traced(t, v, w)
      modifies this`disk, this`trace, this`pending, this`kept
      ensures disk == Install(old(disk), m) && disk.wal == old(disk).wal && pending == still && kept == durable
      ensures Traced(t, v, w)
    {
      hide PointOk, AllRecover, Current;
      StepUnpointed(Point(disk, |pending|), m, v, w);
      ghost var before := trace[|t|..];
      Commit(WriteManifestFile(disk, m));
      ghost var mid := Point(disk, |pending|);
      pending := still;
      kept := durable;
      Commit(PointAt(disk, m.version));
      AllRecoverExtend(before, mid, v, w);
      AllRecoverExtend(before + [mid], Point(disk, |still|), v, w);
      assert trace[|t|..] == before + [mid] + [Point(disk, |still|)];
    }

    /** Start a new log file and delete every older one, oldest first. */
    method RotateWal(ghost v: Worlds, ghost t: seq<Point>, ghost w: Mark)
      requires Sound(disk, v, w) && floor != w.floor && nextLsn == floor + 1 && Traced(t, v, w)
      modifies this`disk, this`trace
      ensures Sound(disk, v, w) && disk.wal == [[]] && Traced(t, v, w)
    {
      hide Linked, Standing, Traced, Orphans;
      StandingLogStarted(memory, disk, Counts(), kept, pending, v, w);
      CommitSound(StartLog(disk), v, t, w);
      while |disk.wal| > 1
        invariant Sound(disk, v, w) && disk.wal != [] && NewestLog(disk) == [] && Traced(t, v, w)
        decreases |disk.wal|
      {
        StandingLogRemoved(memory, disk, Counts(), 0, kept, pending, v, w);
        CommitSound(RemoveLog(disk, 0), v, t, w);
      }
    }

    /** Delete every stored file the manifest does not reference, in any order. */
    method CollectGarbage(ghost v: Worlds, ghost t: seq<Point>, ghost w: Mark)
      requires Sound(disk, v, w) && Traced(t, v, w)
      modifies this`disk, this`trace
      ensures Sound(disk, v, w) && Traced(t, v, w)
      ensures Orphans(disk) == {} && disk.wal == old(disk).wal && Recover(disk) == old(Recover(disk))
      ensures Load(disk) == Load(old(disk)) && Current(disk) == Current(old(disk))
    {
      hide Linked, Standing, Traced, Recover, Orphans;
      var files := Orphans(disk);
      while files != {}
        invariant Sound(disk, v, w) && Traced(t, v, w)
        invariant files == Orphans(disk) && disk.wal == old(disk).wal && Recover(disk) == old(Recover(disk))
        invariant Load(disk) == Load(old(disk)) && Current(disk) == Current(old(disk))
        decreases files
      {
        var f :| f in files;
        StandingRemove(memory, disk, Counts(), f, kept, pending, v, w);
        CommitSound(Remove(disk, f), v, t, w);
        files := files - {f};
      }
    }

    /** Prepare every collection and publish the manifest that covers the whole log. */
    method PublishSeals(cids: seq<nat>, ghost v: Worlds, ghost t: seq<Point>, ghost w: Mark) returns (plan: Plan)
      requires Valid() && t == trace && nextLsn > floor + 1 && v == Worlds() && w == Mark(memory.cols, floor, Checkpointing)
      requires forall cid :: cid in cids <==> cid in collections
      requires forall i, j :: 0 <= i < j < |cids| ==> cids[i] < cids[j]
      modifies this`disk, this`trace, this`pending, this`kept, this`nextSeg, this`version, this`floor
      ensures (forall cid :: cid in collections ==> cid in plan) && (forall cid :: cid in memory.cols ==> cid in plan)
      ensures Linked() && Standing(SealedCatalog(memory, plan), disk, Counts(), kept, pending, v, w)
      ensures nextLsn == floor + 1 && floor != w.floor && Traced(t, v, w) && disk.wal == old(disk).wal
    {
      hide Linked, CatalogOk, InStep, Tracks, Leaves, Exact, Traced, Marked, Meaning, HalfAdvanced, AllReady, EntriesFor, Install, SealedCatalog,
        DirectoryOf, WellNamed, Current, PointOk, Follows, Recover, Standing;
      ghost var d0, n0 := disk, Counts();
      MarkedAtOnce(w);
      LinkedKeys();
      WellNamedMemory();
      plan := PrepareAll(cids, d0, n0, v, t, w);
      AllPlanned(memory, disk, plan, nextSeg);
      var entries := PlannedEntries(cids, plan);
      SealedPoint(memory, d0, disk, n0, nextSeg, plan, cids, entries, v, w);
      var m := Manifest(version + 1, nextLsn - 1, nextCid, nextSeg, entries);
      InstallManifest(m, [], Acknowledged(), v, t, w);
      version := version + 1;
      floor := nextLsn - 1;
    }

    /** Publish, then bring memory up to the published manifest. */
    method Seal(ghost v: Worlds, ghost t: seq<Point>, ghost w: Mark)
      requires Valid() && t == trace && nextLsn > floor + 1 && v == Worlds() && w == Mark(memory.cols, floor, Checkpointing)
      modifies this`disk, this`trace, this`pending, this`kept, this`nextSeg, this`version, this`floor, this`memory, collections.Values
      ensures Sound(disk, v, w) && disk.wal != [] && nextLsn == floor + 1 && floor != w.floor && Traced(t, v, w)
    {
      hide Linked, Standing, Steady, Exact, Traced, Meaning, SealedCatalog;
      var cids := Sorting.Ascending(collections.Keys);
      var plan := PublishSeals(cids, v, t, w);
      CommitSealed(cids, plan);
    }

    // ---- compaction --------------------------------------------------------

    /** The manifest entries of a compaction, in id order. */
    method CompactedEntries(cids: seq<nat>, target: nat, seg: Sealed) returns (entries: seq<CollEntry>)
      requires Linked()
      requires forall cid :: cid in cids <==> cid in collections
      requires forall i, j :: 0 <= i < j < |cids| ==> cids[i] < cids[j]
      ensures CompactEntries(entries, cids, memory, target, seg)
    {
      hide EntryFor;
      entries := [];
      for i := 0 to |cids|
        invariant |entries| == i
        invariant forall j :: 0 <= j < i ==> cids[j] in memory.cols
        invariant forall j :: 0 <= j < i ==> entries[j] == EntryFor(cids[j], memory.cols[cids[j]], SegmentsAfter(memory, cids[j], target, seg))
      {
        assert cids[i] in cids;
        var c := collections[cids[i]].View();
        entries := entries + [EntryFor(cids[i], c, if cids[i] == target then [seg] else c.sealed)];
      }
    }

    method ReplaceOne(cid: nat, seg: Sealed)
      requires Linked() && cid in collections
      modifies this`memory, collections[cid]
      ensures Linked()
      ensures cid in old(memory).cols && memory == CompactedCatalog(old(memory), cid, seg)
      ensures collections[cid].sealed == [seg]
      ensures forall x :: x in collections && x != cid ==> collections[x].View() == old(collections[x].View())
    {
      hide Compacted;
      ghost var c := memory.cols[cid];
      CompactedSegments(c, seg);
      collections[cid].Replace(seg);
      OthersUntouched(cid);
      Relink(cid, Compacted(c, seg));
    }

    /** The live sealed rows of a collection as one segment file. */
    method MergeCollection(cid: nat) returns (file: SegFile)
      requires Steady() && cid in collections
      ensures cid in memory.cols && Merges(memory.cols[cid], file) && Indexed(file, memory.cols[cid].desc.filterable)
    {
      hide Linked, CatalogOk, Tracks, Leaves, LiveList, Merges, Indexed, Collections.Valid;
      LinkedHas(cid);
      CatalogHas(memory, cid);
      var list := collections[cid].LiveLocsSorted();
      file := MergeRows(collections[cid].View(), list);
    }

    /** Write the merged segment; no manifest lists it yet. */
    method WriteMerged(cid: nat, file: SegFile, ghost v: Worlds, ghost t: seq<Point>, ghost w: Mark)
      requires Sound(disk, v, w) && Traced(t, v, w)
      modifies this`disk, this`trace, this`nextSeg
      ensures Linked() && disk == WriteSeg(old(disk), SegKey(cid, old(nextSeg)), file) && nextSeg == old(nextSeg) + 1
      ensures PointOk(Point(disk, |pending|), v, w) && Traced(t, v, w) && Current(disk) == Current(old(disk))
    {
      hide Standing, Linked, Traced, PointOk, WriteSeg, Current;
      StandingSegment(memory, disk, Counts(), cid, file, kept, pending, v, w);
      var key := SegKey(cid, nextSeg);
      nextSeg := nextSeg + 1;
      CommitSound(WriteSeg(disk, key, file), v, t, w);
    }

    /** What the manifest of a merge lists, and why it may be published. */
    method ListMerged(cid: nat, file: SegFile, ghost v: Worlds, ghost w: Mark) returns (entries: seq<CollEntry>)
      requires Sound(disk, v, w) && cid in collections && collections[cid].sealed != [] && (w.care == Checkpointing || w.care == Compacting)
      requires cid in memory.cols && Merges(memory.cols[cid], file) && Indexed(file, memory.cols[cid].desc.filterable)
      ensures Merged(memory, CompactedCatalog(memory, cid, Sealed(nextSeg, file, {})), disk, WriteSeg(disk, SegKey(cid, nextSeg), file),
                     CompactionManifest(Counts(), entries), Counts(), kept, pending, v, w)
    {
      hide Standing, Linked, CompactEntries, Install, CompactedCatalog, Merges, Indexed, WriteSeg, PointOk, Recover, Current;
      LinkedHas(cid);
      var seg := Sealed(nextSeg, file, {});
      var cids := Sorting.Ascending(collections.Keys);
      entries := CompactedEntries(cids, cid, seg);
      StandingMerged(memory, disk, Counts(), cid, file, cids, entries, kept, pending, v, w);
      StandingPoint(CompactedCatalog(memory, cid, seg), Install(WriteSeg(disk, SegKey(cid, nextSeg), file), CompactionManifest(Counts(), entries)),
        Counts().(nextSeg := nextSeg + 1, version := version + 1), kept, pending, v, w);
    }

    /** Write the merged segment and publish the manifest that lists it; `k` is what memory is to
        become. */
    method PublishCompaction(cid: nat, file: SegFile, ghost k: Catalog, ghost v: Worlds, ghost t: seq<Point>, ghost w: Mark)
      requires Sound(disk, v, w) && cid in collections && collections[cid].sealed != [] && (w.care == Checkpointing || w.care == Compacting)
      requires cid in memory.cols && Merges(memory.cols[cid], file) && Indexed(file, memory.cols[cid].desc.filterable) && Traced(t, v, w)
      requires k == CompactedCatalog(memory, cid, Sealed(nextSeg, file, {}))
      modifies this`disk, this`trace, this`pending, this`kept, this`nextSeg, this`version
      ensures Linked() && Standing(k, disk, Counts(), kept, pending, v, w) && (memory == old(Recover(disk)) ==> k == Recover(disk))
      ensures Traced(t, v, w) && version == old(version) + 1 && disk.wal == old(disk).wal
    {
      hide Sound, Standing, Linked, Traced, Install, CompactedCatalog, Merges, Indexed, WriteSeg, PointOk, Recover, Current;
      var entries := ListMerged(cid, file, v, w);
      WriteMerged(cid, file, v, t, w);
      InstallManifest(Manifest(version + 1, floor, nextCid, nextSeg, entries), pending, kept, v, t, w);
      version := version + 1;
    }

    /** The segments of every other collection are as they were. */
    twostate predicate OnlyMerged(cid: nat)
      reads this`collections, collections.Values
    {
      collections == old(collections) && forall x :: x in collections && x != cid ==> collections[x].sealed == old(collections[x].sealed)
    }

    /** One segment, without dead rows. */
    predicate MergedAs(cid: nat, segId: nat)
      reads this`collections, collections.Values
    {
      && cid in collections && |collections[cid].sealed| == 1
      && collections[cid].sealed[0].segId == segId && collections[cid].sealed[0].dead == {}
    }

    /** Merge a collection's live sealed rows; the rows of the current window stay in
        the log, whose replay floor does not move. */
    method MergeSegments(cid: nat, ghost v: Worlds, ghost t: seq<Point>, ghost w: Mark)
      requires Sound(disk, v, w) && cid in collections && collections[cid].sealed != []
      requires (w.care == Checkpointing || w.care == Compacting) && Traced(t, v, w)
      modifies this`disk, this`trace, this`pending, this`kept, this`nextSeg, this`version, this`memory, collections[cid]
      ensures Sound(disk, v, w) && Traced(t, v, w) && (old(memory) == old(Recover(disk)) ==> memory == Recover(disk))
      ensures version == old(version) + 1 && disk.wal == old(disk).wal && MergedAs(cid, old(nextSeg)) && OnlyMerged(cid)
    {
      hide Standing, Linked, Traced, CompactedCatalog, Merges, Indexed, Recover, Steady;
      SoundFacts(v, w);
      LinkedHas(cid);
      var file := MergeCollection(cid);
      var seg := Sealed(nextSeg, file, {});
      PublishCompaction(cid, file, CompactedCatalog(memory, cid, seg), v, t, w);
      ReplaceOne(cid, seg);
      forall x | x in collections && x != cid ensures collections[x].sealed == old(collections[x].sealed) {
        assert collections[x].View() == old(collections[x].View());
      }
    }

    /** Merge, then delete what the manifest no longer lists. */
    method CompactCollection(cid: nat, ghost v: Worlds, ghost t: seq<Point>, ghost w: Mark)
      requires Sound(disk, v, w) && cid in collections && collections[cid].sealed != []
      requires (w.care == Checkpointing || w.care == Compacting) && Traced(t, v, w)
      modifies this`disk, this`trace, this`pending, this`kept, this`nextSeg, this`version, this`memory, collections.Values
      ensures Sound(disk, v, w) && Traced(t, v, w) && (old(memory) == old(Recover(disk)) ==> memory == Recover(disk))
      ensures version == old(version) + 1 && Orphans(disk) == {} && disk.wal == old(disk).wal
      ensures OnlyMerged(cid) && MergedAs(cid, old(nextSeg))
    {
      hide Sound, Traced, Orphans, Recover;
      MergeSegments(cid, v, t, w);
      CollectGarbage(v, t, w);
    }

    /** The sealed segments of every collection. */
    ghost function SealedOf(): map<nat, seq<Sealed>>
      reads this`collections, collections.Values
    {
      map cid | cid in collections :: collections[cid].sealed
    }

    method CompactEach(cids: seq<nat>, ghost v: Worlds, ghost t: seq<Point>, ghost w: Mark)
      requires Sound(disk, v, w) && w.care == Compacting && Traced(t, v, w)
      requires (forall i :: 0 <= i < |cids| ==> cids[i] in collections) && forall i, j :: 0 <= i < j < |cids| ==> cids[i] < cids[j]
      modifies this`disk, this`trace, this`pending, this`kept, this`nextSeg, this`version, this`memory, collections.Values
      ensures Sound(disk, v, w) && Traced(t, v, w) && disk.wal == old(disk).wal && (old(memory) == old(Recover(disk)) ==> memory == Recover(disk))
      ensures Thinned(old(SealedOf()), SealedOf(), cids)
    {
      hide Sound, Traced, Reclaimable, Recover, Thinned;
      ghost var m := SealedOf();
      ThinnedNone(m);
      assert cids[..0] == [];
      for i := 0 to |cids|
        invariant Sound(disk, v, w) && Traced(t, v, w) && disk.wal == old(disk).wal
        invariant old(memory) == old(Recover(disk)) ==> memory == Recover(disk)
        invariant Thinned(m, SealedOf(), cids[..i])
      {
        ghost var before := SealedOf();
        if Reclaimable(collections[cids[i]].sealed) {
          ReclaimableNonEmpty(collections[cids[i]].sealed);
          CompactCollection(cids[i], v, t, w);
          MergedIsReclaimed(collections[cids[i]].sealed);
        }
        ThinnedMore(m, before, SealedOf(), cids, i);
      }
      assert cids[..|cids|] == cids;
    }

    /** Compact every collection with space to reclaim, and no other. */
    method Compact()
      requires Valid()
      modifies this`disk, this`trace, this`pending, this`kept, this`nextSeg, this`version, this`memory, collections.Values
      ensures Valid() && Worlds() == old(Worlds()) && published == old(published)
      ensures old(trace) <= trace && Maintained(trace[|old(trace)|..], old(Worlds()), old(floor))
      ensures var w := Mark(old(memory).cols, old(floor), Compacting); Marked(memory.cols, floor, w) && AllMarked(trace[|old(trace)|..], w)
      ensures forall cid :: cid in SealedOf() ==> |SealedOf()[cid]| <= 1 && forall i :: 0 <= i < |SealedOf()[cid]| ==> SealedOf()[cid][i].dead == {}
      ensures forall cid :: cid in SealedOf() && !Reclaimable(old(SealedOf())[cid]) ==> SealedOf()[cid] == old(SealedOf())[cid]
    {
      hide Valid, Sound, AllRecover, Marked, Meaning, Reclaimable, Recover, AllFit, Thinned, AllMarked, Maintained;
      ghost var t, v, m := trace, Worlds(), SealedOf();
      ghost var w := Mark(memory.cols, floor, Compacting);
      MarkedAtOnce(w);
      TracedStart(v, w);
      ValidIsSound(w);
      var cids := Sorting.Ascending(collections.Keys);
      assert forall i :: 0 <= i < |cids| ==> cids[i] in cids;
      CompactEach(cids, v, t, w);
      SoundIsValid(v, w);
      MaintenanceSteps(trace[|t|..], v, w);
      ThinnedAll(m, SealedOf(), cids);
    }

    /** Eight segments, or at least half of the sealed rows dead. */
    method NeedsCompaction(cid: nat) returns (needed: bool)
      requires cid in collections
      ensures needed <==> OverThreshold(collections[cid].sealed)
      ensures var segs := collections[cid].sealed;
        needed <==> segs != [] && (|segs| >= 8 || (RowTotal(segs) > 0 && DeadTotal(segs) * 2 >= RowTotal(segs)))
    {
      var segs := collections[cid].sealed;
      if segs == [] { return false; }
      var total, dead := 0, 0;
      assert segs[..|segs|] == segs;
      for i := 0 to |segs|
        invariant total == RowTotal(segs[..i]) && dead == DeadTotal(segs[..i])
      {
        assert segs[..i + 1][..i] == segs[..i];
        total := total + |segs[i].file.ids|;
        dead := dead + |segs[i].dead|;
      }
      return |segs| >= COMPACT_MIN_SEGMENTS || (total > 0 && dead * 2 >= total);
    }

    /** The first collection over the threshold, in id order. */
    method FindOver() returns (found: Option<nat>)
      ensures found.Some? ==> found.value in collections && FirstOver(SealedOf(), found.value)
      ensures found.None? ==> forall cid :: cid in collections ==> !OverThreshold(collections[cid].sealed)
    {
      hide OverThreshold;
      var cids := Sorting.Ascending(collections.Keys);
      for i := 0 to |cids|
        invariant forall j :: 0 <= j < i ==> cids[j] in collections && !OverThreshold(collections[cids[j]].sealed)
      {
        assert cids[i] in cids;
        var needed := NeedsCompaction(cids[i]);
        if needed {
          OnlyFirst(SealedOf(), cids, i);
          return Some(cids[i]);
        }
      }
      assert forall cid :: cid in collections ==> cid in cids;
      return None;
    }

    /** Compact the first collection over the threshold, in id order, and no more. */
    method AutoCompact(ghost v: Worlds, ghost t: seq<Point>, ghost w: Mark)
      requires Sound(disk, v, w) && w.care == Checkpointing && Traced(t, v, w)
      modifies this`disk, this`trace, this`pending, this`kept, this`nextSeg, this`version, this`memory, collections.Values
      ensures Sound(disk, v, w) && Traced(t, v, w)
      ensures disk.wal == old(disk).wal && (old(Orphans(disk)) == {} ==> Orphans(disk) == {})
      ensures version == old(version) + if old(exists cid :: cid in collections && OverThreshold(collections[cid].sealed)) then 1 else 0
      ensures forall cid :: cid in collections ==>
        if FirstOver(old(SealedOf()), cid) then |collections[cid].sealed| == 1 && collections[cid].sealed[0].dead == {}
        else collections[cid].sealed == old(collections[cid].sealed)
    {
      hide Sound, Traced, OverThreshold, Orphans, Recover, FirstOver;
      var found := FindOver();
      match found {
        case Some(cid) =>
          FirstIsOver(SealedOf(), cid);
          CompactCollection(cid, v, t, w);
        case None =>
          NoneFirst(SealedOf());
      }
    }

    /** Checkpoint: fold tombstones, seal buffers, publish, rotate, reclaim. Until the manifest is
        published every durable step recovers as before; from then on to memory's state. */
    method Checkpoint()
      requires Valid()
      modifies this`disk, this`trace, this`pending, this`kept, this`nextSeg, this`version, this`floor, this`memory, collections.Values
      ensures Valid() && Worlds() == AtRest(old(Acknowledged())) && published == old(published)
      ensures old(trace) <= trace && Maintained(trace[|old(trace)|..], old(Worlds()), old(floor))
      ensures floor == nextLsn - 1
      ensures var w := Mark(old(memory).cols, old(floor), Checkpointing); Marked(memory.cols, floor, w) && AllMarked(trace[|old(trace)|..], w)
      ensures if old(nextLsn) > old(floor) + 1 then |disk.wal| == 1 && Orphans(disk) == {} else trace == old(trace)
    {
      hide Valid, Sound, AllRecover, Marked, Meaning, Recover, Orphans;
      ghost var t, v := trace, Worlds();
      ghost var w := Mark(memory.cols, floor, Checkpointing);
      MarkedAtOnce(w);
      TracedStart(v, w);
      ValidIsSound(w);
      var last := nextLsn - 1;
      if last > floor {
        Seal(v, t, w);
        RotateWal(v, t, w);
        CollectGarbage(v, t, w);
        AutoCompact(v, t, w);
      }
      SoundIsValid(v, w);
      MaintenanceSteps(trace[|t|..], v, w);
    }
  }

  /** Whether every vector of a batch has the collection's dimension. */
  method AllOfSize(records: seq<(Id, Row)>, dim: nat) returns (ok: bool)
    ensures ok <==> forall i :: 0 <= i < |records| ==> |records[i].1.vector| == dim
  {
    for i := 0 to |records|
      invariant forall j :: 0 <= j < i ==> |records[j].1.vector| == dim
    {
      if |records[i].1.vector| != dim { return false; }
    }
    return true;
  }

  lemma TrailMeaning(k: Catalog, h: Catalog)
    requires AllTrail(k, h)
    ensures Meaning(k).names == Meaning(h).names && forall cid :: cid in Meaning(k).tables <==> cid in Meaning(h).tables
    ensures forall cid :: cid in Meaning(k).tables ==> Meaning(k).tables[cid].name == Meaning(h).tables[cid].name && Meaning(k).tables[cid].desc == Meaning(h).tables[cid].desc
  {
    hide Contents;
    forall cid | cid in Meaning(k).tables ensures Meaning(k).tables[cid].name == Meaning(h).tables[cid].name && Meaning(k).tables[cid].desc == Meaning(h).tables[cid].desc {
      assert Trails(k.cols[cid], h.cols[cid]);
    }
  }

  lemma BatchOps(s: State, cid: nat, records: seq<(Id, Row)>)
    ensures var ops := Ops(s, Commands.UpsertBatch(cid, records));
      if records == [] || cid !in s.ledger.tables then ops == []
      else if forall i :: 0 <= i < |records| ==> |records[i].1.vector| == s.ledger.tables[cid].desc.dim then ops == UpsertOps(cid, records)
      else ops == []
  {
    if records != [] && cid !in s.ledger.tables { assert !RightSize(s.ledger, cid, records[0].1); }
    if cid in s.ledger.tables {
      forall i | 0 <= i < |records| ensures RightSize(s.ledger, cid, records[i].1) <==> |records[i].1.vector| == s.ledger.tables[cid].desc.dim {}
    }
  }

  const COMPACT_MIN_SEGMENTS: nat := 8

  predicate OverThreshold(segs: seq<Sealed>) {
    segs != [] && (|segs| >= COMPACT_MIN_SEGMENTS || (RowTotal(segs) > 0 && 2 * DeadTotal(segs) >= RowTotal(segs)))
  }

  lemma CompactedSegments(c: Coll, seg: Sealed)
    ensures Compacted(c, seg).sealed == [seg]
  {}

  /** More than one segment, or a segment with rows dead in its bitmap. */
  predicate Reclaimable(segs: seq<Sealed>) {
    |segs| > 1 || exists i :: 0 <= i < |segs| && |segs[i].dead| > 0
  }

  lemma NothingToReclaim(segs: seq<Sealed>)
    requires !Reclaimable(segs)
    ensures |segs| <= 1 && forall i :: 0 <= i < |segs| ==> segs[i].dead == {}
  {}

  /** The collections done have nothing to reclaim; those with nothing to reclaim and those
      not done are as they were. */
  ghost predicate Thinned(m: map<nat, seq<Sealed>>, now: map<nat, seq<Sealed>>, done: seq<nat>) {
    forall cid :: cid in m && cid in now ==>
      (cid in done ==> !Reclaimable(now[cid])) && (cid !in done || !Reclaimable(m[cid]) ==> now[cid] == m[cid])
  }

  lemma ThinnedNone(m: map<nat, seq<Sealed>>)
    ensures Thinned(m, m, [])
  {}

  lemma ThinnedMore(m: map<nat, seq<Sealed>>, before: map<nat, seq<Sealed>>, after: map<nat, seq<Sealed>>, cids: seq<nat>, i: nat)
    requires i < |cids| && m.Keys == before.Keys == after.Keys && Thinned(m, before, cids[..i]) && cids[i] in m && cids[i] !in cids[..i]
    requires !Reclaimable(after[cids[i]]) && (!Reclaimable(before[cids[i]]) ==> after[cids[i]] == before[cids[i]])
    requires forall cid :: cid in m && cid != cids[i] ==> after[cid] == before[cid]
    ensures Thinned(m, after, cids[..i + 1])
  {
    hide Reclaimable;
    assert cids[..i + 1] == cids[..i] + [cids[i]];
  }

  lemma ThinnedAll(m: map<nat, seq<Sealed>>, now: map<nat, seq<Sealed>>, cids: seq<nat>)
    requires m.Keys == now.Keys && Thinned(m, now, cids) && forall cid :: cid in m ==> cid in cids
    ensures forall cid :: cid in now ==> |now[cid]| <= 1 && forall i :: 0 <= i < |now[cid]| ==> now[cid][i].dead == {}
    ensures forall cid :: cid in now && !Reclaimable(m[cid]) ==> now[cid] == m[cid]
  {
    hide Reclaimable;
    forall cid | cid in now ensures |now[cid]| <= 1 && forall i :: 0 <= i < |now[cid]| ==> now[cid][i].dead == {} { NothingToReclaim(now[cid]); }
  }

  /** The first collection, by id, that is over the threshold. */
  ghost predicate FirstOver(segs: map<nat, seq<Sealed>>, cid: nat) {
    cid in segs && OverThreshold(segs[cid]) && forall x :: x in segs && x < cid ==> !OverThreshold(segs[x])
  }

  lemma OnlyFirst(segs: map<nat, seq<Sealed>>, cids: seq<nat>, i: nat)
    requires i < |cids| && (forall x :: x in cids <==> x in segs) && (forall a, b :: 0 <= a < b < |cids| ==> cids[a] < cids[b])
    requires OverThreshold(segs[cids[i]]) && forall j :: 0 <= j < i ==> !OverThreshold(segs[cids[j]])
    ensures FirstOver(segs, cids[i])
  {
    hide OverThreshold;
    forall x | x in segs && x < cids[i] ensures !OverThreshold(segs[x]) {
      assert x in cids;
      var j :| 0 <= j < |cids| && cids[j] == x;
    }
  }

  lemma FirstIsOver(segs: map<nat, seq<Sealed>>, cid: nat)
    requires FirstOver(segs, cid)
    ensures cid in segs && OverThreshold(segs[cid]) && segs[cid] != [] && forall x :: FirstOver(segs, x) <==> x == cid
  {}

  lemma NoneFirst(segs: map<nat, seq<Sealed>>)
    requires forall cid :: cid in segs ==> !OverThreshold(segs[cid])
    ensures forall cid :: !FirstOver(segs, cid)
  {}

  /** The totals count every segment, wherever the list is cut. */
  lemma {:induction false} TotalsAdd(a: seq<Sealed>, b: seq<Sealed>)
    ensures RowTotal(a + b) == RowTotal(a) + RowTotal(b) && DeadTotal(a + b) == DeadTotal(a) + DeadTotal(b)
  {
    if b == [] {
      assert a + b == a;
    } else {
      var n := |b| - 1;
      TotalsAdd(a, b[..n]);
      assert (a + b)[..|a + b| - 1] == a + b[..n];
    }
  }

  lemma TotalsOfOne(s: Sealed)
    ensures RowTotal([s]) == |s.file.ids| && DeadTotal([s]) == |s.dead|
  {
    assert [s][..0] == [];
  }

  lemma ReclaimableNonEmpty(segs: seq<Sealed>)
    requires Reclaimable(segs)
    ensures segs != []
  {}

  lemma MergedIsReclaimed(segs: seq<Sealed>)
    requires |segs| == 1 && segs[0].dead == {}
    ensures !Reclaimable(segs)
  {}

  function RowTotal(segs: seq<Sealed>): nat {
    if segs == [] then 0 else RowTotal(segs[..|segs| - 1]) + |segs[|segs| - 1].file.ids|
  }

  function DeadTotal(segs: seq<Sealed>): nat {
    if segs == [] then 0 else DeadTotal(segs[..|segs| - 1]) + |segs[|segs| - 1].dead|
  }

  lemma MemoryIs(k: Catalog, d: Disk, n: Counters)
    requires InStep(k, d, n)
    ensures k == Recover(d) && n.floor == Current(d).floor
  {}

  lemma FlattenNothing()
    ensures Flatten([]) == []
  {}

  lemma AppendFits(fits: Entry -> bool, d: Disk, e: Entry)
    requires d.wal != [] && AllFit(fits, NewestLog(d)) && fits(e)
    ensures Append(d, e).wal != [] && AllFit(fits, NewestLog(Append(d, e)))
  {}

  lemma TrackedFloor(k: Catalog, d: Disk, u: nat, n: Counters)
    requires Tracks(k, d, u, n)
    ensures n.floor < n.nextLsn
  {
    hide DiskOk, Recover, RecoverNextCid, AllTrail;
    TracksFull(k, d, u, n);
  }

  lemma TrackedTrail(k: Catalog, d: Disk, u: nat, n: Counters)
    requires Tracks(k, d, u, n)
    ensures AllTrail(k, Recover(d))
  {
    hide InStep, Recover, AllTrail;
    TracksFull(k, d, u, n);
  }

  lemma FollowsStep(k: Catalog, d: Disk, n: Counters)
    requires Follows(k, d, n)
    ensures InStep(Recover(d), d, n)
  {}

  lemma TracksLater(k: Catalog, d: Disk, u: nat, n: Counters, lsn: nat)
    requires Tracks(k, d, u, n) && lsn >= n.nextLsn
    ensures Tracks(k, d, u, n.(nextLsn := lsn))
  {
    hide Follows, Cut;
    forall j: nat | j <= u ensures Follows(k, Cut(d, j), n.(nextLsn := lsn)) { FollowsLater(k, Cut(d, j), n, lsn); }
  }

  lemma TwoSteps(t: seq<Point>, trace: seq<Point>, p: Point, q: Point, w: Mark)
    requires trace == t + [p, q] && PointMarked(p, w) && PointMarked(q, w)
    ensures t <= trace && trace[|t|..] == [p, q] && AllMarked(trace[|t|..], w)
  {
    hide PointMarked;
  }

  lemma {:induction false} UpsertsMarked(k: Catalog, ops: seq<Op>, floor: nat, w: Mark)
    requires w.care == Writing && Marked(k.cols, floor, w) && forall i :: 0 <= i < |ops| ==> ops[i].Upsert?
    ensures Marked(ApplyAll(k, ops).cols, floor, w)
  {
    hide Apply, Grown;
    if ops != [] {
      var n := |ops| - 1;
      UpsertsMarked(k, ops[..n], floor, w);
      UpsertGrown(w.cols, ApplyAll(k, ops[..n]), ops[n]);
    }
  }

  /** The manifest of a prepared checkpoint may be published. */
  lemma SealedPoint(k: Catalog, d0: Disk, d: Disk, n: Counters, nextSeg: nat, plan: Plan, cids: seq<nat>, entries: seq<CollEntry>, v: Worlds, w: Mark)
    requires CatalogOk(k) && Tracks(k, d0, |v.pending|, n) && Leaves(d0, v.kept, v.pending) && HalfAdvanced(k, d0, d)
    requires w.care == Checkpointing && w.floor == n.floor && Marked(k.cols, n.floor, w) && v.now == State(Meaning(k), n.nextCid)
    requires AllReady(k, d, plan, nextSeg) && n.nextSeg <= nextSeg && n.nextLsn > n.floor + 1 && EntriesFor(entries, cids, k, plan)
    requires WellNamed(DirectoryOf(k)) && forall cid :: cid in k.cols ==> cid < n.nextCid
    ensures forall cid :: cid in k.cols ==> cid in plan
    ensures var m := CheckpointManifest(n, nextSeg, entries);
      && d.wal == d0.wal && m.version != Current(d).version && PointOk(Point(d, |v.pending|), v, w) && PointOk(Point(Install(d, m), 0), v, w)
      && Standing(SealedCatalog(k, plan), Install(d, m), Counters(n.nextLsn, n.nextCid, nextSeg, n.version + 1, n.nextLsn - 1), v.now, [], v, w)
  {
    AllPlanned(k, d, plan, nextSeg);
    hide CatalogOk, InStep, Tracks, Leaves, Marked, Meaning, HalfAdvanced, AllReady, EntriesFor, Install, SealedCatalog, DirectoryOf, WellNamed,
      Current, PointOk, Follows, Recover, Standing, CheckpointManifest;
    TracksFull(k, d0, |v.pending|, n);
    FollowsStep(k, d0, n);
    CheckpointPublishes(k, Recover(d0), d0, d, n, nextSeg, plan, cids, entries);
    AdvancedPoint(k, d0, d, n, v, w);
    AdvancedSame(k, d0, d, 0);
    SealedMarked(k, plan, n.nextLsn - 1, w);
    PublishedPoint(SealedCatalog(k, plan), Install(d, CheckpointManifest(n, nextSeg, entries)),
      Counters(n.nextLsn, n.nextCid, nextSeg, n.version + 1, n.nextLsn - 1), v, w);
  }

  /** The live active rows as a segment file, in ascending id order. */
  method SealRows(c: Coll) returns (file: SegFile)
    requires Collections.Valid(c)
    ensures SealsActive(c, file) && Indexed(file, c.desc.filterable)
  {
    hide Shadowed, SegmentsOk, WindowOk, Indexed;
    var ids := SortedKeys(c.index.Keys);
    var rows: seq<Row> := [];
    for i := 0 to |ids|
      invariant |rows| == i
      invariant forall j :: 0 <= j < i ==> ids[j] in c.index && c.index[ids[j]] < |c.active| && rows[j] == c.active[c.index[ids[j]]]
    {
      assert ids[i] in ids;
      rows := rows + [c.active[c.index[ids[i]]]];
    }
    AscendingDistinct(ids);
    file := WriteSegment(ids, rows, c.desc.filterable);
  }
}
