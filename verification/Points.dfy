/** Durable steps: what a crash right after each of them, with or without the records not yet
    synced, recovers to (the durability contract of crates/quiver-core/src/store.rs). */
module Points {
  import opened ByteStrings
  import opened SecondaryIndex
  import opened Segments
  import opened Collections
  import opened CollectionLayout
  import opened Replay
  import opened WindowReplay
  import opened Disks
  import opened DiskSteps
  import opened Publishing
  import opened Checkpoints
  import opened Housekeeping
  import opened Marks
  import opened Cuts
  import opened Survivors
  import opened Shadows
  import opened Compactions
  import opened Commands

  /** A disk from which a crash recovers to `s`. */
  ghost predicate Recovers(d: Disk, s: State) { DiskOk(d) && Durable(d) == s }

  /** The disk after a durable step, of whose newest log file the last `loose` records are not
      synced. */
  datatype Point = Point(disk: Disk, loose: nat)

  /** What a crash at a point leaves, when at most `lost` records are lost. */
  function Remains(p: Point, lost: nat): Disk { Cut(p.disk, Min(lost, p.loose)) }

  /** Recovery yields `kept` and the surviving part of `pending`, whichever that is. */
  ghost predicate Leaves(d: Disk, kept: State, pending: seq<Op>) {
    && Cuttable(d, |pending|)
    && forall j: nat :: j <= |pending| ==> Recovers(Cut(d, j), StateReplay(kept, pending[..|pending| - j]))
  }

  ghost predicate LeftAt(p: Point, kept: State, pending: seq<Op>) { p.loose == |pending| && Leaves(p.disk, kept, pending) }

  /** Every disk a crash at the point may leave, seen from a mark. */
  ghost predicate PointMarked(p: Point, w: Mark) { forall j: nat :: j <= p.loose ==> DiskMarked(Cut(p.disk, j), w) }

  /** A step of maintenance. It logs nothing: while the floor is the mark's, the log replays as
      before; once it has moved, memory's state is durable. */
  ghost predicate PointOk(p: Point, v: Worlds, w: Mark) {
    && (if Current(p.disk).floor == w.floor then LeftAt(p, v.kept, v.pending) else LeftAt(p, v.now, []))
    && PointMarked(p, w)
  }

  ghost predicate AllRecover(steps: seq<Point>, v: Worlds, w: Mark) {
    forall i :: 0 <= i < |steps| ==> PointOk(steps[i], v, w)
  }

  lemma AllRecoverExtend(steps: seq<Point>, p: Point, v: Worlds, w: Mark)
    requires AllRecover(steps, v, w) && PointOk(p, v, w)
    ensures AllRecover(steps + [p], v, w)
  {
    hide PointOk;
  }

  lemma NoneRecover(v: Worlds, w: Mark)
    ensures AllRecover([], v, w)
  {}

  ghost predicate AllMarked(steps: seq<Point>, w: Mark) {
    forall i :: 0 <= i < |steps| ==> PointMarked(steps[i], w)
  }

  lemma AllMarkedExtend(steps: seq<Point>, p: Point, w: Mark)
    requires AllMarked(steps, w) && PointMarked(p, w)
    ensures AllMarked(steps + [p], w)
  {
    hide PointMarked;
  }

  lemma NoneMarked(w: Mark)
    ensures AllMarked([], w)
  {}

  /** The steps of a maintenance command that began at floor `floor`. */
  ghost predicate Maintained(steps: seq<Point>, v: Worlds, floor: nat) {
    forall i :: 0 <= i < |steps| ==>
      if Current(steps[i].disk).floor == floor then LeftAt(steps[i], v.kept, v.pending) else LeftAt(steps[i], v.now, [])
  }

  lemma MaintenanceSteps(steps: seq<Point>, v: Worlds, w: Mark)
    requires AllRecover(steps, v, w)
    ensures Maintained(steps, v, w.floor) && AllMarked(steps, w)
  {
    hide LeftAt, PointMarked, Current;
    forall i | 0 <= i < |steps|
      ensures PointMarked(steps[i], w)
      ensures if Current(steps[i].disk).floor == w.floor then LeftAt(steps[i], v.kept, v.pending) else LeftAt(steps[i], v.now, [])
    {
      assert PointOk(steps[i], v, w);
    }
  }

  /** The steps of a writing command: one for each of the `n` records the log takes, and a sync
      if that is all of them. */
  ghost predicate Framed(steps: seq<Point>, v: Worlds, ops: seq<Op>, n: nat) {
    && n <= |ops| && |steps| == (if ops != [] && n == |ops| then n + 1 else n)
    && (forall i :: 0 <= i < n ==> LeftAt(steps[i], v.kept, v.pending + ops[..i + 1]))
    && (|steps| == n + 1 ==> LeftAt(steps[n], StateReplay(v.kept, v.pending + ops), []))
  }

  /** The records before the sync. */
  ghost predicate Frames(steps: seq<Point>, v: Worlds, ops: seq<Op>) {
    |steps| <= |ops| && forall i :: 0 <= i < |steps| ==> LeftAt(steps[i], v.kept, v.pending + ops[..i + 1])
  }

  lemma NoFrames(v: Worlds, ops: seq<Op>)
    ensures Frames([], v, ops) && Framed([], v, ops, 0)
  {}

  lemma FrameTaken(steps: seq<Point>, v: Worlds, ops: seq<Op>, p: Point)
    requires Frames(steps, v, ops) && |steps| < |ops| && LeftAt(p, v.kept, v.pending + ops[..|steps| + 1])
    ensures Frames(steps + [p], v, ops)
  {
    hide LeftAt;
  }

  lemma FramesRefused(steps: seq<Point>, v: Worlds, ops: seq<Op>)
    requires Frames(steps, v, ops) && |steps| < |ops|
    ensures Framed(steps, v, ops, |steps|)
  {
    hide LeftAt;
  }

  lemma FramesSynced(steps: seq<Point>, v: Worlds, ops: seq<Op>, p: Point)
    requires ops != [] && Frames(steps, v, ops) && |steps| == |ops| && LeftAt(p, StateReplay(v.kept, v.pending + ops), [])
    ensures Framed(steps + [p], v, ops, |ops|)
  {
    hide LeftAt;
  }

  /** What a writing command publishes: its operations, if the log took them all. */
  function Logged(s: State, cmd: Command, lsn: nat, fits: Entry -> bool): seq<Op> {
    if Taken(fits, lsn, Ops(s, cmd)) == |Ops(s, cmd)| then Ops(s, cmd) else []
  }

  /** The operations whose records the log takes, of an accepted command or of a refused one. */
  function Recorded(s: State, cmd: Command, lsn: nat, fits: Entry -> bool): seq<Op> { Ops(s, cmd)[..Taken(fits, lsn, Ops(s, cmd))] }

  /** The sequence numbers a completed command uses up: a batch all of its own, refused or not. */
  function Spent(s: State, cmd: Command, lsn: nat, fits: Entry -> bool): nat {
    if cmd.UpsertBatch? then |Ops(s, cmd)| else |Logged(s, cmd, lsn, fits)|
  }

  /** A writing command that began at `v` completed through these steps. */
  ghost predicate Wrote(v: Worlds, v': Worlds, cmd: Command, lsn: nat, fits: Entry -> bool, steps: seq<Point>) {
    v' == Completed(v, cmd, lsn, fits) && Framed(steps, v, Ops(v.now, cmd), Taken(fits, lsn, Ops(v.now, cmd)))
  }

  /** Nothing to log, or a single record that is too large. */
  lemma WroteNothing(v: Worlds, cmd: Command, lsn: nat, fits: Entry -> bool)
    requires !cmd.Checkpoint? && (Ops(v.now, cmd) == [] || (!cmd.UpsertBatch? && !fits(Entry(lsn, Ops(v.now, cmd)[0]))))
    ensures Wrote(v, v, cmd, lsn, fits, []) && Logged(v.now, cmd, lsn, fits) == []
    ensures Spent(v.now, cmd, lsn, fits) == 0 && Recorded(v.now, cmd, lsn, fits) == []
  {
    NoFrames(v, Ops(v.now, cmd));
    assert v.pending + Ops(v.now, cmd)[..0] == v.pending;
  }

  /** A single record the log takes. */
  lemma WroteOne(v: Worlds, cmd: Command, op: Op, lsn: nat, fits: Entry -> bool, p: Point, q: Point)
    requires !cmd.Checkpoint? && Ops(v.now, cmd) == [op] && fits(Entry(lsn, op))
    requires !cmd.UpsertBatch? && LeftAt(p, v.kept, v.pending + [op]) && LeftAt(q, StateReplay(v.kept, v.pending + [op]), [])
    ensures Wrote(v, Worlds(StateApply(v.now, op), StateReplay(v.kept, v.pending + [op]), []), cmd, lsn, fits, [p, q])
    ensures Logged(v.now, cmd, lsn, fits) == [op] && Spent(v.now, cmd, lsn, fits) == 1 && Recorded(v.now, cmd, lsn, fits) == [op]
  {
    hide LeftAt, Ops, StateReplay, StateApply;
    TakenIs(fits, lsn, [op], 1);
    StateReplayOne(v.now, op);
    assert [op][..1] == [op];
  }

  /** A batch the log does not take to its end. */
  lemma WroteSome(v: Worlds, cmd: Command, lsn: nat, fits: Entry -> bool, steps: seq<Point>)
    requires !cmd.Checkpoint?
    requires var ops := Ops(v.now, cmd); var n := Taken(fits, lsn, ops); n < |ops| && Framed(steps, v, ops, n)
    ensures Wrote(v, v.(pending := v.pending + Ops(v.now, cmd)[..Taken(fits, lsn, Ops(v.now, cmd))]), cmd, lsn, fits, steps)
    ensures Logged(v.now, cmd, lsn, fits) == []
  {}

  /** A batch the log takes whole. */
  lemma WroteAll(v: Worlds, cmd: Command, lsn: nat, fits: Entry -> bool, steps: seq<Point>)
    requires !cmd.Checkpoint? && Ops(v.now, cmd) != []
    requires var ops := Ops(v.now, cmd); Taken(fits, lsn, ops) == |ops| && Framed(steps, v, ops, |ops|)
    ensures var ops := Ops(v.now, cmd); Wrote(v, Worlds(StateReplay(v.now, ops), StateReplay(v.kept, v.pending + ops), []), cmd, lsn, fits, steps)
    ensures Logged(v.now, cmd, lsn, fits) == Ops(v.now, cmd)
  {}

  // ---- leaving -------------------------------------------------------------

  lemma LeavesExactly(d: Disk, s: State)
    requires Recovers(d, s)
    ensures Leaves(d, s, [])
  {
    hide Recovers;
    assert Cut(d, 0) == d;
  }

  lemma LeavesAll(d: Disk, kept: State, pending: seq<Op>)
    requires Leaves(d, kept, pending)
    ensures Recovers(d, StateReplay(kept, pending))
  {
    hide Recovers;
    assert Cut(d, 0) == d && pending[..|pending| - 0] == pending;
  }

  /** A sync makes every record durable. */
  lemma LeavesSynced(d: Disk, kept: State, pending: seq<Op>)
    requires Leaves(d, kept, pending)
    ensures Leaves(d, StateReplay(kept, pending), [])
  {
    hide Leaves, Recovers;
    LeavesAll(d, kept, pending);
    LeavesExactly(d, StateReplay(kept, pending));
  }

  /** One more record, not synced yet. */
  lemma LeavesMore(d: Disk, e: Entry, kept: State, pending: seq<Op>)
    requires Leaves(d, kept, pending) && d.wal != [] && Recovers(Append(d, e), StateApply(Durable(d), e.op))
    ensures Leaves(Append(d, e), kept, pending + [e.op])
  {
    hide StateApply, Append, Durable, DiskOk;
    LeavesAll(d, kept, pending);
    var d', more := Append(d, e), pending + [e.op];
    assert more[..|pending|] == pending && more[..|more|] == more;
    CutAppend(d, e, 0);
    forall j: nat | j <= |more| ensures Recovers(Cut(d', j), StateReplay(kept, more[..|more| - j])) {
      if j > 0 {
        if |pending| > 0 { assert |NewestLog(d)| >= |pending|; }
        CutAppend(d, e, j - 1);
        assert more[..|more| - j] == pending[..|pending| - (j - 1)];
      } else {
        assert Cut(d', 0) == d';
      }
    }
  }

  /** A step that changes nothing recovery reads, on every disk that may be left. */
  lemma LeavesSame(d: Disk, d': Disk, kept: State, pending: seq<Op>)
    requires Leaves(d, kept, pending) && Cuttable(d', |pending|)
    requires forall j: nat :: j <= |pending| ==> DiskOk(Cut(d', j)) && Durable(Cut(d', j)) == Durable(Cut(d, j))
    ensures Leaves(d', kept, pending)
  {
    hide DiskOk, Durable, Cut;
  }

  // ---- steps, on every disk that may be left -------------------------------

  /** A step recovery cannot notice. */
  lemma StepUnseen(k: Catalog, d: Disk, d': Disk, n: Counters, kept: State, pending: seq<Op>)
    requires Tracks(k, d, |pending|, n) && Leaves(d, kept, pending) && Cuttable(d', |pending|)
    requires forall j: nat :: j <= |pending| ==> SameReading(Cut(d, j), Cut(d', j)) && Log(Cut(d', j)) == Log(Cut(d, j))
    ensures Tracks(k, d', |pending|, n) && Leaves(d', kept, pending) && Recover(d') == Recover(d)
    ensures Load(d') == Load(d) && Current(d') == Current(d)
  {
    hide Follows, SameReading, Recover, DiskOk, Durable, Leaves, Log, Cut;
    forall j: nat | j <= |pending|
      ensures Follows(k, Cut(d', j), n) && DiskOk(Cut(d', j)) && Durable(Cut(d', j)) == Durable(Cut(d, j))
      ensures Recover(Cut(d', j)) == Recover(Cut(d, j))
    {
      FollowsSame(k, Cut(d, j), Cut(d', j), n);
      FollowsOk(k, Cut(d', j), n);
    }
    LeavesSame(d, d', kept, pending);
    CutNothing(d);
    CutNothing(d');
    SameReadingLoad(d, d');
    SameCurrent(d, d');
  }

  lemma CutNothing(d: Disk)
    ensures Cut(d, 0) == d
  {}

  lemma StepRemove(k: Catalog, d: Disk, n: Counters, f: StoredFile, kept: State, pending: seq<Op>)
    requires Tracks(k, d, |pending|, n) && Leaves(d, kept, pending) && f in Orphans(d)
    ensures var d' := Remove(d, f);
      && Tracks(k, d', |pending|, n) && Leaves(d', kept, pending) && Recover(d') == Recover(d) && Orphans(d') == Orphans(d) - {f} && d'.wal == d.wal
      && Load(d') == Load(d) && Current(d') == Current(d)
  {
    hide DiskOk, SameReading, Referenced, Follows, Leaves, Recover, Flatten;
    var d' := Remove(d, f);
    forall j: nat | j <= |pending| ensures SameReading(Cut(d, j), Cut(d', j)) && Log(Cut(d', j)) == Log(Cut(d, j)) {
      FollowsOk(k, Cut(d, j), n);
      CutElsewhere(d, d', j);
      GcStep(Cut(d, j), f);
      assert Cut(d', j) == Remove(Cut(d, j), f);
    }
    StepUnseen(k, d, d', n, kept, pending);
  }

  /** A segment file no manifest lists yet. */
  lemma StepSegment(k: Catalog, d: Disk, n: Counters, cid: nat, file: SegFile, kept: State, pending: seq<Op>)
    requires Tracks(k, d, |pending|, n) && Leaves(d, kept, pending)
    ensures var d' := WriteSeg(d, SegKey(cid, n.nextSeg), file);
      Tracks(k, d', |pending|, n.(nextSeg := n.nextSeg + 1)) && Leaves(d', kept, pending) && Recover(d') == Recover(d) && d'.wal == d.wal
  {
    hide DiskOk, SameReading, Leaves, Recover, Log, AllTrail, RecoverNextCid;
    var key := SegKey(cid, n.nextSeg);
    var d' := WriteSeg(d, key, file);
    forall j: nat | j <= |pending| ensures SameReading(Cut(d, j), Cut(d', j)) && Log(Cut(d', j)) == Log(Cut(d, j)) {
      assert Follows(k, Cut(d, j), n);
      CutElsewhere(d, d', j);
      NewSegmentSame(Cut(d, j), key, file);
      assert Cut(d', j) == WriteSeg(Cut(d, j), key, file);
    }
    StepUnseen(k, d, d', n, kept, pending);
    forall j: nat | j <= |pending| ensures Follows(k, Cut(d', j), n.(nextSeg := n.nextSeg + 1)) { assert Follows(k, Cut(d', j), n); }
  }

  /** A manifest file `CURRENT` does not name. */
  lemma StepUnpointed(p: Point, m: Manifest, v: Worlds, w: Mark)
    requires PointOk(p, v, w) && m.version != Current(p.disk).version
    ensures PointOk(Point(WriteManifestFile(p.disk, m), p.loose), v, w)
  {
    hide DiskOk, Durable, DiskMarked, SameReading, StateReplay;
    var d' := WriteManifestFile(p.disk, m);
    forall j: nat | j <= p.loose
      ensures DiskOk(Cut(p.disk, j)) && DiskOk(Cut(d', j)) && Durable(Cut(d', j)) == Durable(Cut(p.disk, j)) && DiskMarked(Cut(d', j), w)
      ensures Current(Cut(d', j)) == Current(p.disk)
    {
      var d := Cut(p.disk, j);
      assert Recovers(d, Durable(d));
      CutElsewhere(p.disk, d', j);
      assert Cut(d', j) == WriteManifestFile(d, m);
      UnpointedManifest(d, m);
      SameCurrent(d, Cut(d', j));
      SameReadingDurable(d, Cut(d', j));
      SameReadingMarked(d, Cut(d', j), w);
    }
    CutNothing(d');
    assert Current(d') == Current(p.disk);
  }

  lemma SameReadingDurable(d: Disk, d': Disk)
    requires DiskOk(d) && SameReading(d, d')
    ensures DiskOk(d') && Durable(d') == Durable(d)
  {
    hide DiskOk, SameReading;
    SameReadingOk(d, d');
  }

  /** A compaction of memory, in the middle of a log window. */
  lemma StepCompaction(k: Catalog, d: Disk, n: Counters, target: nat, file: SegFile, cids: seq<nat>, entries: seq<CollEntry>, kept: State, pending: seq<Op>)
    requires CatalogOk(k) && Tracks(k, d, |pending|, n) && Leaves(d, kept, pending) && target in k.cols && k.cols[target].sealed != []
    requires Merges(k.cols[target], file) && Indexed(file, k.cols[target].desc.filterable)
    requires CompactEntries(entries, cids, k, target, Sealed(n.nextSeg, file, {}))
    ensures var seg, m := Sealed(n.nextSeg, file, {}), CompactionManifest(n, entries);
      var k', d', n' := CompactedCatalog(k, target, seg), Install(WriteSeg(d, SegKey(target, n.nextSeg), file), m), n.(nextSeg := n.nextSeg + 1, version := n.version + 1);
      && Tracks(k', d', |pending|, n') && Leaves(d', kept, pending) && d'.wal == d.wal && m.version != Current(d).version
      && (k == Recover(d) ==> k' == Recover(d'))
  {
    hide Follows, Leaves, Recover, CatalogOk, Merges, Indexed, CompactEntries, CompactedCatalog, DiskOk, Durable, Install, WriteSeg,
      CompactionManifest;
    var seg, m := Sealed(n.nextSeg, file, {}), CompactionManifest(n, entries);
    var k', n' := CompactedCatalog(k, target, seg), n.(nextSeg := n.nextSeg + 1, version := n.version + 1);
    var mid := WriteSeg(d, SegKey(target, n.nextSeg), file);
    var d' := Install(mid, m);
    forall j: nat | j <= |pending|
      ensures Follows(k', Cut(d', j), n') && DiskOk(Cut(d', j)) && Durable(Cut(d', j)) == Durable(Cut(d, j))
    {
      assert Follows(k, Cut(d, j), n);
      CompactionSurvivor(k, Cut(d, j), n, target, file, cids, entries);
      CutSegment(d, j, SegKey(target, n.nextSeg), file);
      CutInstall(mid, j, m);
      FollowsOk(k', Cut(d', j), n');
    }
    InstallLog(d, SegKey(target, n.nextSeg), file, m);
    LeavesSame(d, d', kept, pending);
    TracksFull(k, d, |pending|, n);
    FollowsOk(k, d, n);
    CompactionVersion(n, entries);
    if k == Recover(d) { CompactionExact(k, d, n, target, file, cids, entries); }
  }

  lemma CompactionVersion(n: Counters, entries: seq<CollEntry>)
    ensures CompactionManifest(n, entries).version == n.version + 1
  {}

  lemma InstallLog(d: Disk, key: SegKey, file: SegFile, m: Manifest)
    ensures Install(WriteSeg(d, key, file), m).wal == d.wal
  {}

  /** One of the disks that may be left. */
  lemma CompactionSurvivor(k: Catalog, d: Disk, n: Counters, target: nat, file: SegFile, cids: seq<nat>, entries: seq<CollEntry>)
    requires CatalogOk(k) && Follows(k, d, n) && target in k.cols && k.cols[target].sealed != []
    requires Merges(k.cols[target], file) && Indexed(file, k.cols[target].desc.filterable)
    requires CompactEntries(entries, cids, k, target, Sealed(n.nextSeg, file, {}))
    ensures var d' := Install(WriteSeg(d, SegKey(target, n.nextSeg), file), CompactionManifest(n, entries));
      && Follows(CompactedCatalog(k, target, Sealed(n.nextSeg, file, {})), d', n.(nextSeg := n.nextSeg + 1, version := n.version + 1))
      && Durable(d') == Durable(d)
  {
    hide InStep, AllTrail, CatalogOk, Merges, Indexed, CompactEntries, Publishable, Install, CompactedCatalog, Holds, DirectoryOf,
      WellNamed, Recover, RecoverNextCid;
    var seg, d', m := Sealed(n.nextSeg, file, {}), WriteSeg(d, SegKey(target, n.nextSeg), file), CompactionManifest(n, entries);
    FollowsHolds(k, d, n);
    FollowsNamed(k, d, n);
    InStepFacts(Recover(d), d, n);
    CompactPublishable(k, d, n, target, file, cids, m);
    CompactionFollows(k, d, n, d', m, target, seg);
  }

  lemma CompactionExact(k: Catalog, d: Disk, n: Counters, target: nat, file: SegFile, cids: seq<nat>, entries: seq<CollEntry>)
    requires CatalogOk(k) && Follows(k, d, n) && k == Recover(d) && target in k.cols && k.cols[target].sealed != []
    requires Merges(k.cols[target], file) && Indexed(file, k.cols[target].desc.filterable)
    requires CompactEntries(entries, cids, k, target, Sealed(n.nextSeg, file, {}))
    ensures CompactedCatalog(k, target, Sealed(n.nextSeg, file, {})) == Recover(Install(WriteSeg(d, SegKey(target, n.nextSeg), file), CompactionManifest(n, entries)))
  {
    hide InStep, AllTrail, CatalogOk, Merges, Indexed, CompactEntries, Install, CompactedCatalog, DirectoryOf, WellNamed, Recover, WriteSeg;
    FollowsNamed(k, d, n);
    CompactionPublishes(k, d, n, target, file, cids, entries);
    InStepIs(CompactedCatalog(k, target, Sealed(n.nextSeg, file, {})), Install(WriteSeg(d, SegKey(target, n.nextSeg), file), CompactionManifest(n, entries)),
      n.(nextSeg := n.nextSeg + 1, version := n.version + 1));
  }

  /** A half-advanced checkpoint. */
  lemma AdvancedPoint(k: Catalog, d: Disk, d': Disk, n: Counters, v: Worlds, w: Mark)
    requires CatalogOk(k) && Tracks(k, d, |v.pending|, n) && Leaves(d, v.kept, v.pending) && HalfAdvanced(k, d, d')
    requires w.care == Checkpointing && w.floor == n.floor && Marked(k.cols, n.floor, w)
    ensures PointOk(Point(d', |v.pending|), v, w)
  {
    hide Follows, Leaves, Marked, DiskMarked, Recover, CatalogOk, HalfAdvanced, DiskOk, Durable, Current;
    var u := |v.pending|;
    forall j: nat | j <= u
      ensures DiskOk(Cut(d', j)) && Durable(Cut(d', j)) == Durable(Cut(d, j)) && DiskMarked(Cut(d', j), w)
    {
      assert Follows(k, Cut(d, j), n);
      CutAdvanced(k, d, d', j);
      FollowsAdvanced(k, Cut(d, j), Cut(d', j), n, w);
    }
    AdvancedSame(k, d, d', u);
    CutNothing(d);
    assert Follows(k, Cut(d, 0), n);
    FollowsOk(k, d, n);
    LeavesSame(d, d', v.kept, v.pending);
  }

  lemma AdvancedSame(k: Catalog, d: Disk, d': Disk, u: nat)
    requires HalfAdvanced(k, d, d')
    ensures Current(d') == Current(d) && d'.wal == d.wal && Cuttable(d', u) == Cuttable(d, u)
  {}

  /** A record of a batch reaches the log; memory does not move. */
  lemma StepFrame(k: Catalog, d: Disk, n: Counters, op: Op, kept: State, pending: seq<Op>, w: Mark)
    requires Tracks(k, d, |pending|, n) && Leaves(d, kept, pending) && d.wal != [] && op.Upsert?
    requires w.care == Writing && Marked(k.cols, n.floor, w)
    ensures var d' := Append(d, Entry(n.nextLsn, op));
      && Tracks(k, d', |pending| + 1, n.(nextLsn := n.nextLsn + 1)) && Leaves(d', kept, pending + [op])
      && PointMarked(Point(d', |pending| + 1), w) && Recover(d') == Apply(Recover(d), op) && d'.wal != []
  {
    hide Follows, Leaves, Marked, DiskMarked, Recover, Apply, Append, Meaning, LedgerApply;
    var e, u := Entry(n.nextLsn, op), |pending|;
    var d', n' := Append(d, e), n.(nextLsn := n.nextLsn + 1);
    TracksFull(k, d, u, n);
    FollowsRefused(k, d, n, op);
    FollowsOk(k, d, n);
    FollowsOk(k, d', n');
    LeavesMore(d, e, kept, pending);
    CutAppend(d, e, 0);
    CutNothing(d');
    assert n'.floor == w.floor by { WritingFloor(k.cols, n.floor, w); }
    forall j: nat | j <= u + 1 ensures Follows(k, Cut(d', j), n') && DiskMarked(Cut(d', j), w) {
      if j > 0 {
        CutAppend(d, e, j - 1);
        assert Follows(k, Cut(d, j - 1), n);
        FollowsLater(k, Cut(d, j - 1), n, n.nextLsn + 1);
      }
      FollowsMarked(k, Cut(d', j), n', w);
    }
  }

  lemma WritingFloor(cols: map<nat, Coll>, floor: nat, w: Mark)
    requires w.care == Writing && Marked(cols, floor, w)
    ensures floor == w.floor
  {}

  /** A single record is appended, synced and applied. */
  lemma StepAccepted(k: Catalog, d: Disk, n: Counters, op: Op, kept: State, pending: seq<Op>)
    requires Tracks(k, d, |pending|, n) && Leaves(d, kept, pending) && d.wal != [] && Appendable(DirectoryOf(k), Tail(d), op)
    ensures var d', w := Append(d, Entry(n.nextLsn, op)), Mark(k.cols, n.floor, Writing);
      && Tracks(Apply(k, op), d', 0, Advance(n, op)) && Marked(Apply(k, op).cols, n.floor, w)
      && Leaves(d', kept, pending + [op]) && Leaves(d', StateReplay(kept, pending + [op]), [])
      && PointMarked(Point(d', |pending| + 1), w) && PointMarked(Point(d', 0), w) && Tail(d') == Tail(d) + [Entry(n.nextLsn, op)] && d'.wal != []
  {
    hide Follows, Leaves, Marked, DiskMarked, Recover, Apply, Append, Meaning, LedgerApply, Appendable, DirectoryOf, Tail;
    var e, u, w := Entry(n.nextLsn, op), |pending|, Mark(k.cols, n.floor, Writing);
    var d', n', k' := Append(d, e), Advance(n, op), Apply(k, op);
    TracksFull(k, d, u, n);
    FollowsAccepted(k, d, n, op);
    FollowsOk(k, d, n);
    FollowsOk(k', d', n');
    FollowsTail(k, d, n, op);
    TracksNone(k', d', n');
    LeavesMore(d, e, kept, pending);
    LeavesSynced(d', kept, pending + [op]);
    CutAppend(d, e, 0);
    CutNothing(d');
    MarkedAtOnce(w);
    AppendedMarked(k, Tail(d), op, n.floor);
    forall j: nat | j <= u + 1 ensures DiskMarked(Cut(d', j), w) {
      if j > 0 {
        CutAppend(d, e, j - 1);
        assert Follows(k, Cut(d, j - 1), n);
        FollowsMarked(k, Cut(d, j - 1), n, w);
      } else {
        FollowsMarked(k', d', n', w);
      }
    }
  }

  lemma FollowsTail(k: Catalog, d: Disk, n: Counters, op: Op)
    requires Follows(k, d, n) && d.wal != []
    ensures Tail(Append(d, Entry(n.nextLsn, op))) == Tail(d) + [Entry(n.nextLsn, op)]
  {
    AppendTail(d, Entry(n.nextLsn, op));
  }

  lemma AppendedMarked(k: Catalog, tail: seq<Entry>, op: Op, floor: nat)
    requires Appendable(DirectoryOf(k), tail, op)
    ensures Marked(Apply(k, op).cols, floor, Mark(k.cols, floor, Writing))
  {
    hide Apply, Grown;
    AppliedGrown(k, op);
  }

  /** The whole batch is applied. */
  lemma {:induction false} TrailBatch(k: Catalog, h: Catalog, ops: seq<Op>)
    requires AllTrail(k, h) && CatalogOk(h)
    ensures AllTrail(ApplyAll(k, ops), ApplyAll(h, ops)) && CatalogOk(ApplyAll(h, ops))
  {
    hide AllTrail, CatalogOk, Apply;
    if ops != [] {
      var n := |ops| - 1;
      TrailBatch(k, h, ops[..n]);
      TrailApply(ApplyAll(k, ops[..n]), ApplyAll(h, ops[..n]), ops[n]);
      ApplyRefines(ApplyAll(h, ops[..n]), ops[n]);
    }
  }

  lemma BatchApplied(k: Catalog, h: Catalog, d: Disk, n: Counters, ops: seq<Op>)
    requires AllTrail(k, h) && CatalogOk(h) && Follows(k, d, n) && Recover(d) == ApplyAll(h, ops)
    ensures Tracks(ApplyAll(k, ops), d, 0, n)
  {
    hide AllTrail, CatalogOk, InStep, Recover, ApplyAll;
    TrailBatch(k, h, ops);
    TracksNone(ApplyAll(k, ops), d, n);
  }

  // ---- maintenance ---------------------------------------------------------

  /** Memory, disk and log stand where maintenance that began at `v` and mark `w` may bring them:
      as they were while the floor is, else with memory's state durable. */
  ghost predicate Standing(k: Catalog, d: Disk, n: Counters, kept: State, pending: seq<Op>, v: Worlds, w: Mark) {
    && CatalogOk(k) && Tracks(k, d, |pending|, n) && Leaves(d, kept, pending)
    && v.now == State(Meaning(k), n.nextCid) && Marked(k.cols, n.floor, w)
    && (if n.floor == w.floor then kept == v.kept && pending == v.pending else kept == v.now && pending == [])
    && (w.care == Quiescent || n.floor != w.floor ==> pending == [] && k == Recover(d))
  }

  /** Any disk that stands may be the next one. */
  lemma StandingPoint(k: Catalog, d: Disk, n: Counters, kept: State, pending: seq<Op>, v: Worlds, w: Mark)
    requires Standing(k, d, n, kept, pending, v, w)
    ensures PointOk(Point(d, |pending|), v, w)
  {
    hide Follows, Leaves, Marked, DiskMarked, Recover, Current, Meaning, CatalogOk;
    CutNothing(d);
    assert Follows(k, Cut(d, 0), n);
    FollowsOk(k, d, n);
    forall j: nat | j <= |pending| ensures DiskMarked(Cut(d, j), w) {
      assert Follows(k, Cut(d, j), n);
      FollowsMarked(k, Cut(d, j), n, w);
    }
  }

  lemma StandingRemove(k: Catalog, d: Disk, n: Counters, f: StoredFile, kept: State, pending: seq<Op>, v: Worlds, w: Mark)
    requires Standing(k, d, n, kept, pending, v, w) && f in Orphans(d)
    ensures var d' := Remove(d, f);
      && Standing(k, d', n, kept, pending, v, w) && Recover(d') == Recover(d) && Orphans(d') == Orphans(d) - {f} && d'.wal == d.wal
      && Load(d') == Load(d) && Current(d') == Current(d)
  {
    hide CatalogOk, Tracks, Leaves, Meaning, Marked, Recover, Orphans, Remove;
    StepRemove(k, d, n, f, kept, pending);
  }

  lemma StandingSegment(k: Catalog, d: Disk, n: Counters, cid: nat, file: SegFile, kept: State, pending: seq<Op>, v: Worlds, w: Mark)
    requires Standing(k, d, n, kept, pending, v, w)
    ensures var d' := WriteSeg(d, SegKey(cid, n.nextSeg), file);
      Standing(k, d', n.(nextSeg := n.nextSeg + 1), kept, pending, v, w) && d'.wal == d.wal && Current(d') == Current(d)
  {
    hide CatalogOk, Tracks, Leaves, Meaning, Marked, Recover;
    StepSegment(k, d, n, cid, file, kept, pending);
  }

  lemma StandingMerged(k: Catalog, d: Disk, n: Counters, target: nat, file: SegFile, cids: seq<nat>, entries: seq<CollEntry>,
                       kept: State, pending: seq<Op>, v: Worlds, w: Mark)
    requires Standing(k, d, n, kept, pending, v, w) && target in k.cols && k.cols[target].sealed != []
    requires Merges(k.cols[target], file) && Indexed(file, k.cols[target].desc.filterable) && (w.care == Checkpointing || w.care == Compacting)
    requires CompactEntries(entries, cids, k, target, Sealed(n.nextSeg, file, {}))
    ensures var k', m := CompactedCatalog(k, target, Sealed(n.nextSeg, file, {})), CompactionManifest(n, entries);
      var d', n' := Install(WriteSeg(d, SegKey(target, n.nextSeg), file), m), n.(nextSeg := n.nextSeg + 1, version := n.version + 1);
      && Standing(k', d', n', kept, pending, v, w) && d'.wal == d.wal && m.version != Current(d).version
      && (k == Recover(d) ==> k' == Recover(d'))
  {
    hide CatalogOk, Tracks, Leaves, Meaning, Marked, Recover, Merges, Indexed, CompactEntries, CompactedCatalog, CompactionManifest,
      Install, WriteSeg, Current;
    StepCompaction(k, d, n, target, file, cids, entries, kept, pending);
    CompactedCatalogOk(k, target, Sealed(n.nextSeg, file, {}));
    CompactedMarked(k, target, Sealed(n.nextSeg, file, {}), n.floor, w);
  }

  /** Manifest `m`, over a disk that holds the merged segment, may take memory from `k` to `k'`. */
  ghost predicate Merged(k: Catalog, k': Catalog, d: Disk, mid: Disk, m: Manifest, n: Counters, kept: State, pending: seq<Op>, v: Worlds, w: Mark) {
    var d' := Install(mid, m);
    && Standing(k', d', n.(nextSeg := n.nextSeg + 1, version := n.version + 1), kept, pending, v, w) && PointOk(Point(d', |pending|), v, w)
    && d'.wal == d.wal && m.version != Current(d).version && (k == Recover(d) ==> k' == Recover(d'))
  }

  /** Where memory is exactly what the disk recovers to. */
  lemma StandingExactly(k: Catalog, d: Disk, n: Counters, v: Worlds, w: Mark)
    requires CatalogOk(k) && InStep(k, d, n) && v.now == State(Meaning(k), n.nextCid) && Marked(k.cols, n.floor, w)
    requires n.floor == w.floor ==> v == AtRest(v.now)
    ensures Standing(k, d, n, v.now, [], v, w)
  {
    hide CatalogOk, InStep, Tracks, Leaves, Meaning, Marked, Recover;
    FollowsExactly(k, d, n);
    InStepLeaves(k, d, n);
    InStepIs(k, d, n);
  }

  lemma StandingIsExact(k: Catalog, d: Disk, n: Counters, kept: State, pending: seq<Op>, v: Worlds, w: Mark)
    requires Standing(k, d, n, kept, pending, v, w) && pending == [] && k == Recover(d)
    ensures InStep(k, d, n) && kept == v.now
  {
    hide CatalogOk, Recover, DiskOk, Meaning, RecoverNextCid;
    TracksFull(k, d, 0, n);
    LeavesAll(d, kept, []);
  }

  lemma InStepLeaves(k: Catalog, d: Disk, n: Counters)
    requires InStep(k, d, n)
    ensures Leaves(d, State(Meaning(k), n.nextCid), [])
  {
    hide DiskOk, Recover, RecoverNextCid, Meaning, Leaves;
    LeavesExactly(d, State(Meaning(k), n.nextCid));
  }

  lemma StandingLogStarted(k: Catalog, d: Disk, n: Counters, kept: State, pending: seq<Op>, v: Worlds, w: Mark)
    requires Standing(k, d, n, kept, pending, v, w) && (w.care == Quiescent || n.floor != w.floor)
    ensures Standing(k, StartLog(d), n, kept, pending, v, w) && Orphans(StartLog(d)) == Orphans(d)
  {
    hide CatalogOk, InStep, Tracks, Leaves, Meaning, Marked, Recover, StartLog, Orphans;
    StandingIsExact(k, d, n, kept, pending, v, w);
    StartLogInStep(k, d, n);
    StandingExactly(k, StartLog(d), n, v, w);
    LogKeepsOrphans(d, 0);
  }

  lemma StandingLogRemoved(k: Catalog, d: Disk, n: Counters, i: nat, kept: State, pending: seq<Op>, v: Worlds, w: Mark)
    requires Standing(k, d, n, kept, pending, v, w) && (w.care == Quiescent || n.floor != w.floor)
    requires i < |d.wal| && (NoneLive(d.wal[i], n.floor) || n.nextLsn == n.floor + 1)
    ensures Standing(k, RemoveLog(d, i), n, kept, pending, v, w) && Orphans(RemoveLog(d, i)) == Orphans(d)
  {
    hide CatalogOk, InStep, Tracks, Leaves, Meaning, Marked, Recover, RemoveLog, Orphans, NoneLive;
    StandingIsExact(k, d, n, kept, pending, v, w);
    if n.nextLsn == n.floor + 1 { LogSettled(k, d, n, i); }
    RemoveLogInStep(k, d, n, i);
    StandingExactly(k, RemoveLog(d, i), n, v, w);
    LogKeepsOrphans(d, i);
  }

  /** The point at which a checkpoint's manifest is published. */
  lemma PublishedPoint(k: Catalog, d: Disk, n: Counters, v: Worlds, w: Mark)
    requires CatalogOk(k) && InStep(k, d, n) && v.now == State(Meaning(k), n.nextCid) && Marked(k.cols, n.floor, w) && n.floor != w.floor
    ensures PointOk(Point(d, 0), v, w) && Standing(k, d, n, v.now, [], v, w)
  {
    hide CatalogOk, InStep, Meaning, Marked, PointOk, Standing;
    StandingExactly(k, d, n, v, w);
    StandingPoint(k, d, n, v.now, [], v, w);
  }

  // ---- the log alone -------------------------------------------------------

  /** The disk with records added to its newest log file. */
  function Extended(d: Disk, more: seq<Entry>): Disk
    requires d.wal != []
  {
    WithNewest(d, NewestLog(d) + more)
  }

  /** Each step adds the next record to the newest log file and changes nothing else; a step
      after the last record adds nothing. */
  ghost predicate AppendsThese(d: Disk, steps: seq<Point>, more: seq<Entry>) {
    && d.wal != [] && |more| <= |steps|
    && forall i :: 0 <= i < |steps| ==> steps[i].disk == Extended(d, more[..Min(i + 1, |more|)])
  }

  /** Operations as records, numbered from `lsn`. */
  function Numbered(lsn: nat, ops: seq<Op>): (es: seq<Entry>)
    ensures |es| == |ops| && forall i :: 0 <= i < |ops| ==> es[i] == Entry(lsn + i, ops[i])
  {
    seq(|ops|, i requires 0 <= i < |ops| => Entry(lsn + i, ops[i]))
  }

  lemma NumberedMore(lsn: nat, ops: seq<Op>, op: Op)
    ensures Numbered(lsn, ops + [op]) == Numbered(lsn, ops) + [Entry(lsn + |ops|, op)]
  {}

  /** The steps of a writing command, on the log file: a record for each of `ops` is added. */
  ghost predicate Appends(d: Disk, steps: seq<Point>, d': Disk, lsn: nat, ops: seq<Op>) {
    AppendsThese(d, steps, Numbered(lsn, ops)) && d' == Extended(d, Numbered(lsn, ops))
  }

  lemma AppendsNothing(d: Disk, lsn: nat)
    requires d.wal != []
    ensures AppendsThese(d, [], []) && Appends(d, [], d, lsn, [])
  {
    ExtendedByNothing(d);
    assert Numbered(lsn, []) == [];
  }

  lemma AppendsOne(d: Disk, lsn: nat, op: Op, u: nat)
    requires d.wal != []
    ensures var d' := Append(d, Entry(lsn, op)); Appends(d, [Point(d', u), Point(d', 0)], d', lsn, [op])
  {
    var e := Entry(lsn, op);
    AppendsNothing(d, lsn);
    AppendsMore(d, [], [], e, u);
    var d' := Append(d, e);
    assert [] + [Point(d', u)] == [Point(d', u)] && [] + [e] == [e];
    AppendsSync(d, [Point(d', u)], [e], 0);
    assert [Point(d', u)] + [Point(d', 0)] == [Point(d', u), Point(d', 0)];
    assert Numbered(lsn, [op]) == [e];
  }

  lemma AppendsMore(d: Disk, steps: seq<Point>, more: seq<Entry>, e: Entry, u: nat)
    requires AppendsThese(d, steps, more) && |more| == |steps|
    ensures var last := if steps == [] then d else steps[|steps| - 1].disk;
      last.wal != [] && AppendsThese(d, steps + [Point(Append(last, e), u)], more + [e]) && Append(last, e) == Extended(d, more + [e])
  {
    var last := if steps == [] then d else steps[|steps| - 1].disk;
    assert more[..|more|] == more && last == Extended(d, more) by { ExtendedByNothing(d); }
    var all := more + [e];
    AppendExtends(d, more, e);
    var steps' := steps + [Point(Append(last, e), u)];
    forall i | 0 <= i < |steps'| ensures steps'[i].disk == Extended(d, all[..Min(i + 1, |all|)]) {
      if i < |steps| { assert all[..i + 1] == more[..i + 1]; } else { assert all[..|all|] == all; }
    }
  }

  /** A sync adds nothing. */
  lemma AppendsSync(d: Disk, steps: seq<Point>, more: seq<Entry>, u: nat)
    requires AppendsThese(d, steps, more) && |more| == |steps| && steps != []
    ensures AppendsThese(d, steps + [Point(steps[|steps| - 1].disk, u)], more)
  {}

  /** Part-way through a batch that began on disk `d0`: a step and a record for each of the
      operations so far. */
  ghost predicate Batched(d0: Disk, d: Disk, steps: seq<Point>, first: nat, v: Worlds, ops: seq<Op>, w: Mark)
    requires |steps| <= |ops|
  {
    && Frames(steps, v, ops) && AllMarked(steps, w) && AppendsThese(d0, steps, Numbered(first, ops[..|steps|]))
    && d == (if steps == [] then d0 else steps[|steps| - 1].disk) && d == Extended(d0, Numbered(first, ops[..|steps|]))
  }

  lemma BatchedNone(d: Disk, first: nat, v: Worlds, ops: seq<Op>, w: Mark)
    requires d.wal != []
    ensures Batched(d, d, [], first, v, ops, w)
  {
    hide AppendsThese, AllMarked, Extended;
    NoFrames(v, ops);
    NoneMarked(w);
    AppendsNothing(d, first);
    ExtendedByNothing(d);
    assert Numbered(first, ops[..0]) == [];
  }

  lemma BatchedMore(d0: Disk, d: Disk, steps: seq<Point>, first: nat, v: Worlds, ops: seq<Op>, w: Mark)
    requires |steps| < |ops| && d.wal != [] && Batched(d0, d, steps, first, v, ops, w)
    requires var i := |steps|;
      var d' := Append(d, Entry(first + i, ops[i]));
      Leaves(d', v.kept, v.pending + ops[..i + 1]) && PointMarked(Point(d', |v.pending| + i + 1), w)
    ensures var i := |steps|;
      var d' := Append(d, Entry(first + i, ops[i]));
      Batched(d0, d', steps + [Point(d', |v.pending| + i + 1)], first, v, ops, w)
  {
    hide AppendsThese, Frames, AllMarked, Leaves, PointMarked, Append, Extended;
    var i := |steps|;
    var e := Entry(first + i, ops[i]);
    var p := Point(Append(d, e), |v.pending| + i + 1);
    assert ops[..i + 1] == ops[..i] + [ops[i]];
    NumberedMore(first, ops[..i], ops[i]);
    AppendsMore(d0, steps, Numbered(first, ops[..i]), e, p.loose);
    FrameTaken(steps, v, ops, p);
    AllMarkedExtend(steps, p, w);
  }

  lemma BatchedRefused(d0: Disk, d: Disk, steps: seq<Point>, first: nat, v: Worlds, ops: seq<Op>, w: Mark)
    requires |steps| < |ops| && Batched(d0, d, steps, first, v, ops, w)
    ensures Framed(steps, v, ops, |steps|) && Appends(d0, steps, d, first, ops[..|steps|]) && AllMarked(steps, w)
  {
    hide AppendsThese, Frames, AllMarked, Framed, Extended;
    FramesRefused(steps, v, ops);
  }

  lemma BatchedSynced(d0: Disk, d: Disk, steps: seq<Point>, first: nat, v: Worlds, ops: seq<Op>, w: Mark)
    requires |steps| == |ops| && ops != [] && Batched(d0, d, steps, first, v, ops, w) && Leaves(d, StateReplay(v.kept, v.pending + ops), [])
    ensures var all := steps + [Point(d, 0)]; Framed(all, v, ops, |ops|) && Appends(d0, all, d, first, ops) && AllMarked(all, w)
  {
    hide AppendsThese, Frames, AllMarked, Framed, Extended, Leaves, PointMarked;
    var p := Point(d, 0);
    assert ops[..|steps|] == ops;
    FramesSynced(steps, v, ops, p);
    MarkedSync(steps, w);
    AllMarkedExtend(steps, p, w);
    AppendsSync(d0, steps, Numbered(first, ops), 0);
  }

  lemma MarkedSync(steps: seq<Point>, w: Mark)
    requires steps != [] && AllMarked(steps, w)
    ensures PointMarked(Point(steps[|steps| - 1].disk, 0), w)
  {
    hide DiskMarked;
    var p := steps[|steps| - 1];
    assert PointMarked(p, w);
    assert DiskMarked(Cut(p.disk, 0), w);
  }

  lemma ExtendedByNothing(d: Disk)
    requires d.wal != []
    ensures Extended(d, []) == d
  {
    assert NewestLog(d) + [] == NewestLog(d);
    assert d.wal == d.wal[..|d.wal| - 1] + [NewestLog(d)];
  }

  lemma AppendExtends(d: Disk, more: seq<Entry>, e: Entry)
    requires d.wal != []
    ensures Append(Extended(d, more), e) == Extended(d, more + [e])
  {
    var n := |d.wal| - 1;
    assert Extended(d, more).wal[..n] == d.wal[..n];
    assert d.wal[n] + more + [e] == d.wal[n] + (more + [e]);
  }
}
