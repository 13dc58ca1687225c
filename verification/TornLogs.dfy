/** Crashes at the level of bytes: the newest log file is cut anywhere past its synced part
    (crates/quiver-core/src/store.rs over crates/quiver-core/src/wal.rs). */
module TornLogs {
  import opened ByteStrings
  import opened Replay
  import opened WindowReplay
  import opened Disks
  import opened Commands
  import opened Cuts
  import opened Points
  import opened Marks
  import opened Stores
  import opened Runs
  import opened Wal

  /** The store's records that fit are those the log takes: how large a record is when sealed
      does not depend on where it is written. */
  ghost predicate Limits(c: Codec<Entry>, fits: Entry -> bool) {
    forall offset: nat, e :: fits(e) <==> |Wal.Sealed(c, offset, e)| <= MAX_RECORD_BYTES
  }

  lemma AllFitFits(c: Codec<Entry>, fits: Entry -> bool, base: nat, es: seq<Entry>)
    requires Limits(c, fits) && AllFit(fits, es)
    ensures Fits(c, base, es)
  {
    hide Wal.Sealed, LogFile;
    forall i | 0 <= i < |es| ensures |Wal.Sealed(c, |LogFile(c, base, es[..i])|, es[i])| <= MAX_RECORD_BYTES {
      assert fits(es[i]);
    }
  }

  /** The records of the newest file up to the last sync. */
  function Synced(p: Point): seq<Entry>
    requires p.disk.wal != [] && p.loose <= |NewestLog(p.disk)|
  {
    NewestLog(p.disk)[..|NewestLog(p.disk)| - p.loose]
  }

  /** What the newest file holds after a command, and its prefixes as crashes inside it. */
  lemma AppendedLog(d: Disk, steps: seq<Point>, d': Disk, lsn: nat, ops: seq<Op>)
    requires Appends(d, steps, d', lsn, ops)
    ensures d.wal != [] && d'.wal != [] && |NewestLog(d')| == |NewestLog(d)| + |ops| && NewestLog(d')[..|NewestLog(d)|] == NewestLog(d)
  {}

  /** Keeping `m` records of the newest file is a crash between two of the command's steps, or
      one that loses records from before it. */
  lemma PrefixIsCut(before: Point, steps: seq<Point>, d': Disk, lsn: nat, ops: seq<Op>, m: nat)
    requires Appends(before.disk, steps, d', lsn, ops)
    requires before.disk.wal != [] && d'.wal != [] && before.loose <= |NewestLog(before.disk)|
    requires |Synced(before)| <= m <= |NewestLog(d')|
    ensures var k := |NewestLog(before.disk)|;
      WithNewest(before.disk, NewestLog(d')[..m]) == Remains(CutAt(before, steps, if m >= k then m - k else 0), if m >= k then 0 else k - m)
  {
    var d, k := before.disk, |NewestLog(before.disk)|;
    var more := Numbered(lsn, ops);
    ExtendedByNothing(d);
    assert NewestLog(d') == NewestLog(d) + more;
    if m > k {
      assert NewestLog(d')[..m] == NewestLog(d) + more[..m - k];
      assert steps[m - k - 1].disk == Extended(d, more[..m - k]);
    } else {
      assert NewestLog(d')[..m] == NewestLog(d)[..m];
      assert d.wal == d.wal[..|d.wal| - 1] + [NewestLog(d)];
      assert m == k ==> NewestLog(d)[..m] == NewestLog(d);
    }
  }

  /** What the reader finds in the newest file after a crash that kept `kept` bytes. */
  function Found(c: Codec<Entry>, base: nat, d: Disk, kept: nat): (es: seq<Entry>)
    requires d.wal != []
  {
    var bytes := LogFile(c, base, NewestLog(d));
    match Parse(c, bytes[..if kept <= |bytes| then kept else |bytes|])
    case Ok(replay) => replay.entries
    case Err(_) => []
  }

  /** Cut the newest file at any byte past what was synced before the command: recovery sees
      exactly the records whose frames lie wholly before the cut, and that is a crash after some
      number of the command's durable steps. */
  lemma TornIsCut(c: Codec<Entry>, base: nat, before: Point, steps: seq<Point>, d': Disk, lsn: nat, ops: seq<Op>, kept: nat)
    requires CodecOk(c) && base < 0x1_0000_0000_0000_0000 && Appends(before.disk, steps, d', lsn, ops)
    requires before.disk.wal != [] && d'.wal != [] && before.loose <= |NewestLog(before.disk)| && Fits(c, base, NewestLog(d'))
    requires |LogFile(c, base, Synced(before))| <= kept <= |LogFile(c, base, NewestLog(d'))|
    ensures var k, m := |NewestLog(before.disk)|, WholeBefore(c, base, NewestLog(d'), kept);
      && |Synced(before)| <= m <= k + |ops|
      && WithNewest(before.disk, Found(c, base, d', kept)) == Remains(CutAt(before, steps, if m >= k then m - k else 0), if m >= k then 0 else k - m)
  {
    hide LogFile, Parse, WholeBefore, Fits, Appends, CutAt, WithNewest, Remains;
    AppendedLog(before.disk, steps, d', lsn, ops);
    var all, s := NewestLog(d'), Synced(before);
    assert all[..|s|] == s;
    CutLogReads(c, base, all, kept);
    SyncedSurvive(c, base, all, |s|, kept);
    PrefixIsCut(before, steps, d', lsn, ops, WholeBefore(c, base, all, kept));
  }

  /** Run a writing command, crash with the newest log file cut at any byte past its synced
      part, and reopen: the store holds what a crash must leave that keeps exactly the records
      whose frames lie wholly before the cut. A record over the size limit is not written; the
      frames before it in its batch are. */
  method StepTorn(store: Store, cmd: Command, c: Codec<Entry>, base: nat, extra: nat, reopenings: seq<nat>) returns (next: Store, at: nat, lost: nat)
    requires store.Valid() && CareOf(cmd) == Writing && CodecOk(c) && Limits(c, store.fits) && base < 0x1_0000_0000_0000_0000
    modifies store, store.collections.Values
    ensures next.Valid()
    ensures next.Worlds() == Expected(old(store.Worlds()), CrashesIn(cmd, at, lost, reopenings), Outcome(old(store.nextLsn), false), store.fits)
    ensures old(store.disk).wal != [] && store.disk.wal != [] && old(|store.pending|) <= |NewestLog(old(store.disk))|
    ensures var k, all := |NewestLog(old(store.disk))|, NewestLog(store.disk);
      var kept := Min(|LogFile(c, base, Synced(Point(old(store.disk), old(|store.pending|))))| + extra, |LogFile(c, base, all)|);
      var m := WholeBefore(c, base, all, kept);
      at == (if m >= k then m - k else 0) && lost == if m >= k then 0 else k - m
  {
    hide Performed, Recovers, LeftAt, CutAt, Marked, PointMarked, AllMarked, Appends, LogFile, Found, Limits, CodecOk, Fits, WithNewest,
      Crashed, Completed, WholeBefore,
      Store.Valid, Current, Logged, Spent, Meaning, Remains, Synced;
    ghost var v := store.Worlds();
    ghost var w := Mark(store.memory.cols, store.floor, CareOf(cmd));
    var before, n, lsn := Point(store.disk, |store.pending|), |store.trace|, store.nextLsn;
    Before(store, w);
    FitsNow(store, c, base);
    LooseInLog(before, v);
    ghost var floor := store.floor;
    Execute(store, cmd);
    ghost var steps := store.trace[n..];
    FitsNow(store, c, base);
    ghost var ops := Recorded(v.now, cmd, lsn, store.fits);
    AppendedLog(before.disk, steps, store.disk, lsn, ops);
    var all, k := NewestLog(store.disk), |NewestLog(before.disk)|;
    SyncedPrefix(c, base, before, all);
    var kept := Min(|LogFile(c, base, Synced(before))| + extra, |LogFile(c, base, all)|);
    var m := WholeBefore(c, base, all, kept);
    at, lost := if m >= k then m - k else 0, if m >= k then 0 else k - m;
    TornIsCut(c, base, before, steps, store.disk, lsn, ops, kept);
    WritingKeepsFloor(before, steps, w, at);
    CutRecovers(before, steps, v, cmd, floor, at, lost, Outcome(lsn, false), store.fits);
    next := Reopen(WithNewest(before.disk, Found(c, base, store.disk, kept)), reopenings, store.fits, Crashed(v, cmd, at, lost, Outcome(lsn, false), store.fits));
  }

  lemma LooseInLog(p: Point, v: Worlds)
    requires LeftAt(p, v.kept, v.pending) && p.disk.wal != []
    ensures p.loose <= |NewestLog(p.disk)|
  {}

  lemma FitsNow(store: Store, c: Codec<Entry>, base: nat)
    requires store.Valid() && Limits(c, store.fits)
    ensures store.disk.wal != [] && Fits(c, base, NewestLog(store.disk))
  {
    hide Limits, Fits, Store.Steady, Store.Exact;
    AllFitFits(c, store.fits, base, NewestLog(store.disk));
  }

  lemma SyncedPrefix(c: Codec<Entry>, base: nat, p: Point, all: seq<Entry>)
    requires p.disk.wal != [] && p.loose <= |NewestLog(p.disk)| <= |all| && all[..|NewestLog(p.disk)|] == NewestLog(p.disk)
    ensures |LogFile(c, base, Synced(p))| <= |LogFile(c, base, all)|
  {
    assert all[..|Synced(p)|] == Synced(p);
    LogPrefix(c, base, all, |Synced(p)|);
  }

  /** A write never moves the floor. */
  lemma WritingKeepsFloor(before: Point, steps: seq<Point>, w: Mark, at: nat)
    requires PointMarked(before, w) && AllMarked(steps, w) && w.care == Writing
    ensures Current(CutAt(before, steps, at).disk).floor == w.floor
  {
    hide Grown, Recover;
    var p := CutAt(before, steps, at);
    assert PointMarked(p, w);
    CutNothing(p.disk);
    assert DiskMarked(Cut(p.disk, 0), w);
  }
}
