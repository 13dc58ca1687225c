/** Log rotation and garbage collection: durable steps recovery cannot notice
    (crates/quiver-core/src/store.rs, `rotate_wal`, `gc_orphan_segments`). */
module Housekeeping {
  import opened ByteStrings
  import opened Segments
  import opened Collections
  import opened Replay
  import opened WindowReplay
  import opened Disks
  import opened DiskSteps

  /** Whether the manifest lists a segment. */
  predicate Referenced(m: Manifest, key: SegKey) {
    exists i :: 0 <= i < |m.collections| && m.collections[i].cid == key.cid && key.seg in m.collections[i].segments
  }

  datatype StoredFile = SegmentFile(key: SegKey) | TombstoneFile(key: SegKey)

  /** The stored files no manifest entry references. */
  function Orphans(d: Disk): (files: set<StoredFile>)
    ensures forall f :: f in files ==> !Referenced(Current(d), f.key)
    ensures files == {} ==> forall key :: key in d.segs || key in d.dels ==> Referenced(Current(d), key)
  {
    var s := set key | key in d.segs && !Referenced(Current(d), key) :: SegmentFile(key);
    var t := set key | key in d.dels && !Referenced(Current(d), key) :: TombstoneFile(key);
    assert forall key :: key in d.segs && !Referenced(Current(d), key) ==> SegmentFile(key) in s;
    assert forall key :: key in d.dels && !Referenced(Current(d), key) ==> TombstoneFile(key) in t;
    s + t
  }

  function Remove(d: Disk, f: StoredFile): Disk {
    match f
    case SegmentFile(key) => d.(segs := d.segs - {key})
    case TombstoneFile(key) => d.(dels := d.dels - {key})
  }

  function StartLog(d: Disk): Disk { d.(wal := d.wal + [[]]) }

  function RemoveLog(d: Disk, i: nat): Disk
    requires i < |d.wal|
  {
    d.(wal := d.wal[..i] + d.wal[i + 1..])
  }

  lemma KeepsReferenced(d: Disk, d': Disk, key: SegKey)
    requires !Referenced(Current(d), key) && EntriesOk(d, Current(d))
    requires forall x :: x != key ==> (x in d.segs <==> x in d'.segs) && FileOf(d', x) == FileOf(d, x) && DelOf(d', x) == DelOf(d, x)
    ensures forall i :: 0 <= i < |Current(d).collections| ==> SameSegments(d, d', Current(d).collections[i])
  {
    var m := Current(d);
    forall i | 0 <= i < |m.collections| ensures SameSegments(d, d', m.collections[i]) {
      var e := m.collections[i];
      assert EntryOk(d, m, e);
      forall s | 0 <= s < |e.segments| ensures SegKey(e.cid, e.segments[s]) != key { assert e.segments[s] in e.segments; }
    }
  }

  /** An unreferenced file may go at any time. */
  lemma GcStep(d: Disk, f: StoredFile)
    requires DiskOk(d) && !Referenced(Current(d), f.key)
    ensures SameReading(d, Remove(d, f))
  {
    hide LogOk;
    KeepsReferenced(d, Remove(d, f), f.key);
  }

  lemma SameFilesRead(d: Disk, d': Disk)
    requires DiskOk(d)
    requires d'.manifests == d.manifests && d'.current == d.current && d'.segs == d.segs && d'.dels == d.dels
    requires Tail(d') == Tail(d)
    ensures SameReading(d, d')
  {
    hide LogOk;
    forall i | 0 <= i < |Current(d).collections| ensures SameSegments(d, d', Current(d).collections[i]) {
      assert EntryOk(d, Current(d), Current(d).collections[i]);
    }
  }

  lemma StartLogStep(d: Disk)
    requires DiskOk(d)
    ensures SameReading(d, StartLog(d)) && Log(StartLog(d)) == Log(d)
  {
    hide DiskOk;
    FlattenAppend(d.wal, [[]]);
    FlattenOne([]);
    assert Log(StartLog(d)) == Log(d) + [] == Log(d);
    SameFilesRead(d, StartLog(d));
  }

  predicate NoneLive(es: seq<Entry>, floor: nat) { forall i :: 0 <= i < |es| ==> es[i].lsn <= floor }

  /** The log files that hold a record past the floor. */
  function LiveLogs(wal: seq<seq<Entry>>, floor: nat): seq<seq<Entry>> {
    if wal == [] then []
    else
      var rest, last := LiveLogs(wal[..|wal| - 1], floor), wal[|wal| - 1];
      if NoneLive(last, floor) then rest else rest + [last]
  }

  lemma LiveLogsNext(wal: seq<seq<Entry>>, f: nat, floor: nat)
    requires f < |wal|
    ensures LiveLogs(wal[..f + 1], floor) == LiveLogs(wal[..f], floor) + if NoneLive(wal[f], floor) then [] else [wal[f]]
  {
    assert wal[..f + 1][..f] == wal[..f];
  }

  /** Part-way through deleting the dead files among `wal`: the first `f` are dealt with, and the
      live ones among them come first, `kept` of them. */
  ghost predicate Partly(now: seq<seq<Entry>>, kept: nat, wal: seq<seq<Entry>>, f: nat, floor: nat) {
    kept <= |now| && f <= |wal| && now[..kept] == LiveLogs(wal[..f], floor) && now[kept..] == wal[f..] + [[]]
  }

  lemma PartlyStart(wal: seq<seq<Entry>>, floor: nat)
    ensures Partly(wal + [[]], 0, wal, 0, floor)
  {
    assert wal[..0] == [] && wal[0..] == wal;
  }

  lemma PartlyNext(d: Disk, kept: nat, wal: seq<seq<Entry>>, f: nat, floor: nat)
    requires f < |wal| && Partly(d.wal, kept, wal, f, floor)
    ensures kept < |d.wal| && d.wal[kept] == wal[f]
    ensures if NoneLive(wal[f], floor) then Partly(RemoveLog(d, kept).wal, kept, wal, f + 1, floor) else Partly(d.wal, kept + 1, wal, f + 1, floor)
  {
    hide NoneLive, LiveLogs;
    assert d.wal[kept] == d.wal[kept..][0] == wal[f];
    LiveLogsNext(wal, f, floor);
    assert wal[f + 1..] == wal[f..][1..];
    if NoneLive(wal[f], floor) {
      var now := RemoveLog(d, kept).wal;
      assert now[..kept] == d.wal[..kept] && now[kept..] == d.wal[kept..][1..];
    } else {
      assert d.wal[..kept + 1] == d.wal[..kept] + [wal[f]] && d.wal[kept + 1..] == d.wal[kept..][1..];
    }
  }

  lemma PartlyDone(now: seq<seq<Entry>>, kept: nat, wal: seq<seq<Entry>>, floor: nat)
    requires Partly(now, kept, wal, |wal|, floor)
    ensures now == LiveLogs(wal, floor) + [[]]
  {
    assert now == now[..kept] + now[kept..] && wal[..|wal|] == wal;
  }

  /** The log does not matter to what the manifest loads. */
  lemma LogsKeepLoad(d: Disk, i: nat)
    ensures Load(StartLog(d)) == Load(d) && Current(StartLog(d)) == Current(d)
    ensures i < |d.wal| ==> Load(RemoveLog(d, i)) == Load(d) && Current(RemoveLog(d, i)) == Current(d)
  {
    LoadAllLog(d, StartLog(d));
    if i < |d.wal| { LoadAllLog(d, RemoveLog(d, i)); }
  }

  lemma LoadAllLog(d: Disk, d': Disk)
    requires d' == d.(wal := d'.wal)
    ensures Load(d') == Load(d) && Current(d') == Current(d)
  {
    forall i | 0 <= i < |Current(d).collections| ensures LoadColl(d', Current(d).collections[i]) == LoadColl(d, Current(d).collections[i]) {
      LoadCollSame(d, d', Current(d).collections[i]);
    }
    LoadAllSame(d, d', Current(d).collections);
  }

  /** The log around one of its files. */
  lemma SplitLog(wal: seq<seq<Entry>>, i: nat)
    requires i < |wal|
    ensures Flatten(wal) == Flatten(wal[..i]) + wal[i] + Flatten(wal[i + 1..])
    ensures Flatten(wal[..i] + wal[i + 1..]) == Flatten(wal[..i]) + Flatten(wal[i + 1..])
  {
    hide Flatten;
    var before, file, after := wal[..i], [wal[i]], wal[i + 1..];
    Around(wal, i);
    FlattenAppend(before + file, after);
    FlattenAppend(before, file);
    FlattenOne(wal[i]);
    FlattenAppend(before, after);
  }

  lemma Around(wal: seq<seq<Entry>>, i: nat)
    requires i < |wal|
    ensures wal == (wal[..i] + [wal[i]]) + wal[i + 1..]
  {}

  /** A log file with no record past the floor may go. */
  lemma RemoveLogStep(d: Disk, i: nat)
    requires DiskOk(d) && i < |d.wal| && NoneLive(d.wal[i], Current(d).floor)
    ensures SameReading(d, RemoveLog(d, i))
    ensures forall j :: 0 <= j < |Log(RemoveLog(d, i))| ==> Log(RemoveLog(d, i))[j] in Log(d)
  {
    hide DiskOk, Flatten;
    var floor := Current(d).floor;
    SplitLog(d.wal, i);
    var a, b, c := Flatten(d.wal[..i]), d.wal[i], Flatten(d.wal[i + 1..]);
    AboveAppend(a + b, c, floor);
    AboveAppend(a, b, floor);
    AboveNone(b, floor);
    AboveAppend(a, c, floor);
    SameFilesRead(d, RemoveLog(d, i));
  }

  /** Housekeeping keeps memory and disk in step. */
  lemma HousekeepingInStep(k: Catalog, d: Disk, d': Disk, n: Counters)
    requires InStep(k, d, n) && SameReading(d, d')
    requires forall j :: 0 <= j < |Log(d')| ==> Log(d')[j] in Log(d)
    ensures InStep(k, d', n)
  {
    hide DiskOk, SameReading, Recover, RecoverNextCid;
    SameReadingOk(d, d');
    assert Current(d') == Current(d) by { SameCurrent(d, d'); }
  }

  lemma SameCurrent(d: Disk, d': Disk)
    requires SameReading(d, d')
    ensures Current(d') == Current(d)
  {}

  lemma StartLogInStep(k: Catalog, d: Disk, n: Counters)
    requires InStep(k, d, n)
    ensures InStep(k, StartLog(d), n)
  {
    hide DiskOk, SameReading;
    StartLogStep(d);
    HousekeepingInStep(k, d, StartLog(d), n);
  }

  lemma RemoveLogInStep(k: Catalog, d: Disk, n: Counters, i: nat)
    requires InStep(k, d, n) && i < |d.wal| && NoneLive(d.wal[i], n.floor)
    ensures InStep(k, RemoveLog(d, i), n)
  {
    hide DiskOk, SameReading;
    RemoveLogStep(d, i);
    HousekeepingInStep(k, d, RemoveLog(d, i), n);
  }

  /** Log changes leave the stored files alone. */
  lemma LogKeepsOrphans(d: Disk, i: nat)
    ensures Orphans(StartLog(d)) == Orphans(d)
    ensures i < |d.wal| ==> Orphans(RemoveLog(d, i)) == Orphans(d)
  {
    hide Referenced;
  }

  /** Once the floor covers every record handed out, no log file holds a live one. */
  lemma LogSettled(k: Catalog, d: Disk, n: Counters, i: nat)
    requires InStep(k, d, n) && n.nextLsn == n.floor + 1 && i < |d.wal|
    ensures NoneLive(d.wal[i], n.floor)
  {
    hide DiskOk, Recover, RecoverNextCid, Flatten;
    SplitLog(d.wal, i);
    var a, b := Flatten(d.wal[..i]), d.wal[i];
    forall j | 0 <= j < |b| ensures b[j].lsn <= n.floor {
      assert Log(d)[|a| + j] == b[j];
    }
  }
}
