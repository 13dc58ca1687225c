/** Losing the end of the newest log file: the records appended since the last sync
    (crates/quiver-core/src/wal.rs, `append`, `sync`). */
module Cuts {
  import opened ByteStrings
  import opened Segments
  import opened Replay
  import opened Disks
  import opened DiskSteps
  import opened Publishing
  import opened Housekeeping
  import opened Checkpoints

  /** The newest log file. */
  function NewestLog(d: Disk): seq<Entry>
    requires d.wal != []
  {
    d.wal[|d.wal| - 1]
  }

  /** The disk with other records in its newest log file. */
  function WithNewest(d: Disk, es: seq<Entry>): Disk
    requires d.wal != []
  {
    d.(wal := d.wal[..|d.wal| - 1] + [es])
  }

  /** The newest log file has at least `n` records. */
  predicate Cuttable(d: Disk, n: nat) { n > 0 ==> d.wal != [] && n <= |NewestLog(d)| }

  /** The disk without the last `n` records of its newest log file. */
  function Cut(d: Disk, n: nat): (r: Disk)
    ensures r == d.(wal := r.wal)
  {
    if n == 0 || !Cuttable(d, n) then d else WithNewest(d, NewestLog(d)[..|NewestLog(d)| - n])
  }

  /** Cutting into an append takes the appended record first. */
  lemma CutAppend(d: Disk, e: Entry, n: nat)
    requires d.wal != [] && n <= |NewestLog(d)|
    ensures Append(d, e).wal != [] && |NewestLog(Append(d, e))| == |NewestLog(d)| + 1
    ensures Cut(Append(d, e), n + 1) == Cut(d, n)
  {
    var d' := Append(d, e);
    var last := |d.wal| - 1;
    assert d'.wal[..last] == d.wal[..last] && NewestLog(d') == NewestLog(d) + [e];
    assert NewestLog(d')[..|NewestLog(d')| - (n + 1)] == NewestLog(d)[..|NewestLog(d)| - n];
    assert NewestLog(d)[..|NewestLog(d)|] == NewestLog(d);
    assert d.wal == d.wal[..last] + [NewestLog(d)];
  }

  /** What a step writes beside the log does not depend on how the log ends. */
  lemma CutElsewhere(d: Disk, d': Disk, n: nat)
    requires d'.wal == d.wal
    ensures Cut(d', n) == d'.(wal := Cut(d, n).wal) && Cut(d, n) == d.(wal := Cut(d, n).wal)
    ensures Current(Cut(d, n)) == Current(d)
  {}

  lemma CutSegment(d: Disk, n: nat, key: SegKey, file: SegFile)
    ensures Cut(WriteSeg(d, key, file), n) == WriteSeg(Cut(d, n), key, file)
  {
    hide Cut;
    CutElsewhere(d, WriteSeg(d, key, file), n);
  }

  lemma CutInstall(d: Disk, n: nat, m: Manifest)
    ensures Cut(Install(d, m), n) == Install(Cut(d, n), m)
  {
    hide Cut;
    CutElsewhere(d, Install(d, m), n);
  }

  lemma CutCurrent(d: Disk, n: nat)
    ensures Current(Cut(d, n)) == Current(d)
  {}

  lemma CutAdvanced(k: Catalog, d: Disk, d': Disk, n: nat)
    requires HalfAdvanced(k, d, d')
    ensures HalfAdvanced(k, Cut(d, n), Cut(d', n))
  {
    CutElsewhere(d, d', n);
    var a, b := Cut(d, n), Cut(d', n);
    assert forall key :: DelOf(a, key) == DelOf(d, key) && DelOf(b, key) == DelOf(d', key);
    assert Current(a) == Current(d);
  }
}
