/** Opening a store: what the recovery loop has rebuilt after each log record
    (crates/quiver-core/src/store.rs, `open_with_keyring`). */
module Opening {
  import opened ByteStrings
  import opened Collections
  import opened Replay
  import opened WindowReplay
  import opened Disks
  import opened Publishing
  import opened Housekeeping

  /** The log before record `i` of file `f`. */
  function LogBefore(wal: seq<seq<Entry>>, f: nat, i: nat): seq<Entry>
    requires f < |wal| && i <= |wal[f]|
  {
    Flatten(wal[..f]) + wal[f][..i]
  }

  /** What recovery holds after reading a prefix of the log. */
  ghost predicate Replayed(d: Disk, es: seq<Entry>, k: Catalog, maxLsn: nat, createdBelow: nat) {
    var m := Current(d);
    && k == ReplayAll(Load(d), Above(es, m.floor))
    && m.floor <= maxLsn && (forall j :: 0 <= j < |es| ==> es[j].lsn <= maxLsn)
    && Max(m.nextCid, createdBelow) == NextCidOver(m.nextCid, Above(es, m.floor))
  }

  function Max(a: nat, b: nat): nat { if a <= b then b else a }

  lemma AboveOne(es: seq<Entry>, e: Entry, floor: nat)
    ensures Above(es + [e], floor) == if e.lsn > floor then Above(es, floor) + [e] else Above(es, floor)
  {
    assert (es + [e])[..|es|] == es;
  }

  lemma ReplayOne(k: Catalog, nextCid: nat, es: seq<Entry>, e: Entry)
    ensures ReplayAll(k, es + [e]) == Apply(ReplayAll(k, es), e.op)
    ensures NextCidOver(nextCid, es + [e]) == NextCidAfter(NextCidOver(nextCid, es), e.op)
  {
    hide Apply, NextCidAfter;
    assert (es + [e])[..|es|] == es;
  }

  /** One more record: skipped at or below the floor, otherwise applied. */
  lemma ReplayedRecord(d: Disk, es: seq<Entry>, e: Entry, k: Catalog, maxLsn: nat, createdBelow: nat)
    requires Replayed(d, es, k, maxLsn, createdBelow)
    ensures e.lsn <= Current(d).floor ==> Replayed(d, es + [e], k, maxLsn, createdBelow)
    ensures e.lsn > Current(d).floor ==>
      Replayed(d, es + [e], Apply(k, e.op), Max(maxLsn, e.lsn), if e.op.Create? then Max(createdBelow, e.op.cid + 1) else createdBelow)
  {
    hide Apply, Load, Above, ReplayAll, NextCidOver, Current;
    var m := Current(d);
    AboveOne(es, e, m.floor);
    ReplayOne(Load(d), m.nextCid, Above(es, m.floor), e);
  }

  lemma LogBeforeStep(wal: seq<seq<Entry>>, f: nat, i: nat)
    requires f < |wal| && i < |wal[f]|
    ensures LogBefore(wal, f, i + 1) == LogBefore(wal, f, i) + [wal[f][i]]
  {
    assert wal[f][..i + 1] == wal[f][..i] + [wal[f][i]];
  }

  lemma LogBeforeFile(wal: seq<seq<Entry>>, f: nat)
    requires f < |wal|
    ensures LogBefore(wal, f, 0) == Flatten(wal[..f])
    ensures LogBefore(wal, f, |wal[f]|) == Flatten(wal[..f + 1])
  {
    assert wal[..f + 1][..f] == wal[..f];
  }

  lemma LoadOk(d: Disk)
    requires DiskOk(d)
    ensures CatalogOk(Load(d))
  {
    forall cid | cid in Load(d).cols ensures CollOk(Load(d).cols[cid]) { LoadedAreBases(d, cid); }
  }

  /** A finished replay is exactly what recovery rebuilds. */
  lemma OpenedInStep(d: Disk, k: Catalog, maxLsn: nat, createdBelow: nat)
    requires DiskOk(d) && Replayed(d, Log(d), k, maxLsn, createdBelow)
    ensures var m := Current(d);
      InStep(k, d, Counters(maxLsn + 1, Max(m.nextCid, createdBelow), m.nextSeg, m.version, m.floor))
  {
    hide DiskOk, Flatten, Load;
  }

  lemma ReplayedStart(d: Disk)
    ensures Replayed(d, [], Load(d), Current(d).floor, 0)
  {}

  /** The next entry of the manifest. */
  lemma LoadStep(d: Disk, entries: seq<CollEntry>, i: nat)
    requires i < |entries|
    ensures var k, e := LoadAll(d, entries[..i]), entries[i];
      LoadAll(d, entries[..i + 1]) == Catalog(k.cols[e.cid := LoadColl(d, e)], k.names[e.name := e.cid])
  {
    assert entries[..i + 1][..i] == entries[..i];
  }

  /** An empty directory is a well-formed store with nothing in it. */
  lemma EmptyDiskOk()
    ensures DiskOk(EMPTY_DISK) && Durable(EMPTY_DISK) == State(Ledger(map[], map[]), 0)
  {
    var d := EMPTY_DISK;
    assert Tail(d) == [] && Load(d) == Catalog(map[], map[]);
    assert Meaning(Load(d)).tables == map[];
  }
}
