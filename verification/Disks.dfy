/** The durable state of a store and what recovery reads from it: manifests behind a
    `CURRENT` file, segment files, tombstone bitmaps and log files
    (crates/quiver-core/src/store.rs, crates/quiver-core/src/manifest.rs). */
module Disks {
  import opened ByteStrings
  import opened Segments
  import opened Descriptors
  import opened Collections
  import opened CollectionLayout
  import opened Replay
  import opened WindowReplay

  datatype SegKey = SegKey(cid: nat, seg: nat)

  /** A manifest's entry for one collection: its live segments, oldest first. */
  datatype CollEntry = CollEntry(cid: nat, name: Bytes, desc: Descriptor, segments: seq<nat>)

  datatype Manifest = Manifest(version: nat, floor: nat, nextCid: nat, nextSeg: nat, collections: seq<CollEntry>)

  const EMPTY_MANIFEST := Manifest(0, 0, 0, 0, [])

  /** Log files are listed oldest first; each holds its intact records. */
  datatype Disk = Disk(
    manifests: map<nat, Manifest>,
    current: Option<nat>,
    segs: map<SegKey, SegFile>,
    dels: map<SegKey, set<nat>>,
    wal: seq<seq<Entry>>)

  const EMPTY_DISK := Disk(map[], None, map[], map[], [])

  // ---- reading -------------------------------------------------------------

  function Current(d: Disk): Manifest {
    if d.current.Some? && d.current.value in d.manifests then d.manifests[d.current.value] else EMPTY_MANIFEST
  }

  function FileOf(d: Disk, key: SegKey): SegFile {
    if key in d.segs then d.segs[key] else SegFile([], [], [], [])
  }

  function DelOf(d: Disk, key: SegKey): set<nat> {
    if key in d.dels then d.dels[key] else {}
  }

  function OpenSegment(d: Disk, cid: nat, seg: nat): Sealed {
    Sealed(seg, FileOf(d, SegKey(cid, seg)), DelOf(d, SegKey(cid, seg)))
  }

  function OpenSegments(d: Disk, cid: nat, segments: seq<nat>): (segs: seq<Sealed>)
    ensures |segs| == |segments|
    ensures forall i :: 0 <= i < |segs| ==> segs[i] == OpenSegment(d, cid, segments[i])
  {
    seq(|segments|, i requires 0 <= i < |segments| => OpenSegment(d, cid, segments[i]))
  }

  function LoadColl(d: Disk, e: CollEntry): Coll {
    Coll(e.name, e.desc, OpenSegments(d, e.cid, e.segments), [], map[], map[])
  }

  function LoadAll(d: Disk, entries: seq<CollEntry>): Catalog {
    if entries == [] then Catalog(map[], map[])
    else
      var rest := LoadAll(d, entries[..|entries| - 1]);
      var e := entries[|entries| - 1];
      Catalog(rest.cols[e.cid := LoadColl(d, e)], rest.names[e.name := e.cid])
  }

  function Load(d: Disk): Catalog { LoadAll(d, Current(d).collections) }

  function Flatten(wal: seq<seq<Entry>>): seq<Entry> {
    if wal == [] then [] else Flatten(wal[..|wal| - 1]) + wal[|wal| - 1]
  }

  /** The records past the replay floor. */
  function Above(es: seq<Entry>, floor: nat): seq<Entry> {
    if es == [] then []
    else
      var rest := Above(es[..|es| - 1], floor);
      if es[|es| - 1].lsn > floor then rest + [es[|es| - 1]] else rest
  }

  function Log(d: Disk): seq<Entry> { Flatten(d.wal) }

  function Tail(d: Disk): seq<Entry> { Above(Log(d), Current(d).floor) }

  /** What opening the store rebuilds in memory. */
  function Recover(d: Disk): Catalog { ReplayAll(Load(d), Tail(d)) }

  function NextCidOver(nextCid: nat, es: seq<Entry>): nat {
    if es == [] then nextCid else NextCidAfter(NextCidOver(nextCid, es[..|es| - 1]), es[|es| - 1].op)
  }

  function RecoverNextCid(d: Disk): nat { NextCidOver(Current(d).nextCid, Tail(d)) }

  /** The acknowledged state: the ledger and the next collection id. */
  datatype State = State(ledger: Ledger, nextCid: nat)

  function Durable(d: Disk): State { State(Meaning(Recover(d)), RecoverNextCid(d)) }

  // ---- well-formed disks ---------------------------------------------------

  ghost predicate EntriesOk(d: Disk, m: Manifest) {
    && (forall i, j :: 0 <= i < j < |m.collections| ==> m.collections[i].cid != m.collections[j].cid)
    && (forall i :: 0 <= i < |m.collections| ==> EntryOk(d, m, m.collections[i]))
  }

  ghost predicate EntryOk(d: Disk, m: Manifest, e: CollEntry) {
    && (forall s :: 0 <= s < |e.segments| ==> SegKey(e.cid, e.segments[s]) in d.segs && e.segments[s] < m.nextSeg)
    && (forall s, s' :: 0 <= s < s' < |e.segments| ==> e.segments[s] != e.segments[s'])
    && CollOk(LoadColl(d, e))
  }

  ghost predicate DiskOk(d: Disk) {
    && (d.current.Some? ==> d.current.value in d.manifests && d.manifests[d.current.value].version == d.current.value)
    && EntriesOk(d, Current(d))
    && (forall key :: key in d.dels ==> key.seg < Current(d).nextSeg)
    && LogOk(DirectoryOf(Load(d)), Tail(d), RecoverNextCid(d))
  }

  /** In-memory allocators and positions. */
  datatype Counters = Counters(nextLsn: nat, nextCid: nat, nextSeg: nat, version: nat, floor: nat)

  /** Memory is exactly what recovery would rebuild. */
  ghost predicate InStep(k: Catalog, d: Disk, n: Counters) {
    && DiskOk(d)
    && k == Recover(d)
    && n.nextCid == RecoverNextCid(d)
    && n.floor == Current(d).floor < n.nextLsn
    && n.version == Current(d).version
    && n.nextSeg >= Current(d).nextSeg
    && (forall i :: 0 <= i < |Log(d)| ==> Log(d)[i].lsn < n.nextLsn)
  }

  // ---- loading -------------------------------------------------------------

  lemma {:induction false} LoadAllCols(d: Disk, entries: seq<CollEntry>)
    requires forall i, j :: 0 <= i < j < |entries| ==> entries[i].cid != entries[j].cid
    ensures forall i :: 0 <= i < |entries| ==>
              entries[i].cid in LoadAll(d, entries).cols && LoadAll(d, entries).cols[entries[i].cid] == LoadColl(d, entries[i])
    ensures forall cid :: cid in LoadAll(d, entries).cols ==> exists i :: 0 <= i < |entries| && entries[i].cid == cid
  {
    if entries != [] {
      var n := |entries| - 1;
      LoadAllCols(d, entries[..n]);
      forall cid | cid in LoadAll(d, entries).cols ensures exists i :: 0 <= i < |entries| && entries[i].cid == cid {
        if cid != entries[n].cid {
          assert cid in LoadAll(d, entries[..n]).cols;
          var i :| 0 <= i < |entries[..n]| && entries[..n][i].cid == cid;
          assert entries[i].cid == cid;
        }
      }
      forall i | 0 <= i < |entries|
        ensures entries[i].cid in LoadAll(d, entries).cols && LoadAll(d, entries).cols[entries[i].cid] == LoadColl(d, entries[i])
      {
        if i < n { assert entries[..n][i] == entries[i]; }
      }
    }
  }

  /** Loading reads only the named segments. */
  lemma {:induction false} LoadAllSame(d: Disk, d': Disk, entries: seq<CollEntry>)
    requires forall i :: 0 <= i < |entries| ==> LoadColl(d, entries[i]) == LoadColl(d', entries[i])
    ensures LoadAll(d, entries) == LoadAll(d', entries)
  {
    if entries != [] {
      var n := |entries| - 1;
      assert forall i :: 0 <= i < n ==> entries[..n][i] == entries[i];
      LoadAllSame(d, d', entries[..n]);
    }
  }

  lemma {:induction false} LoadAllNames(d: Disk, entries: seq<CollEntry>)
    ensures forall i :: 0 <= i < |entries| ==> entries[i].name in LoadAll(d, entries).names
    ensures forall n :: n in LoadAll(d, entries).names ==>
              exists i :: 0 <= i < |entries| && entries[i].name == n && LoadAll(d, entries).names[n] == entries[i].cid
  {
    if entries != [] {
      var n := |entries| - 1;
      LoadAllNames(d, entries[..n]);
      forall i | 0 <= i < |entries| ensures entries[i].name in LoadAll(d, entries).names {
        if i < n { assert entries[..n][i] == entries[i]; }
      }
      forall x | x in LoadAll(d, entries).names
        ensures exists i :: 0 <= i < |entries| && entries[i].name == x && LoadAll(d, entries).names[x] == entries[i].cid
      {
        if x == entries[n].name {
          assert LoadAll(d, entries).names[x] == entries[n].cid;
        } else {
          var i :| 0 <= i < n && entries[..n][i].name == x && LoadAll(d, entries[..n]).names[x] == entries[..n][i].cid;
          assert entries[i] == entries[..n][i];
        }
      }
    }
  }

  /** The entries list every collection of `k` once, as the disk holds it. */
  ghost predicate Lists(d: Disk, entries: seq<CollEntry>, k: Catalog) {
    && (forall i, j :: 0 <= i < j < |entries| ==> entries[i].cid != entries[j].cid)
    && (forall i :: 0 <= i < |entries| ==> entries[i].cid in k.cols && k.cols[entries[i].cid] == LoadColl(d, entries[i]))
    && (forall cid :: cid in k.cols ==> exists i :: 0 <= i < |entries| && entries[i].cid == cid)
  }

  lemma ListedCols(d: Disk, entries: seq<CollEntry>, k: Catalog)
    requires Lists(d, entries, k)
    ensures LoadAll(d, entries).cols == k.cols
  {
    LoadAllCols(d, entries);
    var l := LoadAll(d, entries).cols;
    forall cid ensures cid in l <==> cid in k.cols {
      if cid in k.cols { var i :| 0 <= i < |entries| && entries[i].cid == cid; }
      if cid in l { var i :| 0 <= i < |entries| && entries[i].cid == cid; }
    }
    forall cid | cid in l ensures l[cid] == k.cols[cid] {
      var i :| 0 <= i < |entries| && entries[i].cid == cid;
    }
  }

  lemma ListedHasName(d: Disk, entries: seq<CollEntry>, k: Catalog, x: Bytes)
    requires Lists(d, entries, k) && WellNamed(DirectoryOf(k))
    requires x in k.names
    ensures x in LoadAll(d, entries).names
  {
    LoadAllNames(d, entries);
    var cid := k.names[x];
    assert cid in DirectoryOf(k).dir && k.cols[cid].name == x;
    var i :| 0 <= i < |entries| && entries[i].cid == cid;
    assert entries[i].name == x;
  }

  /** A manifest that lists a well-named catalog loads as exactly that catalog. */
  lemma ListedLoads(d: Disk, entries: seq<CollEntry>, k: Catalog)
    requires Lists(d, entries, k) && WellNamed(DirectoryOf(k))
    ensures LoadAll(d, entries) == k
  {
    ListedCols(d, entries, k);
    var l := LoadAll(d, entries).names;
    forall x ensures x in l <==> x in k.names {
      if x in k.names { ListedHasName(d, entries, k, x); }
      if x in l { ListedName(d, entries, k, x); }
    }
    forall x | x in l ensures l[x] == k.names[x] { ListedName(d, entries, k, x); }
  }

  lemma ListedName(d: Disk, entries: seq<CollEntry>, k: Catalog, x: Bytes)
    requires Lists(d, entries, k) && WellNamed(DirectoryOf(k))
    requires x in LoadAll(d, entries).names
    ensures x in k.names && LoadAll(d, entries).names[x] == k.names[x]
  {
    LoadAllNames(d, entries);
    var i :| 0 <= i < |entries| && entries[i].name == x && LoadAll(d, entries).names[x] == entries[i].cid;
    assert entries[i].cid in DirectoryOf(k).dir;
  }

  // ---- log files -----------------------------------------------------------

  lemma {:induction false} FlattenAppend(a: seq<seq<Entry>>, b: seq<seq<Entry>>)
    ensures Flatten(a + b) == Flatten(a) + Flatten(b)
  {
    if b == [] {
      assert a + b == a;
    } else {
      var n := |b| - 1;
      assert (a + b)[..|a| + n] == a + b[..n];
      FlattenAppend(a, b[..n]);
    }
  }

  lemma {:induction false} AboveAppend(a: seq<Entry>, b: seq<Entry>, floor: nat)
    ensures Above(a + b, floor) == Above(a, floor) + Above(b, floor)
  {
    if b == [] {
      assert a + b == a;
    } else {
      var n := |b| - 1;
      assert (a + b)[..|a| + n] == a + b[..n];
      AboveAppend(a, b[..n], floor);
    }
  }

  lemma {:induction false} AboveNone(es: seq<Entry>, floor: nat)
    requires forall i :: 0 <= i < |es| ==> es[i].lsn <= floor
    ensures Above(es, floor) == []
  {
    if es != [] { AboveNone(es[..|es| - 1], floor); }
  }

  lemma FlattenOne(es: seq<Entry>)
    ensures Flatten([es]) == es
  {
    assert [es][..0] == [];
  }

  /** Append one record to the newest log file. */
  function Append(d: Disk, e: Entry): (r: Disk)
    requires d.wal != []
    ensures r.wal != []
  {
    d.(wal := d.wal[..|d.wal| - 1] + [d.wal[|d.wal| - 1] + [e]])
  }

  lemma AppendLog(d: Disk, e: Entry)
    requires d.wal != []
    ensures Log(Append(d, e)) == Log(d) + [e]
  {
    var n := |d.wal| - 1;
    assert Append(d, e).wal[..n] == d.wal[..n];
  }

  lemma AppendTail(d: Disk, e: Entry)
    requires d.wal != [] && e.lsn > Current(d).floor
    ensures Load(Append(d, e)) == Load(d)
    ensures Tail(Append(d, e)) == Tail(d) + [e]
    ensures Recover(Append(d, e)) == Apply(Recover(d), e.op)
    ensures RecoverNextCid(Append(d, e)) == NextCidAfter(RecoverNextCid(d), e.op)
  {
    AppendLog(d, e);
    AboveAppend(Log(d), [e], Current(d).floor);
    assert Above([e], Current(d).floor) == [e] by { assert [e][..0] == []; }
    forall i | 0 <= i < |Current(d).collections|
      ensures LoadColl(Append(d, e), Current(d).collections[i]) == LoadColl(d, Current(d).collections[i])
    {
      LoadCollSame(d, Append(d, e), Current(d).collections[i]);
    }
    LoadAllSame(d, Append(d, e), Current(d).collections);
    assert (Tail(d) + [e])[..|Tail(d)|] == Tail(d);
  }

  lemma LoadCollSame(d: Disk, d': Disk, e: CollEntry)
    requires forall s :: 0 <= s < |e.segments| ==> OpenSegment(d', e.cid, e.segments[s]) == OpenSegment(d, e.cid, e.segments[s])
    ensures LoadColl(d', e) == LoadColl(d, e)
  {
    assert OpenSegments(d', e.cid, e.segments) == OpenSegments(d, e.cid, e.segments);
  }
}
