/** Replaying a whole window onto a catalog that already reflects part of it: a
    compaction publishes such a catalog without moving the replay floor
    (crates/quiver-core/src/store.rs, `compact_collection`). */
module WindowReplay {
  import opened ByteStrings
  import opened Segments
  import opened Collections
  import opened CollectionLayout
  import opened Replay

  // ---- rows ----------------------------------------------------------------

  predicate Avoids(es: seq<Entry>, cid: nat, ids: seq<Id>) {
    forall i, id :: 0 <= i < |es| && Touches(es[i].op, cid, id) ==> id !in ids
  }

  lemma MissesMerged(c: Coll, seg: Sealed, id: Id)
    requires id !in seg.file.ids
    ensures LocateSealed(Compacted(c, seg), id) == None
  {
    assert [seg][..0] == [];
  }

  lemma {:induction false} MergedPrefix(c: Coll, cid: nat, es: seq<Entry>, seg: Sealed, n: nat)
    requires !Resets(es, cid) && n <= |es| && Avoids(es, cid, seg.file.ids)
    requires c.window == map[]
    ensures CollReplay(Some(c), cid, es[..n]).Some?
    ensures CollReplay(Some(c.(sealed := [seg])), cid, es[..n])
         == Some(Compacted(CollReplay(Some(c), cid, es[..n]).value, seg))
  {
    if n > 0 {
      MergedPrefix(c, cid, es, seg, n - 1);
      assert es[..n][..n - 1] == es[..n - 1];
      var d := CollReplay(Some(c), cid, es[..n - 1]).value;
      var op := es[n - 1].op;
      assert !ResetsColl(op, cid);
      if (op.Upsert? || op.Delete?) && op.cid == cid {
        assert Touches(es[n - 1].op, cid, op.id);
        MissesMerged(d, seg, op.id);
      }
    }
  }

  /** The unchanged log replays onto the merged segment to exactly the compacted
      state: the same buffer, the same index, and no pending tombstones. */
  lemma CompactionReplay(c: Coll, cid: nat, es: seq<Entry>, seg: Sealed)
    requires CollOk(c) && !Resets(es, cid)
    requires c.window == map[]
    requires CollReplay(Some(c), cid, es).Some?
    requires Merges(CollReplay(Some(c), cid, es).value, seg.file)
    ensures CollReplay(Some(c.(sealed := [seg])), cid, es)
         == Some(Compacted(CollReplay(Some(c), cid, es).value, seg))
  {
    forall i, id | 0 <= i < |es| && Touches(es[i].op, cid, id) ensures id !in seg.file.ids {
      TouchedIsSettled(c, cid, es, i, id);
    }
    MergedPrefix(c, cid, es, seg, |es|);
    assert es[..|es|] == es;
  }

  // ---- names ---------------------------------------------------------------

  /** Which collections exist under which name, and the name index. */
  datatype Directory = Directory(dir: map<nat, Bytes>, names: map<Bytes, nat>)

  function NamesOf(cols: map<nat, Coll>): map<nat, Bytes> { map cid | cid in cols :: cols[cid].name }

  function DirectoryOf(k: Catalog): Directory { Directory(NamesOf(k.cols), k.names) }

  function DirApply(y: Directory, op: Op): Directory {
    match op
    case Create(cid, name, _) => Directory(y.dir[cid := name], y.names[name := cid])
    case Drop(cid) => if cid in y.dir then Directory(y.dir - {cid}, y.names - {y.dir[cid]}) else y
    case _ => y
  }

  function DirReplay(y: Directory, es: seq<Entry>): Directory {
    if es == [] then y else DirApply(DirReplay(y, es[..|es| - 1]), es[|es| - 1].op)
  }

  lemma DirectoryApplies(k: Catalog, op: Op)
    ensures DirectoryOf(Apply(k, op)) == DirApply(DirectoryOf(k), op)
  {
    hide Upserted, Deleted;
    match op {
      case Create(cid, name, desc) => DirectoryPut(k.cols, cid, NewColl(name, desc));
      case Drop(cid) => DirectoryDrop(k.cols, cid);
      case Upsert(cid, id, row) =>
        if cid in k.cols {
          PointOpsKeepName(k.cols[cid], id, row);
          DirectoryPut(k.cols, cid, Upserted(k.cols[cid], id, row));
          assert DirectoryOf(k).dir[cid := k.cols[cid].name] == DirectoryOf(k).dir;
        }
      case Delete(cid, id) =>
        if cid in k.cols {
          DeleteKeepsName(k.cols[cid], id);
          DirectoryPut(k.cols, cid, Deleted(k.cols[cid], id));
          assert DirectoryOf(k).dir[cid := k.cols[cid].name] == DirectoryOf(k).dir;
        }
      case CheckpointMark =>
    }
  }

  lemma DirectoryPut(cols: map<nat, Coll>, cid: nat, c: Coll)
    ensures NamesOf(cols[cid := c]) == NamesOf(cols)[cid := c.name]
  {}

  lemma DirectoryDrop(cols: map<nat, Coll>, cid: nat)
    ensures NamesOf(cols - {cid}) == NamesOf(cols) - {cid}
  {}

  lemma PointOpsKeepName(c: Coll, id: Id, row: Row)
    ensures Upserted(c, id, row).name == c.name
  {}

  lemma DeleteKeepsName(c: Coll, id: Id)
    ensures Deleted(c, id).name == c.name
  {}

  lemma {:induction false} DirectoryReplays(k: Catalog, es: seq<Entry>)
    ensures DirectoryOf(ReplayAll(k, es)) == DirReplay(DirectoryOf(k), es)
  {
    if es != [] {
      DirectoryReplays(k, es[..|es| - 1]);
      DirectoryApplies(ReplayAll(k, es[..|es| - 1]), es[|es| - 1].op);
    }
  }

  /** Names and collections correspond one to one. */
  ghost predicate WellNamed(y: Directory) {
    && (forall n :: n in y.names ==> y.names[n] in y.dir && y.dir[y.names[n]] == n)
    && (forall cid :: cid in y.dir ==> y.dir[cid] in y.names && y.names[y.dir[cid]] == cid)
  }

  /** Every surviving collection was created under the name it has. */
  predicate Stable(es: seq<Entry>, dir: map<nat, Bytes>) {
    forall i :: 0 <= i < |es| && es[i].op.Create? && es[i].op.cid in dir ==> dir[es[i].op.cid] == es[i].op.name
  }

  predicate Mentions(op: Op, cid: nat) { (op.Create? || op.Drop?) && op.cid == cid }

  /** Replaying the log onto its own outcome changes nothing. */
  ghost predicate Idempotent(base: Directory, es: seq<Entry>) {
    DirReplay(DirReplay(base, es), es) == DirReplay(base, es)
  }

  function Find<K(==), V>(m: map<K, V>, x: K): Option<V> {
    if x in m then Some(m[x]) else None
  }

  /** The two maps agree everywhere but at `x`. */
  ghost predicate SameOff<K(!new), V>(m: map<K, V>, n: map<K, V>, x: K) {
    forall y :: y != x ==> Find(m, y) == Find(n, y)
  }

  lemma SameOffEqual<K(!new), V>(m: map<K, V>, n: map<K, V>, x: K)
    requires SameOff(m, n, x) && Find(m, x) == Find(n, x)
    ensures m == n
  {
    forall y ensures y in m <==> y in n { assert y != x ==> Find(m, y) == Find(n, y); }
    forall y | y in m ensures m[y] == n[y] { assert y != x ==> Find(m, y) == Find(n, y); }
  }

  lemma SameOffEdits<K(!new), V>(m: map<K, V>, n: map<K, V>, x: K, k: K, v: V)
    requires SameOff(m, n, x)
    ensures SameOff(m[k := v], n[k := v], x)
    ensures SameOff(m - {k}, n - {k}, x)
    ensures SameOff(m - {x}, n, x) && SameOff(m, n - {x}, x)
  {
    forall y | y != x
      ensures Find(m[k := v], y) == Find(n[k := v], y)
      ensures Find(m - {k}, y) == Find(n - {k}, y)
      ensures Find(m - {x}, y) == Find(n, y) && Find(m, y) == Find(n - {x}, y)
    {
      assert Find(m, y) == Find(n, y);
    }
  }

  /** `b` is `a` with one collection more, which may also have taken its name. */
  ghost predicate OneMore(a: Directory, b: Directory, cid: nat, name: Bytes) {
    cid !in a.dir && b.dir == a.dir[cid := name] && SameOff(a.names, b.names, name)
  }

  lemma OneMoreStep(a: Directory, b: Directory, cid: nat, name: Bytes, op: Op)
    requires OneMore(a, b, cid, name) && !Mentions(op, cid)
    ensures OneMore(DirApply(a, op), DirApply(b, op), cid, name)
  {
    match op {
      case Create(x, n, _) =>
        assert a.dir[cid := name][x := n] == a.dir[x := n][cid := name];
        SameOffEdits(a.names, b.names, name, n, x);
      case Drop(x) =>
        assert a.dir[cid := name] - {x} == (a.dir - {x})[cid := name];
        if x in a.dir { SameOffEdits(a.names, b.names, name, a.dir[x], 0); }
      case _ =>
    }
  }

  /** A collection the log never mentions stays as it is and disturbs only its name. */
  lemma {:induction false} ReplayWithExtra(a: Directory, b: Directory, cid: nat, name: Bytes, es: seq<Entry>)
    requires forall i :: 0 <= i < |es| ==> !Mentions(es[i].op, cid)
    requires OneMore(a, b, cid, name)
    ensures OneMore(DirReplay(a, es), DirReplay(b, es), cid, name)
  {
    if es != [] {
      var n := |es| - 1;
      assert forall i :: 0 <= i < n ==> es[..n][i] == es[i];
      ReplayWithExtra(a, b, cid, name, es[..n]);
      OneMoreStep(DirReplay(a, es[..n]), DirReplay(b, es[..n]), cid, name, es[n].op);
    }
  }

  lemma CreateIdempotent(base: Directory, es: seq<Entry>, e: Entry)
    requires Idempotent(base, es)
    requires e.op.Create? && e.op.cid !in DirReplay(base, es).dir
    requires forall i :: 0 <= i < |es| ==> !Mentions(es[i].op, e.op.cid)
    ensures Idempotent(base, es + [e])
  {
    var f := DirReplay(base, es);
    var cid, name := e.op.cid, e.op.name;
    var f' := Directory(f.dir[cid := name], f.names[name := cid]);
    assert (es + [e])[..|es|] == es;
    assert DirReplay(base, es + [e]) == f';
    assert OneMore(f, f', cid, name);
    ReplayWithExtra(f, f', cid, name, es);
    var g := DirReplay(f', es);
    SameOffEqual(g.names[name := cid], f.names[name := cid], name) by {
      assert forall y :: y != name ==> Find(g.names[name := cid], y) == Find(g.names, y);
      assert forall y :: y != name ==> Find(f.names[name := cid], y) == Find(f.names, y);
    }
    assert g.dir[cid := name] == f.dir[cid := name];
  }

  /** The two directories differ at most in one collection and its name. */
  ghost predicate AgreeOff(a: Directory, b: Directory, cid: nat, name: Bytes) {
    && SameOff(a.dir, b.dir, cid)
    && SameOff(a.names, b.names, name)
    && (cid in a.dir ==> a.dir[cid] == name)
    && (cid in b.dir ==> b.dir[cid] == name)
  }

  lemma AgreeOffStep(a: Directory, b: Directory, cid: nat, name: Bytes, op: Op)
    requires AgreeOff(a, b, cid, name)
    requires op.Create? && op.cid == cid ==> op.name == name
    ensures AgreeOff(DirApply(a, op), DirApply(b, op), cid, name)
  {
    match op {
      case Create(x, n, _) =>
        SameOffEdits(a.dir, b.dir, cid, x, n);
        SameOffEdits(a.names, b.names, name, n, x);
      case Drop(x) =>
        SameOffEdits(a.dir, b.dir, cid, x, []);
        SameOffEdits(a.names, b.names, name, if x in a.dir then a.dir[x] else name, 0);
        if x != cid { assert Find(a.dir, x) == Find(b.dir, x); }
      case _ =>
    }
  }

  lemma {:induction false} AgreeOffReplay(a: Directory, b: Directory, cid: nat, name: Bytes, es: seq<Entry>)
    requires AgreeOff(a, b, cid, name)
    requires forall i :: 0 <= i < |es| && es[i].op.Create? && es[i].op.cid == cid ==> es[i].op.name == name
    ensures AgreeOff(DirReplay(a, es), DirReplay(b, es), cid, name)
  {
    if es != [] {
      var n := |es| - 1;
      assert forall i :: 0 <= i < n ==> es[..n][i] == es[i];
      AgreeOffReplay(a, b, cid, name, es[..n]);
      AgreeOffStep(DirReplay(a, es[..n]), DirReplay(b, es[..n]), cid, name, es[n].op);
    }
  }

  predicate Creates(es: seq<Entry>, cid: nat) {
    exists i :: 0 <= i < |es| && es[i].op.Create? && es[i].op.cid == cid
  }

  /** If the log never creates `cid`, a name it owns at the end it owned throughout,
      so nobody else took that name meanwhile. */
  lemma {:induction false} OwnedThroughout(a: Directory, b: Directory, cid: nat, name: Bytes, es: seq<Entry>)
    requires !Creates(es, cid)
    requires AgreeOff(a, b, cid, name)
    requires cid !in b.dir && name !in b.names
    requires DirReplay(a, es).names.Keys >= {name} && DirReplay(a, es).names[name] == cid
    ensures cid !in DirReplay(b, es).dir && name !in DirReplay(b, es).names
  {
    if es != [] {
      var n := |es| - 1;
      var op := es[n].op;
      var x := DirReplay(a, es[..n]);
      assert !Creates(es[..n], cid) by {
        forall i | 0 <= i < n ensures !(es[..n][i].op.Create? && es[..n][i].op.cid == cid) { assert es[..n][i] == es[i]; }
      }
      assert !(op.Create? && op.cid == cid);
      assert name in DirApply(x, op).names;
      assert op.Create? ==> op.name != name;
      assert name in x.names && x.names[name] == cid;
      OwnedThroughout(a, b, cid, name, es[..n]);
    }
  }

  lemma {:induction false} CreatedIsPresent(y: Directory, es: seq<Entry>, cid: nat, z: Directory)
    requires Creates(es, cid)
    ensures cid in DirReplay(y, es).dir <==> cid in DirReplay(z, es).dir
  {
    var n := |es| - 1;
    if !Mentions(es[n].op, cid) {
      var i :| 0 <= i < |es| && es[i].op.Create? && es[i].op.cid == cid;
      assert es[..n][i] == es[i];
      CreatedIsPresent(y, es[..n], cid, z);
    }
  }

  lemma DropIdempotent(base: Directory, es: seq<Entry>, e: Entry)
    requires Idempotent(base, es)
    requires e.op.Drop? && e.op.cid in DirReplay(base, es).dir
    requires WellNamed(DirReplay(base, es))
    requires Stable(es, DirReplay(base, es).dir)
    ensures Idempotent(base, es + [e])
  {
    var f := DirReplay(base, es);
    var cid := e.op.cid;
    var name := f.dir[cid];
    var f' := Directory(f.dir - {cid}, f.names - {name});
    assert (es + [e])[..|es|] == es;
    assert DirReplay(base, es + [e]) == f';
    assert AgreeOff(f, f', cid, name);
    AgreeOffReplay(f, f', cid, name, es);
    var g := DirReplay(f', es);
    assert AgreeOff(f, g, cid, name);
    if Creates(es, cid) {
      CreatedIsPresent(f, es, cid, f');
    } else {
      OwnedThroughout(f, f', cid, name, es);
    }
    var h := DirApply(g, e.op);
    SameOffEqual(h.dir, f'.dir, cid);
    SameOffEqual(h.names, f'.names, name);
  }

  /** What the log must satisfy for the name index to survive a replay onto a later
      catalog: kept by every well-formed append. */
  ghost predicate LogOk(base: Directory, es: seq<Entry>, nextCid: nat) {
    && WellNamed(DirReplay(base, es))
    && Idempotent(base, es)
    && Stable(es, DirReplay(base, es).dir)
    && (forall i :: 0 <= i < |es| && (es[i].op.Create? || es[i].op.Drop?) ==> es[i].op.cid < nextCid)
    && (forall cid :: cid in DirReplay(base, es).dir ==> cid < nextCid)
  }

  /** The log neither creates nor drops the collection. */
  predicate Unmentioned(es: seq<Entry>, cid: nat) { forall i :: 0 <= i < |es| ==> !Mentions(es[i].op, cid) }

  /** An operation that may be appended to a log: a fresh collection under a free
      name, the drop of an existing one, or any point operation. */
  predicate Appendable(y: Directory, es: seq<Entry>, op: Op) {
    match op
    case Create(cid, name, _) => name !in y.names && cid !in y.dir && Unmentioned(es, cid)
    case Drop(cid) => cid in y.dir
    case _ => true
  }

  function NextCidAfter(nextCid: nat, op: Op): nat {
    if op.Create? && op.cid >= nextCid then op.cid + 1 else nextCid
  }

  lemma LogOkAppend(base: Directory, es: seq<Entry>, nextCid: nat, e: Entry)
    requires LogOk(base, es, nextCid)
    requires Appendable(DirReplay(base, es), es, e.op)
    ensures LogOk(base, es + [e], NextCidAfter(nextCid, e.op))
  {
    var f := DirReplay(base, es);
    assert (es + [e])[..|es|] == es;
    assert DirReplay(base, es + [e]) == DirApply(f, e.op);
    match e.op {
      case Create(cid, name, _) => CreateIdempotent(base, es, e);
      case Drop(cid) => DropIdempotent(base, es, e);
      case _ =>
        assert DirReplay(f, es + [e]) == DirReplay(f, es);
    }
  }

  /** The next collection id has never been used. */
  lemma NextIsNew(base: Directory, es: seq<Entry>, nextCid: nat)
    requires LogOk(base, es, nextCid)
    ensures nextCid !in DirReplay(base, es).dir && Unmentioned(es, nextCid)
  {}
}
