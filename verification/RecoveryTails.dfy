/** The recovery tail an index snapshot replays to catch up with the store: when it
    does, and exactly when it does not (crates/quiver-core/src/store.rs,
    `recovery_tail`; crates/quiver-embed/src/lib.rs, `replay_recovery_tail`). */
module RecoveryTails {
  import opened ByteStrings
  import opened KeyOrder
  import opened SecondaryIndex
  import opened Segments
  import opened Descriptors
  import opened Collections
  import opened CollectionLayout
  import opened Replay

  /** A snapshot's map after the tail: deletions first, then the buffered upserts. */
  function CaughtUp(b: map<Id, Row>, c: Coll): map<Id, Row>
    requires ActiveOk(c)
  {
    (b - TailDeleted(c)) + TailUpserts(c)
  }

  /** The part of the snapshot the current segments still hold is unchanged. */
  predicate Within(a: map<Id, Row>, b: map<Id, Row>) { forall id :: id in a ==> id in b && b[id] == a[id] }

  /** The tail catches a snapshot up exactly when every snapshot row the segments no
      longer hold has been written again. */
  lemma CaughtUpIff(b: map<Id, Row>, c: Coll)
    requires Valid(c) && Within(Contents(Base(c)), b)
    ensures CaughtUp(b, c) == Contents(c) <==> forall id :: id in b && id !in Contents(Base(c)) ==> id in Contents(c)
  {
    hide Contents, SegmentsOk, Shadowed, WindowOk, TailDeleted;
    TailCatchesUp(c);
    var base := Contents(Base(c));
    forall id | id in TailDeleted(c) ensures id in base { DeletedWasLive(c, id); }
    if forall id :: id in b && id !in base ==> id in Contents(c) {
      forall id | id in b && id !in base ensures id in TailUpserts(c) { assert id in Contents(c); }
      assert CaughtUp(b, c) == Contents(c);
    } else {
      var id :| id in b && id !in base && id !in Contents(c);
      assert id in CaughtUp(b, c);
    }
  }

  lemma DeletedWasLive(c: Coll, id: Id)
    requires Valid(c) && id in TailDeleted(c)
    ensures id in Contents(Base(c))
  {
    TailDeletedMeaning(c, id);
    ContentsIsLookup(Base(c), id);
  }

  /** Through any window without a compaction or an interrupted checkpoint, the tail
      turns the map at the checkpoint into the current map. */
  lemma WindowCatchesUp(c0: Coll, cid: nat, es: seq<Entry>)
    requires CollOk(c0) && c0 == Base(c0) && !Resets(es, cid)
    ensures CollReplay(Some(c0), cid, es).Some?
    ensures var c := CollReplay(Some(c0), cid, es).value; Valid(c) && CaughtUp(Contents(c0), c) == Contents(c)
  {
    hide Contents, Valid;
    CollReplayOk(c0, cid, es);
    SegmentsKept(c0, cid, es);
    TailCatchesUp(CollReplay(Some(c0), cid, es).value);
  }

  /** The live sealed rows are the checkpointed ones the window did not kill. */
  lemma CompactedBase(c: Coll, seg: Sealed)
    requires Valid(c) && Merges(c, seg.file) && seg.dead == {}
    ensures Contents(Base(Compacted(c, seg))) == Contents(Base(c)) - TailDeleted(c)
  {
    hide Valid;
    var d := Base(Compacted(c, seg));
    forall id: Id ensures id in Contents(d) <==> id in Contents(Base(c)) && id !in TailDeleted(c)
                  ensures id in Contents(d) ==> Contents(d)[id] == Contents(Base(c))[id]
    {
      ContentsIsLookup(d, id);
      ContentsIsLookup(Base(c), id);
      CompactedLookup(c, seg, id);
    }
  }

  lemma CompactedLookup(c: Coll, seg: Sealed, id: Id)
    requires Valid(c) && Merges(c, seg.file) && seg.dead == {}
    ensures Lookup(Base(Compacted(c, seg)), id) == if id in TailDeleted(c) then None else Lookup(Base(c), id)
  {
    var d := Base(Compacted(c, seg));
    assert d.sealed == [seg] && d.sealed[..0] == [];
    assert Newest(d.sealed, id) == var at := Position(seg.file.ids, id); if at.Some? then Some(Loc(0, at.value)) else None;
    TailDeletedMeaning(c, id);
  }

  /** With a compaction inside the window, the tail catches up exactly when every point
      whose tombstone the compaction dropped exists again. */
  lemma CompactionCatchesUp(c0: Coll, cid: nat, before: seq<Entry>, seg: Sealed, after: seq<Entry>)
    requires CollOk(c0) && c0 == Base(c0) && !Resets(before, cid) && !Resets(after, cid)
    requires CollReplay(Some(c0), cid, before).Some?
    requires var c1 := CollReplay(Some(c0), cid, before).value;
      Merges(c1, seg.file) && seg.dead == {} && Indexed(seg.file, c1.desc.filterable)
    ensures var c1 := CollReplay(Some(c0), cid, before).value;
      var r := CollReplay(Some(Compacted(c1, seg)), cid, after);
      && r.Some? && Valid(r.value)
      && (CaughtUp(Contents(c0), r.value) == Contents(r.value) <==> forall id :: id in TailDeleted(c1) ==> id in Contents(r.value))
  {
    hide Contents, Valid, Merges, Indexed, TailDeleted;
    CollReplayOk(c0, cid, before);
    SegmentsKept(c0, cid, before);
    var c1 := CollReplay(Some(c0), cid, before).value;
    var c2 := Compacted(c1, seg);
    CompactedContents(c1, seg);
    CollReplayOk(c2, cid, after);
    SegmentsKept(c2, cid, after);
    var c := CollReplay(Some(c2), cid, after).value;
    assert Base(c) == Base(c2);
    CompactedBase(c1, seg);
    CaughtUpIff(Contents(c0), c);
    forall id | id in TailDeleted(c1) ensures id in Contents(c0) { DeletedWasLive(c1, id); }
  }

  /** Early tombstones only shrink the map. */
  lemma AheadWithin(c: Coll, d: Coll, extra: set<Loc>)
    requires Ahead(c, d, extra)
    ensures Within(Contents(d), Contents(c))
  {
    forall id | id in Contents(d) ensures id in Contents(c) && Contents(c)[id] == Contents(d)[id] {
      ContentsIsLookup(c, id);
      ContentsIsLookup(d, id);
      NewestByFiles(c.sealed, d.sealed, id);
    }
  }

  /** After a crash between a tombstone rewrite and the manifest swap, the tail catches
      up exactly when every point tombstoned early exists again. */
  lemma HalfAdvancedCatchesUp(c0: Coll, d0: Coll, extra: set<Loc>, cid: nat, es: seq<Entry>)
    requires CollOk(c0) && CollOk(d0) && c0 == Base(c0) && d0 == Base(d0) && Ahead(c0, d0, extra) && !Resets(es, cid)
    ensures CollReplay(Some(d0), cid, es).Some?
    ensures var d := CollReplay(Some(d0), cid, es).value;
      && Valid(d)
      && (CaughtUp(Contents(c0), d) == Contents(d) <==> forall id :: id in Contents(c0) && id !in Contents(d0) ==> id in Contents(d))
  {
    hide Contents, Valid, Ahead;
    CollReplayOk(d0, cid, es);
    SegmentsKept(d0, cid, es);
    var d := CollReplay(Some(d0), cid, es).value;
    assert Base(d) == d0;
    AheadWithin(c0, d0, extra);
    CaughtUpIff(Contents(c0), d);
  }

  /** Delete a checkpointed point, then compact: the tail no longer names it. */
  lemma CompactionForgetsDeletion(row: Row, desc: Descriptor)
    requires desc.filterable == []
    ensures var c0 := OnePoint(row, desc, {});
      var c := Compacted(Deleted(c0, [1]), Sealed(1, SegFile([], [], [], []), {}));
      && CollOk(c0) && c0 == Base(c0) && Merges(Deleted(c0, [1]), SegFile([], [], [], [])) && Valid(c)
      && [1] !in Contents(c) && [1] in CaughtUp(Contents(c0), c)
  {
    var c0 := OnePoint(row, desc, {});
    OnePointOk(row, desc);
    var c1 := Deleted(c0, [1]);
    assert c0.sealed[..0] == [];
    assert Position([[1]], [1]) == Some(0);
    assert Newest(c0.sealed, [1]) == Some(Loc(0, 0));
    var none: set<nat> := {};
    assert none + {0} == {0};
    assert LocateSealed(c0, [1]) == Some(Loc(0, 0));
    assert c1.window == c0.window[0 := {0}] == map[0 := {0}];
    ContentsIsLookup(c0, [1]);
    DeletedContents(c0, [1]);
    NothingLive(c1);
    CompactedContents(c1, Sealed(1, SegFile([], [], [], []), {}));
  }

  /** Delete a checkpointed point and crash after its tombstone reached the bitmap: the replayed
      deletion finds the row already dead, and the tail does not name it. */
  lemma HalfAdvanceForgetsDeletion(row: Row, desc: Descriptor)
    requires desc.filterable == []
    ensures var c0 := OnePoint(row, desc, {});
      var d0 := OnePoint(row, desc, {0});
      var d := CollReplay(Some(d0), 0, [Entry(1, Delete(0, [1]))]);
      && CollOk(c0) && CollOk(d0) && Ahead(c0, d0, {Loc(0, 0)}) && d.Some? && Valid(d.value)
      && [1] !in Contents(d.value) && [1] in CaughtUp(Contents(c0), d.value)
  {
    var c0, d0 := OnePoint(row, desc, {}), OnePoint(row, desc, {0});
    var es := [Entry(1, Delete(0, [1]))];
    OnePointOk(row, desc);
    assert c0.sealed[..0] == [] && d0.sealed[..0] == [] && es[..0] == [];
    assert Position([[1]], [1]) == Some(0);
    assert Newest(c0.sealed, [1]) == Some(Loc(0, 0)) && Newest(d0.sealed, [1]) == Some(Loc(0, 0));
    ContentsIsLookup(c0, [1]);
    ContentsIsLookup(d0, [1]);
    assert LocateSealed(d0, [1]).None?;
    assert Deleted(d0, [1]) == d0;
    assert CollReplay(Some(d0), 0, es) == Some(d0);
  }

  /** One point in one segment. */
  function OnePoint(row: Row, desc: Descriptor, dead: set<nat>): Coll {
    Coll([97], desc, [Sealed(0, SegFile([[1]], [row], [0], []), dead)], [], map[], map[])
  }

  lemma OnePointOk(row: Row, desc: Descriptor)
    requires desc.filterable == []
    ensures CollOk(OnePoint(row, desc, {})) && CollOk(OnePoint(row, desc, {0}))
  {}

  lemma NothingLive(c: Coll)
    requires |c.sealed| == 1 && c.sealed[0].file.ids == [[1]] && c.window == map[0 := {0}]
    ensures Merges(c, SegFile([], [], [], []))
  {
    forall id: Id ensures LocateSealed(c, id).None? {
      assert c.sealed[..0] == [];
      assert Position(c.sealed[0].file.ids, id).Some? ==> Position(c.sealed[0].file.ids, id).value == 0;
    }
  }

  lemma KillTail(c: Coll, id: Id, x: Id)
    requires Valid(c) && x in TailDeleted(c.(window := Kill(c, id)))
    ensures x == id || x in TailDeleted(c)
  {
    hide SegmentsOk, Shadowed, WindowOk, ActiveOk;
    var window := Kill(c, id);
    var s, r :| s in window && r in window[s] && InRange(c.sealed, s, r) && c.sealed[s].file.ids[r] == x;
    match LocateSealed(c, id) {
      case None =>
      case Some(l) =>
        if (s, r) != (l.seg, l.row) { assert s in c.window && r in c.window[s]; }
    }
  }

  /** One write puts only its own id into the tail. */
  lemma TailGrowsByOne(c: Coll, id: Id, row: Row)
    requires Valid(c) && ActiveOk(Upserted(c, id, row)) && ActiveOk(Deleted(c, id))
    ensures TailUpserts(Upserted(c, id, row)) == TailUpserts(c)[id := row] && TailUpserts(Deleted(c, id)) == TailUpserts(c) - {id}
    ensures TailDeleted(Upserted(c, id, row)) <= TailDeleted(c) + {id} && TailDeleted(Deleted(c, id)) <= TailDeleted(c) + {id}
  {
    hide SegmentsOk, Shadowed, WindowOk, Kill;
    forall x | x in TailDeleted(c.(window := Kill(c, id))) ensures x == id || x in TailDeleted(c) { KillTail(c, id, x); }
  }
}
