/** Reorganising a collection without changing its map: sealing the active buffer,
    merging segments, counting live rows, and the tail an index snapshot replays
    (crates/quiver-core/src/store.rs). */
module CollectionLayout {
  import opened ByteStrings
  import opened KeyOrder
  import opened SecondaryIndex
  import opened Segments
  import opened Descriptors
  import opened Collections

  // ---- checkpoint ----------------------------------------------------------

  /** Fold the window's tombstones into the segments' own. */
  function Folded(c: Coll): (segs: seq<Sealed>)
    ensures |segs| == |c.sealed|
  {
    seq(|c.sealed|, s requires 0 <= s < |c.sealed| =>
      c.sealed[s].(dead := c.sealed[s].dead + (if s in c.window then c.window[s] else {})))
  }

  /** `file` holds the live active rows, in ascending id order. */
  ghost predicate SealsActive(c: Coll, file: SegFile) {
    && FileShape(file)
    && (forall id :: id in file.ids <==> id in c.index)
    && (forall i :: 0 <= i < |file.ids| ==>
          file.ids[i] in c.index && c.index[file.ids[i]] < |c.active| && file.rows[i] == c.active[c.index[file.ids[i]]])
  }

  function SealedUp(c: Coll, added: seq<Sealed>): Coll {
    c.(sealed := Folded(c) + added, active := [], index := map[], window := map[])
  }

  /** A checkpoint's new segments: none when nothing is buffered, else one. */
  ghost predicate Seals(c: Coll, added: seq<Sealed>) {
    if c.index == map[] then added == []
    else |added| == 1 && SealsActive(c, added[0].file) && added[0].dead == {}
  }

  lemma FoldedDead(c: Coll, s: nat, r: nat)
    requires InRange(c.sealed, s, r)
    ensures r in Folded(c)[s].dead <==> IsDead(c, s, r)
  {}

  lemma SealedUpShadowed(c: Coll, added: seq<Sealed>)
    requires Valid(c) && Seals(c, added)
    ensures Shadowed(Folded(c) + added)
  {
    var segs := Folded(c) + added;
    forall s: nat, r: nat, s': nat, r': nat |
      InRange(segs, s, r) && InRange(segs, s', r') && s < s' && segs[s].file.ids[r] == segs[s'].file.ids[r']
      ensures r in segs[s].dead
    {
      assert segs[s].file == c.sealed[s].file && InRange(c.sealed, s, r);
      FoldedDead(c, s, r);
      if s' < |c.sealed| {
        assert segs[s'].file == c.sealed[s'].file && InRange(c.sealed, s', r');
      } else {
        assert segs[s'] == added[0] && added[0].file.ids[r'] in c.index;
      }
    }
  }

  lemma FoldedOk(c: Coll)
    requires Valid(c)
    ensures SegmentsOk(Folded(c))
  {
    var segs := Folded(c);
    forall s, r | 0 <= s < |segs| && r in segs[s].dead ensures r < |segs[s].file.ids| {
      if r !in c.sealed[s].dead { assert WindowDead(c, s, r); }
    }
  }

  lemma SealedUpValid(c: Coll, added: seq<Sealed>)
    requires Valid(c) && Seals(c, added)
    ensures Valid(SealedUp(c, added))
  {
    SealedUpShadowed(c, added);
    FoldedOk(c);
  }

  /** Where the sealed state finds an id. */
  lemma {:induction false} NewestSameFiles(a: seq<Sealed>, b: seq<Sealed>, id: Id)
    requires |a| == |b| && forall s :: 0 <= s < |a| ==> a[s].file.ids == b[s].file.ids
    ensures Newest(a, id) == Newest(b, id)
  {
    if a != [] { NewestSameFiles(a[..|a| - 1], b[..|b| - 1], id); }
  }

  lemma NewestAppend(segs: seq<Sealed>, seg: Sealed, id: Id)
    ensures Newest(segs + [seg], id) == var at := Position(seg.file.ids, id);
              if at.Some? then Some(Loc(|segs|, at.value)) else Newest(segs, id)
  {
    assert (segs + [seg])[..|segs|] == segs;
  }

  lemma FoldedLocate(c: Coll, d: Coll, id: Id)
    requires d.sealed == Folded(c) && d.window == map[]
    ensures LocateSealed(d, id) == LocateSealed(c, id)
  {
    NewestSameFiles(d.sealed, c.sealed, id);
    var hit := Newest(c.sealed, id);
    if hit.Some? { FoldedDead(c, hit.value.seg, hit.value.row); }
  }

  /** The new segment resolves exactly the buffered ids, to their latest rows. */
  lemma NewSegmentLookup(c: Coll, file: SegFile, id: Id)
    requires SealsActive(c, file)
    ensures Position(file.ids, id).Some? <==> id in c.index
    ensures id in c.index ==> RowAt(file.rows, Position(file.ids, id).value) == RowAt(c.active, c.index[id])
  {}

  lemma SealedUpLookup(c: Coll, added: seq<Sealed>, id: Id)
    requires Seals(c, added)
    ensures Lookup(SealedUp(c, added), id) == Lookup(c, id)
  {
    hide SealsActive, Newest, Position;
    var d := SealedUp(c, added);
    var folded := d.(sealed := Folded(c));
    FoldedLocate(c, folded, id);
    if c.index == map[] {
      assert d.sealed == Folded(c);
    } else {
      var seg := added[0];
      assert d.sealed == Folded(c) + [seg];
      NewestAppend(Folded(c), seg, id);
      NewSegmentLookup(c, seg.file, id);
      if id in c.index {
        assert LocateSealed(d, id) == Some(Loc(|c.sealed|, Position(seg.file.ids, id).value));
      } else {
        assert LocateSealed(d, id) == LocateSealed(folded, id);
      }
    }
  }

  /** Sealing the active buffer leaves the map unchanged. */
  lemma SealedUpContents(c: Coll, added: seq<Sealed>)
    requires Valid(c) && Seals(c, added)
    ensures Valid(SealedUp(c, added))
    ensures Contents(SealedUp(c, added)) == Contents(c)
  {
    SealedUpValid(c, added);
    forall id: Id ensures Lookup(SealedUp(c, added), id) == Lookup(c, id) {
      SealedUpLookup(c, added, id);
    }
    ContentsEqual(SealedUp(c, added), c);
  }

  // ---- compaction ----------------------------------------------------------

  /** `file` holds exactly the live sealed rows, in ascending id order. */
  ghost predicate Merges(c: Coll, file: SegFile) {
    && FileShape(file)
    && (forall id :: id in file.ids <==> LocateSealed(c, id).Some?)
    && (forall i :: 0 <= i < |file.ids| ==>
          && LocateSealed(c, file.ids[i]).Some?
          && var l := LocateSealed(c, file.ids[i]).value;
             l.row < |c.sealed[l.seg].file.rows| && file.rows[i] == c.sealed[l.seg].file.rows[l.row])
  }

  function Compacted(c: Coll, seg: Sealed): Coll {
    c.(sealed := [seg], window := map[])
  }

  lemma CompactedValid(c: Coll, seg: Sealed)
    requires Valid(c) && Merges(c, seg.file) && seg.dead == {}
    ensures Valid(Compacted(c, seg))
  {
    var d := Compacted(c, seg);
    assert ActiveOk(d) by {
      forall s: nat, r: nat | InRange(d.sealed, s, r) ensures d.sealed[s].file.ids[r] !in d.index {
        var id := seg.file.ids[r];
        var l := LocateSealed(c, id).value;
        OneLiveRow(c, id, l.seg, l.row);
      }
    }
  }

  /** Merging the live rows into one segment leaves the map unchanged, whatever
      un-checkpointed upserts and tombstones are pending. */
  lemma CompactedContents(c: Coll, seg: Sealed)
    requires Valid(c) && Merges(c, seg.file) && seg.dead == {}
    ensures Valid(Compacted(c, seg))
    ensures Contents(Compacted(c, seg)) == Contents(c)
  {
    CompactedValid(c, seg);
    var d := Compacted(c, seg);
    forall id: Id ensures Lookup(d, id) == Lookup(c, id) {
      assert Newest(d.sealed, id) == var at := Position(seg.file.ids, id); if at.Some? then Some(Loc(0, at.value)) else None by {
        assert d.sealed[..0] == [];
      }
    }
    ContentsEqual(d, c);
  }

  // ---- counting ------------------------------------------------------------

  function WindowCount(c: Coll, s: nat): nat {
    if s in c.window then |c.window[s]| else 0
  }

  function SegmentLive(c: Coll, s: nat): int
    requires s < |c.sealed|
  {
    |c.sealed[s].file.ids| - |c.sealed[s].dead| - WindowCount(c, s)
  }

  /** Live rows of the first `n` segments, by subtraction. */
  function LiveCount(c: Coll, n: nat): int
    requires n <= |c.sealed|
  {
    if n == 0 then 0
    else LiveCount(c, n - 1) + SegmentLive(c, n - 1)
  }

  function LiveLen(c: Coll): int {
    |c.index| + LiveCount(c, |c.sealed|)
  }

  function LiveRows(c: Coll, s: nat): set<nat>
    requires s < |c.sealed|
  {
    set r | 0 <= r < |c.sealed[s].file.ids| && !IsDead(c, s, r)
  }

  function Image(ids: seq<Id>, rows: set<nat>): set<Id> {
    set r | r in rows && r < |ids| :: ids[r]
  }

  /** The live ids of the first `n` segments. */
  function LiveIds(c: Coll, n: nat): set<Id>
    requires n <= |c.sealed|
  {
    if n == 0 then {} else LiveIds(c, n - 1) + Image(c.sealed[n - 1].file.ids, LiveRows(c, n - 1))
  }

  lemma {:induction false} LiveIdsMember(c: Coll, n: nat, id: Id)
    requires n <= |c.sealed|
    ensures id in LiveIds(c, n) <==>
      exists s, r :: 0 <= s < n && r in LiveRows(c, s) && c.sealed[s].file.ids[r] == id
  {
    if n > 0 {
      LiveIdsMember(c, n - 1, id);
      if exists s, r :: 0 <= s < n && r in LiveRows(c, s) && c.sealed[s].file.ids[r] == id {
        var s, r :| 0 <= s < n && r in LiveRows(c, s) && c.sealed[s].file.ids[r] == id;
        if s == n - 1 { assert id in Image(c.sealed[s].file.ids, LiveRows(c, s)); }
      }
    }
  }

  function RowsBelow(n: nat): (rows: set<nat>)
    ensures |rows| == n
    ensures forall r :: r in rows <==> 0 <= r < n
  {
    if n == 0 then {} else RowsBelow(n - 1) + {n - 1}
  }

  lemma {:induction false} ImageCard(ids: seq<Id>, rows: set<nat>)
    requires Distinct(ids) && forall r :: r in rows ==> r < |ids|
    ensures |Image(ids, rows)| == |rows|
  {
    if rows != {} {
      var r :| r in rows;
      ImageCard(ids, rows - {r});
      assert Image(ids, rows) == Image(ids, rows - {r}) + {ids[r]};
      assert ids[r] !in Image(ids, rows - {r});
    }
  }

  /** The per-segment subtraction counts its live rows and never underflows. */
  lemma SegmentCount(c: Coll, s: nat)
    requires Valid(c) && s < |c.sealed|
    ensures SegmentLive(c, s) == |LiveRows(c, s)|
  {
    var n := |c.sealed[s].file.ids|;
    var dead := c.sealed[s].dead;
    var win := if s in c.window then c.window[s] else {};
    var all := RowsBelow(n);
    assert win <= all && dead <= all && win !! dead by {
      forall r | r in win ensures r in all && r !in dead { assert WindowDead(c, s, r); }
    }
    assert LiveRows(c, s) == all - (dead + win);
    assert |dead + win| == |dead| + |win|;
    assert |all - (dead + win)| == |all| - |dead + win|;
  }

  /** An id live in one segment is live in no older one. */
  lemma LiveOnce(c: Coll, n: nat, r: nat)
    requires Valid(c) && n < |c.sealed| && r in LiveRows(c, n)
    ensures c.sealed[n].file.ids[r] !in LiveIds(c, n)
  {
    var id := c.sealed[n].file.ids[r];
    OneLiveRow(c, id, n, r);
    LiveIdsMember(c, n, id);
    forall s, q | 0 <= s < n && q in LiveRows(c, s) ensures c.sealed[s].file.ids[q] != id {
      if c.sealed[s].file.ids[q] == id { OneLiveRow(c, id, s, q); }
    }
  }

  /** One segment adds as many ids as its subtraction counts. */
  lemma LiveIdsStep(c: Coll, n: nat)
    requires Valid(c) && n < |c.sealed|
    ensures |LiveIds(c, n + 1)| == |LiveIds(c, n)| + SegmentLive(c, n)
  {
    var ids, rows := c.sealed[n].file.ids, LiveRows(c, n);
    var here := Image(ids, rows);
    SegmentCount(c, n);
    ImageCard(ids, rows);
    assert LiveIds(c, n) !! here by {
      forall r | r in rows ensures ids[r] !in LiveIds(c, n) { LiveOnce(c, n, r); }
    }
  }

  lemma NoLiveIds(c: Coll)
    ensures LiveIds(c, 0) == {}
  {}

  lemma {:induction false} LiveIdsCard(c: Coll, n: nat)
    requires n <= |c.sealed|
    requires forall k :: 0 <= k < |c.sealed| ==> |LiveIds(c, k + 1)| == |LiveIds(c, k)| + SegmentLive(c, k)
    ensures |LiveIds(c, n)| == LiveCount(c, n)
  {
    hide SegmentLive, LiveIds;
    if n == 0 {
      NoLiveIds(c);
    } else {
      LiveIdsCard(c, n - 1);
      assert |LiveIds(c, n - 1 + 1)| == |LiveIds(c, n - 1)| + SegmentLive(c, n - 1);
    }
  }

  /** An id is live in a segment exactly when lookup finds it there. */
  lemma LiveIdsAreLocated(c: Coll, id: Id)
    requires Valid(c)
    ensures id in LiveIds(c, |c.sealed|) <==> LocateSealed(c, id).Some?
  {
    LiveIdsMember(c, |c.sealed|, id);
    if LocateSealed(c, id).Some? {
      var l := LocateSealed(c, id).value;
      assert l.row in LiveRows(c, l.seg) && c.sealed[l.seg].file.ids[l.row] == id;
    }
    if id in LiveIds(c, |c.sealed|) {
      var s, r :| 0 <= s < |c.sealed| && r in LiveRows(c, s) && c.sealed[s].file.ids[r] == id;
      OneLiveRow(c, id, s, r);
    }
  }

  /** The live count, computed without reading an id, is the size of the map. */
  lemma LiveLenIsSize(c: Coll)
    requires Valid(c)
    ensures LiveLen(c) == |Contents(c)|
  {
    var sealedIds := LiveIds(c, |c.sealed|);
    forall k | 0 <= k < |c.sealed| ensures |LiveIds(c, k + 1)| == |LiveIds(c, k)| + SegmentLive(c, k) {
      LiveIdsStep(c, k);
    }
    LiveIdsCard(c, |c.sealed|);
    LiveSetSize(Contents(c), c.index, sealedIds) by {
      forall id: Id ensures id in Contents(c) <==> id in c.index || id in sealedIds { LiveIsContent(c, id); }
      forall id | id in sealedIds ensures id !in c.index { LiveIsContent(c, id); }
    }
  }

  lemma LiveSetSize(m: map<Id, Row>, index: map<Id, nat>, ids: set<Id>)
    requires forall id :: id in m <==> id in index || id in ids
    requires forall id :: id in ids ==> id !in index
    ensures |m| == |index| + |ids|
  {
    assert m.Keys == index.Keys + ids && index.Keys !! ids;
    assert |m.Keys| == |index.Keys| + |ids|;
  }

  lemma LiveIsContent(c: Coll, id: Id)
    requires Valid(c)
    ensures id in Contents(c) <==> id in c.index || id in LiveIds(c, |c.sealed|)
    ensures id in LiveIds(c, |c.sealed|) ==> id !in c.index
  {
    ContentsIsLookup(c, id);
    LiveIdsAreLocated(c, id);
    if LocateSealed(c, id).Some? {
      var l := LocateSealed(c, id).value;
      OneLiveRow(c, id, l.seg, l.row);
    }
  }

  // ---- the recovery tail ---------------------------------------------------

  /** The collection without the current window. */
  function Base(c: Coll): Coll {
    c.(active := [], index := map[], window := map[])
  }

  function TailDeleted(c: Coll): set<Id> {
    set s, r | s in c.window && r in c.window[s] && InRange(c.sealed, s, r) :: c.sealed[s].file.ids[r]
  }

  function TailUpserts(c: Coll): map<Id, Row>
    requires ActiveOk(c)
  {
    map id | id in c.index :: c.active[c.index[id]]
  }

  lemma TailDeletedMeaning(c: Coll, id: Id)
    requires Valid(c)
    ensures id in TailDeleted(c) <==> (var hit := Newest(c.sealed, id); hit.Some? && WindowDead(c, hit.value.seg, hit.value.row))
  {
    var hit := Newest(c.sealed, id);
    if hit.Some? && WindowDead(c, hit.value.seg, hit.value.row) {
      assert c.sealed[hit.value.seg].file.ids[hit.value.row] in TailDeleted(c);
    }
    if id in TailDeleted(c) {
      var s, r :| s in c.window && r in c.window[s] && InRange(c.sealed, s, r) && c.sealed[s].file.ids[r] == id;
      assert WindowDead(c, s, r);
      OneLiveRow(Base(c), id, s, r);
    }
  }

  lemma TailLookup(c: Coll, id: Id)
    requires Valid(c)
    ensures Lookup(c, id) == if id in c.index then RowAt(c.active, c.index[id])
                             else if id in TailDeleted(c) then None else Lookup(Base(c), id)
  {
    TailDeletedMeaning(c, id);
  }

  /** Removing the tail's deletions and adding its upserts turns the map without the
      window into the current map. */
  lemma TailCatchesUp(c: Coll)
    requires Valid(c)
    ensures Contents(c) == (Contents(Base(c)) - TailDeleted(c)) + TailUpserts(c)
  {
    hide Contents, Lookup, TailDeleted, TailUpserts;
    var all := (Contents(Base(c)) - TailDeleted(c)) + TailUpserts(c);
    forall id: Id
      ensures id in Contents(c) <==> id in all
      ensures id in Contents(c) ==> Contents(c)[id] == all[id]
    {
      TailEntry(c, id);
    }
  }

  lemma TailEntry(c: Coll, id: Id)
    requires Valid(c)
    ensures id in Contents(c) <==> id in TailUpserts(c) || (id in Contents(Base(c)) && id !in TailDeleted(c))
    ensures id in TailUpserts(c) ==> Contents(c)[id] == TailUpserts(c)[id]
    ensures id in Contents(c) && id !in TailUpserts(c) ==> Contents(c)[id] == Contents(Base(c))[id]
  {
    hide Contents, Lookup, TailDeleted;
    ContentsIsLookup(c, id);
    ContentsIsLookup(Base(c), id);
    TailLookup(c, id);
  }
}
