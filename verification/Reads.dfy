/** Reads over one collection: full scans, live counts, indexed filters and the
    recovery tail (crates/quiver-core/src/store.rs). */
module Reads {
  import opened ByteStrings
  import opened KeyOrder
  import opened SecondaryIndex
  import opened Segments
  import opened Descriptors
  import opened Collections
  import opened CollectionLayout
  import opened Replay
  import opened CollectionStates
  import Filters

  // ---- scan ----------------------------------------------------------------

  /** Every live record once, in ascending id order. */
  ghost predicate ScanOf(rows: map<Id, Row>, out: seq<(Id, Row)>) {
    && (forall i, j :: 0 <= i < j < |out| ==> Less(out[i].0, out[j].0))
    && (forall i :: 0 <= i < |out| ==> out[i].0 in rows && rows[out[i].0] == out[i].1)
    && (forall id :: id in rows ==> (id, rows[id]) in out)
  }

  lemma ScanComplete(c: Coll, list: seq<(Id, Place)>, out: seq<(Id, Row)>)
    requires Valid(c) && LiveList(c, list) && |out| == |list|
    requires forall i :: 0 <= i < |out| ==> out[i].0 == list[i].0 && RecordAt(c, list[i].1) == Some(out[i].1)
    ensures ScanOf(Contents(c), out)
  {
    hide Valid, Contents;
    forall i | 0 <= i < |out| ensures out[i].0 in Contents(c) && Contents(c)[out[i].0] == out[i].1 {
      LocateIsContents(c, list[i].0);
    }
    forall id | id in Contents(c) ensures (id, Contents(c)[id]) in out {
      LocateIsContents(c, id);
      assert Listed(list, id, Locate(c, id).value);
      var i :| 0 <= i < |list| && list[i] == (id, Locate(c, id).value);
      assert out[i] == (id, Contents(c)[id]);
    }
  }

  method Scan(state: CollectionState) returns (out: seq<(Id, Row)>)
    requires CollOk(state.View())
    ensures ScanOf(Contents(state.View()), out)
  {
    hide Valid, Contents, LiveList;
    var list := state.LiveLocsSorted();
    out := ReadAll(state.View(), list);
    ScanComplete(state.View(), list, out);
  }

  method ReadAll(c: Coll, list: seq<(Id, Place)>) returns (out: seq<(Id, Row)>)
    requires Valid(c) && LiveList(c, list)
    ensures |out| == |list|
    ensures forall i :: 0 <= i < |out| ==> out[i].0 == list[i].0 && RecordAt(c, list[i].1) == Some(out[i].1)
  {
    hide Valid, Contents;
    out := [];
    for i := 0 to |list|
      invariant |out| == i
      invariant forall j :: 0 <= j < i ==> out[j].0 == list[j].0 && RecordAt(c, list[j].1) == Some(out[j].1)
    {
      LocateIsContents(c, list[i].0);
      out := out + [(list[i].0, RecordAt(c, list[i].1).value)];
    }
  }

  // ---- indexed filters -----------------------------------------------------

  predicate Matches(p: SecPredicate, t: FieldType, row: Row) { PayloadMatches(p, t, row.payload) }

  /** The live sealed row of `id` lies in the visited part and satisfies the predicate. */
  predicate HitBefore(c: Coll, p: SecPredicate, t: FieldType, id: Id, s: nat, done: set<nat>) {
    match LocateSealed(c, id)
    case None => false
    case Some(l) =>
      && (l.seg < s || (l.seg == s && l.row in done))
      && l.row < |c.sealed[l.seg].file.rows| && Matches(p, t, c.sealed[l.seg].file.rows[l.row])
  }

  /** Visiting one matching row of a segment. */
  lemma HitRow(c: Coll, p: SecPredicate, t: FieldType, s: nat, row: nat, done: set<nat>, id: Id)
    requires Valid(c) && InRange(c.sealed, s, row)
    requires Matches(p, t, c.sealed[s].file.rows[row])
    ensures var hit := c.sealed[s].file.ids[row];
      HitBefore(c, p, t, id, s, done + {row}) <==> HitBefore(c, p, t, id, s, done) || (id == hit && !IsDead(c, s, row))
    ensures !IsDead(c, s, row) ==> c.sealed[s].file.ids[row] !in c.index
  {
    OneLiveRow(c, c.sealed[s].file.ids[row], s, row);
  }

  /** Visiting all rows the index names covers every matching row of the segment. */
  lemma HitSegment(c: Coll, p: SecPredicate, t: FieldType, s: nat, rows: set<nat>, id: Id)
    requires s < |c.sealed| && |c.sealed[s].file.rows| == |c.sealed[s].file.ids|
    requires forall r :: r in rows <==> 0 <= r < |c.sealed[s].file.rows| && Matches(p, t, c.sealed[s].file.rows[r])
    ensures HitBefore(c, p, t, id, s + 1, {}) <==> HitBefore(c, p, t, id, s, rows)
  {}

  method SegmentMatches(c: Coll, p: SecPredicate, t: FieldType, s: nat, before: seq<Id>) returns (out: seq<Id>)
    requires CollOk(c) && s < |c.sealed| && FindField(c.desc.filterable, p.field) == Some(t)
    requires forall id :: id in before <==> HitBefore(c, p, t, id, s, {})
    ensures forall id :: id in out <==> HitBefore(c, p, t, id, s + 1, {})
  {
    hide HitBefore, IndexFor, PayloadMatches, FindField, Shadowed, WindowOk, ActiveOk;
    var file := c.sealed[s].file;
    var hit := Query(file.sec, p, c.desc.filterable, Payloads(file.rows));
    var todo := hit.value;
    var done: set<nat> := {};
    out := before;
    while todo != {}
      invariant done + todo == hit.value
      invariant forall id :: id in out <==> HitBefore(c, p, t, id, s, done)
      decreases todo
    {
      var row :| row in todo;
      forall id ensures HitBefore(c, p, t, id, s, done + {row}) <==> HitBefore(c, p, t, id, s, done) || (id == file.ids[row] && !IsDead(c, s, row)) {
        HitRow(c, p, t, s, row, done, id);
      }
      HitRow(c, p, t, s, row, done, file.ids[row]);
      if !IsDead(c, s, row) {
        if file.ids[row] !in c.index { out := out + [file.ids[row]]; }
      }
      todo, done := todo - {row}, done + {row};
    }
    forall id ensures HitBefore(c, p, t, id, s + 1, {}) <==> HitBefore(c, p, t, id, s, done) { HitSegment(c, p, t, s, done, id); }
  }

  method SealedMatches(c: Coll, p: SecPredicate, t: FieldType) returns (out: seq<Id>)
    requires CollOk(c) && FindField(c.desc.filterable, p.field) == Some(t)
    ensures forall id :: id in out <==> HitBefore(c, p, t, id, |c.sealed|, {})
  {
    hide CollOk, HitBefore, FindField;
    out := [];
    forall id ensures !HitBefore(c, p, t, id, 0, {}) { NoHits(c, p, t, id); }
    for s := 0 to |c.sealed|
      invariant forall id :: id in out <==> HitBefore(c, p, t, id, s, {})
    {
      out := SegmentMatches(c, p, t, s, out);
    }
  }

  lemma NoHits(c: Coll, p: SecPredicate, t: FieldType, id: Id)
    ensures !HitBefore(c, p, t, id, 0, {})
  {}

  method ActiveMatches(c: Coll, p: SecPredicate, t: FieldType, before: seq<Id>) returns (out: seq<Id>)
    requires ActiveOk(c)
    ensures forall id :: id in out <==> id in before || (id in c.index && Matches(p, t, c.active[c.index[id]]))
  {
    hide Matches;
    var ids := SortedKeys(c.index.Keys);
    out := before;
    for i := 0 to |ids|
      invariant forall id :: id in out <==> id in before || (id in ids[..i] && id in c.index && Matches(p, t, c.active[c.index[id]]))
    {
      assert ids[i] in ids;
      if Matches(p, t, c.active[c.index[ids[i]]]) { out := out + [ids[i]]; }
    }
    assert ids[..|ids|] == ids;
  }

  /** A live point matches where it is stored. */
  lemma MatchIsContents(c: Coll, p: SecPredicate, t: FieldType, id: Id)
    requires Valid(c)
    ensures (HitBefore(c, p, t, id, |c.sealed|, {}) || (id in c.index && Matches(p, t, c.active[c.index[id]])))
       <==> id in Contents(c) && Matches(p, t, Contents(c)[id])
  {
    ContentsIsLookup(c, id);
    if LocateSealed(c, id).Some? {
      var l := LocateSealed(c, id).value;
      OneLiveRow(c, id, l.seg, l.row);
    }
  }

  /** Exactly the ids whose payload satisfies the predicate, in ascending order. */
  ghost predicate MatchListing(rows: map<Id, Row>, p: SecPredicate, t: FieldType, ids: seq<Id>) {
    && StrictlyAscending(ids)
    && forall id :: id in ids <==> id in rows && Filters.Satisfies(p, t, rows[id].payload)
  }

  /** The live ids whose payload satisfies the predicate, each once, in order: the
      index's candidates plus the buffer's, never a dead or shadowed row. */
  method MatchingIds(c: Coll, p: SecPredicate) returns (r: Result<seq<Id>, Error>)
    requires CollOk(c)
    ensures r.Err? <==> FindField(c.desc.filterable, p.field).None?
    ensures r.Err? ==> r.error == InvalidArgument
    ensures r.Ok? ==> MatchListing(Contents(c), p, FindField(c.desc.filterable, p.field).value, r.value)
  {
    hide HitBefore, PayloadMatches, FindField, Contents, SegmentsOk, Shadowed, WindowOk, AllIndexed, Filters.Satisfies;
    var field := FindField(c.desc.filterable, p.field);
    if field.None? { return Err(InvalidArgument); }
    var t := field.value;
    var out := SealedMatches(c, p, t);
    out := ActiveMatches(c, p, t, out);
    forall id ensures (HitBefore(c, p, t, id, |c.sealed|, {}) || (id in c.index && Matches(p, t, c.active[c.index[id]])))
      <==> id in Contents(c) && Matches(p, t, Contents(c)[id])
    {
      MatchIsContents(c, p, t, id);
    }
    forall id | id in Contents(c) ensures Matches(p, t, Contents(c)[id]) <==> Filters.Satisfies(p, t, Contents(c)[id].payload) {
      Filters.MatchesMeans(p, t, Contents(c)[id].payload);
    }
    out := SortDedup(out);
    return Ok(out);
  }

  // ---- the recovery tail ---------------------------------------------------

  /** The buffered upserts in id order. */
  method TailRows(c: Coll) returns (upserts: seq<(Id, Row)>)
    requires ActiveOk(c)
    ensures ScanOf(TailUpserts(c), upserts)
  {
    var ids := SortedKeys(c.index.Keys);
    upserts := [];
    for i := 0 to |ids|
      invariant |upserts| == i
      invariant forall j :: 0 <= j < i ==> ids[j] in c.index && upserts[j] == (ids[j], c.active[c.index[ids[j]]])
    {
      assert ids[i] in ids;
      upserts := upserts + [(ids[i], c.active[c.index[ids[i]]])];
    }
    forall id | id in TailUpserts(c) ensures (id, TailUpserts(c)[id]) in upserts {
      assert id in ids;
      var i :| 0 <= i < |ids| && ids[i] == id;
      assert upserts[i] == (id, TailUpserts(c)[id]);
    }
  }

  method TailIds(c: Coll) returns (deleted: seq<Id>)
    requires WindowOk(c)
    ensures forall id :: id in deleted <==> id in TailDeleted(c)
  {
    deleted := [];
    var segs := c.window.Keys;
    var done: set<nat> := {};
    while segs != {}
      invariant segs + done == c.window.Keys
      invariant forall id :: id in deleted <==> DeletedIn(c, id, done)
      decreases segs
    {
      var s :| s in segs;
      var ids := WindowIds(c, s);
      deleted := deleted + ids;
      segs, done := segs - {s}, done + {s};
    }
    assert forall id :: DeletedIn(c, id, done) <==> id in TailDeleted(c);
  }

  predicate DeletedIn(c: Coll, id: Id, done: set<nat>) {
    exists s, r :: s in done && s in c.window && r in c.window[s] && InRange(c.sealed, s, r) && c.sealed[s].file.ids[r] == id
  }

  method WindowIds(c: Coll, s: nat) returns (ids: seq<Id>)
    requires WindowOk(c) && s in c.window
    ensures forall id :: id in ids <==> DeletedIn(c, id, {s})
  {
    ids := [];
    var rows := c.window[s];
    var done: set<nat> := {};
    while rows != {}
      invariant rows + done == c.window[s]
      invariant forall id :: id in ids <==> exists r :: r in done && InRange(c.sealed, s, r) && c.sealed[s].file.ids[r] == id
      decreases rows
    {
      var r :| r in rows;
      assert WindowDead(c, s, r);
      ids := ids + [c.sealed[s].file.ids[r]];
      rows, done := rows - {r}, done + {r};
    }
  }
}
