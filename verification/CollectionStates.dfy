/** The in-memory state of one collection (crates/quiver-core/src/store.rs,
    `CollectionState`), each method proved against the collection it represents. */
module CollectionStates {
  import opened ByteStrings
  import opened KeyOrder
  import opened SecondaryIndex
  import opened Segments
  import opened Descriptors
  import opened Collections
  import opened CollectionLayout
  import opened Replay
  import Sorting

  /** Where a live row's bytes are. */
  datatype Place = Active(row: nat) | InSegment(loc: Loc)

  function Locate(c: Coll, id: Id): Option<Place> {
    if id in c.index then Some(Active(c.index[id]))
    else match LocateSealed(c, id)
      case None => None
      case Some(l) => Some(InSegment(l))
  }

  /** The record at a place. */
  function RecordAt(c: Coll, p: Place): Option<Row> {
    match p
    case Active(r) => RowAt(c.active, r)
    case InSegment(l) => if l.seg < |c.sealed| then RowAt(c.sealed[l.seg].file.rows, l.row) else None
  }

  /** A place is found exactly for the ids of the map, and holds their record. */
  lemma LocateIsContents(c: Coll, id: Id)
    requires Valid(c)
    ensures Locate(c, id).Some? <==> id in Contents(c)
    ensures id in Contents(c) ==> RecordAt(c, Locate(c, id).value) == Some(Contents(c)[id])
  {
    ContentsIsLookup(c, id);
  }

  datatype Error = NotFound | AlreadyExists | InvalidArgument | TooLarge

  /** Probe the segments newest first; the first that physically holds the id decides. */
  method ProbeNewestFirst(sealed: seq<Sealed>, id: Id) returns (hit: Option<Loc>)
    requires forall s :: 0 <= s < |sealed| ==> Distinct(sealed[s].file.ids) && ForwardIndex(sealed[s].file.ids, sealed[s].file.sortedRows)
    ensures hit == Newest(sealed, id)
  {
    var seg := |sealed|;
    assert sealed[..seg] == sealed;
    while seg > 0
      invariant 0 <= seg <= |sealed|
      invariant Newest(sealed, id) == Newest(sealed[..seg], id)
    {
      seg := seg - 1;
      assert sealed[..seg + 1][..seg] == sealed[..seg];
      var row := FindRow(sealed[seg].file, id);
      if row.Some? { return Some(Loc(seg, row.value)); }
    }
    return None;
  }

  class CollectionState {
    const cid: nat
    const name: Bytes
    const desc: Descriptor
    var sealed: seq<Sealed>
    var active: seq<Row>
    var index: map<Id, nat>
    var window: map<nat, set<nat>>

    /** The collection this object represents. */
    function View(): Coll
      reads this
    {
      Coll(name, desc, sealed, active, index, window)
    }

    constructor (cid: nat, name: Bytes, desc: Descriptor)
      ensures this.cid == cid && View() == NewColl(name, desc)
    {
      this.cid, this.name, this.desc := cid, name, desc;
      sealed, active, index, window := [], [], map[], map[];
    }

    method LocateId(id: Id) returns (r: Option<Place>)
      requires CollOk(View())
      ensures r == Locate(View(), id)
    {
      if id in index { return Some(Active(index[id])); }
      assert forall s :: 0 <= s < |sealed| ==> FileShape(sealed[s].file) && Indexed(sealed[s].file, desc.filterable);
      var hit := ProbeNewestFirst(sealed, id);
      if hit.None? { return None; }
      var Loc(seg, row) := hit.value;
      var dead := row in sealed[seg].dead || (seg in window && row in window[seg]);
      return if dead then None else Some(InSegment(hit.value));
    }

    /** An id's live sealed row is shadowed by the new active row. */
    method ApplyUpsert(id: Id, row: Row)
      requires CollOk(View())
      modifies this
      ensures View() == Upserted(old(View()), id, row)
      ensures CollOk(View()) && Contents(View()) == old(Contents(View()))[id := row]
    {
      UpsertedOk(View(), id, row);
      var at := LocateId(id);
      if at.Some? && at.value.InSegment? {
        var l := at.value.loc;
        window := window[l.seg := (if l.seg in window then window[l.seg] else {}) + {l.row}];
      }
      var r := |active|;
      active := active + [row];
      index := index[id := r];
    }

    method ApplyDelete(id: Id) returns (existed: bool)
      requires CollOk(View())
      modifies this
      ensures View() == Deleted(old(View()), id)
      ensures CollOk(View()) && Contents(View()) == old(Contents(View())) - {id}
      ensures existed <==> id in old(Contents(View()))
    {
      DeletedOk(View(), id);
      LocateIsContents(View(), id);
      if id in index {
        index := index - {id};
        return true;
      }
      var at := LocateId(id);
      if at.Some? {
        var l := at.value.loc;
        window := window[l.seg := (if l.seg in window then window[l.seg] else {}) + {l.row}];
        return true;
      }
      return false;
    }

    /** Add an opened segment. */
    method Attach(seg: Sealed)
      modifies this`sealed
      ensures sealed == old(sealed) + [seg]
    {
      sealed := sealed + [seg];
    }

    /** Fold the window's tombstones into the segments' own, segment by segment. */
    method FoldWindow()
      modifies this`sealed
      ensures sealed == Folded(old(View()))
    {
      ghost var c := View();
      for s := 0 to |sealed|
        invariant |sealed| == |c.sealed|
        invariant forall j :: 0 <= j < s ==> sealed[j] == Folded(c)[j]
        invariant forall j :: s <= j < |sealed| ==> sealed[j] == c.sealed[j]
      {
        if s in window {
          sealed := sealed[s := sealed[s].(dead := sealed[s].dead + window[s])];
        }
      }
    }

    /** Fold the window's tombstones, install new segments and empty the buffer. */
    method Seal(added: seq<Sealed>)
      modifies this
      ensures View() == SealedUp(old(View()), added)
      ensures old(Valid(View()) && Seals(View(), added)) ==> Contents(View()) == old(Contents(View()))
    {
      hide Valid, Seals, Contents, Folded;
      if Valid(View()) && Seals(View(), added) { SealedUpContents(View(), added); }
      FoldWindow();
      sealed := sealed + added;
      active, index, window := [], map[], map[];
    }

    /** Replace the segments by one that holds all their live rows. */
    method Replace(seg: Sealed)
      modifies this
      ensures View() == Compacted(old(View()), seg)
      ensures old(Valid(View()) && Merges(View(), seg.file)) && seg.dead == {} ==> Contents(View()) == old(Contents(View()))
    {
      hide Valid, Merges, Contents;
      if Valid(View()) && Merges(View(), seg.file) && seg.dead == {} { CompactedContents(View(), seg); }
      sealed, window := [seg], map[];
    }

    /** The live row count, without reading an id. */
    method LiveRowCount() returns (n: nat)
      requires CollOk(View())
      ensures n == |Contents(View())|
    {
      n := |index|;
      ghost var c := View();
      for s := 0 to |sealed|
        invariant n == |index| + LiveCount(c, s)
      {
        SegmentCount(c, s);
        var windowDead := if s in window then |window[s]| else 0;
        var live: nat := |sealed[s].file.ids| - |sealed[s].dead| - windowDead;
        n := n + live;
      }
      LiveLenIsSize(c);
    }

    /** Every live id with its place, in id order. */
    method LiveLocsSorted() returns (out: seq<(Id, Place)>)
      requires CollOk(View())
      ensures LiveList(View(), out)
    {
      var c := View();
      out := ListActive(c);
      for s := 0 to |sealed|
        invariant ListedBelow(c, out, s, 0)
      {
        out := ListSegment(c, out, s);
      }
      ghost var listed := out;
      out := Sorting.Sort(out, EntryLe);
      SortedList(c, listed, out);
    }
  }

  // ---- listing live rows ---------------------------------------------------

  predicate EntryLe(a: (Id, Place), b: (Id, Place)) { AtMost(a.0, b.0) }

  predicate Listed(out: seq<(Id, Place)>, id: Id, p: Place) { (id, p) in out }

  /** The list of all live ids with their places, strictly ascending by id. */
  ghost predicate LiveList(c: Coll, out: seq<(Id, Place)>) {
    && (forall i, j :: 0 <= i < j < |out| ==> Less(out[i].0, out[j].0))
    && (forall i :: 0 <= i < |out| ==> Locate(c, out[i].0) == Some(out[i].1))
    && (forall id :: Locate(c, id).Some? ==> Listed(out, id, Locate(c, id).value))
  }

  predicate Before(l: Loc, s: nat, r: nat) { l.seg < s || (l.seg == s && l.row < r) }

  /** Everything live in the buffer and before row `r` of segment `s` is listed once. */
  ghost predicate ListedBelow(c: Coll, out: seq<(Id, Place)>, s: nat, r: nat) {
    && (forall i, j :: 0 <= i < j < |out| ==> out[i].0 != out[j].0)
    && (forall i :: 0 <= i < |out| ==> Locate(c, out[i].0) == Some(out[i].1))
    && (forall i :: 0 <= i < |out| && out[i].1.InSegment? ==> Before(out[i].1.loc, s, r))
    && (forall id :: id in c.index ==> Listed(out, id, Active(c.index[id])))
    && (forall id :: id !in c.index && LocateSealed(c, id).Some? && Before(LocateSealed(c, id).value, s, r) ==>
          Listed(out, id, InSegment(LocateSealed(c, id).value)))
  }

  /** Visiting one more row extends the list exactly when the row is live. */
  lemma ListRow(c: Coll, out: seq<(Id, Place)>, s: nat, r: nat)
    requires Valid(c) && InRange(c.sealed, s, r) && ListedBelow(c, out, s, r)
    ensures IsDead(c, s, r) ==> ListedBelow(c, out, s, r + 1)
    ensures !IsDead(c, s, r) ==> ListedBelow(c, out + [(c.sealed[s].file.ids[r], InSegment(Loc(s, r)))], s, r + 1)
  {
    var id := c.sealed[s].file.ids[r];
    OneLiveRow(c, id, s, r);
    var out' := if IsDead(c, s, r) then out else out + [(id, InSegment(Loc(s, r)))];
    forall x | x !in c.index && LocateSealed(c, x).Some? && Before(LocateSealed(c, x).value, s, r + 1)
      ensures Listed(out', x, InSegment(LocateSealed(c, x).value))
    {
      var l := LocateSealed(c, x).value;
      if l == Loc(s, r) { assert x == id; assert out'[|out|] == (id, InSegment(l)); }
      else { assert Listed(out, x, InSegment(l)); }
    }
    forall x | x in c.index ensures Listed(out', x, Active(c.index[x])) { assert Listed(out, x, Active(c.index[x])); }
  }

  method ListActive(c: Coll) returns (out: seq<(Id, Place)>)
    ensures ListedBelow(c, out, 0, 0)
  {
    var ids := SortedKeys(c.index.Keys);
    out := [];
    for i := 0 to |ids|
      invariant |out| == i
      invariant forall j :: 0 <= j < i ==> ids[j] in c.index && out[j] == (ids[j], Active(c.index[ids[j]]))
    {
      assert ids[i] in ids;
      out := out + [(ids[i], Active(c.index[ids[i]]))];
    }
    ActiveListed(c, ids, out);
  }

  lemma ActiveListed(c: Coll, ids: seq<Id>, out: seq<(Id, Place)>)
    requires StrictlyAscending(ids) && (forall id :: id in ids <==> id in c.index) && |out| == |ids|
    requires forall j :: 0 <= j < |ids| ==> ids[j] in c.index && out[j] == (ids[j], Active(c.index[ids[j]]))
    ensures ListedBelow(c, out, 0, 0)
  {
    AscendingDistinct(ids);
    forall i, j | 0 <= i < j < |out| ensures out[i].0 != out[j].0 { assert ids[i] != ids[j]; }
    forall id | id in c.index ensures Listed(out, id, Active(c.index[id])) {
      assert id in ids;
      var j :| 0 <= j < |ids| && ids[j] == id;
      assert out[j].0 == id;
    }
  }

  method ListSegment(c: Coll, before: seq<(Id, Place)>, s: nat) returns (out: seq<(Id, Place)>)
    requires Valid(c) && s < |c.sealed| && ListedBelow(c, before, s, 0)
    ensures ListedBelow(c, out, s + 1, 0)
  {
    out := before;
    var ids := c.sealed[s].file.ids;
    for row := 0 to |ids|
      invariant ListedBelow(c, out, s, row)
    {
      ListRow(c, out, s, row);
      if !IsDead(c, s, row) { out := out + [(ids[row], InSegment(Loc(s, row)))]; }
    }
    NextSegment(c, out, s);
  }

  lemma NextSegment(c: Coll, out: seq<(Id, Place)>, s: nat)
    requires s < |c.sealed| && ListedBelow(c, out, s, |c.sealed[s].file.ids|)
    ensures ListedBelow(c, out, s + 1, 0)
  {}

  lemma EntryLeIsTotalPreorder()
    ensures Sorting.TotalPreorder(EntryLe)
  {
    AtMostIsTotalPreorder();
    assert forall x: (Id, Place), y: (Id, Place) :: AtMost(x.0, y.0) || AtMost(y.0, x.0);
    assert forall x: (Id, Place), y: (Id, Place), z: (Id, Place) :: AtMost(x.0, y.0) && AtMost(y.0, z.0) ==> AtMost(x.0, z.0);
  }

  lemma SortedList(c: Coll, xs: seq<(Id, Place)>, ys: seq<(Id, Place)>)
    requires Valid(c) && ListedBelow(c, xs, |c.sealed|, 0)
    requires ys == Sorting.Sort(xs, EntryLe)
    ensures LiveList(c, ys)
  {
    EntryLeIsTotalPreorder();
    Sorting.SortSorted(xs, EntryLe);
    forall i, j | 0 <= i < j < |ys| ensures Less(ys[i].0, ys[j].0) {
      assert EntryLe(ys[i], ys[j]);
      Sorting.DistinctKeys(xs, ys, (e: (Id, Place)) => e.0, i, j);
    }
    forall i | 0 <= i < |ys| ensures Locate(c, ys[i].0) == Some(ys[i].1) {
      assert ys[i] in multiset(ys);
      var j :| 0 <= j < |xs| && xs[j] == ys[i];
    }
    forall id | Locate(c, id).Some? ensures Listed(ys, id, Locate(c, id).value) {
      assert Listed(xs, id, Locate(c, id).value);
      assert (id, Locate(c, id).value) in multiset(xs);
    }
  }
}
