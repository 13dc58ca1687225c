/** One collection of the engine as a value: sealed segments with tombstones, the
    active buffer over them, and the map they stand for
    (crates/quiver-core/src/store.rs, `CollectionState`). */
module Collections {
  import opened ByteStrings
  import opened KeyOrder
  import opened SecondaryIndex
  import opened Segments
  import opened Descriptors

  /** An opened segment: its file content and its tombstones. */
  datatype Sealed = Sealed(segId: nat, file: SegFile, dead: set<nat>)

  /** Where a sealed row lives. */
  datatype Loc = Loc(seg: nat, row: nat)

  datatype Coll = Coll(
    name: Bytes,
    desc: Descriptor,
    sealed: seq<Sealed>,             // oldest first
    active: seq<Row>,                // rows upserted since the last checkpoint
    index: map<Id, nat>,             // live id -> its latest active row
    window: map<nat, set<nat>>)      // sealed rows that died since the last checkpoint

  function NewColl(name: Bytes, desc: Descriptor): Coll {
    Coll(name, desc, [], [], map[], map[])
  }

  predicate InRange(segs: seq<Sealed>, s: nat, r: nat) {
    s < |segs| && r < |segs[s].file.ids|
  }

  predicate WindowDead(c: Coll, s: nat, r: nat) {
    s in c.window && r in c.window[s]
  }

  predicate IsDead(c: Coll, s: nat, r: nat)
    requires s < |c.sealed|
  {
    r in c.sealed[s].dead || WindowDead(c, s, r)
  }

  // ---- the invariant -------------------------------------------------------

  ghost predicate SegmentsOk(segs: seq<Sealed>) {
    forall s :: 0 <= s < |segs| ==>
      FileShape(segs[s].file) && forall r :: r in segs[s].dead ==> r < |segs[s].file.ids|
  }

  ghost predicate AllIndexed(c: Coll) {
    forall s :: 0 <= s < |c.sealed| ==> Indexed(c.sealed[s].file, c.desc.filterable)
  }

  /** A newer copy of an id always tombstoned the older one in its segment. */
  ghost predicate Shadowed(segs: seq<Sealed>) {
    forall s: nat, r: nat, s': nat, r': nat ::
      InRange(segs, s, r) && InRange(segs, s', r') && s < s' && segs[s].file.ids[r] == segs[s'].file.ids[r'] ==>
        r in segs[s].dead
  }

  /** Window tombstones name existing rows and never repeat a `.del` tombstone. */
  ghost predicate WindowOk(c: Coll) {
    && (forall s :: s in c.window ==> s < |c.sealed| && c.window[s] != {})
    && (forall s: nat, r: nat :: WindowDead(c, s, r) ==> InRange(c.sealed, s, r) && r !in c.sealed[s].dead)
  }

  ghost predicate ActiveOk(c: Coll) {
    && (forall id :: id in c.index ==> c.index[id] < |c.active|)
    && (forall s: nat, r: nat :: InRange(c.sealed, s, r) && c.sealed[s].file.ids[r] in c.index ==> IsDead(c, s, r))
  }

  ghost predicate Valid(c: Coll) {
    && SegmentsOk(c.sealed)
    && Shadowed(c.sealed)
    && WindowOk(c)
    && ActiveOk(c)
  }

  // ---- lookup --------------------------------------------------------------

  /** The newest segment physically holding `id`, dead or alive. */
  function Newest(segs: seq<Sealed>, id: Id): (r: Option<Loc>)
    ensures r.Some? ==> InRange(segs, r.value.seg, r.value.row) && segs[r.value.seg].file.ids[r.value.row] == id
    ensures r.Some? ==> forall s :: r.value.seg < s < |segs| ==> id !in segs[s].file.ids
    ensures r.None? ==> forall s :: 0 <= s < |segs| ==> id !in segs[s].file.ids
  {
    if segs == [] then None
    else
      var n := |segs| - 1;
      var at := Position(segs[n].file.ids, id);
      if at.Some? then Some(Loc(n, at.value)) else Newest(segs[..n], id)
  }

  /** The single live sealed location of `id`: the first physical hit decides. */
  function LocateSealed(c: Coll, id: Id): (r: Option<Loc>)
    ensures r.Some? ==> InRange(c.sealed, r.value.seg, r.value.row) && !IsDead(c, r.value.seg, r.value.row)
    ensures r.Some? ==> c.sealed[r.value.seg].file.ids[r.value.row] == id
  {
    var hit := Newest(c.sealed, id);
    if hit.Some? && IsDead(c, hit.value.seg, hit.value.row) then None else hit
  }

  function RowAt(rows: seq<Row>, i: nat): Option<Row> {
    if i < |rows| then Some(rows[i]) else None
  }

  /** The record an id resolves to. */
  function Lookup(c: Coll, id: Id): Option<Row> {
    if id in c.index then RowAt(c.active, c.index[id])
    else match LocateSealed(c, id)
      case None => None
      case Some(l) => RowAt(c.sealed[l.seg].file.rows, l.row)
  }

  /** Every id physically present. */
  function SealedIds(segs: seq<Sealed>): set<Id> {
    set s, r | 0 <= s < |segs| && 0 <= r < |segs[s].file.ids| :: segs[s].file.ids[r]
  }

  /** The map a collection stands for. */
  function Contents(c: Coll): map<Id, Row> {
    map id | id in c.index.Keys + SealedIds(c.sealed) && Lookup(c, id).Some? :: Lookup(c, id).value
  }

  /** `Contents` is exactly `Lookup`. */
  lemma ContentsIsLookup(c: Coll, id: Id)
    ensures id in Contents(c) <==> Lookup(c, id).Some?
    ensures id in Contents(c) ==> Contents(c)[id] == Lookup(c, id).value
  {
    if Lookup(c, id).Some? && id !in c.index {
      var l := LocateSealed(c, id).value;
      assert c.sealed[l.seg].file.ids[l.row] in SealedIds(c.sealed);
    }
  }

  lemma ContentsEqual(c: Coll, d: Coll)
    requires forall id :: Lookup(c, id) == Lookup(d, id)
    ensures Contents(c) == Contents(d)
  {
    forall id: Id ensures id in Contents(c) <==> id in Contents(d) {
      ContentsIsLookup(c, id);
      ContentsIsLookup(d, id);
    }
  }

  lemma ContentsUpdated(c: Coll, d: Coll, id: Id, row: Row)
    requires forall x :: Lookup(d, x) == if x == id then Some(row) else Lookup(c, x)
    ensures Contents(d) == Contents(c)[id := row]
  {
    forall x: Id ensures x in Contents(d) <==> x in Contents(c)[id := row] {
      ContentsIsLookup(c, x);
      ContentsIsLookup(d, x);
    }
    forall x: Id | x in Contents(d) ensures Contents(d)[x] == Contents(c)[id := row][x] {
      ContentsIsLookup(c, x);
      ContentsIsLookup(d, x);
    }
  }

  lemma ContentsRemoved(c: Coll, d: Coll, id: Id)
    requires forall x :: Lookup(d, x) == if x == id then None else Lookup(c, x)
    ensures Contents(d) == Contents(c) - {id}
  {
    forall x: Id ensures x in Contents(d) <==> x in Contents(c) - {id} {
      ContentsIsLookup(c, x);
      ContentsIsLookup(d, x);
    }
    forall x: Id | x in Contents(d) ensures Contents(d)[x] == (Contents(c) - {id})[x] {
      ContentsIsLookup(c, x);
      ContentsIsLookup(d, x);
    }
  }

  /** At most one live row per id, and lookup finds exactly that row. */
  lemma OneLiveRow(c: Coll, id: Id, s: nat, r: nat)
    requires Valid(c)
    requires InRange(c.sealed, s, r) && c.sealed[s].file.ids[r] == id
    ensures !IsDead(c, s, r) <==> LocateSealed(c, id) == Some(Loc(s, r))
    ensures !IsDead(c, s, r) ==> id !in c.index
  {
    var l := Newest(c.sealed, id).value;
    assert c.sealed[l.seg].file.ids[l.row] == id;
    assert id in c.sealed[s].file.ids;
    if l.seg == s { assert l.row == r; }
  }

  // ---- upsert and delete ---------------------------------------------------

  /** Record the live sealed row of `id`, if any, as dead this window. */
  function Kill(c: Coll, id: Id): map<nat, set<nat>> {
    match LocateSealed(c, id)
    case None => c.window
    case Some(l) => c.window[l.seg := (if l.seg in c.window then c.window[l.seg] else {}) + {l.row}]
  }

  function Upserted(c: Coll, id: Id, row: Row): Coll {
    c.(window := if id in c.index then c.window else Kill(c, id),
       active := c.active + [row],
       index := c.index[id := |c.active|])
  }

  function Deleted(c: Coll, id: Id): Coll {
    if id in c.index then c.(index := c.index - {id})
    else c.(window := Kill(c, id))
  }

  /** Killing an id makes all its sealed rows dead and touches no other row. */
  lemma KillDead(c: Coll, id: Id, s: nat, r: nat)
    requires Valid(c) && InRange(c.sealed, s, r)
    ensures IsDead(c.(window := Kill(c, id)), s, r) <==> IsDead(c, s, r) || c.sealed[s].file.ids[r] == id
  {
    if c.sealed[s].file.ids[r] == id { OneLiveRow(c, id, s, r); }
  }

  lemma KillValid(c: Coll, id: Id)
    requires Valid(c)
    ensures Valid(c.(window := Kill(c, id)))
  {
    var d := c.(window := Kill(c, id));
    assert WindowOk(d) by {
      forall s: nat, r: nat | WindowDead(d, s, r) ensures InRange(c.sealed, s, r) && r !in c.sealed[s].dead {
        if !WindowDead(c, s, r) { assert LocateSealed(c, id) == Some(Loc(s, r)); }
      }
    }
    assert ActiveOk(d) by {
      forall s: nat, r: nat | InRange(c.sealed, s, r) && c.sealed[s].file.ids[r] in c.index ensures IsDead(d, s, r) {
        KillDead(c, id, s, r);
      }
    }
  }

  lemma KillLookup(c: Coll, id: Id, other: Id)
    requires Valid(c)
    ensures Valid(c.(window := Kill(c, id)))
    ensures id !in c.index && other == id ==> Lookup(c.(window := Kill(c, id)), other) == None
    ensures other != id ==> Lookup(c.(window := Kill(c, id)), other) == Lookup(c, other)
  {
    KillValid(c, id);
    var hit := Newest(c.sealed, other);
    if hit.Some? { KillDead(c, id, hit.value.seg, hit.value.row); }
  }

  lemma UpsertedValid(c: Coll, id: Id, row: Row)
    requires Valid(c)
    ensures Valid(Upserted(c, id, row))
  {
    var d := Upserted(c, id, row);
    if id in c.index {
      assert ActiveOk(d);
    } else {
      KillValid(c, id);
      var k := c.(window := Kill(c, id));
      assert ActiveOk(d) by {
        forall s: nat, r: nat | InRange(d.sealed, s, r) && d.sealed[s].file.ids[r] in d.index ensures IsDead(d, s, r) {
          KillDead(c, id, s, r);
          assert IsDead(k, s, r);
        }
      }
    }
  }

  /** An upsert is a map update. */
  lemma UpsertedContents(c: Coll, id: Id, row: Row)
    requires Valid(c)
    ensures Valid(Upserted(c, id, row))
    ensures Contents(Upserted(c, id, row)) == Contents(c)[id := row]
  {
    UpsertedValid(c, id, row);
    var d := Upserted(c, id, row);
    forall x: Id
      ensures Lookup(d, x) == if x == id then Some(row) else Lookup(c, x)
    {
      if x != id && x !in c.index {
        if id in c.index { assert LocateSealed(d, x) == LocateSealed(c, x); }
        else { KillLookup(c, id, x); }
      }
    }
    ContentsUpdated(c, d, id, row);
  }

  lemma DeletedValid(c: Coll, id: Id)
    requires Valid(c)
    ensures Valid(Deleted(c, id))
  {
    if id in c.index { assert ActiveOk(Deleted(c, id)); } else { KillValid(c, id); }
  }

  /** A delete is a map removal. */
  lemma DeletedContents(c: Coll, id: Id)
    requires Valid(c)
    ensures Valid(Deleted(c, id))
    ensures Contents(Deleted(c, id)) == Contents(c) - {id}
  {
    DeletedValid(c, id);
    var d := Deleted(c, id);
    forall x: Id ensures Lookup(d, x) == if x == id then None else Lookup(c, x) {
      if id in c.index {
        if x !in d.index { assert LocateSealed(d, x) == LocateSealed(c, x); }
        if x == id {
          var hit := Newest(c.sealed, id);
          if hit.Some? { assert IsDead(c, hit.value.seg, hit.value.row); }
        }
      } else {
        KillLookup(c, id, x);
      }
    }
    ContentsRemoved(c, d, id);
  }
}
