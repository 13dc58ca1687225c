/** The lock-free serving path: an immutable base, an overlay of writes since, and
    search over both (crates/quiver-embed/src/mvcc.rs, crates/quiver-embed/src/snapshot.rs). */
module Mvcc {
  import opened ByteStrings
  import opened KeyOrder
  import opened IdMaps
  import opened Gather
  import Sorting

  /** Writes since the base was published. Entry `j` has internal id `baseLen + j`. */
  datatype Overlay<V> = Overlay(upserts: seq<(V, Bytes)>, tombstones: set<nat>)

  /** What a reader loads: base ids from the column and the frozen tail, the vectors the
      base index holds by internal id, and the overlay. */
  datatype Snapshot<V> = Snapshot(baseCol: seq<Bytes>, baseTail: seq<Bytes>, baseLive: map<nat, V>, overlay: Overlay<V>)

  function BaseLen<V>(s: Snapshot<V>): nat { |s.baseCol| + |s.baseTail| }

  function Exts<V>(upserts: seq<(V, Bytes)>): (r: seq<Bytes>)
    ensures |r| == |upserts| && forall j :: 0 <= j < |r| ==> r[j] == upserts[j].1
  {
    seq(|upserts|, j requires 0 <= j < |upserts| => upserts[j].1)
  }

  /** Every internal id's external id. */
  function IdsOf<V>(s: Snapshot<V>): seq<Bytes> { s.baseCol + s.baseTail + Exts(s.overlay.upserts) }

  /** Resolve an internal id: column, tail or overlay. */
  function ExtId<V>(s: Snapshot<V>, internal: nat): (r: Option<Bytes>)
    ensures r == if internal < |IdsOf(s)| then Some(IdsOf(s)[internal]) else None
  {
    if internal < |s.baseCol| then Some(s.baseCol[internal])
    else if internal < BaseLen(s) then Some(s.baseTail[internal - |s.baseCol|])
    else if internal - BaseLen(s) < |s.overlay.upserts| then Some(s.overlay.upserts[internal - BaseLen(s)].1)
    else None
  }

  /** The internal ids a search may return. */
  predicate LiveAt<V>(s: Snapshot<V>, i: nat) {
    i !in s.overlay.tombstones && (i in s.baseLive || BaseLen(s) <= i < BaseLen(s) + |s.overlay.upserts|)
  }

  function VectorAt<V>(s: Snapshot<V>, i: nat): V
    requires LiveAt(s, i) && forall x :: x in s.baseLive ==> x < BaseLen(s)
  {
    if i < BaseLen(s) then s.baseLive[i] else s.overlay.upserts[i - BaseLen(s)].0
  }

  /** The live internal ids resolve one to one to the ids of `rows`, each being the newest
      copy and holding the latest vector. */
  ghost predicate Represents<V(!new)>(s: Snapshot<V>, rows: map<Bytes, V>) {
    && (forall x :: x in s.baseLive ==> x < BaseLen(s))
    && (forall x :: x in s.overlay.tombstones ==> x < |IdsOf(s)|)
    && (forall i: nat :: LiveAt(s, i) ==> i < |IdsOf(s)| && Position(IdsOf(s), IdsOf(s)[i]) == Some(i))
    && (forall i: nat :: LiveAt(s, i) ==> IdsOf(s)[i] in rows && rows[IdsOf(s)[i]] == VectorAt(s, i))
    && (forall e :: e in rows ==> Position(IdsOf(s), e).Some? && LiveAt(s, Position(IdsOf(s), e).value))
  }

  // ---- one write -----------------------------------------------------------

  function Tombstoned<V>(s: Snapshot<V>, e: Bytes): set<nat> {
    s.overlay.tombstones + (match Position(IdsOf(s), e) case Some(prior) => {prior} case None => {})
  }

  function Upserted<V>(s: Snapshot<V>, e: Bytes, v: V): Snapshot<V> {
    s.(overlay := Overlay(s.overlay.upserts + [(v, e)], Tombstoned(s, e)))
  }

  function Deleted<V>(s: Snapshot<V>, e: Bytes): Snapshot<V> {
    s.(overlay := s.overlay.(tombstones := Tombstoned(s, e)))
  }

  lemma UpsertedIds<V>(s: Snapshot<V>, e: Bytes, v: V)
    ensures IdsOf(Upserted(s, e, v)) == IdsOf(s) + [e]
  {
    assert Exts(s.overlay.upserts + [(v, e)]) == Exts(s.overlay.upserts) + [e];
  }

  lemma PositionPush(ids: seq<Bytes>, e: Bytes, x: Bytes)
    ensures Position(ids + [e], x) == if x == e then Some(|ids|) else Position(ids, x)
  {
    assert (ids + [e])[..|ids|] == ids;
  }

  lemma UpsertedLive<V(!new)>(s: Snapshot<V>, rows: map<Bytes, V>, e: Bytes, v: V, i: nat)
    requires Represents(s, rows) && LiveAt(Upserted(s, e, v), i)
    ensures var t, ids := Upserted(s, e, v), IdsOf(s) + [e];
      && i < |ids| && Position(ids, ids[i]) == Some(i)
      && ids[i] in rows[e := v] && rows[e := v][ids[i]] == VectorAt(t, i)
  {
    hide Position;
    var ids := IdsOf(s);
    if i < |ids| {
      assert LiveAt(s, i);
      PositionPush(ids, e, ids[i]);
    } else {
      PositionPush(ids, e, e);
    }
  }

  lemma UpsertedFound<V(!new)>(s: Snapshot<V>, rows: map<Bytes, V>, e: Bytes, v: V, x: Bytes)
    requires Represents(s, rows) && x in rows[e := v]
    ensures var at := Position(IdsOf(s) + [e], x); at.Some? && LiveAt(Upserted(s, e, v), at.value)
  {
    hide Position;
    var ids := IdsOf(s);
    PositionPush(ids, e, x);
    if x != e {
      assert Position(ids, e).Some? ==> ids[Position(ids, e).value] == e;
      assert LiveAt(s, Position(ids, x).value);
    }
  }

  /** An upsert hides the old copy and becomes the newest one. */
  lemma UpsertRepresents<V(!new)>(s: Snapshot<V>, rows: map<Bytes, V>, e: Bytes, v: V)
    requires Represents(s, rows)
    ensures Represents(Upserted(s, e, v), rows[e := v])
  {
    hide Position, IdsOf, LiveAt;
    var t := Upserted(s, e, v);
    UpsertedIds(s, e, v);
    forall i: nat | LiveAt(t, i)
      ensures i < |IdsOf(t)| && Position(IdsOf(t), IdsOf(t)[i]) == Some(i)
      ensures IdsOf(t)[i] in rows[e := v] && rows[e := v][IdsOf(t)[i]] == VectorAt(t, i)
    {
      UpsertedLive(s, rows, e, v, i);
    }
    forall x | x in rows[e := v] ensures Position(IdsOf(t), x).Some? && LiveAt(t, Position(IdsOf(t), x).value) {
      UpsertedFound(s, rows, e, v, x);
    }
  }

  /** A freshly rebuilt base: each row once, nothing shadowed. */
  lemma RebuiltRepresents<V(!new)>(ids: seq<Bytes>, baseLive: map<nat, V>, rows: map<Bytes, V>)
    requires StrictlyAscending(ids) && (forall e :: e in rows <==> e in ids) && (forall i: nat :: i in baseLive <==> i < |ids|)
    requires forall i :: 0 <= i < |ids| ==> ids[i] in ids && rows[ids[i]] == baseLive[i]
    ensures Represents(Snapshot(ids, [], baseLive, Overlay([], {})), rows)
  {
    hide Position, StrictlyAscending;
    var s: Snapshot<V> := Snapshot(ids, [], baseLive, Overlay([], {}));
    assert IdsOf(s) == ids;
    AscendingDistinct(ids);
    forall i: nat | LiveAt(s, i) ensures i < |ids| && Position(ids, ids[i]) == Some(i) { assert ids[i] in ids; }
  }

  lemma DeleteRepresents<V(!new)>(s: Snapshot<V>, rows: map<Bytes, V>, e: Bytes)
    requires Represents(s, rows)
    ensures Represents(Deleted(s, e), rows - {e})
  {
    hide Position;
    var t, ids := Deleted(s, e), IdsOf(s);
    assert IdsOf(t) == ids;
    forall i: nat | LiveAt(t, i) ensures LiveAt(s, i) && ids[i] != e && VectorAt(t, i) == VectorAt(s, i) { assert LiveAt(s, i); }
  }

  // ---- the writer ----------------------------------------------------------

  function UpsertAll<V>(s: Snapshot<V>, points: seq<(Bytes, V)>): Snapshot<V> {
    if points == [] then s
    else Upserted(UpsertAll(s, points[..|points| - 1]), points[|points| - 1].0, points[|points| - 1].1)
  }

  function AddAll<V>(rows: map<Bytes, V>, points: seq<(Bytes, V)>): map<Bytes, V> {
    if points == [] then rows else AddAll(rows, points[..|points| - 1])[points[|points| - 1].0 := points[|points| - 1].1]
  }

  /** A batch is its points one by one, and so is any split of it. */
  lemma {:induction false} UpsertAllSplits<V>(s: Snapshot<V>, a: seq<(Bytes, V)>, b: seq<(Bytes, V)>)
    ensures UpsertAll(s, a + b) == UpsertAll(UpsertAll(s, a), b)
  {
    hide Upserted;
    if b == [] {
      assert a + b == a;
    } else {
      var n := |b| - 1;
      UpsertAllSplits(s, a, b[..n]);
      assert (a + b)[..|a| + n] == a + b[..n];
    }
  }

  const MIN_OVERLAY: nat := 1024

  function RebuildThreshold(baseLen: nat): nat { if baseLen / 5 <= MIN_OVERLAY then MIN_OVERLAY else baseLen / 5 }

  /** A fifth of the base, but never fewer than 1024 overlay points. */
  lemma RebuildThresholdIs(baseLen: nat)
    ensures RebuildThreshold(baseLen) >= 1024 && 5 * RebuildThreshold(baseLen) + 5 > baseLen
    ensures RebuildThreshold(baseLen) == 1024 || 5 * RebuildThreshold(baseLen) <= baseLen
  {}

  class Handle<V(!new)> {
    const idmap: IdMap
    var snapshot: Snapshot<V>
    var stale: bool
    var writeGen: nat
    ghost var rows: map<Bytes, V>          // the logical collection
    ghost var history: seq<Snapshot<V>>    // every snapshot readers could load

    /** Id map and snapshot in lockstep, and together they are the collection. */
    ghost predicate Valid()
      reads this, idmap
    {
      idmap.Valid() && idmap.All() == IdsOf(snapshot) && Represents(snapshot, rows)
    }

    /** Publish a rebuilt base over the id map's current ids, with an empty overlay. */
    constructor PublishBase(map0: IdMap, baseLive: map<nat, V>, ghost rows0: map<Bytes, V>)
      requires map0.Valid()
      requires Represents(Snapshot(map0.base, map0.tail, baseLive, Overlay([], {})), rows0)
      ensures Valid() && rows == rows0 && idmap == map0 && history == [snapshot] && BaseLen(snapshot) == |idmap.All()|
    {
      idmap, snapshot := map0, Snapshot(map0.base, map0.tail, baseLive, Overlay([], {}));
      stale, writeGen, rows := false, 0, rows0;
      history := [Snapshot(map0.base, map0.tail, baseLive, Overlay([], {}))];
      new;
      assert IdsOf(snapshot) == idmap.base + idmap.tail;
    }

    method PublishOverlay(overlay: Overlay<V>)
      modifies this`snapshot, this`history
      ensures snapshot == old(snapshot).(overlay := overlay) && history == old(history) + [snapshot]
    {
      snapshot := snapshot.(overlay := overlay);
      history := history + [snapshot];
    }

    /** Apply a batch to one copy of the overlay and publish it once. */
    method UpsertBatch(points: seq<(Bytes, V)>)
      requires Valid()
      modifies this, idmap
      ensures Valid() && rows == AddAll(old(rows), points)
      ensures snapshot == UpsertAll(old(snapshot), points) && history == old(history) + [snapshot]
      ensures stale == (old(stale) || |snapshot.overlay.upserts| >= RebuildThreshold(BaseLen(snapshot)))
    {
      hide Represents, Position, IdsOf;
      writeGen := writeGen + 1;
      var cur := snapshot;
      var overlay := cur.overlay;
      assert points[..0] == [];
      for i := 0 to |points|
        invariant snapshot == cur && stale == old(stale) && history == old(history)
        invariant cur.(overlay := overlay) == UpsertAll(cur, points[..i])
        invariant rows == AddAll(old(rows), points[..i])
        invariant idmap.Valid() && idmap.All() == IdsOf(cur.(overlay := overlay)) && Represents(cur.(overlay := overlay), rows)
      {
        ghost var s := cur.(overlay := overlay);
        var (ext, vector) := points[i];
        assert points[..i + 1][..i] == points[..i];
        UpsertedIds(s, ext, vector);
        UpsertRepresents(s, rows, ext, vector);
        var prior := idmap.Internal(ext);
        var tombstones := overlay.tombstones;
        if prior.Some? { tombstones := tombstones + {prior.value}; }
        overlay := Overlay(overlay.upserts + [(vector, ext)], tombstones);
        var _ := idmap.Push(ext);
        rows := rows[ext := vector];
      }
      assert points[..|points|] == points;
      var crowded := |overlay.upserts| >= RebuildThreshold(BaseLen(cur));
      PublishOverlay(overlay);
      if crowded { stale := true; }
    }

    /** Tombstone an id; the id map keeps its entry. An unknown id publishes nothing. */
    method Delete(ext: Bytes)
      requires Valid()
      modifies this
      ensures Valid() && rows == old(rows) - {ext}
      ensures snapshot == Deleted(old(snapshot), ext) && stale == old(stale)
    {
      hide Represents, Position, IdsOf;
      writeGen := writeGen + 1;
      DeleteRepresents(snapshot, rows, ext);
      DeletedIds(snapshot, ext);
      var internal := idmap.Internal(ext);
      rows := rows - {ext};
      if internal.None? {
        assert Deleted(snapshot, ext) == snapshot;
        return;
      }
      PublishOverlay(snapshot.overlay.(tombstones := snapshot.overlay.tombstones + {internal.value}));
    }
  }

  lemma DeletedIds<V>(s: Snapshot<V>, e: Bytes)
    ensures IdsOf(Deleted(s, e)) == IdsOf(s)
    ensures Position(IdsOf(s), e).None? ==> Deleted(s, e) == s
  {
    if Position(IdsOf(s), e).None? { assert s.overlay.tombstones + {} == s.overlay.tombstones; }
  }

  // ---- search --------------------------------------------------------------

  /** A resolved hit: an id with its score. */
  type Match = Hit<Bytes>

  /** `clamp` with a floor above its ceiling panics. */
  datatype Outcome = Matches(matches: seq<Match>) | Panics

  const MAX_U64: nat := 0xffff_ffff_ffff_ffff

  function SaturatingMul(a: nat, b: nat): nat { if a * b <= MAX_U64 then a * b else MAX_U64 }

  function CeilDiv(a: nat, b: nat): nat
    requires b > 0
  {
    (a + b - 1) / b
  }

  function Clamp(x: nat, low: nat, high: nat): (r: nat)
    requires low <= high
    ensures low <= r <= high
  {
    if x < low then low else if x > high then high else x
  }

  /** Tombstones that shadow base points. */
  function BaseTombstones<V>(s: Snapshot<V>): set<nat> { set i | i in s.overlay.tombstones && i < BaseLen(s) }

  predicate Widens<V>(s: Snapshot<V>) { BaseTombstones(s) != {} && BaseLen(s) != 0 }

  function LiveBase<V>(s: Snapshot<V>): (n: nat)
    ensures n > 0
  {
    if BaseLen(s) <= |BaseTombstones(s)| then 1 else BaseLen(s) - |BaseTombstones(s)|
  }

  function Widened<V>(s: Snapshot<V>, n: nat): (r: nat)
    requires n <= BaseLen(s)
    ensures n <= r <= BaseLen(s)
  {
    Clamp(CeilDiv(SaturatingMul(n, BaseLen(s)), LiveBase(s)), n, BaseLen(s))
  }

  /** What the base is asked for; never less than what the caller wants. */
  function Asked<V>(s: Snapshot<V>, k: nat, ef: nat): (r: (nat, nat))
    requires Widens(s) ==> k <= BaseLen(s) && ef <= BaseLen(s)
    ensures r.0 >= k && r.1 >= ef && (Widens(s) ==> r.1 >= r.0)
  {
    if Widens(s) then
      var kBase, efBase := Widened(s, k), Widened(s, ef);
      (kBase, if efBase <= kBase then kBase else efBase)
    else (k, ef)
  }

  /** Base hits that are not tombstoned. */
  function Survivors<V>(s: Snapshot<V>, hits: seq<Hit<nat>>): seq<Hit<nat>> {
    if hits == [] then []
    else
      var rest, last := Survivors(s, hits[..|hits| - 1]), hits[|hits| - 1];
      if last.id in s.overlay.tombstones then rest else rest + [last]
  }

  /** The first `n` overlay entries that are not tombstoned, scored. */
  function OverlayHits<V>(s: Snapshot<V>, score: V -> nat, n: nat): seq<Hit<nat>>
    requires n <= |s.overlay.upserts|
  {
    if n == 0 then []
    else
      var rest, id := OverlayHits(s, score, n - 1), BaseLen(s) + n - 1;
      if id in s.overlay.tombstones then rest else rest + [Hit(id, score(s.overlay.upserts[n - 1].0))]
  }

  function Candidates<V>(s: Snapshot<V>, score: V -> nat, hits: seq<Hit<nat>>): seq<seq<Hit<nat>>> {
    [Survivors(s, hits), OverlayHits(s, score, |s.overlay.upserts|)]
  }

  function Resolve<V>(s: Snapshot<V>, hits: seq<Hit<nat>>): seq<Match> {
    if hits == [] then []
    else
      var rest, last := Resolve(s, hits[..|hits| - 1]), hits[|hits| - 1];
      match ExtId(s, last.id)
      case Some(e) => rest + [Hit(e, last.score)]
      case None => rest
  }

  lemma FlattenTwo(a: seq<Hit<nat>>, b: seq<Hit<nat>>)
    ensures Flatten([a, b]) == a + b
  {
    assert [a, b][..1] == [a] && [a][..0] == [];
    assert Flatten([a]) == [] + a == a;
  }

  /** The widening's clamp has its floor above its ceiling. */
  predicate ClampFails<V>(s: Snapshot<V>, k: nat, ef: nat) { Widens(s) && (k > BaseLen(s) || ef > BaseLen(s)) }

  const ONE_ID: Bytes := [1]

  const ONE_POINT: Snapshot<nat> := Snapshot([ONE_ID], [], map[0 := 0], Overlay([], {}))

  /** One base point, deleted since, and a search for ten. */
  lemma DeletedPointPanics()
    ensures Represents(ONE_POINT, map[ONE_ID := 0]) && Represents(Deleted(ONE_POINT, ONE_ID), map[])
    ensures ClampFails(Deleted(ONE_POINT, ONE_ID), 10, 10)
  {
    var rows: map<Bytes, nat> := map[ONE_ID := 0];
    assert IdsOf(ONE_POINT) == [ONE_ID];
    RebuiltRepresents([ONE_ID], ONE_POINT.baseLive, rows);
    DeleteRepresents(ONE_POINT, rows, ONE_ID);
    assert rows - {ONE_ID} == map[];
    assert 0 in BaseTombstones(Deleted(ONE_POINT, ONE_ID));
  }

  /** Search the base, drop its dead hits, score the overlay, sort, truncate, resolve. */
  method Search<V>(s: Snapshot<V>, base: (nat, nat) -> seq<Hit<nat>>, score: V -> nat, k: nat, ef: nat) returns (r: Outcome)
    ensures r.Panics? <==> k > 0 && ClampFails(s, k, ef)
    ensures r.Matches? ==> r.matches == if k == 0 then [] else
      Resolve(s, MergeTopK(Candidates(s, score, base(Asked(s, k, ef).0, Asked(s, k, ef).1)), k, false))
  {
    hide Asked, Widens, Survivors, OverlayHits, Resolve, Sorted;
    if k == 0 { return Matches([]); }
    if ClampFails(s, k, ef) { return Panics; }
    var (kBase, efBase) := Asked(s, k, ef);
    var survivors := DropDead(s, base(kBase, efBase));
    var scored := ScoreOverlay(s, score);
    FlattenTwo(survivors, scored);
    var sorted := Sorted(survivors + scored, false);
    if |sorted| > k { sorted := sorted[..k]; }
    var out := ResolveAll(s, sorted);
    return Matches(out);
  }

  method DropDead<V>(s: Snapshot<V>, hits: seq<Hit<nat>>) returns (out: seq<Hit<nat>>)
    ensures out == Survivors(s, hits)
  {
    out := [];
    for i := 0 to |hits|
      invariant out == Survivors(s, hits[..i])
    {
      assert hits[..i + 1][..i] == hits[..i];
      if hits[i].id !in s.overlay.tombstones { out := out + [hits[i]]; }
    }
    assert hits[..|hits|] == hits;
  }

  method ScoreOverlay<V>(s: Snapshot<V>, score: V -> nat) returns (out: seq<Hit<nat>>)
    ensures out == OverlayHits(s, score, |s.overlay.upserts|)
  {
    out := [];
    for j := 0 to |s.overlay.upserts|
      invariant out == OverlayHits(s, score, j)
    {
      var internal := BaseLen(s) + j;
      if internal !in s.overlay.tombstones { out := out + [Hit(internal, score(s.overlay.upserts[j].0))]; }
    }
  }

  method ResolveAll<V>(s: Snapshot<V>, hits: seq<Hit<nat>>) returns (out: seq<Match>)
    ensures out == Resolve(s, hits)
  {
    hide ExtId;
    out := [];
    for i := 0 to |hits|
      invariant out == Resolve(s, hits[..i])
    {
      assert hits[..i + 1][..i] == hits[..i];
      var ext := ExtId(s, hits[i].id);
      if ext.Some? { out := out + [Hit(ext.value, hits[i].score)]; }
    }
    assert hits[..|hits|] == hits;
  }

  // ---- what a search returns -----------------------------------------------

  lemma {:induction false} SurvivorsCount<V>(s: Snapshot<V>, hits: seq<Hit<nat>>, q: Hit<nat>)
    ensures multiset(Survivors(s, hits))[q] == if q.id in s.overlay.tombstones then 0 else multiset(hits)[q]
  {
    if hits != [] {
      var n := |hits| - 1;
      SurvivorsCount(s, hits[..n], q);
      assert hits == hits[..n] + [hits[n]];
    }
  }

  lemma {:induction false} SurvivorsGood<V>(s: Snapshot<V>, hits: seq<Hit<nat>>, q: Hit<nat>)
    requires forall i :: 0 <= i < |hits| ==> AtLeast(false, hits[i], q)
    ensures forall i :: 0 <= i < |Survivors(s, hits)| ==> AtLeast(false, Survivors(s, hits)[i], q)
  {
    hide AtLeast;
    if hits != [] { SurvivorsGood(s, hits[..|hits| - 1], q); }
  }

  /** The live points: what the base holds and the overlay has not hidden, and the live
      overlay entries. */
  function LivePoints<V>(s: Snapshot<V>, score: V -> nat, baseAll: seq<Hit<nat>>): seq<seq<Hit<nat>>> {
    [Survivors(s, baseAll), OverlayHits(s, score, |s.overlay.upserts|)]
  }

  /** If the base answers exactly, and either `k` of its hits survive or it returned
      everything it holds, the search returns exactly the `k` nearest live points. */
  lemma SearchIsExact<V>(s: Snapshot<V>, score: V -> nat, baseAll: seq<Hit<nat>>, hits: seq<Hit<nat>>, k: nat, kBase: nat)
    requires TopK(baseAll, hits, kBase, false)
    requires |Survivors(s, hits)| >= k || |hits| == |baseAll|
    ensures TopK(Flatten(LivePoints(s, score, baseAll)), MergeTopK(Candidates(s, score, hits), k, false), k, false)
  {
    hide Flatten, MergeTopK, Survivors, OverlayHits, AtLeast, TopK, GoodCount;
    SurvivorsCover(s, baseAll, hits, k, kBase);
    var overlay := OverlayHits(s, score, |s.overlay.upserts|);
    assert Covers(overlay, overlay, k, false);
    assert AllCover(LivePoints(s, score, baseAll), Candidates(s, score, hits), k, false);
    MergeCovers(LivePoints(s, score, baseAll), Candidates(s, score, hits), k, false);
  }

  lemma SurvivorsCover<V>(s: Snapshot<V>, baseAll: seq<Hit<nat>>, hits: seq<Hit<nat>>, k: nat, kBase: nat)
    requires TopK(baseAll, hits, kBase, false)
    requires |Survivors(s, hits)| >= k || |hits| == |baseAll|
    ensures Covers(Survivors(s, baseAll), Survivors(s, hits), k, false)
  {
    hide Survivors, AtLeast, GoodCount;
    forall q ensures multiset(Survivors(s, hits))[q] <= multiset(Survivors(s, baseAll))[q] {
      SurvivorsCount(s, hits, q);
      SurvivorsCount(s, baseAll, q);
    }
    forall q | multiset(Survivors(s, baseAll))[q] > multiset(Survivors(s, hits))[q]
      ensures GoodCount(Survivors(s, hits), q, false) >= k
    {
      SurvivorsCount(s, hits, q);
      SurvivorsCount(s, baseAll, q);
      Omitted(baseAll, hits, kBase, q);
      SurvivorsGood(s, hits, q);
      GoodWhole(Survivors(s, hits), q, false);
    }
  }

  lemma Omitted(baseAll: seq<Hit<nat>>, hits: seq<Hit<nat>>, kBase: nat, q: Hit<nat>)
    requires TopK(baseAll, hits, kBase, false) && multiset(baseAll)[q] > multiset(hits)[q]
    ensures |hits| < |baseAll| && forall i :: 0 <= i < |hits| ==> AtLeast(false, hits[i], q)
  {
    hide AtLeast;
    var rest := multiset(baseAll) - multiset(hits);
    assert q in rest;
    assert multiset(baseAll) == multiset(hits) + rest;
    assert |baseAll| == |multiset(baseAll)| == |hits| + |rest|;
  }

  /** Every result is a live point, resolved to its id; no id comes twice. */
  lemma {:induction false} ResultsAreLive<V(!new)>(s: Snapshot<V>, rows: map<Bytes, V>, hits: seq<Hit<nat>>)
    requires Represents(s, rows)
    requires forall i :: 0 <= i < |hits| ==> LiveAt(s, hits[i].id)
    requires forall i, j :: 0 <= i < j < |hits| ==> hits[i].id != hits[j].id
    ensures var out := Resolve(s, hits);
      && |out| == |hits|
      && (forall i :: 0 <= i < |out| ==> out[i] == Hit(IdsOf(s)[hits[i].id], hits[i].score) && out[i].id in rows)
      && (forall i, j :: 0 <= i < j < |out| ==> out[i].id != out[j].id)
  {
    hide Position, IdsOf;
    if hits != [] {
      var n := |hits| - 1;
      ResultsAreLive(s, rows, hits[..n]);
      assert LiveAt(s, hits[n].id);
      var out := Resolve(s, hits[..n]);
      forall i | 0 <= i < n ensures out[i].id != IdsOf(s)[hits[n].id] {
        assert LiveAt(s, hits[i].id) && hits[..n][i] == hits[i];
      }
    }
  }

  /** Live internal ids within bounds, none twice. */
  predicate LiveHits<V>(s: Snapshot<V>, hits: seq<Hit<nat>>, low: nat, high: nat) {
    && (forall i :: 0 <= i < |hits| ==> LiveAt(s, hits[i].id) && low <= hits[i].id < high)
    && (forall i, j :: 0 <= i < j < |hits| ==> hits[i].id != hits[j].id)
  }

  lemma LiveHitsMore<V>(s: Snapshot<V>, hits: seq<Hit<nat>>, low: nat, high: nat, h: Hit<nat>)
    requires LiveHits(s, hits, low, high) && LiveAt(s, h.id) && low <= h.id == high
    ensures LiveHits(s, hits + [h], low, high + 1)
  {
    hide LiveAt;
  }

  lemma LiveHitsWider<V>(s: Snapshot<V>, hits: seq<Hit<nat>>, low: nat, high: nat)
    requires LiveHits(s, hits, low, high)
    ensures LiveHits(s, hits, low, high + 1)
  {
    hide LiveAt;
  }

  lemma {:induction false} SurvivorsLive<V>(s: Snapshot<V>, hits: seq<Hit<nat>>)
    requires forall i :: 0 <= i < |hits| ==> hits[i].id in s.baseLive && hits[i].id < BaseLen(s)
    requires forall i, j :: 0 <= i < j < |hits| ==> hits[i].id != hits[j].id
    ensures LiveHits(s, Survivors(s, hits), 0, BaseLen(s))
    ensures forall h :: h in Survivors(s, hits) ==> h in hits
  {
    if hits != [] {
      var n := |hits| - 1;
      SurvivorsLive(s, hits[..n]);
      var rest := Survivors(s, hits[..n]);
      forall i | 0 <= i < |rest| ensures rest[i].id != hits[n].id {
        assert rest[i] in hits[..n];
        var j :| 0 <= j < n && hits[..n][j] == rest[i];
        assert hits[j] == rest[i];
      }
    }
  }

  lemma {:induction false} OverlayLive<V>(s: Snapshot<V>, score: V -> nat, n: nat)
    requires n <= |s.overlay.upserts|
    ensures LiveHits(s, OverlayHits(s, score, n), BaseLen(s), BaseLen(s) + n)
  {
    hide LiveHits;
    if n == 0 {
      NoHits(s);
    } else {
      OverlayLive(s, score, n - 1);
      var rest, id := OverlayHits(s, score, n - 1), BaseLen(s) + n - 1;
      LiveHitsWider(s, rest, BaseLen(s), BaseLen(s) + n - 1);
      if id !in s.overlay.tombstones {
        LiveHitsMore(s, rest, BaseLen(s), BaseLen(s) + n - 1, Hit(id, score(s.overlay.upserts[n - 1].0)));
      }
    }
  }

  lemma NoHits<V>(s: Snapshot<V>)
    ensures LiveHits(s, [], BaseLen(s), BaseLen(s))
  {}

  lemma Joined<V>(s: Snapshot<V>, a: seq<Hit<nat>>, b: seq<Hit<nat>>, high: nat)
    requires LiveHits(s, a, 0, BaseLen(s)) && LiveHits(s, b, BaseLen(s), high) && BaseLen(s) <= high
    ensures LiveHits(s, a + b, 0, high)
  {
    hide LiveAt;
  }

  /** Whatever live base points the index returns, the search result is sorted, holds only
      ids of the collection, and names none twice. */
  lemma SearchIsSound<V(!new)>(s: Snapshot<V>, rows: map<Bytes, V>, score: V -> nat, hits: seq<Hit<nat>>, k: nat)
    requires Represents(s, rows)
    requires forall i :: 0 <= i < |hits| ==> hits[i].id in s.baseLive
    requires forall i, j :: 0 <= i < j < |hits| ==> hits[i].id != hits[j].id
    ensures var best := MergeTopK(Candidates(s, score, hits), k, false);
      var out := Resolve(s, best);
      && |out| == |best| <= k
      && (forall i :: 0 <= i < |out| ==> out[i].id in rows)
      && (forall i, j :: 0 <= i < j < |out| ==> out[i].id != out[j].id && TotalKey(out[i].score) <= TotalKey(out[j].score))
  {
    hide Represents, Resolve, Sorted, Survivors, OverlayHits, Flatten, LiveAt, LiveHits;
    var a, b := Survivors(s, hits), OverlayHits(s, score, |s.overlay.upserts|);
    var high := BaseLen(s) + |s.overlay.upserts|;
    BaseBelow(s, rows);
    SurvivorsLive(s, hits);
    OverlayLive(s, score, |s.overlay.upserts|);
    FlattenTwo(a, b);
    Joined(s, a, b, high);
    MergeShape(Candidates(s, score, hits), k, false);
    BestLive(s, a + b, k, high);
    ResultsAreLive(s, rows, MergeTopK(Candidates(s, score, hits), k, false));
  }

  lemma BaseBelow<V(!new)>(s: Snapshot<V>, rows: map<Bytes, V>)
    requires Represents(s, rows)
    ensures forall x :: x in s.baseLive ==> x < BaseLen(s)
  {}

  /** Sorting keeps live, distinct ids live and distinct. */
  lemma BestLive<V>(s: Snapshot<V>, all: seq<Hit<nat>>, k: nat, high: nat)
    requires LiveHits(s, all, 0, high)
    ensures var sorted := Sorted(all, false);
      && (forall i :: 0 <= i < |sorted| ==> LiveAt(s, sorted[i].id))
      && (forall i, j :: 0 <= i < j < |sorted| ==> sorted[i].id != sorted[j].id)
  {
    hide Sorted, LiveAt;
    var sorted := Sorted(all, false);
    forall i | 0 <= i < |sorted| ensures LiveAt(s, sorted[i].id) {
      assert sorted[i] in multiset(sorted);
      var j :| 0 <= j < |all| && all[j] == sorted[i];
    }
    forall i, j | 0 <= i < j < |sorted| ensures sorted[i].id != sorted[j].id {
      Sorting.DistinctKeys(all, sorted, (h: Hit<nat>) => h.id, i, j);
    }
  }
}
