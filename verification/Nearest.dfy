/** What a snapshot search returns in terms of the collection's rows: the nearest ones
    (crates/quiver-embed/src/snapshot.rs, `search`). */
module Nearest {
  import opened ByteStrings
  import opened KeyOrder
  import opened Gather
  import opened Mvcc
  import Sorting

  ghost predicate DistinctHits<I(!new)>(hits: seq<Hit<I>>) { forall i, j :: 0 <= i < j < |hits| ==> hits[i].id != hits[j].id }

  /** Every point the base holds, once, at its distance. */
  ghost predicate IndexOf<V>(s: Snapshot<V>, score: V -> nat, baseAll: seq<Hit<nat>>) {
    && DistinctHits(baseAll)
    && (forall h :: h in baseAll ==> h.id in s.baseLive && h.score == score(s.baseLive[h.id]))
    && (forall i :: i in s.baseLive ==> Hit(i, score(s.baseLive[i])) in baseAll)
  }

  /** Every row of the collection, once, at its distance. */
  ghost predicate ListsRows<V>(points: seq<Hit<Bytes>>, rows: map<Bytes, V>, score: V -> nat) {
    && DistinctHits(points)
    && (forall h :: h in points ==> h.id in rows && h.score == score(rows[h.id]))
    && (forall e :: e in rows ==> Hit(e, score(rows[e])) in points)
  }

  // ---- lists of the same rows ----------------------------------------------

  lemma {:induction false} DistinctMultiset<I(!new)>(a: seq<Hit<I>>, x: Hit<I>)
    requires DistinctHits(a)
    ensures multiset(a)[x] == if x in a then 1 else 0
  {
    Sorting.DistinctCount(a, x);
    assert x in a <==> x in multiset(a);
  }

  lemma SameRows<V>(a: seq<Hit<Bytes>>, b: seq<Hit<Bytes>>, rows: map<Bytes, V>, score: V -> nat)
    requires ListsRows(a, rows, score) && ListsRows(b, rows, score)
    ensures multiset(a) == multiset(b) && |a| == |b|
  {
    forall x: Hit<Bytes> ensures multiset(a)[x] == multiset(b)[x] {
      DistinctMultiset(a, x);
      DistinctMultiset(b, x);
      assert x in a <==> x.id in rows && x == Hit(x.id, score(rows[x.id]));
      assert x in b <==> x.id in rows && x == Hit(x.id, score(rows[x.id]));
    }
    assert |a| == |multiset(a)| && |b| == |multiset(b)|;
  }

  // ---- naming the hits -----------------------------------------------------

  /** Hits under their external ids. */
  function Named<V>(s: Snapshot<V>, hits: seq<Hit<nat>>): (out: seq<Hit<Bytes>>)
    requires forall i :: 0 <= i < |hits| ==> hits[i].id < |IdsOf(s)|
    ensures |out| == |hits| && forall i :: 0 <= i < |out| ==> out[i] == Hit(IdsOf(s)[hits[i].id], hits[i].score)
  {
    seq(|hits|, i requires 0 <= i < |hits| => Hit(IdsOf(s)[hits[i].id], hits[i].score))
  }

  /** Live points, none twice, named apart. */
  ghost predicate Apart<V>(s: Snapshot<V>, hits: seq<Hit<nat>>) {
    && DistinctHits(hits)
    && (forall i :: 0 <= i < |hits| ==> hits[i].id < |IdsOf(s)| && Position(IdsOf(s), IdsOf(s)[hits[i].id]) == Some(hits[i].id))
  }

  lemma NamedApart<V>(s: Snapshot<V>, hits: seq<Hit<nat>>)
    requires Apart(s, hits)
    ensures DistinctHits(Named(s, hits))
  {
    hide IdsOf;
  }

  /** A best-k list of live points is a best-k list under their names. */
  lemma TopKNamed<V>(s: Snapshot<V>, all: seq<Hit<nat>>, out: seq<Hit<nat>>, k: nat)
    requires Apart(s, all) && Apart(s, out) && TopK(all, out, k, false)
    ensures TopK(Named(s, all), Named(s, out), k, false)
  {
    hide IdsOf, Position;
    var a, o := Named(s, all), Named(s, out);
    NamedApart(s, all);
    NamedApart(s, out);
    forall i | 0 <= i < |out| ensures out[i] in all {
      assert out[i] in multiset(out);
    }
    forall x: Hit<Bytes> ensures multiset(o)[x] <= multiset(a)[x] {
      DistinctMultiset(a, x);
      DistinctMultiset(o, x);
      if x in o { NamedIn(s, all, out, x); }
    }
    forall q, i | q in multiset(a) - multiset(o) && 0 <= i < |o| ensures AtLeast(false, o[i], q) {
      OmittedNamed(s, all, out, k, q, i);
    }
  }

  lemma NamedIn<V>(s: Snapshot<V>, all: seq<Hit<nat>>, out: seq<Hit<nat>>, x: Hit<Bytes>)
    requires Apart(s, all) && Apart(s, out) && (forall i :: 0 <= i < |out| ==> out[i] in all) && x in Named(s, out)
    ensures x in Named(s, all)
  {
    hide IdsOf, Position;
    var i :| 0 <= i < |out| && Named(s, out)[i] == x;
    var j :| 0 <= j < |all| && all[j] == out[i];
    assert Named(s, all)[j] == x;
  }

  lemma NamedMember<V>(s: Snapshot<V>, hits: seq<Hit<nat>>, h: Hit<nat>)
    requires Apart(s, hits) && h.id < |IdsOf(s)|
    ensures h in hits ==> Hit(IdsOf(s)[h.id], h.score) in Named(s, hits)
  {
    hide IdsOf, Position;
    if h in hits {
      var i :| 0 <= i < |hits| && hits[i] == h;
      assert Named(s, hits)[i] == Hit(IdsOf(s)[h.id], h.score);
    }
  }

  lemma OmittedNamed<V>(s: Snapshot<V>, all: seq<Hit<nat>>, out: seq<Hit<nat>>, k: nat, q: Hit<Bytes>, i: nat)
    requires Apart(s, all) && Apart(s, out) && TopK(all, out, k, false)
    requires q in multiset(Named(s, all)) - multiset(Named(s, out)) && i < |out|
    ensures AtLeast(false, Named(s, out)[i], q)
  {
    hide IdsOf, Position;
    NamedApart(s, all);
    DistinctMultiset(Named(s, all), q);
    DistinctMultiset(Named(s, out), q);
    var j :| 0 <= j < |all| && Named(s, all)[j] == q;
    NamedMember(s, out, all[j]);
    assert all[j] in multiset(all) && all[j] !in multiset(out);
    assert all[j] in multiset(all) - multiset(out);
  }

  // ---- the live points are the rows ----------------------------------------

  lemma {:induction false} OverlayScored<V>(s: Snapshot<V>, score: V -> nat, n: nat)
    requires n <= |s.overlay.upserts|
    ensures forall h :: h in OverlayHits(s, score, n) <==>
      BaseLen(s) <= h.id < BaseLen(s) + n && h.id !in s.overlay.tombstones && h.score == score(s.overlay.upserts[h.id - BaseLen(s)].0)
  {
    if n > 0 { OverlayScored(s, score, n - 1); }
  }

  lemma SurvivorsAre<V>(s: Snapshot<V>, hits: seq<Hit<nat>>, h: Hit<nat>)
    ensures h in Survivors(s, hits) <==> h in hits && h.id !in s.overlay.tombstones
  {
    SurvivorsCount(s, hits, h);
    assert h in hits <==> h in multiset(hits);
    assert h in Survivors(s, hits) <==> h in multiset(Survivors(s, hits));
  }

  /** The live points are the live internal ids, each at the distance of its vector. */
  lemma LiveScored<V>(s: Snapshot<V>, score: V -> nat, baseAll: seq<Hit<nat>>, h: Hit<nat>)
    requires IndexOf(s, score, baseAll) && forall x :: x in s.baseLive ==> x < BaseLen(s)
    ensures h in Survivors(s, baseAll) + OverlayHits(s, score, |s.overlay.upserts|) <==> LiveAt(s, h.id) && h.score == score(VectorAt(s, h.id))
  {
    hide Survivors, OverlayHits;
    SurvivorsAre(s, baseAll, h);
    OverlayScored(s, score, |s.overlay.upserts|);
    if LiveAt(s, h.id) && h.id < BaseLen(s) { assert Hit(h.id, score(s.baseLive[h.id])) in baseAll; }
  }

  lemma LiveApart<V(!new)>(s: Snapshot<V>, rows: map<Bytes, V>, hits: seq<Hit<nat>>)
    requires Represents(s, rows) && DistinctHits(hits) && forall i :: 0 <= i < |hits| ==> LiveAt(s, hits[i].id)
    ensures Apart(s, hits)
  {
    hide IdsOf, Position, LiveAt;
  }

  lemma SomeDistinct<V(!new)>(s: Snapshot<V>, rows: map<Bytes, V>, score: V -> nat, hits: seq<Hit<nat>>)
    requires Represents(s, rows) && DistinctHits(hits) && forall h :: h in hits ==> h.id in s.baseLive
    ensures var all := Survivors(s, hits) + OverlayHits(s, score, |s.overlay.upserts|);
      DistinctHits(all) && forall i :: 0 <= i < |all| ==> LiveAt(s, all[i].id)
  {
    hide Represents, Survivors, OverlayHits, LiveAt;
    BaseBelow(s, rows);
    assert forall i :: 0 <= i < |hits| ==> hits[i] in hits;
    SurvivorsLive(s, hits);
    OverlayLive(s, score, |s.overlay.upserts|);
    Joined(s, Survivors(s, hits), OverlayHits(s, score, |s.overlay.upserts|), BaseLen(s) + |s.overlay.upserts|);
  }

  lemma SomeScored<V>(s: Snapshot<V>, score: V -> nat, hits: seq<Hit<nat>>, h: Hit<nat>)
    requires forall x :: x in hits ==> x.id in s.baseLive && x.score == score(s.baseLive[x.id])
    requires forall x :: x in s.baseLive ==> x < BaseLen(s)
    requires h in Survivors(s, hits) + OverlayHits(s, score, |s.overlay.upserts|)
    ensures LiveAt(s, h.id) && h.score == score(VectorAt(s, h.id))
  {
    hide Survivors, OverlayHits;
    SurvivorsAre(s, hits, h);
    OverlayScored(s, score, |s.overlay.upserts|);
  }

  lemma RowFound<V(!new)>(s: Snapshot<V>, rows: map<Bytes, V>, score: V -> nat, e: Bytes, all: seq<Hit<nat>>)
    requires Represents(s, rows) && Apart(s, all) && e in rows
    requires forall h :: h in all <==> LiveAt(s, h.id) && h.score == score(VectorAt(s, h.id))
    ensures Hit(e, score(rows[e])) in Named(s, all)
  {
    hide IdsOf, LiveAt, VectorAt;
    var i := Position(IdsOf(s), e).value;
    assert LiveAt(s, i) && IdsOf(s)[i] == e;
    var h := Hit(i, score(VectorAt(s, i)));
    assert h in all;
    var j :| 0 <= j < |all| && all[j] == h;
    assert Named(s, all)[j] == Hit(e, score(rows[e]));
  }

  lemma NamedIsRow<V(!new)>(s: Snapshot<V>, rows: map<Bytes, V>, score: V -> nat, h: Hit<Bytes>, all: seq<Hit<nat>>)
    requires Represents(s, rows) && Apart(s, all) && h in Named(s, all)
    requires forall x :: x in all ==> LiveAt(s, x.id) && x.score == score(VectorAt(s, x.id))
    ensures h.id in rows && h.score == score(rows[h.id])
  {
    hide IdsOf, Position, LiveAt, VectorAt;
    var i :| 0 <= i < |all| && Named(s, all)[i] == h;
    assert all[i] in all;
  }

  /** The live points of a snapshot are, under their names, the rows it represents. */
  lemma LiveIsRows<V(!new)>(s: Snapshot<V>, rows: map<Bytes, V>, score: V -> nat, baseAll: seq<Hit<nat>>)
    requires Represents(s, rows) && IndexOf(s, score, baseAll)
    ensures var all := Survivors(s, baseAll) + OverlayHits(s, score, |s.overlay.upserts|);
      && Apart(s, all) && ListsRows(Named(s, all), rows, score)
      && DistinctHits(all) && forall i :: 0 <= i < |all| ==> LiveAt(s, all[i].id)
  {
    hide Survivors, OverlayHits, IdsOf, Position, LiveAt, VectorAt;
    var all := Survivors(s, baseAll) + OverlayHits(s, score, |s.overlay.upserts|);
    SomeDistinct(s, rows, score, baseAll);
    LiveApart(s, rows, all);
    NamedApart(s, all);
    forall h ensures h in all <==> LiveAt(s, h.id) && h.score == score(VectorAt(s, h.id)) { LiveScored(s, score, baseAll, h); }
    forall h | h in Named(s, all) ensures h.id in rows && h.score == score(rows[h.id]) { NamedIsRow(s, rows, score, h, all); }
    forall e | e in rows ensures Hit(e, score(rows[e])) in Named(s, all) { RowFound(s, rows, score, e, all); }
  }

  // ---- the nearest rows ----------------------------------------------------

  lemma ResolveIsNamed<V(!new)>(s: Snapshot<V>, rows: map<Bytes, V>, all: seq<Hit<nat>>, out: seq<Hit<nat>>)
    requires Represents(s, rows) && DistinctHits(all) && (forall i :: 0 <= i < |all| ==> LiveAt(s, all[i].id))
    requires multiset(out) <= multiset(all)
    ensures Apart(s, out) && Resolve(s, out) == Named(s, out)
  {
    hide IdsOf, LiveAt, Represents, Resolve, Position;
    SubDistinct(all, out);
    LiveApart(s, rows, out);
    ResultsAreLive(s, rows, out);
  }

  lemma SubDistinct(all: seq<Hit<nat>>, out: seq<Hit<nat>>)
    requires DistinctHits(all) && multiset(out) <= multiset(all)
    ensures DistinctHits(out) && forall i :: 0 <= i < |out| ==> out[i] in all
  {
    forall i | 0 <= i < |out| ensures out[i] in all { assert out[i] in multiset(out); }
    forall i, j | 0 <= i < j < |out| ensures out[i].id != out[j].id {
      if out[i].id == out[j].id {
        assert out[i] == out[j] by { assert out[i] in all && out[j] in all; }
        Sorting.DuplicateCount(out, i, j);
        Sorting.DistinctCount(all, out[i]);
      }
    }
  }

  lemma SamePoints(a: seq<Hit<Bytes>>, b: seq<Hit<Bytes>>, out: seq<Hit<Bytes>>, k: nat)
    requires multiset(a) == multiset(b) && |a| == |b| && TopK(a, out, k, false)
    ensures TopK(b, out, k, false)
  {}

  /** If the index answers exactly and `k` of its hits survive, or it returned all it holds,
      the result is the `k` nearest rows of the collection, each with its own distance. */
  lemma NearestRows<V(!new)>(s: Snapshot<V>, rows: map<Bytes, V>, score: V -> nat, baseAll: seq<Hit<nat>>, hits: seq<Hit<nat>>,
                             points: seq<Hit<Bytes>>, k: nat, kBase: nat)
    requires Represents(s, rows) && IndexOf(s, score, baseAll) && ListsRows(points, rows, score)
    requires TopK(baseAll, hits, kBase, false) && (|Survivors(s, hits)| >= k || |hits| == |baseAll|)
    ensures TopK(points, Resolve(s, MergeTopK(Candidates(s, score, hits), k, false)), k, false)
  {
    hide Represents, IndexOf, ListsRows, TopK, Survivors, OverlayHits, Flatten, MergeTopK, IdsOf, Position, Resolve, LiveAt, Named;
    var all := Survivors(s, baseAll) + OverlayHits(s, score, |s.overlay.upserts|);
    var out := MergeTopK(Candidates(s, score, hits), k, false);
    SearchIsExact(s, score, baseAll, hits, k, kBase);
    FlattenTwo(Survivors(s, baseAll), OverlayHits(s, score, |s.overlay.upserts|));
    assert TopK(all, out, k, false);
    LiveIsRows(s, rows, score, baseAll);
    TopKWithin(all, out, k);
    ResolveIsNamed(s, rows, all, out);
    TopKNamed(s, all, out, k);
    SameRows(Named(s, all), points, rows, score);
    SamePoints(Named(s, all), points, Named(s, out), k);
  }

  lemma TopKWithin(all: seq<Hit<nat>>, out: seq<Hit<nat>>, k: nat)
    requires TopK(all, out, k, false)
    ensures multiset(out) <= multiset(all)
  {}

  /** Whatever live base points the index returns at their distances, every result is a row
      of the collection at its own distance, none twice, nearest first. */
  lemma SoundRows<V(!new)>(s: Snapshot<V>, rows: map<Bytes, V>, score: V -> nat, hits: seq<Hit<nat>>, k: nat)
    requires Represents(s, rows) && DistinctHits(hits)
    requires forall h :: h in hits ==> h.id in s.baseLive && h.score == score(s.baseLive[h.id])
    ensures var out := Resolve(s, MergeTopK(Candidates(s, score, hits), k, false));
      && |out| <= k && DistinctHits(out)
      && (forall h :: h in out ==> h.id in rows && h.score == score(rows[h.id]))
      && (forall i, j :: 0 <= i < j < |out| ==> AtLeast(false, out[i], out[j]))
  {
    hide Represents, Survivors, OverlayHits, Flatten, MergeTopK, IdsOf, Position, Resolve, LiveAt, VectorAt;
    var best := MergeTopK(Candidates(s, score, hits), k, false);
    var all := Survivors(s, hits) + OverlayHits(s, score, |s.overlay.upserts|);
    assert forall i :: 0 <= i < |hits| ==> hits[i] in hits;
    SearchIsSound(s, rows, score, hits, k);
    BaseBelow(s, rows);
    forall h | h in all ensures LiveAt(s, h.id) && h.score == score(VectorAt(s, h.id)) { SomeScored(s, score, hits, h); }
    SomeDistinct(s, rows, score, hits);
    FlattenTwo(Survivors(s, hits), OverlayHits(s, score, |s.overlay.upserts|));
    MergeShape(Candidates(s, score, hits), k, false);
    SubDistinct(all, best);
    ResolveIsNamed(s, rows, all, best);
    forall h | h in Named(s, best) ensures h.id in rows && h.score == score(rows[h.id]) { NamedIsRow(s, rows, score, h, best); }
  }

  /** Search a snapshot of a collection. */
  method SearchRows<V(!new)>(s: Snapshot<V>, base: (nat, nat) -> seq<Hit<nat>>, score: V -> nat, k: nat, ef: nat,
                             ghost rows: map<Bytes, V>, ghost baseAll: seq<Hit<nat>>, ghost points: seq<Hit<Bytes>>)
    returns (r: Outcome)
    requires Represents(s, rows) && IndexOf(s, score, baseAll) && ListsRows(points, rows, score)
    ensures r.Panics? <==> k > 0 && ClampFails(s, k, ef)
    ensures r.Matches? && k > 0 ==>
      var hits := base(Asked(s, k, ef).0, Asked(s, k, ef).1);
      TopK(baseAll, hits, Asked(s, k, ef).0, false) && (|Survivors(s, hits)| >= k || |hits| == |baseAll|) ==>
        TopK(points, r.matches, k, false)
  {
    hide Represents, IndexOf, ListsRows, TopK, Survivors, OverlayHits, Resolve, MergeTopK;
    r := Search(s, base, score, k, ef);
    if r.Matches? && k > 0 {
      ghost var hits := base(Asked(s, k, ef).0, Asked(s, k, ef).1);
      if TopK(baseAll, hits, Asked(s, k, ef).0, false) && (|Survivors(s, hits)| >= k || |hits| == |baseAll|) {
        NearestRows(s, rows, score, baseAll, hits, points, k, Asked(s, k, ef).0);
      }
    }
  }
}
