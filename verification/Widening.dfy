/** How far the widened base search makes up for tombstoned base points
    (crates/quiver-embed/src/snapshot.rs, `search`). */
module Widening {
  import opened Gather
  import opened Mvcc
  import Sorting

  /** The base ids the overlay has hidden. */
  function DeadBase<V>(s: Snapshot<V>): set<nat> { set i | i in s.baseLive && i in s.overlay.tombstones }

  /** An index over the base: each of its points once, at any distances. */
  ghost predicate Scores<V>(s: Snapshot<V>, baseAll: seq<Hit<nat>>) {
    && |baseAll| == |s.baseLive|
    && (forall i :: 0 <= i < |baseAll| ==> baseAll[i].id in s.baseLive)
    && (forall i, j :: 0 <= i < j < |baseAll| ==> baseAll[i].id != baseAll[j].id)
  }

  /** If the index answers with its true best `kBase`, the search returns the true best `k`
      of the live points. */
  ghost predicate ExactFor<V>(s: Snapshot<V>, k: nat, kBase: nat, score: V -> nat, baseAll: seq<Hit<nat>>, hits: seq<Hit<nat>>) {
    Scores(s, baseAll) && TopK(baseAll, hits, kBase, false) ==>
      TopK(Flatten(LivePoints(s, score, baseAll)), MergeTopK(Candidates(s, score, hits), k, false), k, false)
  }

  /** The search is exact for every query, whatever the distances. */
  ghost predicate AlwaysExact<V(!new)>(s: Snapshot<V>, k: nat, kBase: nat) {
    forall score: V -> nat, baseAll, hits :: ExactFor(s, k, kBase, score, baseAll, hits)
  }

  // ---- enough --------------------------------------------------------------

  function DeadIds<V>(s: Snapshot<V>, hits: seq<Hit<nat>>): set<nat> {
    set i | 0 <= i < |hits| && hits[i].id in s.overlay.tombstones :: hits[i].id
  }

  lemma DeadIdsStep<V>(s: Snapshot<V>, hits: seq<Hit<nat>>, h: Hit<nat>)
    requires forall i :: 0 <= i < |hits| ==> hits[i].id != h.id
    ensures |DeadIds(s, hits + [h])| == |DeadIds(s, hits)| + if h.id in s.overlay.tombstones then 1 else 0
  {
    var more := hits + [h];
    assert forall i :: 0 <= i < |hits| ==> more[i] == hits[i];
    assert h.id !in DeadIds(s, hits);
    assert more[|hits|] == h;
    assert DeadIds(s, more) == DeadIds(s, hits) + if h.id in s.overlay.tombstones then {h.id} else {};
  }

  /** Each hit survives or is one of the dead. */
  lemma {:induction false} SurvivorsSize<V>(s: Snapshot<V>, hits: seq<Hit<nat>>)
    requires forall i, j :: 0 <= i < j < |hits| ==> hits[i].id != hits[j].id
    ensures |Survivors(s, hits)| + |DeadIds(s, hits)| == |hits|
  {
    hide DeadIds;
    if hits == [] {
      NoneDead(s);
    } else {
      var n := |hits| - 1;
      SurvivorsSize(s, hits[..n]);
      DeadIdsStep(s, hits[..n], hits[n]);
      assert hits[..n] + [hits[n]] == hits;
    }
  }

  lemma NoneDead<V>(s: Snapshot<V>)
    ensures DeadIds(s, []) == {}
  {}

  lemma Subset(a: set<nat>, b: set<nat>)
    requires a <= b
    ensures |a| <= |b|
  {
    assert b == a + (b - a);
  }

  lemma HitsDistinct(all: seq<Hit<nat>>, hits: seq<Hit<nat>>)
    requires multiset(hits) <= multiset(all)
    requires forall i, j :: 0 <= i < j < |all| ==> all[i].id != all[j].id
    ensures forall i :: 0 <= i < |hits| ==> hits[i] in all
    ensures forall i, j :: 0 <= i < j < |hits| ==> hits[i].id != hits[j].id
  {
    forall i | 0 <= i < |hits| ensures hits[i] in all {
      assert hits[i] in multiset(hits);
    }
    forall i, j | 0 <= i < j < |hits| ensures hits[i].id != hits[j].id {
      if hits[i].id == hits[j].id {
        assert hits[i] == hits[j] by { assert hits[i] in all && hits[j] in all; }
        Sorting.DuplicateCount(hits, i, j);
        Sorting.DistinctCount(all, hits[i]);
      }
    }
  }

  /** Asking for `k` more than can be dead leaves `k` survivors, or all there are. */
  lemma EnoughIsExact<V>(s: Snapshot<V>, k: nat, kBase: nat, score: V -> nat, baseAll: seq<Hit<nat>>, hits: seq<Hit<nat>>)
    requires kBase >= k + |DeadBase(s)| || kBase >= |s.baseLive|
    ensures ExactFor(s, k, kBase, score, baseAll, hits)
  {
    hide Survivors, OverlayHits, Flatten, MergeTopK, AtLeast;
    if Scores(s, baseAll) && TopK(baseAll, hits, kBase, false) {
      HitsDistinct(baseAll, hits);
      SurvivorsSize(s, hits);
      assert DeadIds(s, hits) <= DeadBase(s);
      Subset(DeadIds(s, hits), DeadBase(s));
      SearchIsExact(s, score, baseAll, hits, k, kBase);
    }
  }

  lemma {:induction false} NoSurvivors<V>(s: Snapshot<V>, hits: seq<Hit<nat>>)
    requires forall i :: 0 <= i < |hits| ==> hits[i].id in s.overlay.tombstones
    ensures Survivors(s, hits) == []
  {
    if hits != [] { NoSurvivors(s, hits[..|hits| - 1]); }
  }

  lemma AllDeadIsExact<V>(s: Snapshot<V>, k: nat, kBase: nat, score: V -> nat, baseAll: seq<Hit<nat>>, hits: seq<Hit<nat>>)
    requires |DeadBase(s)| == |s.baseLive|
    ensures ExactFor(s, k, kBase, score, baseAll, hits)
  {
    hide Survivors, OverlayHits, Flatten, MergeTopK, AtLeast, GoodCount;
    if Scores(s, baseAll) && TopK(baseAll, hits, kBase, false) {
      SameSizeSame(DeadBase(s), s.baseLive.Keys);
      HitsDistinct(baseAll, hits);
      NoSurvivors(s, baseAll);
      NoSurvivors(s, hits);
      assert AllCover(LivePoints(s, score, baseAll), Candidates(s, score, hits), k, false);
      MergeCovers(LivePoints(s, score, baseAll), Candidates(s, score, hits), k, false);
    }
  }

  lemma SameSizeSame(a: set<nat>, b: set<nat>)
    requires a <= b && |a| == |b|
    ensures a == b
  {
    assert b == a + (b - a);
  }

  // ---- too few -------------------------------------------------------------

  lemma {:induction false} Listing(ids: set<nat>) returns (xs: seq<nat>)
    ensures |xs| == |ids| && (forall i :: 0 <= i < |xs| ==> xs[i] in ids)
    ensures forall i, j :: 0 <= i < j < |xs| ==> xs[i] != xs[j]
    decreases |ids|
  {
    if ids == {} {
      xs := [];
    } else {
      var x :| x in ids;
      var rest := Listing(ids - {x});
      xs := rest + [x];
    }
  }

  /** Every dead point at distance 0, every live one at distance 1. */
  function Adverse(dead: seq<nat>, live: seq<nat>): (all: seq<Hit<nat>>)
    ensures |all| == |dead| + |live|
    ensures forall i :: 0 <= i < |all| ==> all[i] == if i < |dead| then Hit(dead[i], 0) else Hit(live[i - |dead|], 1)
  {
    seq(|dead| + |live|, i requires 0 <= i < |dead| + |live| => if i < |dead| then Hit(dead[i], 0) else Hit(live[i - |dead|], 1))
  }

  lemma AdverseScores<V>(s: Snapshot<V>, dead: seq<nat>, live: seq<nat>)
    requires |dead| == |DeadBase(s)| && |live| == |s.baseLive.Keys - DeadBase(s)|
    requires forall i :: 0 <= i < |dead| ==> dead[i] in DeadBase(s)
    requires forall i :: 0 <= i < |live| ==> live[i] in s.baseLive.Keys - DeadBase(s)
    requires forall i, j :: 0 <= i < j < |dead| ==> dead[i] != dead[j]
    requires forall i, j :: 0 <= i < j < |live| ==> live[i] != live[j]
    ensures Scores(s, Adverse(dead, live))
  {
    assert s.baseLive.Keys == DeadBase(s) + (s.baseLive.Keys - DeadBase(s));
  }

  lemma PrefixIsTopK(all: seq<Hit<nat>>, n: nat)
    requires n <= |all| && forall i, j :: 0 <= i < j < |all| ==> AtLeast(false, all[i], all[j])
    ensures TopK(all, all[..n], n, false)
  {
    hide AtLeast;
    var out := all[..n];
    assert all == out + all[n..];
    forall q, i | q in multiset(all) - multiset(out) && 0 <= i < |out| ensures AtLeast(false, out[i], q) {
      TruncatedIsWorse(all, n, false, q, i);
    }
  }

  lemma {:induction false} FarOverlay<V>(s: Snapshot<V>, n: nat)
    requires n <= |s.overlay.upserts|
    ensures forall h :: h in OverlayHits(s, v => 2, n) ==> h.score == 2
  {
    if n > 0 { FarOverlay(s, n - 1); }
  }

  /** A list short of `k`, completed with worse hits, misses the better one it omits. */
  lemma TooFew(a: seq<Hit<nat>>, b: seq<Hit<nat>>, o: seq<Hit<nat>>, q: Hit<nat>, k: nat)
    requires multiset(b) <= multiset(a) && multiset(a)[q] > multiset(b)[q] && |b| < k
    requires q.score == 1 && (forall h :: h in o ==> h.score == 2) && (forall h :: h in b ==> h.score < 2)
    ensures !TopK(Flatten([a, o]), MergeTopK([b, o], k, false), k, false)
  {
    hide MergeTopK, Flatten;
    var out := MergeTopK([b, o], k, false);
    MergeShape([b, o], k, false);
    FlattenTwo(a, o);
    FlattenTwo(b, o);
    Shorter(a, b, q);
    if |b| + |o| >= k {
      var i := FarOne(b, o, out);
      assert q in multiset(a + o) - multiset(out);
      assert !AtLeast(false, out[i], q);
    }
  }

  lemma Shorter(a: seq<Hit<nat>>, b: seq<Hit<nat>>, q: Hit<nat>)
    requires multiset(b) <= multiset(a) && multiset(a)[q] > multiset(b)[q]
    ensures |b| < |a|
  {
    var rest := multiset(a) - multiset(b);
    assert q in rest;
    assert multiset(a) == multiset(b) + rest;
    assert |a| == |multiset(a)| == |b| + |rest|;
  }

  lemma FarOne(b: seq<Hit<nat>>, o: seq<Hit<nat>>, out: seq<Hit<nat>>) returns (i: nat)
    requires multiset(out) <= multiset(b + o) && |out| > |b| && forall h :: h in o ==> h.score == 2
    ensures i < |out| && out[i].score == 2
  {
    if forall j :: 0 <= j < |out| ==> out[j].score != 2 {
      forall h ensures multiset(out)[h] <= multiset(b)[h] {
        if h in multiset(out) { assert h in out && h !in o; }
      }
      SameSize(out, b);
      assert false;
    }
    i :| i < |out| && out[i].score == 2;
  }

  lemma SurvivorsWithin<V>(s: Snapshot<V>, all: seq<Hit<nat>>, n: nat)
    requires n <= |all|
    ensures multiset(Survivors(s, all[..n])) <= multiset(Survivors(s, all))
    ensures forall h :: h in Survivors(s, all[..n]) ==> h in all
  {
    hide Survivors;
    assert all == all[..n] + all[n..];
    forall h ensures multiset(Survivors(s, all[..n]))[h] <= multiset(Survivors(s, all))[h] && multiset(Survivors(s, all[..n]))[h] <= multiset(all)[h] {
      SurvivorsCount(s, all[..n], h);
      SurvivorsCount(s, all, h);
    }
    forall h | h in Survivors(s, all[..n]) ensures h in all {
      assert h in multiset(Survivors(s, all[..n]));
    }
  }

  /** With the dead points nearest, at most `kBase` less the dead survive, or none. */
  lemma SurvivorsBound<V>(s: Snapshot<V>, dead: seq<nat>, live: seq<nat>, n: nat)
    requires n <= |dead| + |live|
    requires forall i :: 0 <= i < |dead| ==> dead[i] in s.overlay.tombstones
    requires forall i, j :: 0 <= i < j < |dead| + |live| ==> Adverse(dead, live)[i].id != Adverse(dead, live)[j].id
    ensures |Survivors(s, Adverse(dead, live)[..n])| <= if n <= |dead| then 0 else n - |dead|
  {
    hide Survivors, Adverse;
    var hits := Adverse(dead, live)[..n];
    if n <= |dead| {
      NoSurvivors(s, hits);
    } else {
      SurvivorsSize(s, hits);
      var ids := set i | 0 <= i < |dead| :: dead[i];
      forall i | 0 <= i < |dead| ensures dead[i] in DeadIds(s, hits) { assert hits[i].id == dead[i]; }
      assert ids <= DeadIds(s, hits);
      forall i, j | 0 <= i < j < |dead| ensures dead[i] != dead[j] { assert hits[i].id == dead[i] && hits[j].id == dead[j]; }
      ImageSize(dead);
      Subset(ids, DeadIds(s, hits));
    }
  }

  lemma {:induction false} ImageSize(xs: seq<nat>)
    requires forall i, j :: 0 <= i < j < |xs| ==> xs[i] != xs[j]
    ensures |set i | 0 <= i < |xs| :: xs[i]| == |xs|
  {
    if xs != [] {
      var n := |xs| - 1;
      ImageSize(xs[..n]);
      var rest := set i | 0 <= i < n :: xs[..n][i];
      assert (set i | 0 <= i < |xs| :: xs[i]) == rest + {xs[n]};
      assert xs[n] !in rest;
    }
  }

  /** A live base point the widened search does not see, while fewer than `k` survive. */
  lemma FewSurvive<V>(s: Snapshot<V>, k: nat, kBase: nat, dead: seq<nat>, live: seq<nat>) returns (q: Hit<nat>)
    requires k > 0 && kBase < k + |dead| && kBase < |dead| + |live| && live != []
    requires forall i :: 0 <= i < |dead| ==> dead[i] in s.overlay.tombstones
    requires forall i :: 0 <= i < |live| ==> live[i] !in s.overlay.tombstones
    requires forall i, j :: 0 <= i < j < |dead| + |live| ==> Adverse(dead, live)[i].id != Adverse(dead, live)[j].id
    ensures var all := Adverse(dead, live);
      var a, b := Survivors(s, all), Survivors(s, all[..kBase]);
      && multiset(b) <= multiset(a) && multiset(a)[q] > multiset(b)[q] && |b| < k
      && q.score == 1 && forall h :: h in b ==> h.score < 2
  {
    hide Survivors, Adverse;
    var all := Adverse(dead, live);
    var j := if kBase < |dead| then |dead| else kBase;
    q := all[j];
    assert q in all && q !in all[..kBase];
    SurvivorsWithin(s, all, kBase);
    SurvivorsBound(s, dead, live, kBase);
    SurvivorsCount(s, all, q);
    SurvivorsCount(s, all[..kBase], q);
  }

  /** Asking for less can miss: put the dead points nearest. */
  lemma TooFewIsInexact<V(!new)>(s: Snapshot<V>, k: nat, kBase: nat)
    requires k > 0 && kBase < k + |DeadBase(s)| && kBase < |s.baseLive| && |DeadBase(s)| < |s.baseLive|
    ensures !AlwaysExact(s, k, kBase)
  {
    hide Survivors, OverlayHits, Flatten, MergeTopK, Adverse;
    var dead := Listing(DeadBase(s));
    var live := Listing(s.baseLive.Keys - DeadBase(s));
    var all := Adverse(dead, live);
    AdverseScores(s, dead, live);
    var hits := all[..kBase];
    PrefixIsTopK(all, kBase);
    FarOverlay(s, |s.overlay.upserts|);
    var q := FewSurvive(s, k, kBase, dead, live);
    var o := OverlayHits(s, v => 2, |s.overlay.upserts|);
    TooFew(Survivors(s, all), Survivors(s, hits), o, q, k);
    assert !ExactFor(s, k, kBase, v => 2, all, hits);
  }

  /** The search is exact for every query exactly when the index is asked for `k` more
      than the overlay hides, or for everything, or nothing in the base is live. */
  lemma AlwaysExactIff<V(!new)>(s: Snapshot<V>, k: nat, kBase: nat)
    requires k > 0
    ensures AlwaysExact(s, k, kBase) <==>
      kBase >= k + |DeadBase(s)| || kBase >= |s.baseLive| || |DeadBase(s)| == |s.baseLive|
  {
    hide ExactFor;
    Subset(DeadBase(s), s.baseLive.Keys);
    if kBase >= k + |DeadBase(s)| || kBase >= |s.baseLive| {
      forall score: V -> nat, baseAll, hits ensures ExactFor(s, k, kBase, score, baseAll, hits) {
        EnoughIsExact(s, k, kBase, score, baseAll, hits);
      }
    } else if |DeadBase(s)| == |s.baseLive| {
      forall score: V -> nat, baseAll, hits ensures ExactFor(s, k, kBase, score, baseAll, hits) {
        AllDeadIsExact(s, k, kBase, score, baseAll, hits);
      }
    } else {
      TooFewIsInexact(s, k, kBase);
    }
  }

  // ---- the widening formula ------------------------------------------------

  lemma CeilAtLeast(a: nat, b: nat, m: nat)
    requires b > 0 && m > 0
    ensures CeilDiv(a, b) >= m <==> a > (m - 1) * b
  {
    var c := CeilDiv(a, b);
    assert c * b <= a + b - 1 < (c + 1) * b by { DivBounds(a + b - 1, b); }
    if c >= m {
      Monotone(m, c, b);
      assert (m - 1) * b == m * b - b;
    } else {
      Monotone(c + 1, m, b);
      assert (m - 1) * b == m * b - b && (c + 1) * b == c * b + b;
    }
  }

  lemma DivBounds(x: nat, b: nat)
    requires b > 0
    ensures (x / b) * b <= x < (x / b + 1) * b
  {
    assert x == b * (x / b) + x % b;
  }

  lemma Monotone(x: int, y: int, b: nat)
    requires x <= y
    ensures x * b <= y * b
  {}

  /** Widening by the live fraction asks for `total` hits more than `k`. */
  lemma WidenedReaches(k: nat, total: nat, dead: nat)
    requires 0 < k <= total && 0 < dead < total
    ensures CeilDiv(k * total, total - dead) >= k + dead <==> k * dead > (dead - 1) * (total - dead)
    ensures CeilDiv(k * total, total - dead) >= total ==> k * dead > (dead - 1) * (total - dead)
  {
    var live := total - dead;
    CeilAtLeast(k * total, live, k + dead);
    assert k * total == k * live + k * dead;
    assert (k + dead - 1) * live == k * live + (dead - 1) * live;
    CeilAtLeast(k * total, live, total);
    if k * total > (total - 1) * live && k * dead <= (dead - 1) * live {
      Scaled(k, total, dead, live);
    }
  }

  lemma Scaled(k: nat, total: nat, dead: nat, live: nat)
    requires total == dead + live && dead > 0
    requires k * dead <= (dead - 1) * live
    ensures k * total <= (total - 1) * live
  {
    assert (dead - 1) * live == dead * live - live;
    if k > live { Monotone(live + 1, k, dead); }
    Monotone(k, live, live);
    assert k * total == k * dead + k * live;
    assert (total - 1) * live == (dead - 1) * live + live * live;
  }

  /** The two ways to be exact, in terms of the sizes. */
  lemma WidenedEnough(k: nat, total: nat, dead: nat)
    requires 0 < k <= total && 0 < dead < total
    ensures var kBase := Clamp(CeilDiv(k * total, total - dead), k, total);
      kBase >= k + dead || kBase >= total <==> k * dead > (dead - 1) * (total - dead)
  {
    hide CeilDiv;
    WidenedReaches(k, total, dead);
  }

  lemma AskedIs<V>(s: Snapshot<V>, k: nat, ef: nat)
    requires 0 < |BaseTombstones(s)| <= BaseLen(s)
    requires 0 < k <= BaseLen(s) && ef <= BaseLen(s) && k * BaseLen(s) <= MAX_U64
    ensures Asked(s, k, ef).0 == Clamp(CeilDiv(k * BaseLen(s), LiveBase(s)), k, BaseLen(s))
  {
    hide CeilDiv, Clamp, LiveBase;
  }

  lemma AllHidden(k: nat, total: nat)
    requires 0 < k <= total
    ensures Clamp(CeilDiv(k * total, 1), k, total) == total
  {
    Monotone(1, k, total);
  }

  /** The base of a fresh rebuild holds every id, so the hidden ones are the tombstones. */
  lemma FreshBase<V>(s: Snapshot<V>)
    requires forall i: nat :: i in s.baseLive <==> i < BaseLen(s)
    ensures |s.baseLive| == BaseLen(s) && DeadBase(s) == BaseTombstones(s) && |BaseTombstones(s)| <= BaseLen(s)
  {
    assert DeadBase(s) == BaseTombstones(s);
    RangeSize(s.baseLive.Keys, BaseLen(s));
    Subset(DeadBase(s), s.baseLive.Keys);
  }

  /** On a freshly rebuilt base of `total` points, `dead` of them hidden since: the search
      is exact for every query if and only if none is hidden or `k` is large enough for
      the live fraction to make up for them. */
  lemma WideningIsExactIff<V(!new)>(s: Snapshot<V>, k: nat, ef: nat)
    requires forall i: nat :: i in s.baseLive <==> i < BaseLen(s)
    requires k > 0 && (Widens(s) ==> k <= BaseLen(s) && ef <= BaseLen(s)) && k * BaseLen(s) <= MAX_U64
    ensures var total, dead := BaseLen(s), |BaseTombstones(s)|;
      AlwaysExact(s, k, Asked(s, k, ef).0) <==> dead == 0 || k * dead > (dead - 1) * (total - dead)
  {
    hide AlwaysExact, CeilDiv, Clamp, Asked, DeadBase, BaseTombstones;
    var total, dead := BaseLen(s), |BaseTombstones(s)|;
    FreshBase(s);
    AlwaysExactIff(s, k, Asked(s, k, ef).0);
    if dead > 0 {
      AskedIs(s, k, ef);
      if dead < total { WidenedEnough(k, total, dead); } else { AllHidden(k, total); }
    }
  }

  lemma {:induction false} RangeSize(ids: set<nat>, n: nat)
    requires forall i: nat :: i in ids <==> i < n
    ensures |ids| == n
  {
    if n == 0 {
      assert ids == {};
    } else {
      RangeSize(ids - {n - 1}, n - 1);
    }
  }

  const HALF_HIDDEN := Snapshot([[1], [2], [3], [4]], [], map[0 := 0, 1 := 0, 2 := 0, 3 := 0], Overlay([], {0, 1}))

  /** Two of four base points hidden and one result wanted: the index is asked for two,
      and both can be the hidden ones. */
  lemma WideningCanMiss()
    ensures Asked(HALF_HIDDEN, 1, 1).0 == 2 && !AlwaysExact(HALF_HIDDEN, 1, 2)
  {
    hide AlwaysExact;
    assert BaseTombstones(HALF_HIDDEN) == {0, 1};
    WideningIsExactIff(HALF_HIDDEN, 1, 1);
  }
}
