/** The shard map: rendezvous ownership, donors during a migration, and membership
    changes (crates/quiver-cluster/src/lib.rs, `ShardMap`). */
module ShardMaps {
  import opened ByteStrings
  import opened Rendezvous

  datatype Shard = Shard(id: nat, primaryUrl: string, replicaUrls: seq<string>)

  /** A shard map as a value. */
  datatype Membership = Membership(version: nat, shards: seq<Shard>, joining: seq<nat>, leaving: seq<nat>)

  datatype ClusterError =
    | NoShards
    | EmptyUrl(id: nat)
    | DuplicateShardId(id: nat)
    | UnknownShard(id: nat)
    | NotDrainable(id: nat)

  predicate HasId(shards: seq<Shard>, id: nat) { exists i :: 0 <= i < |shards| && shards[i].id == id }

  /** Ids are distinct 64-bit words. */
  predicate DistinctIds(shards: seq<Shard>) {
    && (forall i :: 0 <= i < |shards| ==> shards[i].id < WORD)
    && (forall i, j :: 0 <= i < j < |shards| ==> shards[i].id != shards[j].id)
  }

  predicate NoRepeats(ids: seq<nat>) { forall i, j :: 0 <= i < j < |ids| ==> ids[i] != ids[j] }

  /** What every membership operation keeps. */
  predicate Well(m: Membership) {
    && m.shards != [] && DistinctIds(m.shards)
    && (forall i :: 0 <= i < |m.shards| ==> m.shards[i].primaryUrl != "")
    && NoRepeats(m.joining) && NoRepeats(m.leaving)
    && (forall id :: id in m.joining ==> HasId(m.shards, id) && id !in m.leaving)
    && (forall id :: id in m.leaving ==> HasId(m.shards, id))
  }

  /** A shard that is neither joining nor leaving. */
  predicate Settled(m: Membership, id: nat) { HasId(m.shards, id) && id !in m.joining && id !in m.leaving }

  /** Some shard is settled, so a drain has somewhere to go. */
  predicate Anchored(m: Membership) { exists i :: 0 <= i < |m.shards| && Settled(m, m.shards[i].id) }

  /** A settled shard other than this one. */
  predicate HasDestination(m: Membership, id: nat) {
    exists i :: 0 <= i < |m.shards| && m.shards[i].id != id && Settled(m, m.shards[i].id)
  }

  // ---- ownership -----------------------------------------------------------

  /** The rendezvous winner among the shards not skipped; the last maximum wins. */
  function Best(shards: seq<Shard>, point: Bytes, skip: seq<nat>): Option<Shard> {
    if shards == [] then None
    else
      var best, last := Best(shards[..|shards| - 1], point, skip), shards[|shards| - 1];
      if last.id in skip then best
      else if best.None? || HrwScore(last.id, point) >= HrwScore(best.value.id, point) then Some(last)
      else best
  }

  /** The shard not skipped that outweighs every other one. */
  predicate Wins(w: Shard, shards: seq<Shard>, point: Bytes, skip: seq<nat>) {
    && w in shards && w.id !in skip
    && forall s :: s in shards && s.id !in skip && s.id != w.id ==> HrwScore(s.id, point) < HrwScore(w.id, point)
  }

  lemma {:induction false} BestWins(shards: seq<Shard>, point: Bytes, skip: seq<nat>)
    requires DistinctIds(shards)
    ensures var b := Best(shards, point, skip); b.Some? ==> Wins(b.value, shards, point, skip)
    ensures Best(shards, point, skip).None? ==> forall s :: s in shards ==> s.id in skip
  {
    hide HrwScore;
    if shards != [] {
      var n := |shards| - 1;
      var rest, last := shards[..n], shards[n];
      BestWins(rest, point, skip);
      var best := Best(rest, point, skip);
      assert forall s :: s in shards <==> s in rest || s == last;
      if best.Some? && last.id !in skip && HrwScore(last.id, point) >= HrwScore(best.value.id, point) {
        if HrwScore(last.id, point) == HrwScore(best.value.id, point) { ScoreInjective(last.id, best.value.id, point); }
      }
    }
  }

  lemma SameId(shards: seq<Shard>, a: Shard, b: Shard)
    requires DistinctIds(shards) && a in shards && b in shards && a.id == b.id
    ensures a == b
  {
    var i :| 0 <= i < |shards| && shards[i] == a;
    var j :| 0 <= j < |shards| && shards[j] == b;
    assert i == j;
  }

  /** The winner is the only shard that outweighs the others. */
  lemma WinnerIs(shards: seq<Shard>, point: Bytes, skip: seq<nat>, w: Shard)
    requires DistinctIds(shards)
    ensures Wins(w, shards, point, skip) <==> Best(shards, point, skip) == Some(w)
  {
    hide HrwScore, Best;
    BestWins(shards, point, skip);
    if Wins(w, shards, point, skip) {
      var b := Best(shards, point, skip).value;
      if b.id == w.id { SameId(shards, b, w); }
    }
  }

  /** Ownership depends on which shards are eligible, not on their order. */
  lemma OrderIrrelevant(a: seq<Shard>, b: seq<Shard>, point: Bytes, skipA: seq<nat>, skipB: seq<nat>)
    requires DistinctIds(a) && DistinctIds(b)
    requires forall s :: (s in a && s.id !in skipA) <==> (s in b && s.id !in skipB)
    ensures Best(a, point, skipA) == Best(b, point, skipB)
  {
    hide HrwScore, Best, DistinctIds;
    BestWins(a, point, skipA);
    BestWins(b, point, skipB);
    var best := Best(a, point, skipA);
    if best.Some? {
      WinnerIs(b, point, skipB, best.value);
    }
  }

  /** More shards to skip: a winner that is still eligible still wins. */
  lemma SkipMore(a: seq<Shard>, b: seq<Shard>, point: Bytes, skipA: seq<nat>, skipB: seq<nat>)
    requires DistinctIds(a) && DistinctIds(b) && Best(a, point, skipA).Some?
    requires forall s :: s in b && s.id !in skipB ==> s in a && s.id !in skipA
    requires var w := Best(a, point, skipA).value; w in b && w.id !in skipB
    ensures Best(b, point, skipB) == Best(a, point, skipA)
  {
    hide HrwScore, Best, DistinctIds;
    BestWins(a, point, skipA);
    WinnerIs(b, point, skipB, Best(a, point, skipA).value);
  }

  /** The owner of a point: leaving shards are passed over. */
  function ShardFor(m: Membership, point: Bytes): Shard
    requires m.shards != []
  {
    match Best(m.shards, point, m.leaving)
    case Some(s) => s
    case None =>
      match Best(m.shards, point, [])
      case Some(s) => s
      case None => m.shards[0]
  }

  /** The shard that still holds a point's authoritative copy during a migration. */
  function DonorFor(m: Membership, point: Bytes): Option<Shard>
    requires m.shards != []
  {
    var before := Best(m.shards, point, []);
    if m.leaving != [] && before.None? then None
    else if m.leaving != [] && before.value.id in m.leaving then before
    else if ShardFor(m, point).id !in m.joining then None
    else Best(m.shards, point, m.joining + m.leaving)
  }

  /** Where a get goes: the donor if there is one, else the owner. */
  function GetTarget(m: Membership, point: Bytes): Shard
    requires m.shards != []
  {
    match DonorFor(m, point)
    case Some(s) => s
    case None => ShardFor(m, point)
  }

  // ---- membership changes --------------------------------------------------

  function Without(ids: seq<nat>, id: nat): (r: seq<nat>)
    ensures forall x :: x in r <==> x in ids && x != id
  {
    if ids == [] then []
    else
      var rest := Without(ids[..|ids| - 1], id);
      if ids[|ids| - 1] == id then rest else rest + [ids[|ids| - 1]]
  }

  function WithoutShard(shards: seq<Shard>, id: nat): (r: seq<Shard>)
    ensures forall s :: s in r <==> s in shards && s.id != id
  {
    if shards == [] then []
    else
      var rest := WithoutShard(shards[..|shards| - 1], id);
      if shards[|shards| - 1].id == id then rest else rest + [shards[|shards| - 1]]
  }

  lemma {:induction false} WithoutKeeps(ids: seq<nat>, id: nat)
    requires NoRepeats(ids)
    ensures NoRepeats(Without(ids, id))
  {
    if ids != [] {
      var n := |ids| - 1;
      WithoutKeeps(ids[..n], id);
      forall i | 0 <= i < |Without(ids[..n], id)| ensures Without(ids[..n], id)[i] != ids[n] {
        assert Without(ids[..n], id)[i] in ids[..n];
      }
    }
  }

  lemma {:induction false} WithoutShardKeeps(shards: seq<Shard>, id: nat)
    requires DistinctIds(shards)
    ensures DistinctIds(WithoutShard(shards, id))
  {
    if shards != [] {
      var n := |shards| - 1;
      var rest := WithoutShard(shards[..n], id);
      WithoutShardKeeps(shards[..n], id);
      forall i | 0 <= i < |rest| ensures rest[i].id != shards[n].id {
        assert rest[i] in shards[..n];
        var j :| 0 <= j < n && shards[j] == rest[i];
      }
    }
  }

  function Added(m: Membership, s: Shard): Membership {
    m.(version := m.version + 1, shards := m.shards + [s])
  }

  function AddedJoining(m: Membership, s: Shard): Membership {
    Added(m, s).(joining := m.joining + [s.id])
  }

  function Promoted(m: Membership, id: nat): Membership {
    m.(version := m.version + 1, joining := Without(m.joining, id))
  }

  function MarkedLeaving(m: Membership, id: nat): Membership {
    m.(version := m.version + 1, leaving := m.leaving + [id])
  }

  function LeaveCancelled(m: Membership, id: nat): Membership {
    m.(version := m.version + 1, leaving := Without(m.leaving, id))
  }

  function Removed(m: Membership, id: nat): Membership {
    Membership(m.version + 1, WithoutShard(m.shards, id), Without(m.joining, id), Without(m.leaving, id))
  }

  // ---- what moves ----------------------------------------------------------

  lemma AnchoredOwner(m: Membership, point: Bytes)
    requires Well(m) && Anchored(m)
    ensures Best(m.shards, point, m.leaving) == Some(ShardFor(m, point))
  {
    hide Best, HrwScore;
    BestWins(m.shards, point, m.leaving);
    var i :| 0 <= i < |m.shards| && Settled(m, m.shards[i].id);
    assert m.shards[i] in m.shards;
  }

  /** Removing a shard moves only the points it owned. */
  lemma RemovalMovesOwn(m: Membership, id: nat, point: Bytes)
    requires Well(m) && Anchored(m) && Well(Removed(m, id))
    requires ShardFor(m, point).id != id
    ensures ShardFor(Removed(m, id), point) == ShardFor(m, point)
  {
    hide Best;
    AnchoredOwner(m, point);
    BestWins(m.shards, point, m.leaving);
    SkipMore(m.shards, WithoutShard(m.shards, id), point, m.leaving, Without(m.leaving, id));
  }

  /** Draining a shard moves only the points it owned, to where its removal will. */
  lemma DrainMovesOwn(m: Membership, id: nat, point: Bytes)
    requires Well(m) && Well(MarkedLeaving(m, id)) && Anchored(MarkedLeaving(m, id)) && Well(Removed(m, id))
    ensures ShardFor(m, point).id != id ==> ShardFor(MarkedLeaving(m, id), point) == ShardFor(m, point)
    ensures ShardFor(MarkedLeaving(m, id), point) == ShardFor(Removed(m, id), point)
  {
    hide Best;
    AnchoredOwner(MarkedLeaving(m, id), point);
    BestWins(m.shards, point, m.leaving);
    BestWins(m.shards, point, m.leaving + [id]);
    OrderIrrelevant(m.shards, WithoutShard(m.shards, id), point, m.leaving + [id], Without(m.leaving, id));
    if ShardFor(m, point).id != id {
      SkipMore(m.shards, m.shards, point, m.leaving, m.leaving + [id]);
    }
  }

  /** A new shard takes points but never moves one between the others. */
  lemma JoinMovesToNewcomer(m: Membership, s: Shard, point: Bytes)
    requires Well(m) && Anchored(m) && Well(Added(m, s))
    ensures ShardFor(Added(m, s), point) == s || ShardFor(Added(m, s), point) == ShardFor(m, point)
  {
    hide Best;
    var all := m.shards + [s];
    AnchoredOwner(m, point);
    BestWins(m.shards, point, m.leaving);
    BestWins(all, point, m.leaving);
    var w := Best(all, point, m.leaving).value;
    if w != s { SkipMore(all, m.shards, point, m.leaving, m.leaving); }
  }

  // ---- where gets go -------------------------------------------------------

  predicate Quiet(m: Membership) { Well(m) && m.joining == [] && m.leaving == [] }

  /** One shard is joining and none is leaving. */
  predicate Joining(m: Membership, id: nat) { Well(m) && Anchored(m) && m.joining == [id] && m.leaving == [] }

  /** One shard is leaving and none is joining. */
  predicate Leaving(m: Membership, id: nat) { Well(m) && Anchored(m) && m.leaving == [id] && m.joining == [] }

  lemma QuietTarget(m: Membership, point: Bytes)
    requires Quiet(m)
    ensures Best(m.shards, point, []) == Some(GetTarget(m, point)) && GetTarget(m, point) == ShardFor(m, point)
  {
    hide Best;
    BestWins(m.shards, point, []);
    assert m.shards[0] in m.shards;
  }

  lemma JoiningTarget(m: Membership, id: nat, point: Bytes)
    requires Joining(m, id)
    ensures Best(m.shards, point, []) == Some(ShardFor(m, point))
    ensures Best(m.shards, point, [id]) == Some(GetTarget(m, point))
    ensures ShardFor(m, point).id != id ==> GetTarget(m, point) == ShardFor(m, point)
  {
    hide Best;
    AnchoredOwner(m, point);
    BestWins(m.shards, point, []);
    BestWins(m.shards, point, [id]);
    assert m.joining + m.leaving == [id];
    var i :| 0 <= i < |m.shards| && Settled(m, m.shards[i].id);
    assert m.shards[i] in m.shards && m.shards[i].id !in [id];
    if ShardFor(m, point).id != id { SkipMore(m.shards, m.shards, point, [], [id]); }
  }

  lemma LeavingTarget(m: Membership, id: nat, point: Bytes)
    requires Leaving(m, id)
    ensures Best(m.shards, point, []) == Some(GetTarget(m, point))
    ensures Best(m.shards, point, [id]) == Some(ShardFor(m, point))
    ensures GetTarget(m, point).id != id ==> GetTarget(m, point) == ShardFor(m, point)
  {
    hide Best;
    AnchoredOwner(m, point);
    BestWins(m.shards, point, []);
    assert m.shards[0] in m.shards;
    if Best(m.shards, point, []).value.id != id { SkipMore(m.shards, m.shards, point, [], [id]); }
  }

  /** Starting a join leaves every get where it was. */
  lemma JoinKeepsTarget(m: Membership, s: Shard, point: Bytes)
    requires Quiet(m) && Joining(AddedJoining(m, s), s.id)
    ensures GetTarget(AddedJoining(m, s), point) == GetTarget(m, point)
  {
    hide Best, Well;
    var m' := AddedJoining(m, s);
    QuietTarget(m, point);
    JoiningTarget(m', s.id, point);
    OnlyNewcomerSkipped(m, s);
    OrderIrrelevant(m.shards, m'.shards, point, [], [s.id]);
  }

  lemma OnlyNewcomerSkipped(m: Membership, s: Shard)
    requires Well(m) && Well(AddedJoining(m, s))
    ensures DistinctIds(m.shards) && DistinctIds(m.shards + [s])
    ensures forall x :: x in m.shards <==> x in m.shards + [s] && x.id !in [s.id]
  {
    forall x | x in m.shards ensures x.id != s.id {
      var i :| 0 <= i < |m.shards| && m.shards[i] == x;
      assert (m.shards + [s])[i] == x && (m.shards + [s])[|m.shards|] == s;
    }
  }

  /** Aborting a join leaves every get where it was. */
  lemma AbortKeepsTarget(m: Membership, id: nat, point: Bytes)
    requires Joining(m, id) && Quiet(Removed(m, id))
    ensures GetTarget(Removed(m, id), point) == GetTarget(m, point)
  {
    hide Best;
    JoiningTarget(m, id, point);
    QuietTarget(Removed(m, id), point);
    OrderIrrelevant(m.shards, WithoutShard(m.shards, id), point, [id], []);
  }

  /** A promotion moves exactly the joining shard's slice, to it. */
  lemma PromoteMovesSlice(m: Membership, id: nat, point: Bytes)
    requires Joining(m, id) && Quiet(Promoted(m, id))
    ensures GetTarget(Promoted(m, id), point) == ShardFor(m, point)
    ensures ShardFor(m, point).id != id ==> GetTarget(Promoted(m, id), point) == GetTarget(m, point)
  {
    hide Best;
    JoiningTarget(m, id, point);
    QuietTarget(Promoted(m, id), point);
  }

  /** Starting a drain leaves every get where it was. */
  lemma DrainKeepsTarget(m: Membership, id: nat, point: Bytes)
    requires Quiet(m) && Leaving(MarkedLeaving(m, id), id)
    ensures GetTarget(MarkedLeaving(m, id), point) == GetTarget(m, point)
  {
    hide Best;
    QuietTarget(m, point);
    LeavingTarget(MarkedLeaving(m, id), id, point);
  }

  /** Cancelling a drain leaves every get where it was. */
  lemma CancelKeepsTarget(m: Membership, id: nat, point: Bytes)
    requires Leaving(m, id) && Quiet(LeaveCancelled(m, id))
    ensures GetTarget(LeaveCancelled(m, id), point) == GetTarget(m, point)
  {
    hide Best;
    LeavingTarget(m, id, point);
    QuietTarget(LeaveCancelled(m, id), point);
  }

  /** Completing a drain moves exactly the leaving shard's slice, to its new owners. */
  lemma DrainMovesSlice(m: Membership, id: nat, point: Bytes)
    requires Leaving(m, id) && Quiet(Removed(m, id))
    ensures GetTarget(Removed(m, id), point) == ShardFor(m, point)
    ensures GetTarget(m, point).id != id ==> GetTarget(Removed(m, id), point) == GetTarget(m, point)
  {
    hide Best;
    LeavingTarget(m, id, point);
    QuietTarget(Removed(m, id), point);
    OrderIrrelevant(m.shards, WithoutShard(m.shards, id), point, [id], []);
  }

  /** With two drains in flight, completing one moves a point of its slice to the owner
      that received the writes exactly when the next shard in rank is not leaving too. */
  lemma TwoDrains(m: Membership, a: nat, b: nat, point: Bytes)
    requires Well(m) && Anchored(m) && m.leaving == [a, b] && m.joining == []
    requires Best(m.shards, point, []).Some? && Best(m.shards, point, []).value.id == a
    requires Well(Removed(m, a))
    ensures DonorFor(m, point) == Best(m.shards, point, [])
    ensures GetTarget(Removed(m, a), point) == ShardFor(m, point) <==>
      (var next := Best(WithoutShard(m.shards, a), point, []); next.Some? && next.value.id != b)
  {
    hide Best;
    var m' := Removed(m, a);
    AnchoredOwner(m, point);
    StillLeaving(m, a, b);
    LeavingTarget(m', b, point);
    BestWins(m'.shards, point, [b]);
    OrderIrrelevant(m.shards, m'.shards, point, [a, b], [b]);
  }

  /** Three shards by rank for a point. */
  ghost predicate Ranked(low: Shard, mid: Shard, top: Shard, p: Bytes) {
    && low.id < WORD && mid.id < WORD && top.id < WORD
    && low.primaryUrl != "" && mid.primaryUrl != "" && top.primaryUrl != ""
    && HrwScore(low.id, p) < HrwScore(mid.id, p) < HrwScore(top.id, p)
  }

  /** Any three shards can be ranked: no two tie. */
  lemma RankThree(x: Shard, y: Shard, z: Shard, p: Bytes) returns (low: Shard, mid: Shard, top: Shard)
    requires x.id < WORD && y.id < WORD && z.id < WORD && x.id != y.id && y.id != z.id && x.id != z.id
    requires x.primaryUrl != "" && y.primaryUrl != "" && z.primaryUrl != ""
    ensures Ranked(low, mid, top, p) && multiset{low, mid, top} == multiset{x, y, z}
  {
    hide HrwScore;
    if HrwScore(x.id, p) == HrwScore(y.id, p) { ScoreInjective(x.id, y.id, p); }
    if HrwScore(y.id, p) == HrwScore(z.id, p) { ScoreInjective(y.id, z.id, p); }
    if HrwScore(x.id, p) == HrwScore(z.id, p) { ScoreInjective(x.id, z.id, p); }
    low, mid, top := x, y, z;
    if HrwScore(low.id, p) > HrwScore(mid.id, p) { low, mid := mid, low; }
    if HrwScore(mid.id, p) > HrwScore(top.id, p) { mid, top := top, mid; }
    if HrwScore(low.id, p) > HrwScore(mid.id, p) { low, mid := mid, low; }
  }

  /** The best two of three shards leave at once: the writes of a point went to the third,
      and completing the first drain sends its gets to the second. */
  lemma TwoDrainsMiss(low: Shard, mid: Shard, top: Shard, p: Bytes)
    requires Ranked(low, mid, top, p)
    ensures var m := Membership(2, [low, mid, top], [], [top.id, mid.id]);
      && Well(m) && Anchored(m) && Removed(m, top.id).shards != []
      && ShardFor(m, p) == low && GetTarget(Removed(m, top.id), p) == mid && low != mid
  {
    hide HrwScore, Best, ShardFor, GetTarget, Well, Anchored;
    TwoLeaving(low, mid, top, p);
    TopRemoved(low, mid, top);
    OneLeft(low, mid, top, p, 3);
  }

  lemma TwoLeaving(low: Shard, mid: Shard, top: Shard, p: Bytes)
    requires Ranked(low, mid, top, p)
    ensures var m := Membership(2, [low, mid, top], [], [top.id, mid.id]); Well(m) && Anchored(m) && ShardFor(m, p) == low
  {
    hide HrwScore, Best;
    var m := Membership(2, [low, mid, top], [], [top.id, mid.id]);
    assert HasId(m.shards, m.shards[0].id) && HasId(m.shards, m.shards[1].id) && HasId(m.shards, m.shards[2].id);
    assert Settled(m, m.shards[0].id);
    assert Wins(low, m.shards, p, m.leaving);
    WinnerIs(m.shards, p, m.leaving, low);
  }

  lemma OneLeft(low: Shard, mid: Shard, top: Shard, p: Bytes, version: nat)
    requires Ranked(low, mid, top, p)
    ensures GetTarget(Membership(version, [low, mid], [], [mid.id]), p) == mid
  {
    hide HrwScore, Best;
    var m := Membership(version, [low, mid], [], [mid.id]);
    assert Wins(mid, m.shards, p, []);
    WinnerIs(m.shards, p, [], mid);
  }

  lemma TopRemoved(low: Shard, mid: Shard, top: Shard)
    requires low.id != top.id && mid.id != top.id
    ensures WithoutShard([low, mid, top], top.id) == [low, mid]
    ensures Without([top.id, mid.id], top.id) == [mid.id]
  {
    var all, ids := [low, mid, top], [top.id, mid.id];
    assert all[..2] == [low, mid] && [low, mid][..1] == [low] && [low][..0] == [];
    assert WithoutShard([low], top.id) == [low];
    assert WithoutShard([low, mid], top.id) == [low, mid];
    assert ids[..1] == [top.id] && [top.id][..0] == [];
    assert Without([top.id], top.id) == [];
  }

  lemma StillLeaving(m: Membership, a: nat, b: nat)
    requires Well(m) && Anchored(m) && m.leaving == [a, b] && m.joining == [] && Well(Removed(m, a))
    ensures Leaving(Removed(m, a), b)
  {
    RemovalAnchored(m, a);
    assert m.leaving[0] == a && m.leaving[1] == b;
    assert m.leaving[..1] == [a] && m.leaving[..0] == [];
    assert Without([a], a) == [] by { assert [a][..0] == []; }
  }

  /** A settled shard remains after a removal exactly when there was another one. */
  lemma RemovalAnchoredIff(m: Membership, id: nat)
    ensures Anchored(Removed(m, id)) <==> HasDestination(m, id)
  {
    var m' := Removed(m, id);
    if Anchored(m') {
      var j :| 0 <= j < |m'.shards| && Settled(m', m'.shards[j].id);
      assert m'.shards[j] in m.shards;
      var i :| 0 <= i < |m.shards| && m.shards[i] == m'.shards[j];
      assert Settled(m, m.shards[i].id);
    }
    if i :| 0 <= i < |m.shards| && m.shards[i].id != id && Settled(m, m.shards[i].id) {
      assert m.shards[i] in m'.shards;
      var j :| 0 <= j < |m'.shards| && m'.shards[j] == m.shards[i];
      assert Settled(m', m'.shards[j].id);
    }
  }

  /** Removing a migrating shard leaves a settled one. */
  lemma RemovalAnchored(m: Membership, id: nat)
    requires Anchored(m) && (id in m.joining || id in m.leaving)
    ensures Anchored(Removed(m, id))
  {
    RemovalAnchoredIff(m, id);
    var i :| 0 <= i < |m.shards| && Settled(m, m.shards[i].id);
    assert m.shards[i].id != id;
  }

  /** Removing the last settled shard leaves only leaving ones. */
  lemma RemovalCanUnanchor(a: Shard, b: Shard)
    requires a.id == 0 && b.id == 1
    ensures var m := Membership(1, [a, b], [], [0]); Anchored(m) && !Anchored(Removed(m, 1))
  {
    var m := Membership(1, [a, b], [], [0]);
    assert Settled(m, m.shards[1].id);
    RemovalAnchoredIff(m, 1);
    assert forall i :: 0 <= i < 2 && m.shards[i].id != 1 ==> m.shards[i].id in m.leaving;
  }
}
