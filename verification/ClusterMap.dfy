/** The shard map as the coordinator and the router hold it
    (crates/quiver-cluster/src/lib.rs, `ShardMap`). URLs arrive trimmed. */
module ClusterMap {
  import opened ByteStrings
  import opened Rendezvous
  import opened ShardMaps

  class ShardMap {
    var version: nat
    var shards: seq<Shard>
    var joining: seq<nat>
    var leaving: seq<nat>

    function View(): Membership
      reads this
    {
      Membership(version, shards, joining, leaving)
    }

    constructor (shards: seq<Shard>)
      ensures View() == Membership(0, shards, [], [])
    {
      version, this.shards, joining, leaving := 0, shards, [], [];
    }

    /** Whether the map has a shard with this id. */
    method Contains(id: nat) returns (found: bool)
      ensures found <==> HasId(shards, id)
    {
      for i := 0 to |shards|
        invariant forall j :: 0 <= j < i ==> shards[j].id != id
      {
        if shards[i].id == id { return true; }
      }
      return false;
    }

    /** Add a shard under an unused id. */
    method AddShard(id: nat, url: string, replicas: seq<string>) returns (r: Result<(), ClusterError>)
      requires Well(View()) && id < WORD
      modifies this
      ensures Well(View()) && (old(Anchored(View())) ==> Anchored(View()))
      ensures r == if url == "" then Err(EmptyUrl(id)) else if old(HasId(shards, id)) then Err(DuplicateShardId(id)) else Ok(())
      ensures View() == if r.Ok? then Added(old(View()), Shard(id, url, replicas)) else old(View())
      ensures r.Ok? ==> version == old(version) + 1 && shards == old(shards) + [Shard(id, url, replicas)] && joining == old(joining) && leaving == old(leaving)
    {
      if url == "" { return Err(EmptyUrl(id)); }
      var found := Contains(id);
      if found { return Err(DuplicateShardId(id)); }
      AddKeeps(View(), Shard(id, url, replicas));
      shards := shards + [Shard(id, url, replicas)];
      version := version + 1;
      return Ok(());
    }

    /** Add a shard that does not serve its slice yet. */
    method AddJoiningShard(id: nat, url: string, replicas: seq<string>) returns (r: Result<(), ClusterError>)
      requires Well(View()) && id < WORD
      modifies this
      ensures Well(View()) && (old(Anchored(View())) ==> Anchored(View()))
      ensures r == if url == "" then Err(EmptyUrl(id)) else if old(HasId(shards, id)) then Err(DuplicateShardId(id)) else Ok(())
      ensures View() == if r.Ok? then AddedJoining(old(View()), Shard(id, url, replicas)) else old(View())
      ensures r.Ok? ==> version == old(version) + 1 && shards == old(shards) + [Shard(id, url, replicas)] && joining == old(joining) + [id] && leaving == old(leaving)
    {
      ghost var m := View();
      if url != "" && !HasId(shards, id) { AddJoiningKeeps(m, Shard(id, url, replicas)); }
      r := AddShard(id, url, replicas);
      if r.Ok? { joining := joining + [id]; }
    }

    /** The flip of a join: the shard now owns its slice. */
    method Promote(id: nat) returns (r: Result<(), ClusterError>)
      requires Well(View())
      modifies this
      ensures Well(View()) && (old(Anchored(View())) ==> Anchored(View()))
      ensures r == if id in old(joining) then Ok(()) else Err(UnknownShard(id))
      ensures View() == if r.Ok? then Promoted(old(View()), id) else old(View())
      ensures r.Ok? ==> version == old(version) + 1 && shards == old(shards) && leaving == old(leaving)
      ensures r.Ok? ==> forall x :: x in joining <==> x in old(joining) && x != id
    {
      if id !in joining { return Err(UnknownShard(id)); }
      PromoteKeeps(View(), id);
      joining := Without(joining, id);
      version := version + 1;
      return Ok(());
    }

    /** How many settled shards a drain of this one could go to. */
    method Destinations(id: nat) returns (n: nat)
      ensures n > 0 <==> HasDestination(View(), id)
    {
      n := 0;
      for i := 0 to |shards|
        invariant n > 0 <==> exists j :: 0 <= j < i && shards[j].id != id && Settled(View(), shards[j].id)
      {
        assert HasId(shards, shards[i].id);
        if shards[i].id != id && shards[i].id !in leaving && shards[i].id !in joining { n := n + 1; }
      }
    }

    /** Start a drain: the survivors own the slice at once. */
    method MarkLeaving(id: nat) returns (r: Result<(), ClusterError>)
      requires Well(View())
      modifies this
      ensures Well(View()) && (r.Ok? || old(Anchored(View())) ==> Anchored(View()))
      ensures r == if !old(HasId(shards, id)) then Err(UnknownShard(id))
                   else if id in old(leaving) || id in old(joining) then Err(NotDrainable(id))
                   else if old(HasDestination(View(), id)) then Ok(())
                   else Err(NoShards)
      ensures View() == if r.Ok? then MarkedLeaving(old(View()), id) else old(View())
      ensures r.Ok? ==> version == old(version) + 1 && shards == old(shards) && joining == old(joining) && leaving == old(leaving) + [id]
    {
      var found := Contains(id);
      if !found { return Err(UnknownShard(id)); }
      if id in leaving || id in joining { return Err(NotDrainable(id)); }
      var destinations := Destinations(id);
      if destinations == 0 { return Err(NoShards); }
      LeaveKeeps(View(), id);
      leaving := leaving + [id];
      version := version + 1;
      return Ok(());
    }

    /** Abort a drain. */
    method CancelLeave(id: nat) returns (r: Result<(), ClusterError>)
      requires Well(View())
      modifies this
      ensures Well(View()) && (old(Anchored(View())) ==> Anchored(View()))
      ensures r == if id in old(leaving) then Ok(()) else Err(UnknownShard(id))
      ensures View() == if r.Ok? then LeaveCancelled(old(View()), id) else old(View())
      ensures r.Ok? ==> version == old(version) + 1 && shards == old(shards) && joining == old(joining)
      ensures r.Ok? ==> forall x :: x in leaving <==> x in old(leaving) && x != id
    {
      if id !in leaving { return Err(UnknownShard(id)); }
      CancelKeeps(View(), id);
      leaving := Without(leaving, id);
      version := version + 1;
      return Ok(());
    }

    /** Remove a shard: an aborted join, a completed drain, or a settled shard. */
    method RemoveShard(id: nat) returns (r: Result<(), ClusterError>)
      requires Well(View())
      modifies this
      ensures Well(View())
      ensures r == if !old(HasId(shards, id)) then Err(UnknownShard(id)) else if |old(shards)| == 1 then Err(NoShards) else Ok(())
      ensures View() == if r.Ok? then Removed(old(View()), id) else old(View())
      ensures r.Ok? ==> version == old(version) + 1 && forall s :: s in shards <==> s in old(shards) && s.id != id
      ensures r.Ok? ==> forall x :: (x in joining <==> x in old(joining) && x != id) && (x in leaving <==> x in old(leaving) && x != id)
    {
      var found := Contains(id);
      if !found { return Err(UnknownShard(id)); }
      if |shards| == 1 { return Err(NoShards); }
      RemoveKeeps(View(), id);
      shards := WithoutShard(shards, id);
      joining := Without(joining, id);
      leaving := Without(leaving, id);
      version := version + 1;
      return Ok(());
    }
  }

  predicate FirstBlank(shards: seq<Shard>, i: nat) {
    i < |shards| && shards[i].primaryUrl == "" && forall j :: 0 <= j < i ==> shards[j].primaryUrl != ""
  }

  predicate FirstRepeat(shards: seq<Shard>, i: nat) {
    i < |shards| && HasId(shards[..i], shards[i].id) && forall a, b :: 0 <= a < b < i ==> shards[a].id != shards[b].id
  }

  /** The fault of a list of shards: none at all, else the first blank address, else the first
      repeated id. */
  ghost predicate FirstFault(shards: seq<Shard>, e: ClusterError) {
    match e
    case NoShards => shards == []
    case EmptyUrl(id) => exists i: nat :: FirstBlank(shards, i) && shards[i].id == id
    case DuplicateShardId(id) =>
      (forall j :: 0 <= j < |shards| ==> shards[j].primaryUrl != "") && exists i: nat :: FirstRepeat(shards, i) && shards[i].id == id
    case _ => false
  }

  /** Build a map from explicit shards: the first fault is reported. */
  method FromShards(shards: seq<Shard>) returns (r: Result<ShardMap, ClusterError>)
    requires forall i :: 0 <= i < |shards| ==> shards[i].id < WORD
    ensures r.Ok? ==> r.value.View() == Membership(0, shards, [], []) && Quiet(r.value.View()) && Anchored(r.value.View())
    ensures r.Err? ==> FirstFault(shards, r.error)
  {
    if shards == [] { return Err(NoShards); }
    for i := 0 to |shards|
      invariant forall j :: 0 <= j < i ==> shards[j].primaryUrl != ""
    {
      if shards[i].primaryUrl == "" {
        assert FirstBlank(shards, i);
        return Err(EmptyUrl(shards[i].id));
      }
    }
    var seen: set<nat> := {};
    for i := 0 to |shards|
      invariant forall id :: id in seen <==> HasId(shards[..i], id)
      invariant forall a, b :: 0 <= a < b < i ==> shards[a].id != shards[b].id
    {
      if shards[i].id in seen {
        assert FirstRepeat(shards, i);
        return Err(DuplicateShardId(shards[i].id));
      }
      forall a | 0 <= a < i ensures shards[a].id != shards[i].id { assert shards[..i][a] == shards[a]; }
      forall id: nat ensures HasId(shards[..i + 1], id) <==> HasId(shards[..i], id) || shards[i].id == id { PrefixHas(shards, i + 1, id); }
      seen := seen + {shards[i].id};
    }
    var map0 := new ShardMap(shards);
    assert Settled(map0.View(), shards[0].id);
    return Ok(map0);
  }

  // ---- every operation keeps the map well-formed ---------------------------

  lemma AddKeeps(m: Membership, s: Shard)
    requires Well(m) && s.id < WORD && s.primaryUrl != "" && !HasId(m.shards, s.id)
    ensures Well(Added(m, s)) && (Anchored(m) ==> Anchored(Added(m, s)))
  {
    var m' := Added(m, s);
    forall id | HasId(m.shards, id) ensures HasId(m'.shards, id) {
      var i :| 0 <= i < |m.shards| && m.shards[i].id == id;
      assert m'.shards[i].id == id;
    }
    if i :| 0 <= i < |m.shards| && Settled(m, m.shards[i].id) {
      assert m'.shards[i] == m.shards[i] && Settled(m', m'.shards[i].id);
    }
  }

  lemma AddJoiningKeeps(m: Membership, s: Shard)
    requires Well(m) && s.id < WORD && s.primaryUrl != "" && !HasId(m.shards, s.id)
    ensures Well(AddedJoining(m, s)) && (Anchored(m) ==> Anchored(AddedJoining(m, s)))
  {
    AddKeeps(m, s);
    var m', a := AddedJoining(m, s), Added(m, s);
    assert a.shards[|m.shards|].id == s.id;
    if i :| 0 <= i < |m.shards| && Settled(m, m.shards[i].id) {
      assert m'.shards[i] == m.shards[i] && HasId(m'.shards, m'.shards[i].id) && Settled(m', m'.shards[i].id);
    }
  }

  lemma PromoteKeeps(m: Membership, id: nat)
    requires Well(m) && id in m.joining
    ensures Well(Promoted(m, id)) && (Anchored(m) ==> Anchored(Promoted(m, id)))
  {
    WithoutKeeps(m.joining, id);
    if i :| 0 <= i < |m.shards| && Settled(m, m.shards[i].id) {
      assert Settled(Promoted(m, id), Promoted(m, id).shards[i].id);
    }
  }

  lemma LeaveKeeps(m: Membership, id: nat)
    requires Well(m) && HasId(m.shards, id) && id !in m.leaving && id !in m.joining
    requires HasDestination(m, id)
    ensures Well(MarkedLeaving(m, id)) && Anchored(MarkedLeaving(m, id))
  {
    var i :| 0 <= i < |m.shards| && m.shards[i].id != id && Settled(m, m.shards[i].id);
    assert Settled(MarkedLeaving(m, id), MarkedLeaving(m, id).shards[i].id);
  }

  lemma CancelKeeps(m: Membership, id: nat)
    requires Well(m) && id in m.leaving
    ensures Well(LeaveCancelled(m, id)) && (Anchored(m) ==> Anchored(LeaveCancelled(m, id)))
  {
    WithoutKeeps(m.leaving, id);
    if i :| 0 <= i < |m.shards| && Settled(m, m.shards[i].id) {
      assert Settled(LeaveCancelled(m, id), LeaveCancelled(m, id).shards[i].id);
    }
  }

  lemma RemoveKeeps(m: Membership, id: nat)
    requires Well(m) && |m.shards| > 1
    ensures Well(Removed(m, id))
  {
    WithoutKeeps(m.joining, id);
    WithoutKeeps(m.leaving, id);
    WithoutShardKeeps(m.shards, id);
    var m' := Removed(m, id);
    forall x | HasId(m.shards, x) && x != id ensures HasId(m'.shards, x) {
      var i :| 0 <= i < |m.shards| && m.shards[i].id == x;
      assert m.shards[i] in m'.shards;
    }
    assert m.shards[0] in m.shards && m.shards[1] in m.shards;
    forall i | 0 <= i < |m'.shards| ensures m'.shards[i].primaryUrl != "" { assert m'.shards[i] in m.shards; }
  }

  // ---- fan-out -------------------------------------------------------------

  /** Points go to their owner; a migrating one also to its donor. */
  datatype Routing = ToOwner | ToDonor

  function Target(m: Membership, routing: Routing, point: Bytes): Option<nat> {
    if m.shards == [] then None
    else match routing
      case ToOwner => Some(ShardFor(m, point).id)
      case ToDonor => match DonorFor(m, point) case Some(s) => Some(s.id) case None => None
  }

  /** The items routed to a shard, in input order. */
  function Routed<T>(m: Membership, routing: Routing, items: seq<T>, idOf: T -> Bytes, id: nat): seq<T> {
    if items == [] then []
    else
      var rest, last := Routed(m, routing, items[..|items| - 1], idOf, id), items[|items| - 1];
      if Target(m, routing, idOf(last)) == Some(id) then rest + [last] else rest
  }

  /** The non-empty groups of the first shards, in shard order. */
  function Groups<T>(m: Membership, routing: Routing, items: seq<T>, idOf: T -> Bytes, n: nat): seq<(Shard, seq<T>)>
    requires n <= |m.shards|
  {
    if n == 0 then []
    else
      var rest, last := Groups(m, routing, items, idOf, n - 1), m.shards[n - 1];
      var group := Routed(m, routing, items, idOf, last.id);
      if group == [] then rest else rest + [(last, group)]
  }

  function Lookup<T>(groups: map<nat, seq<T>>, id: nat): seq<T> { if id in groups then groups[id] else [] }

  /** `partition` and `partition_to_donors`: one pass over the items collects the
      groups, one over the shards emits them. */
  method Partition<T>(m: Membership, routing: Routing, items: seq<T>, idOf: T -> Bytes) returns (out: seq<(Shard, seq<T>)>)
    ensures out == Groups(m, routing, items, idOf, |m.shards|)
  {
    hide Target;
    var byId: map<nat, seq<T>> := map[];
    for i := 0 to |items|
      invariant forall id :: Lookup(byId, id) == Routed(m, routing, items[..i], idOf, id)
      invariant forall id :: id in byId ==> byId[id] != []
    {
      assert items[..i + 1][..i] == items[..i];
      var t := Target(m, routing, idOf(items[i]));
      if t.Some? {
        byId := byId[t.value := (if t.value in byId then byId[t.value] else []) + [items[i]]];
      }
    }
    assert items[..|items|] == items;
    out := [];
    for n := 0 to |m.shards|
      invariant out == Groups(m, routing, items, idOf, n)
    {
      var s := m.shards[n];
      assert Lookup(byId, s.id) == Routed(m, routing, items, idOf, s.id);
      if s.id in byId { out := out + [(s, byId[s.id])]; }
    }
  }

  function AllItems<T>(groups: seq<(Shard, seq<T>)>): seq<T> {
    if groups == [] then [] else AllItems(groups[..|groups| - 1]) + groups[|groups| - 1].1
  }

  lemma {:induction false} RoutedCount<T>(m: Membership, routing: Routing, items: seq<T>, idOf: T -> Bytes, id: nat, x: T)
    ensures multiset(Routed(m, routing, items, idOf, id))[x] ==
      if Target(m, routing, idOf(x)) == Some(id) then multiset(items)[x] else 0
  {
    hide Target;
    if items != [] {
      var n := |items| - 1;
      RoutedCount(m, routing, items[..n], idOf, id, x);
      assert items == items[..n] + [items[n]];
    }
  }

  /** Each item lands once in the group of its target, if the target is among them. */
  lemma {:induction false} GroupsCount<T>(m: Membership, routing: Routing, items: seq<T>, idOf: T -> Bytes, n: nat, x: T)
    requires n <= |m.shards| && DistinctIds(m.shards)
    ensures multiset(AllItems(Groups(m, routing, items, idOf, n)))[x] ==
      (var t := Target(m, routing, idOf(x)); if t.Some? && HasId(m.shards[..n], t.value) then multiset(items)[x] else 0)
  {
    hide Target, Routed, HasId;
    if n == 0 {
      NothingHas(m.shards, Target(m, routing, idOf(x)));
    } else {
      GroupsCount(m, routing, items, idOf, n - 1, x);
      var s := m.shards[n - 1];
      RoutedCount(m, routing, items, idOf, s.id, x);
      AllItemsCount(Groups(m, routing, items, idOf, n - 1), s, Routed(m, routing, items, idOf, s.id), x);
      TargetSplits(m, n, Target(m, routing, idOf(x)));
    }
  }

  lemma NothingHas(shards: seq<Shard>, t: Option<nat>)
    ensures t.Some? ==> !HasId(shards[..0], t.value)
  {}

  lemma AllItemsCount<T>(rest: seq<(Shard, seq<T>)>, s: Shard, group: seq<T>, x: T)
    ensures multiset(AllItems(rest + [(s, group)]))[x] == multiset(AllItems(rest))[x] + multiset(group)[x]
  {
    assert (rest + [(s, group)])[..|rest|] == rest;
    assert multiset(AllItems(rest) + group) == multiset(AllItems(rest)) + multiset(group);
  }

  /** A target among the first `n` shards is among the earlier ones or the last, not both. */
  lemma TargetSplits(m: Membership, n: nat, t: Option<nat>)
    requires 0 < n <= |m.shards| && DistinctIds(m.shards)
    ensures t.Some? ==> (HasId(m.shards[..n], t.value) <==> HasId(m.shards[..n - 1], t.value) || m.shards[n - 1].id == t.value)
    ensures t.Some? ==> !(HasId(m.shards[..n - 1], t.value) && m.shards[n - 1].id == t.value)
  {
    if t.Some? { PrefixHas(m.shards, n, t.value); }
  }

  lemma PrefixHas(shards: seq<Shard>, n: nat, id: nat)
    requires 0 < n <= |shards|
    ensures HasId(shards[..n], id) <==> HasId(shards[..n - 1], id) || shards[n - 1].id == id
  {
    var a, b := shards[..n - 1], shards[..n];
    assert b == a + [shards[n - 1]];
    if HasId(a, id) {
      var i :| 0 <= i < |a| && a[i].id == id;
      assert b[i].id == id;
    }
    assert b[n - 1] == shards[n - 1];
  }

  /** A batch is split without loss or duplication: each item is sent as often as given. */
  lemma PartitionConserves<T>(m: Membership, items: seq<T>, idOf: T -> Bytes, x: T)
    requires Well(m)
    ensures multiset(AllItems(Groups(m, ToOwner, items, idOf, |m.shards|)))[x] == multiset(items)[x]
  {
    hide ShardFor, Best, Groups, AllItems;
    GroupsCount(m, ToOwner, items, idOf, |m.shards|, x);
    OwnerInMap(m, idOf(x));
    assert m.shards[..|m.shards|] == m.shards;
  }

  /** The dual writes are exactly the migrating items. */
  lemma DonorsConserve<T>(m: Membership, items: seq<T>, idOf: T -> Bytes, x: T)
    requires Well(m)
    ensures multiset(AllItems(Groups(m, ToDonor, items, idOf, |m.shards|)))[x] ==
      if DonorFor(m, idOf(x)).Some? then multiset(items)[x] else 0
  {
    hide DonorFor, Best, Groups, AllItems;
    GroupsCount(m, ToDonor, items, idOf, |m.shards|, x);
    DonorInMap(m, idOf(x));
    assert m.shards[..|m.shards|] == m.shards;
  }

  lemma DonorInMap(m: Membership, point: Bytes)
    requires Well(m)
    ensures var d := DonorFor(m, point); d.Some? ==> d.value in m.shards && HasId(m.shards, d.value.id)
  {
    hide Best;
    BestWins(m.shards, point, []);
    BestWins(m.shards, point, m.joining + m.leaving);
    var d := DonorFor(m, point);
    if d.Some? {
      var i :| 0 <= i < |m.shards| && m.shards[i] == d.value;
      assert m.shards[i].id == d.value.id;
    }
  }

  lemma OwnerInMap(m: Membership, point: Bytes)
    requires Well(m)
    ensures HasId(m.shards, ShardFor(m, point).id)
  {
    hide Best;
    BestWins(m.shards, point, m.leaving);
    BestWins(m.shards, point, []);
    var s := ShardFor(m, point);
    assert s in m.shards;
    var i :| 0 <= i < |m.shards| && m.shards[i] == s;
    assert m.shards[i].id == s.id;
  }
}
