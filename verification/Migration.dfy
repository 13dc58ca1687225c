/** Shard migration: writes go to the owner and the donor, gets to the donor if there
    is one, a background pass copies from every source shard what the destination lacks,
    and the flip follows the pass (crates/quiver-cluster/src/lib.rs, `donor_for`; routing
    as in crates/quiver-server/src/cluster.rs, the pass as in
    crates/quiver-server/src/coordinator.rs). */
module Migration {
  import opened ByteStrings
  import opened Rendezvous
  import opened ShardMaps
  import opened ClusterMap

  /** The map, every shard's own points, and the copies the running pass still owes. */
  datatype Cluster<V> = Cluster(members: Membership, copies: map<nat, map<Bytes, V>>, todo: set<(nat, Bytes)>)

  datatype Action<V> =
    | Write(point: Bytes, value: Option<V>)   // a deletion writes None
    | Copy(source: nat, point: Bytes)         // one point of the pass
    | Drop(shard: nat, point: Bytes)          // after the flip
    | StartJoin(newcomer: Shard)
    | AbortJoin(id: nat)
    | Promote(id: nat)
    | StartDrain(id: nat)
    | CancelDrain(id: nat)
    | FinishDrain(id: nat)

  function Held<V>(copies: map<nat, map<Bytes, V>>, id: nat, point: Bytes): Option<V> {
    if id in copies && point in copies[id] then Some(copies[id][point]) else None
  }

  function Put<V>(copies: map<nat, map<Bytes, V>>, id: nat, point: Bytes, value: Option<V>): (r: map<nat, map<Bytes, V>>)
    ensures forall i, p :: Held(r, i, p) == if i == id && p == point then value else Held(copies, i, p)
  {
    var held := if id in copies then copies[id] else map[];
    copies[id := if value.Some? then held[point := value.value] else held - {point}]
  }

  /** A write reaches the owner and, during a migration, the donor. */
  function Written<V>(c: Cluster<V>, point: Bytes, value: Option<V>): Cluster<V>
    requires c.members.shards != []
  {
    var copies := Put(c.copies, ShardFor(c.members, point).id, point, value);
    match DonorFor(c.members, point)
    case None => c.(copies := copies)
    case Some(d) => c.(copies := Put(copies, d.id, point, value))
  }

  /** What a get returns. */
  function Get<V>(c: Cluster<V>, point: Bytes): Option<V>
    requires c.members.shards != []
  {
    Held(c.copies, GetTarget(c.members, point).id, point)
  }

  /** Owner and get target hold the same value of a point. */
  ghost predicate Synced<V>(c: Cluster<V>, p: Bytes)
    requires c.members.shards != []
  {
    Held(c.copies, ShardFor(c.members, p).id, p) == Get(c, p)
  }

  ghost predicate Agree<V>(c: Cluster<V>) { c.members.shards != [] && forall p :: Synced(c, p) }

  predicate Migrating(m: Membership) { m.joining != [] || m.leaving != [] }

  /** The shards a pass copies from: the one that leaves, or every one not joining. */
  predicate IsSource(m: Membership, id: nat) {
    if m.leaving != [] then id in m.leaving else HasId(m.shards, id) && id !in m.joining
  }

  /** Where a pass sends a point: a drain sends all it finds to their owners, a join only
      the newcomer's slice. */
  function Destination(m: Membership, point: Bytes): Option<nat>
    requires m.shards != []
  {
    var owner := ShardFor(m, point).id;
    if m.leaving != [] || owner in m.joining then Some(owner) else None
  }

  /** Everything the sources hold, as a starting pass will find it. */
  function PassOver<V>(m: Membership, copies: map<nat, map<Bytes, V>>): set<(nat, Bytes)> {
    set s, p | s in copies && IsSource(m, s) && p in copies[s] :: (s, p)
  }

  /** Copy a point from one source if the destination does not hold it. */
  function Copied<V>(c: Cluster<V>, source: nat, point: Bytes): Cluster<V>
    requires c.members.shards != []
  {
    var rest := c.(todo := c.todo - {(source, point)});
    match Destination(c.members, point)
    case None => rest
    case Some(d) =>
      if Held(c.copies, d, point).Some? || Held(c.copies, source, point).None? then rest
      else rest.(copies := Put(c.copies, d, point, Held(c.copies, source, point)))
  }

  /** Delete a copy once its owner holds the point. */
  function Dropped<V>(c: Cluster<V>, shard: nat, point: Bytes): Cluster<V>
    requires c.members.shards != []
  {
    if Held(c.copies, ShardFor(c.members, point).id, point).None? then c
    else c.(copies := Put(c.copies, shard, point, None))
  }

  function Started<V>(c: Cluster<V>, m: Membership): Cluster<V> { Cluster(m, c.copies, PassOver(m, c.copies)) }

  function Ended<V>(c: Cluster<V>, m: Membership): Cluster<V> { Cluster(m, c.copies, {}) }

  function Step<V>(c: Cluster<V>, a: Action<V>): Cluster<V>
    requires c.members.shards != []
  {
    match a
    case Write(point, value) => Written(c, point, value)
    case Copy(source, point) => Copied(c, source, point)
    case Drop(shard, point) => Dropped(c, shard, point)
    case StartJoin(s) => Started(c, AddedJoining(c.members, s))
    case AbortJoin(id) => Ended(c, Removed(c.members, id))
    case Promote(id) => Ended(c, Promoted(c.members, id))
    case StartDrain(id) => Started(c, MarkedLeaving(c.members, id))
    case CancelDrain(id) => Ended(c, LeaveCancelled(c.members, id))
    case FinishDrain(id) => Ended(c, Removed(c.members, id))
  }

  /** At most one shard is migrating. */
  ghost predicate Sequential(m: Membership) {
    || (Quiet(m) && Anchored(m))
    || (exists id: nat :: Joining(m, id))
    || (exists id: nat :: Leaving(m, id))
  }

  /** No copy of the point lies where a pass would pick up something stale: not on a source
      gets do not read, and not on the destination unless it is what gets return. */
  ghost predicate CleanAt<V>(c: Cluster<V>, p: Bytes)
    requires c.members.shards != []
  {
    var d := Destination(c.members, p);
    d.Some? ==>
      && (forall s: nat :: IsSource(c.members, s) && s != GetTarget(c.members, p).id && s != d.value ==> Held(c.copies, s, p).None?)
      && (Held(c.copies, d.value, p).None? || Held(c.copies, d.value, p) == Get(c, p))
  }

  ghost predicate Clean<V>(c: Cluster<V>) { c.members.shards != [] && forall p :: CleanAt(c, p) }

  /** One migration at a time, started on a clean slice; removals only of the migrating
      shard; a flip when the pass has visited everything. */
  ghost predicate Allowed<V>(c: Cluster<V>, a: Action<V>) {
    && c.members.shards != []
    && match a
       case Write(_, _) => true
       case Copy(source, point) => Migrating(c.members) && IsSource(c.members, source)
       case Drop(shard, point) => Quiet(c.members) && ShardFor(c.members, point).id != shard
       case StartJoin(s) =>
         && Quiet(c.members) && s.id < WORD && s.primaryUrl != "" && !HasId(c.members.shards, s.id)
         && Clean(Step(c, a))
       case AbortJoin(id) => Joining(c.members, id)
       case Promote(id) => Joining(c.members, id) && c.todo == {}
       case StartDrain(id) =>
         && Quiet(c.members) && HasId(c.members.shards, id) && HasDestination(c.members, id)
         && Clean(Step(c, a))
       case CancelDrain(id) => Leaving(c.members, id)
       case FinishDrain(id) => Leaving(c.members, id) && c.todo == {}
  }

  // ---- one migration at a time ---------------------------------------------

  lemma SettledIsMany(m: Membership, id: nat)
    requires Well(m) && Anchored(m) && HasId(m.shards, id) && (id in m.joining || id in m.leaving)
    ensures |m.shards| > 1
  {
    var i :| 0 <= i < |m.shards| && Settled(m, m.shards[i].id);
    var j :| 0 <= j < |m.shards| && m.shards[j].id == id;
    assert i != j;
  }

  lemma SequentialStep<V>(c: Cluster<V>, a: Action<V>)
    requires Sequential(c.members) && Allowed(c, a)
    ensures Sequential(Step(c, a).members)
  {
    hide Clean, GetTarget, Well, Anchored, HasDestination, Written, Copied, Dropped, PassOver, IsSource;
    match a {
      case Write(p, v) => MembersKept(c, p, v, 0);
      case Copy(s, p) => MembersKept(c, p, None, s);
      case Drop(s, p) => MembersKept(c, p, None, s);
      case StartJoin(s) =>
        QuietAnchored(c.members);
        AddJoiningKeeps(c.members, s);
        assert Joining(Step(c, a).members, s.id);
      case AbortJoin(id) => Unjoined(c.members, id);
      case Promote(id) => Unjoined(c.members, id);
      case StartDrain(id) =>
        LeaveKeeps(c.members, id);
        assert Leaving(Step(c, a).members, id);
      case CancelDrain(id) => Unleft(c.members, id);
      case FinishDrain(id) => Unleft(c.members, id);
    }
  }

  lemma MembersKept<V>(c: Cluster<V>, p: Bytes, v: Option<V>, s: nat)
    requires c.members.shards != []
    ensures Written(c, p, v).members == Copied(c, s, p).members == Dropped(c, s, p).members == c.members
  {
    hide ShardFor, DonorFor;
  }

  lemma QuietAnchored(m: Membership)
    requires Quiet(m)
    ensures Anchored(m)
  {
    assert HasId(m.shards, m.shards[0].id) && Settled(m, m.shards[0].id);
  }

  lemma OnlyOne(ids: seq<nat>, id: nat)
    requires ids == [id]
    ensures Without(ids, id) == [] && Without([], id) == []
  {
    assert ids[..0] == [];
  }

  lemma Unjoined(m: Membership, id: nat)
    requires Joining(m, id)
    ensures Quiet(Removed(m, id)) && Anchored(Removed(m, id)) && Quiet(Promoted(m, id)) && Anchored(Promoted(m, id))
  {
    assert id in m.joining;
    OnlyOne(m.joining, id);
    SettledIsMany(m, id);
    RemoveKeeps(m, id);
    RemovalAnchored(m, id);
    PromoteKeeps(m, id);
  }

  lemma Unleft(m: Membership, id: nat)
    requires Leaving(m, id)
    ensures Quiet(Removed(m, id)) && Anchored(Removed(m, id)) && Quiet(LeaveCancelled(m, id)) && Anchored(LeaveCancelled(m, id))
  {
    assert id in m.leaving;
    OnlyOne(m.leaving, id);
    SettledIsMany(m, id);
    RemoveKeeps(m, id);
    RemovalAnchored(m, id);
    CancelKeeps(m, id);
  }

  // ---- one step ------------------------------------------------------------

  /** The point agrees, or its copy from the get target is still owed. */
  ghost predicate Owed<V>(c: Cluster<V>, p: Bytes)
    requires c.members.shards != []
  {
    Synced(c, p) || (GetTarget(c.members, p).id, p) in c.todo
  }

  /** What holds between any two steps. */
  ghost predicate Fine<V>(c: Cluster<V>) {
    && c.members.shards != [] && Sequential(c.members)
    && (Migrating(c.members) ==> forall p :: CleanAt(c, p) && Owed(c, p))
  }

  /** A point that is sent nowhere is served by its owner; one that is sent is served by
      its owner or by a source. */
  lemma Routes(m: Membership, p: Bytes)
    requires m.shards != [] && Sequential(m)
    ensures Destination(m, p).None? ==> GetTarget(m, p) == ShardFor(m, p)
    ensures Migrating(m) && GetTarget(m, p) != ShardFor(m, p) ==> IsSource(m, GetTarget(m, p).id)
    ensures GetTarget(m, p) != ShardFor(m, p) ==> GetTarget(m, p).id != ShardFor(m, p).id
  {
    hide Best, HrwScore;
    if Quiet(m) {
      QuietTarget(m, p);
    } else if id: nat :| Joining(m, id) {
      JoiningTarget(m, id, p);
      BestWins(m.shards, p, [id]);
      BestWins(m.shards, p, []);
      TargetIsShard(m, p, [id]);
      if GetTarget(m, p).id == ShardFor(m, p).id { SameId(m.shards, GetTarget(m, p), ShardFor(m, p)); }
    } else {
      var id: nat :| Leaving(m, id);
      LeavingTarget(m, id, p);
      BestWins(m.shards, p, [id]);
      BestWins(m.shards, p, []);
      if GetTarget(m, p).id == ShardFor(m, p).id { SameId(m.shards, GetTarget(m, p), ShardFor(m, p)); }
    }
  }

  lemma TargetIsShard(m: Membership, p: Bytes, skip: seq<nat>)
    requires m.shards != [] && DistinctIds(m.shards) && Best(m.shards, p, skip) == Some(GetTarget(m, p))
    ensures HasId(m.shards, GetTarget(m, p).id) && GetTarget(m, p).id !in skip
  {
    hide Best, GetTarget;
    BestWins(m.shards, p, skip);
  }

  /** A write brings the point's two copies together and touches no other. */
  lemma WriteKeeps<V>(c: Cluster<V>, q: Bytes, v: Option<V>, p: Bytes)
    requires c.members.shards != []
    ensures var e := Written(c, q, v);
      && e.members == c.members && e.todo == c.todo
      && (p == q ==> Synced(e, p) && Get(e, p) == v)
      && (p != q ==> forall s :: Held(e.copies, s, p) == Held(c.copies, s, p))
      && (forall s :: s != ShardFor(c.members, p).id && s != GetTarget(c.members, p).id ==> Held(e.copies, s, p) == Held(c.copies, s, p))
  {
    hide ShardFor, DonorFor;
  }

  lemma WriteFine<V>(c: Cluster<V>, q: Bytes, v: Option<V>, p: Bytes)
    requires c.members.shards != [] && CleanAt(c, p) && Owed(c, p)
    ensures Written(c, q, v).members.shards != [] && CleanAt(Written(c, q, v), p) && Owed(Written(c, q, v), p)
  {
    hide ShardFor, DonorFor, GetTarget, Written, Put;
    WriteKeeps(c, q, v, p);
  }

  /** A copied point changes at its destination only, and only if it was absent there. */
  lemma CopyKeeps<V>(c: Cluster<V>, s: nat, q: Bytes, p: Bytes)
    requires c.members.shards != []
    ensures var e := Copied(c, s, q);
      && e.members == c.members && e.todo == c.todo - {(s, q)}
      && (forall x: nat :: (p != q || Destination(c.members, p) != Some(x)) ==> Held(e.copies, x, p) == Held(c.copies, x, p))
      && (p == q && Destination(c.members, p).Some? ==>
            var d := Destination(c.members, p).value;
            Held(e.copies, d, p) == if Held(c.copies, d, p).Some? then Held(c.copies, d, p) else Held(c.copies, s, p))
  {
    hide ShardFor;
  }

  lemma CopyFine<V>(c: Cluster<V>, s: nat, q: Bytes, p: Bytes)
    requires Fine(c) && Migrating(c.members) && IsSource(c.members, s)
    ensures var e := Copied(c, s, q);
      e.members == c.members && CleanAt(e, p) && Owed(e, p) && Get(e, p) == Get(c, p)
  {
    hide ShardFor, DonorFor, GetTarget, Copied, IsSource, Sequential, Migrating;
    CopyKeeps(c, s, q, p);
    Routes(c.members, p);
    assert CleanAt(c, p) && Owed(c, p);
  }

  lemma StartOwes<V>(c: Cluster<V>, m: Membership, p: Bytes)
    requires m.shards != [] && Sequential(m) && Migrating(m) && CleanAt(Started(c, m), p)
    ensures Owed(Started(c, m), p)
  {
    hide ShardFor, DonorFor, GetTarget, Sequential, Migrating, IsSource;
    Routes(m, p);
  }

  lemma FineStep<V>(c: Cluster<V>, a: Action<V>)
    requires Fine(c) && Allowed(c, a)
    ensures Fine(Step(c, a))
  {
    hide ShardFor, DonorFor, GetTarget, Sequential, Written, Copied, Dropped, PassOver, CleanAt, Owed, Quiet, Joining, Leaving, IsSource,
      HasDestination;
    SequentialStep(c, a);
    var e := Step(c, a);
    match a {
      case Write(q, v) =>
        MembersKept(c, q, v, 0);
        forall p | Migrating(e.members) ensures CleanAt(e, p) && Owed(e, p) { WriteFine(c, q, v, p); }
      case Copy(s, q) =>
        MembersKept(c, q, None, s);
        forall p ensures CleanAt(e, p) && Owed(e, p) { CopyFine(c, s, q, p); }
      case Drop(s, q) =>
        MembersKept(c, q, None, s);
        NotMigrating(c.members);
      case StartJoin(_) => forall p ensures Owed(e, p) { StartMigrates(c, a); StartOwes(c, e.members, p); }
      case StartDrain(_) => forall p ensures Owed(e, p) { StartMigrates(c, a); StartOwes(c, e.members, p); }
      case AbortJoin(id) => EndQuiet(c.members, id);
      case Promote(id) => EndQuiet(c.members, id);
      case CancelDrain(id) => EndQuiet(c.members, id);
      case FinishDrain(id) => EndQuiet(c.members, id);
    }
  }

  lemma NotMigrating(m: Membership)
    requires Quiet(m)
    ensures !Migrating(m) && m.shards != []
  {}

  lemma StartMigrates<V>(c: Cluster<V>, a: Action<V>)
    requires Allowed(c, a) && (a.StartJoin? || a.StartDrain?)
    ensures Migrating(Step(c, a).members) && Step(c, a).members.shards != [] && forall p :: CleanAt(Step(c, a), p)
    ensures Step(c, a) == Started(c, Step(c, a).members)
  {
    hide CleanAt, Quiet, HasDestination;
  }

  lemma EndQuiet(m: Membership, id: nat)
    ensures Joining(m, id) ==> !Migrating(Removed(m, id)) && Removed(m, id).shards != []
    ensures Joining(m, id) ==> !Migrating(Promoted(m, id)) && Promoted(m, id).shards != []
    ensures Leaving(m, id) ==> !Migrating(Removed(m, id)) && Removed(m, id).shards != []
    ensures Leaving(m, id) ==> !Migrating(LeaveCancelled(m, id)) && LeaveCancelled(m, id).shards != []
  {
    hide Well, Anchored;
    if Joining(m, id) { Unjoined(m, id); QuietHasShards(Removed(m, id)); QuietHasShards(Promoted(m, id)); }
    if Leaving(m, id) { Unleft(m, id); QuietHasShards(Removed(m, id)); QuietHasShards(LeaveCancelled(m, id)); }
  }

  lemma QuietHasShards(m: Membership)
    requires Quiet(m)
    ensures m.shards != []
  {}

  // ---- every get returns the last write ------------------------------------

  /** Nothing is owed: both copies of every point agree, so the flip may go ahead. */
  lemma PassDone<V>(c: Cluster<V>)
    requires Fine(c) && Migrating(c.members) && c.todo == {}
    ensures Agree(c)
  {
    hide Synced, Sequential, CleanAt;
    forall p ensures Synced(c, p) { assert Owed(c, p); }
  }

  /** A step changes what a get returns only by writing that point. */
  lemma StepServes<V>(c: Cluster<V>, a: Action<V>, p: Bytes)
    requires Fine(c) && Allowed(c, a)
    ensures Step(c, a).members.shards != []
    ensures Get(Step(c, a), p) == if a.Write? && a.point == p then a.value else Get(c, p)
  {
    hide Best, Well, Anchored, HasDestination, Clean, CleanAt, Owed, PassOver, Copied, Written, Dropped, IsSource, Destination, ShardFor,
      DonorFor, Sequential, GetTarget;
    FineStep(c, a);
    match a {
      case Write(q, v) => WriteKeeps(c, q, v, p);
      case Copy(s, q) => CopyFine(c, s, q, p);
      case Drop(s, q) => DropServes(c, s, q, p);
      case StartJoin(s) =>
        QuietAnchored(c.members);
        AddJoiningKeeps(c.members, s);
        JoinKeepsTarget(c.members, s, p);
      case AbortJoin(id) =>
        Unjoined(c.members, id);
        AbortKeepsTarget(c.members, id, p);
      case Promote(id) =>
        PassDone(c);
        assert Synced(c, p);
        Unjoined(c.members, id);
        PromoteMovesSlice(c.members, id, p);
      case StartDrain(id) =>
        LeaveKeeps(c.members, id);
        DrainKeepsTarget(c.members, id, p);
      case CancelDrain(id) =>
        Unleft(c.members, id);
        CancelKeepsTarget(c.members, id, p);
      case FinishDrain(id) =>
        PassDone(c);
        assert Synced(c, p);
        Unleft(c.members, id);
        DrainMovesSlice(c.members, id, p);
    }
  }

  /** A drop removes the one copy when the owner holds the point, and nothing else. */
  lemma DropRemoves<V>(c: Cluster<V>, s: nat, q: Bytes, i: nat, p: Bytes)
    requires c.members.shards != []
    ensures Held(Dropped(c, s, q).copies, i, p)
         == if i == s && p == q && Held(c.copies, ShardFor(c.members, q).id, q).Some? then None else Held(c.copies, i, p)
  {}

  lemma DropServes<V>(c: Cluster<V>, s: nat, q: Bytes, p: Bytes)
    requires Quiet(c.members) && ShardFor(c.members, q).id != s
    ensures Dropped(c, s, q).members == c.members && Get(Dropped(c, s, q), p) == Get(c, p)
  {
    hide ShardFor, DonorFor, GetTarget;
    QuietTarget(c.members, p);
  }

  /** The cluster after a run, if every action was allowed. */
  ghost function After<V>(c: Cluster<V>, actions: seq<Action<V>>): Option<Cluster<V>> {
    if actions == [] then Some(c)
    else
      match After(c, actions[..|actions| - 1])
      case None => None
      case Some(d) => if Allowed(d, actions[|actions| - 1]) then Some(Step(d, actions[|actions| - 1])) else None
  }

  /** The last value written to a point, or what it held before. */
  function LastWrite<V>(actions: seq<Action<V>>, p: Bytes, initial: Option<V>): Option<V> {
    if actions == [] then initial
    else
      var last := actions[|actions| - 1];
      if last.Write? && last.point == p then last.value else LastWrite(actions[..|actions| - 1], p, initial)
  }

  /** Through any sequence of joins, drains, aborts and flips, one at a time and each
      started on a clean slice, with writes, copies and drops in between in any order,
      every get returns the last write. */
  lemma {:induction false} GetsReturnLastWrite<V>(c: Cluster<V>, actions: seq<Action<V>>, p: Bytes)
    requires Fine(c) && After(c, actions).Some?
    ensures var d := After(c, actions).value; Fine(d) && Get(d, p) == LastWrite(actions, p, Get(c, p))
  {
    hide Sequential, Allowed, Step, Get, CleanAt, Owed;
    if actions != [] {
      var before := actions[..|actions| - 1];
      GetsReturnLastWrite(c, before, p);
      var d, a := After(c, before).value, actions[|actions| - 1];
      FineStep(d, a);
      StepServes(d, a, p);
    }
  }
}
