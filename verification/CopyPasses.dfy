/** When the copy pass of a migration is safe: exactly when it starts on a clean slice
    (crates/quiver-server/src/coordinator.rs, `copy_points`, `run_migration`, `run_drain`). */
module CopyPasses {
  import opened ByteStrings
  import opened Rendezvous
  import opened ShardMaps
  import opened ClusterMap
  import opened Migration
  import KeyOrder

  /** A pass that visits everything, with client writes at any points of it. */
  ghost predicate Passes<V>(c: Cluster<V>, actions: seq<Action<V>>) {
    && (forall i :: 0 <= i < |actions| ==> actions[i].Write? || actions[i].Copy?)
    && After(c, actions).Some? && After(c, actions).value.todo == {}
  }

  /** The copies agree at the end, and gets return what clients last wrote. */
  ghost predicate Good<V>(c: Cluster<V>, actions: seq<Action<V>>)
    requires c.members.shards != [] && After(c, actions).Some?
  {
    var e := After(c, actions).value;
    Agree(e) && forall p :: Get(e, p) == LastWrite(actions, p, Get(c, p))
  }

  /** However writes fall between its copies, the pass ends well. */
  ghost predicate Safe<V(!new)>(c: Cluster<V>) {
    c.members.shards != [] && forall actions :: Passes(c, actions) ==> Good(c, actions)
  }

  /** A pass about to start: it owes everything the sources hold. */
  ghost predicate Starting<V>(c: Cluster<V>) {
    c.members.shards != [] && Sequential(c.members) && Migrating(c.members) && c.todo == PassOver(c.members, c.copies)
  }

  lemma {:induction false} MembersStay<V>(c: Cluster<V>, actions: seq<Action<V>>)
    requires After(c, actions).Some? && forall i :: 0 <= i < |actions| ==> actions[i].Write? || actions[i].Copy?
    ensures After(c, actions).value.members == c.members
  {
    hide Written, Copied;
    if actions != [] {
      var n := |actions| - 1;
      MembersStay(c, actions[..n]);
      var d := After(c, actions[..n]).value;
      match actions[n] {
        case Write(p, v) => MembersKept(d, p, v, 0);
        case Copy(s, p) => MembersKept(d, p, None, s);
      }
    }
  }

  lemma CleanIsSafe<V(!new)>(c: Cluster<V>, actions: seq<Action<V>>)
    requires Starting(c) && Clean(c) && Passes(c, actions)
    ensures Good(c, actions)
  {
    hide Sequential, Migrating, PassOver, Allowed, Step, After, CleanAt, Owed, Get, LastWrite, Synced;
    forall p ensures CleanAt(c, p) && Owed(c, p) {
      assert Started(c, c.members) == c;
      StartOwes(c, c.members, p);
    }
    assert Fine(c);
    MembersStay(c, actions);
    var e := After(c, actions).value;
    forall p ensures Fine(e) && Get(e, p) == LastWrite(actions, p, Get(c, p)) { GetsReturnLastWrite(c, actions, p); }
    assert Fine(e) by { GetsReturnLastWrite(c, actions, []); }
    PassDone(e);
  }

  // ---- a pass that goes wrong ----------------------------------------------

  /** What copying alone does to a point: the destination keeps what it has and is filled
      by any source still owed; nothing else changes. */
  ghost predicate Filled<V>(c: Cluster<V>, e: Cluster<V>, p: Bytes)
    requires c.members.shards != []
  {
    var d := Destination(c.members, p);
    && e.members == c.members
    && (forall x: nat :: d != Some(x) ==> Held(e.copies, x, p) == Held(c.copies, x, p))
    && (d.Some? && Held(c.copies, d.value, p).Some? ==> Held(e.copies, d.value, p) == Held(c.copies, d.value, p))
    && (d.Some? && (exists s: nat :: (s, p) in c.todo - e.todo && Held(c.copies, s, p).Some?) ==> Held(e.copies, d.value, p).Some?)
  }

  lemma FilledStep<V>(c: Cluster<V>, e: Cluster<V>, s: nat, q: Bytes, p: Bytes)
    requires c.members.shards != [] && Filled(c, e, p)
    ensures Filled(c, Copied(e, s, q), p)
  {
    hide ShardFor, DonorFor, Copied, Destination;
    CopyKeeps(e, s, q, p);
    var d := Destination(c.members, p);
    if d.Some? && p == q && Held(c.copies, s, p).Some? && d != Some(s) {
      assert Held(e.copies, s, p) == Held(c.copies, s, p);
    }
  }

  /** Visit everything that is owed, with no write in between. */
  lemma {:induction false} CopyEverything<V(!new)>(c: Cluster<V>, done: seq<Action<V>>, mid: Cluster<V>, e: Cluster<V>) returns (actions: seq<Action<V>>)
    requires c.members.shards != [] && After(c, done) == Some(e)
    requires forall i :: 0 <= i < |done| ==> done[i].Write? || done[i].Copy?
    requires mid.members == c.members && Migrating(c.members) && (forall p :: Filled(mid, e, p))
    requires forall t :: t in e.todo ==> IsSource(c.members, t.0)
    ensures Passes(c, actions) && done <= actions && (forall i :: |done| <= i < |actions| ==> actions[i].Copy?)
    ensures forall p :: Filled(mid, After(c, actions).value, p)
    decreases |e.todo|
  {
    hide Filled, Migrating, IsSource, Copied;
    actions := done;
    if e.todo != {} {
      var t :| t in e.todo;
      var a := Copy(t.0, t.1);
      assert e.members == c.members by { MembersStay(c, done); }
      var next := Copied(e, t.0, t.1);
      MembersKept(e, t.1, None, t.0);
      TodoShrinks(e, t);
      assert (done + [a])[..|done|] == done;
      assert After(c, done + [a]) == Some(next);
      forall p ensures Filled(mid, next, p) { FilledStep(mid, e, t.0, t.1, p); }
      actions := CopyEverything(c, done + [a], mid, next);
      assert done <= done + [a] <= actions;
    }
  }

  lemma TodoShrinks<V>(e: Cluster<V>, t: (nat, Bytes))
    requires e.members.shards != [] && t in e.todo
    ensures Copied(e, t.0, t.1).todo == e.todo - {t}
  {
    hide ShardFor;
  }

  lemma {:induction false} LastWriteBefore<V>(done: seq<Action<V>>, actions: seq<Action<V>>, p: Bytes, initial: Option<V>)
    requires done <= actions && forall i :: |done| <= i < |actions| ==> actions[i].Copy?
    ensures LastWrite(actions, p, initial) == LastWrite(done, p, initial)
  {
    if |actions| > |done| { LastWriteBefore(done, actions[..|actions| - 1], p, initial); } else { assert done == actions; }
  }

  /** The destination starts with a value gets do not return: it keeps it. */
  lemma StaleDestination<V(!new)>(c: Cluster<V>, p: Bytes)
    requires Starting(c) && Destination(c.members, p).Some?
    requires var x := Held(c.copies, Destination(c.members, p).value, p); x.Some? && x != Get(c, p)
    ensures !Safe(c)
  {
    hide Sequential, After, GetTarget, ShardFor;
    forall q ensures Filled(c, c, q) {}
    var actions := CopyEverything(c, [], c, c) by { assert After(c, []) == Some(c) by { EmptyRun(c); } OwedAreSources(c); }
    var e := After(c, actions).value;
    assert Filled(c, e, p);
    assert !Synced(e, p);
    assert !Good(c, actions);
  }

  lemma EmptyRun<V>(c: Cluster<V>)
    ensures After(c, []) == Some(c)
  {}

  lemma OwedAreSources<V>(c: Cluster<V>)
    requires Starting(c)
    ensures forall t :: t in c.todo ==> IsSource(c.members, t.0)
  {
    hide IsSource, Sequential;
  }

  /** A source gets do not read holds a copy: delete the point first and the pass brings
      that copy back. */
  lemma Leftover<V(!new)>(c: Cluster<V>, p: Bytes, s: nat)
    requires Starting(c) && Destination(c.members, p).Some? && IsSource(c.members, s)
    requires s != GetTarget(c.members, p).id && s != Destination(c.members, p).value && Held(c.copies, s, p).Some?
    ensures !Safe(c)
  {
    hide Sequential, After, GetTarget, ShardFor, Written, Allowed, Step;
    var mid := Written(c, p, None);
    WriteKeeps(c, p, None, p);
    forall q ensures Filled(mid, mid, q) {}
    FirstWrite(c, p);
    OwedAreSources(c);
    var actions := CopyEverything(c, [Write(p, None)], mid, mid);
    var e := After(c, actions).value;
    assert Filled(mid, e, p);
    LastWriteBefore([Write(p, None)], actions, p, Get(c, p));
    assert LastWrite([Write(p, None)], p, Get(c, p)) == None;
    assert (s, p) in mid.todo - e.todo;
    assert Held(e.copies, Destination(c.members, p).value, p).Some?;
    assert Synced(e, p) ==> Get(e, p).Some?;
    assert !Good(c, actions);
  }

  lemma FirstWrite<V>(c: Cluster<V>, p: Bytes)
    requires c.members.shards != []
    ensures After(c, [Write(p, None)]) == Some(Written(c, p, None))
  {
    var one: seq<Action<V>> := [Write(p, None)];
    assert one[..0] == [];
    assert After(c, []) == Some(c);
  }

  /** A pass is safe, whatever clients write meanwhile, if and only if it starts on a clean
      slice: no source but the one gets read holds a point it would send, and the
      destination holds nothing but what gets return. */
  lemma CopyPassIff<V(!new)>(c: Cluster<V>)
    requires Starting(c)
    ensures Safe(c) <==> Clean(c)
  {
    hide Sequential, PassOver, Good, Migrating;
    if Clean(c) {
      forall actions | Passes(c, actions) ensures Good(c, actions) { CleanIsSafe(c, actions); }
    } else {
      var p :| !CleanAt(c, p);
      var d := Destination(c.members, p).value;
      if s: nat :| IsSource(c.members, s) && s != GetTarget(c.members, p).id && s != d && Held(c.copies, s, p).Some? {
        Leftover(c, p, s);
      } else {
        StaleDestination(c, p);
      }
    }
  }

  // ---- the pass itself, with no write in between ---------------------------

  /** What the first of some sources to hold a point holds. */
  function FirstHeld<V>(copies: map<nat, map<Bytes, V>>, sources: seq<nat>, p: Bytes): Option<V> {
    if sources == [] then None
    else
      var before := FirstHeld(copies, sources[..|sources| - 1], p);
      if before.Some? then before else Held(copies, sources[|sources| - 1], p)
  }

  /** The sources among the first shards, in map order. */
  function Sources(m: Membership, n: nat): seq<nat>
    requires n <= |m.shards|
  {
    if n == 0 then []
    else if IsSource(m, m.shards[n - 1].id) then Sources(m, n - 1) + [m.shards[n - 1].id]
    else Sources(m, n - 1)
  }

  /** What a pass over some sources leaves: at a point's destination what was there, or
      else what the first source to hold it holds, and all else unchanged. */
  ghost predicate PassLeaves<V>(c: Cluster<V>, e: Cluster<V>, sources: seq<nat>) {
    && c.members.shards != [] && e.members == c.members
    && (forall p, x: nat :: Destination(c.members, p) != Some(x) ==> Held(e.copies, x, p) == Held(c.copies, x, p))
    && (forall p :: Destination(c.members, p).Some? ==>
          Held(e.copies, Destination(c.members, p).value, p) == Sent(c, sources, p))
  }

  function Sent<V>(c: Cluster<V>, sources: seq<nat>, p: Bytes): Option<V>
    requires c.members.shards != [] && Destination(c.members, p).Some?
  {
    var there := Held(c.copies, Destination(c.members, p).value, p);
    if there.Some? then there else FirstHeld(c.copies, sources, p)
  }

  /** One source, point by point in id order. */
  method CopyPoints<V>(c: Cluster<V>, source: nat) returns (e: Cluster<V>)
    requires c.members.shards != [] && forall p :: Destination(c.members, p) != Some(source)
    ensures PassLeaves(c, e, [source])
  {
    hide Destination, Put;
    e := c;
    var ids := KeyOrder.SortedKeys(if source in c.copies then c.copies[source].Keys else {});
    for i := 0 to |ids|
      invariant e.members == c.members
      invariant forall p, x: nat :: Destination(c.members, p) != Some(x) ==> Held(e.copies, x, p) == Held(c.copies, x, p)
      invariant forall p :: Destination(c.members, p).Some? ==>
        var d := Destination(c.members, p).value;
        Held(e.copies, d, p) == if Held(c.copies, d, p).Some? || p !in ids[..i] then Held(c.copies, d, p) else Held(c.copies, source, p)
    {
      hide Copied;
      ghost var was := e;
      assert ids[..i + 1] == ids[..i] + [ids[i]];
      forall p { CopyKeeps(was, source, ids[i], p); }
      e := Copied(e, source, ids[i]);
    }
    FirstOfOne(c.copies, source);
    assert ids[..|ids|] == ids;
  }

  lemma FirstOfOne<V>(copies: map<nat, map<Bytes, V>>, source: nat)
    ensures forall p :: FirstHeld(copies, [source], p) == Held(copies, source, p)
  {
    assert [source][..0] == [];
  }

  lemma {:induction false} NextSource<V>(c: Cluster<V>, mid: Cluster<V>, e: Cluster<V>, done: seq<nat>, source: nat)
    requires PassLeaves(c, mid, done) && PassLeaves(mid, e, [source]) && forall p :: Destination(c.members, p) != Some(source)
    ensures PassLeaves(c, e, done + [source])
  {
    hide Destination;
    FirstOfOne(mid.copies, source);
    assert (done + [source])[..|done|] == done;
  }

  /** A destination is never a source. */
  lemma NeverBoth(m: Membership, source: nat)
    requires m.shards != [] && Sequential(m) && Migrating(m) && IsSource(m, source)
    ensures forall p :: Destination(m, p) != Some(source)
  {
    hide Best;
    forall p ensures Destination(m, p) != Some(source) {
      if id: nat :| Joining(m, id) {
      } else {
        var id: nat :| Leaving(m, id);
        AnchoredOwner(m, p);
        BestWins(m.shards, p, m.leaving);
      }
    }
  }

  /** The whole pass: every source in map order. */
  method RunPass<V>(c: Cluster<V>) returns (e: Cluster<V>)
    requires c.members.shards != [] && Sequential(c.members) && Migrating(c.members)
    ensures PassLeaves(c, e, Sources(c.members, |c.members.shards|))
  {
    hide Destination, Sequential, Migrating, IsSource;
    e := c;
    for n := 0 to |c.members.shards|
      invariant PassLeaves(c, e, Sources(c.members, n))
    {
      var id := c.members.shards[n].id;
      if IsSource(c.members, id) {
        NeverBoth(c.members, id);
        ghost var was := e;
        e := CopyPoints(e, id);
        NextSource(c, was, e, Sources(c.members, n), id);
      }
    }
  }

  /** With no write in between, the pass ends well if and only if, for every point it would
      send, what the destination holds or else the first source to hold it is current. */
  lemma QuietPassIff<V>(c: Cluster<V>, e: Cluster<V>, sources: seq<nat>)
    requires PassLeaves(c, e, sources) && Sequential(c.members)
    ensures Agree(e) && (forall p :: Get(e, p) == Get(c, p)) <==>
      forall p :: Destination(c.members, p).Some? ==> Sent(c, sources, p) == Get(c, p)
  {
    hide ShardFor, DonorFor, GetTarget, Sequential, Sent;
    forall p ensures Synced(e, p) && Get(e, p) == Get(c, p) <==> (Destination(c.members, p).Some? ==> Sent(c, sources, p) == Get(c, p)) {
      Routes(c.members, p);
    }
  }

  // ---- which runs start clean ----------------------------------------------

  /** Every copy on a shard of the map is on the point's owner or where gets read it. */
  ghost predicate Tidy<V>(c: Cluster<V>) {
    && c.members.shards != []
    && forall s: nat, p :: HasId(c.members.shards, s) && Held(c.copies, s, p).Some? ==> s == ShardFor(c.members, p).id || s == GetTarget(c.members, p).id
  }

  /** A tidy cluster starts a migration on a clean slice, if a newcomer comes empty. */
  lemma TidyIsClean<V>(c: Cluster<V>, a: Action<V>)
    requires Tidy(c) && Quiet(c.members) && (a.StartJoin? || a.StartDrain?)
    requires a.StartJoin? ==> a.newcomer.id < WORD && a.newcomer.primaryUrl != "" && !HasId(c.members.shards, a.newcomer.id)
    requires a.StartJoin? ==> forall p :: Held(c.copies, a.newcomer.id, p).None?
    requires a.StartDrain? ==> HasId(c.members.shards, a.id) && HasDestination(c.members, a.id)
    ensures Allowed(c, a) && Tidy(Step(c, a))
  {
    hide Best, ShardFor, DonorFor, GetTarget, Written, Copied, Dropped, PassOver, HasId, HasDestination, Well;
    var e := Step(c, a);
    if a.StartJoin? {
      QuietAnchored(c.members);
      AddJoiningKeeps(c.members, a.newcomer);
    } else {
      LeaveKeeps(c.members, a.id);
    }
    HasShards(e.members);
    forall p ensures CleanAt(e, p) { StartCleanAt(c, a, p); }
    forall s: nat, p | HasId(e.members.shards, s) && Held(e.copies, s, p).Some?
      ensures s == ShardFor(e.members, p).id || s == GetTarget(e.members, p).id
    {
      StartTidyAt(c, a, s, p);
    }
  }

  lemma HasShards(m: Membership)
    requires Well(m)
    ensures m.shards != []
  {}

  lemma StartTarget(m: Membership, a: Action, p: Bytes)
    requires Quiet(m)
    ensures GetTarget(m, p) == ShardFor(m, p)
    ensures a.StartJoin? && Joining(AddedJoining(m, a.newcomer), a.newcomer.id) ==> GetTarget(AddedJoining(m, a.newcomer), p) == GetTarget(m, p)
    ensures a.StartDrain? && Leaving(MarkedLeaving(m, a.id), a.id) ==> GetTarget(MarkedLeaving(m, a.id), p) == GetTarget(m, p)
  {
    hide Best, ShardFor, GetTarget, Well, Anchored;
    QuietTarget(m, p);
    if a.StartJoin? && Joining(AddedJoining(m, a.newcomer), a.newcomer.id) { JoinKeepsTarget(m, a.newcomer, p); }
    if a.StartDrain? && Leaving(MarkedLeaving(m, a.id), a.id) { DrainKeepsTarget(m, a.id, p); }
  }

  lemma NewcomerOnly(m: Membership, s: Shard, id: nat)
    ensures HasId(AddedJoining(m, s).shards, id) <==> HasId(m.shards, id) || id == s.id
  {
    var all := m.shards + [s];
    assert all[|m.shards|] == s && forall i :: 0 <= i < |m.shards| ==> all[i] == m.shards[i];
  }

  lemma StartTidyAt<V>(c: Cluster<V>, a: Action<V>, s: nat, p: Bytes)
    requires Tidy(c) && Quiet(c.members) && Held(c.copies, s, p).Some?
    requires a.StartJoin? ==> Joining(AddedJoining(c.members, a.newcomer), a.newcomer.id) && Held(c.copies, a.newcomer.id, p).None?
    requires a.StartJoin? ==> HasId(AddedJoining(c.members, a.newcomer).shards, s)
    requires a.StartDrain? ==> Leaving(MarkedLeaving(c.members, a.id), a.id) && HasId(c.members.shards, s)
    requires a.StartJoin? || a.StartDrain?
    ensures s == GetTarget(Step(c, a).members, p).id
  {
    hide Best, ShardFor, DonorFor, GetTarget, Written, Copied, Dropped, PassOver, HasId, Well, Anchored;
    StartTarget(c.members, a, p);
    if a.StartJoin? { NewcomerOnly(c.members, a.newcomer, s); }
  }

  lemma StartCleanAt<V>(c: Cluster<V>, a: Action<V>, p: Bytes)
    requires Tidy(c) && Quiet(c.members) && (a.StartJoin? || a.StartDrain?)
    requires a.StartJoin? ==> Joining(AddedJoining(c.members, a.newcomer), a.newcomer.id) && forall q :: Held(c.copies, a.newcomer.id, q).None?
    requires a.StartDrain? ==> Leaving(MarkedLeaving(c.members, a.id), a.id)
    requires Step(c, a).members.shards != []
    ensures CleanAt(Step(c, a), p)
  {
    hide Best, ShardFor, DonorFor, GetTarget, Written, Copied, Dropped, PassOver, HasId, Well, Anchored;
    var e := Step(c, a);
    forall s: nat | IsSource(e.members, s) && Held(e.copies, s, p).Some? ensures s == GetTarget(e.members, p).id {
      SourceInMap(e.members, s);
      StartTidyAt(c, a, s, p);
    }
    var d := Destination(e.members, p);
    if d.Some? && Held(e.copies, d.value, p).Some? {
      OwnerInMap(e.members, p);
      StartTidyAt(c, a, d.value, p);
    }
  }

  lemma SourceInMap(m: Membership, s: nat)
    requires Well(m) && IsSource(m, s)
    ensures HasId(m.shards, s)
  {}

  /** Every step but a promotion, which leaves the donors' copies for the drops, and a
      cancelled drain, which leaves the survivors', keeps the cluster tidy. */
  lemma TidyStep<V>(c: Cluster<V>, a: Action<V>)
    requires Fine(c) && Tidy(c) && Allowed(c, a) && !a.StartJoin? && !a.StartDrain? && !a.Promote? && !a.CancelDrain?
    ensures Tidy(Step(c, a))
  {
    hide Best, ShardFor, DonorFor, GetTarget, Written, Copied, Dropped, PassOver, HasId, Well, Anchored, Sequential, CleanAt, Owed;
    FineStep(c, a);
    var e := Step(c, a);
    forall s: nat, p | HasId(e.members.shards, s) && Held(e.copies, s, p).Some?
      ensures s == ShardFor(e.members, p).id || s == GetTarget(e.members, p).id
    {
      match a {
        case Write(q, v) => WriteKeeps(c, q, v, p);
        case Copy(x, q) => CopyKeeps(c, x, q, p);
        case Drop(x, q) => DropKeeps(c, x, q, s, p);
        case AbortJoin(id) => GoneTidy(c, id, s, p);
        case FinishDrain(id) => GoneTidy(c, id, s, p);
      }
    }
  }

  lemma DropKeeps<V>(c: Cluster<V>, x: nat, q: Bytes, s: nat, p: Bytes)
    requires c.members.shards != []
    ensures Dropped(c, x, q).members == c.members && (Held(Dropped(c, x, q).copies, s, p).Some? ==> Held(c.copies, s, p).Some?)
  {
    hide ShardFor;
  }

  lemma GoneTidy<V>(c: Cluster<V>, id: nat, s: nat, p: Bytes)
    requires Tidy(c) && (Joining(c.members, id) || Leaving(c.members, id)) && Held(c.copies, s, p).Some?
    requires Removed(c.members, id).shards != [] && HasId(Removed(c.members, id).shards, s)
    ensures s == GetTarget(Removed(c.members, id), p).id
  {
    hide Best, ShardFor, DonorFor, GetTarget, Well, Anchored;
    StillThere(c.members, id, s);
    if Joining(c.members, id) {
      Unjoined(c.members, id);
      JoiningTarget(c.members, id, p);
      AbortKeepsTarget(c.members, id, p);
    } else {
      Unleft(c.members, id);
      LeavingTarget(c.members, id, p);
      DrainMovesSlice(c.members, id, p);
    }
  }

  lemma StillThere(m: Membership, id: nat, s: nat)
    requires HasId(Removed(m, id).shards, s)
    ensures HasId(m.shards, s) && s != id
  {
    var rest := Removed(m, id).shards;
    var i :| 0 <= i < |rest| && rest[i].id == s;
    assert rest[i] in rest;
    var j :| 0 <= j < |m.shards| && m.shards[j] == rest[i];
  }

  // ---- a cancelled drain leaves a leftover ---------------------------------

  lemma NextStep<V>(c: Cluster<V>, actions: seq<Action<V>>, e: Cluster<V>, a: Action<V>)
    requires After(c, actions) == Some(e) && Allowed(e, a)
    ensures After(c, actions + [a]) == Some(Step(e, a))
  {
    assert (actions + [a])[..|actions|] == actions;
  }

  /** The cluster of two, the point on its owner. */
  function Pair<V>(low: Shard, mid: Shard, p: Bytes, v: V): Cluster<V> {
    Cluster(Membership(0, [low, mid], [], []), map[mid.id := map[p := v]], {})
  }

  lemma PairQuiet(low: Shard, mid: Shard, top: Shard, p: Bytes, version: nat)
    requires Ranked(low, mid, top, p)
    ensures var m := Membership(version, [low, mid], [], []);
      Quiet(m) && Anchored(m) && HasDestination(m, mid.id) && HasId(m.shards, mid.id) && ShardFor(m, p) == mid && GetTarget(m, p) == mid
  {
    hide HrwScore, Best;
    var m := Membership(version, [low, mid], [], []);
    assert HasId(m.shards, m.shards[0].id) && HasId(m.shards, m.shards[1].id);
    assert Settled(m, m.shards[0].id);
    assert Wins(mid, m.shards, p, []);
    WinnerIs(m.shards, p, [], mid);
  }

  lemma PairLeaving(low: Shard, mid: Shard, top: Shard, p: Bytes, version: nat)
    requires Ranked(low, mid, top, p)
    ensures var m := Membership(version, [low, mid], [], [mid.id]);
      Leaving(m, mid.id) && ShardFor(m, p) == low && GetTarget(m, p) == mid
  {
    hide HrwScore, Best;
    var m := Membership(version, [low, mid], [], [mid.id]);
    assert HasId(m.shards, m.shards[0].id) && HasId(m.shards, m.shards[1].id);
    assert Settled(m, m.shards[0].id);
    assert Wins(mid, m.shards, p, []);
    WinnerIs(m.shards, p, [], mid);
    assert Wins(low, m.shards, p, [mid.id]);
    WinnerIs(m.shards, p, [mid.id], low);
  }

  lemma TripleJoining(low: Shard, mid: Shard, top: Shard, p: Bytes, version: nat)
    requires Ranked(low, mid, top, p)
    ensures var m := Membership(version, [low, mid, top], [top.id], []);
      Joining(m, top.id) && ShardFor(m, p) == top && GetTarget(m, p) == mid && IsSource(m, low.id) && IsSource(m, mid.id)
    ensures GetTarget(Membership(version + 1, [low, mid, top], [], []), p) == top
  {
    hide HrwScore, Best;
    var m := Membership(version, [low, mid, top], [top.id], []);
    assert HasId(m.shards, m.shards[0].id) && HasId(m.shards, m.shards[1].id) && HasId(m.shards, m.shards[2].id);
    assert Settled(m, m.shards[0].id);
    assert Wins(top, m.shards, p, []);
    WinnerIs(m.shards, p, [], top);
    assert Wins(mid, m.shards, p, [top.id]);
    WinnerIs(m.shards, p, [top.id], mid);
    assert m.joining + m.leaving == [top.id];
  }

  /** The point held by one or both of the pair. */
  ghost predicate Holds<V>(c: Cluster<V>, low: Shard, mid: Shard, p: Bytes, onLow: Option<V>, onMid: V) {
    && (forall s: nat, q :: q != p ==> Held(c.copies, s, q).None?)
    && (forall s: nat :: s != low.id && s != mid.id ==> Held(c.copies, s, p).None?)
    && Held(c.copies, low.id, p) == onLow && Held(c.copies, mid.id, p) == Some(onMid)
  }

  lemma DrainStarts<V>(low: Shard, mid: Shard, top: Shard, p: Bytes, v: V)
    requires Ranked(low, mid, top, p)
    ensures var c, a := Pair(low, mid, p, v), StartDrain(mid.id);
      && Allowed(c, a) && Step(c, a).members == Membership(1, [low, mid], [], [mid.id])
      && Holds(Step(c, a), low, mid, p, None, v) && Step(c, a).todo == {(mid.id, p)}
  {
    hide HrwScore, ShardFor, GetTarget;
    var c, a := Pair(low, mid, p, v), StartDrain(mid.id);
    PairQuiet(low, mid, top, p, 0);
    PairLeaving(low, mid, top, p, 1);
    assert [] + [mid.id] == [mid.id];
    var e := Step(c, a);
    assert Holds(e, low, mid, p, None, v);
    forall q ensures CleanAt(e, q) { }
  }

  lemma DrainCopiesThenCancels<V>(low: Shard, mid: Shard, top: Shard, p: Bytes, v: V, c: Cluster<V>)
    requires Ranked(low, mid, top, p) && c.members == Membership(1, [low, mid], [], [mid.id])
    requires Holds(c, low, mid, p, None, v) && c.todo == {(mid.id, p)}
    ensures var a, b := Copy(mid.id, p), CancelDrain(mid.id);
      && Allowed(c, a) && Step(c, a).members.shards != [] && Allowed(Step(c, a), b)
      && Step(Step(c, a), b).members == Membership(2, [low, mid], [], [])
      && Holds(Step(Step(c, a), b), low, mid, p, Some(v), v) && Step(Step(c, a), b).todo == {}
  {
    hide HrwScore, ShardFor, GetTarget, Written;
    PairLeaving(low, mid, top, p, 1);
    assert Without([mid.id], mid.id) == [] by { assert [mid.id][..0] == []; }
  }

  lemma OwnerWrites<V>(low: Shard, mid: Shard, top: Shard, p: Bytes, v: V, w: V, c: Cluster<V>)
    requires Ranked(low, mid, top, p) && c.members == Membership(2, [low, mid], [], [])
    requires Holds(c, low, mid, p, Some(v), v) && c.todo == {}
    ensures var e := Written(c, p, Some(w)); e.members == c.members && Holds(e, low, mid, p, Some(v), w) && e.todo == {} && Get(e, p) == Some(w)
  {
    hide HrwScore, ShardFor, GetTarget, Written;
    PairQuiet(low, mid, top, p, 2);
    WriteKeeps(c, p, Some(w), p);
    forall s: nat, q | q != p ensures Held(Written(c, p, Some(w)).copies, s, q).None? { WriteKeeps(c, p, Some(w), q); }
  }

  /** Copying from the lower shard first, then from the owner, ends the pass, and the flip
      serves `v`. */
  ghost predicate FlipServes<V>(j: Cluster<V>, low: nat, mid: nat, top: nat, p: Bytes, v: V) {
    && j.members.shards != [] && Promoted(j.members, top).shards != []
    && var e := Copied(j, low, p);
    && e.members == j.members
    && var f := Copied(e, mid, p);
    f.members == j.members && f.todo == {} && Get(Ended(f, Promoted(f.members, top)), p) == Some(v)
  }

  lemma JoinStarts<V>(low: Shard, mid: Shard, top: Shard, p: Bytes, v: V, w: V, c: Cluster<V>)
    requires Ranked(low, mid, top, p) && c.members == Membership(2, [low, mid], [], [])
    requires Holds(c, low, mid, p, Some(v), w)
    ensures var j := Step(c, StartJoin(top));
      && Starting(j) && !Clean(j) && j.members == Membership(3, [low, mid, top], [top.id], [])
      && Holds(j, low, mid, p, Some(v), w) && j.todo == {(low.id, p), (mid.id, p)}
  {
    hide HrwScore, ShardFor, GetTarget, Written, Copied, Dropped, PassOver, IsSource;
    TripleJoining(low, mid, top, p, 3);
    var j := Step(c, StartJoin(top));
    assert [low, mid] + [top] == [low, mid, top] && [] + [top.id] == [top.id];
    assert Joining(j.members, top.id);
    assert !CleanAt(j, p);
    HeldByPair(low, mid, p, v, w, c, j);
  }

  lemma JoinServesLeftover<V>(low: Shard, mid: Shard, top: Shard, p: Bytes, v: V, w: V, j: Cluster<V>)
    requires Ranked(low, mid, top, p) && j.members == Membership(3, [low, mid, top], [top.id], [])
    requires Holds(j, low, mid, p, Some(v), w) && j.todo == {(low.id, p), (mid.id, p)}
    ensures FlipServes(j, low.id, mid.id, top.id, p, v)
  {
    hide HrwScore, ShardFor, GetTarget, Copied;
    TripleJoining(low, mid, top, p, 3);
    assert Without([top.id], top.id) == [] by { assert [top.id][..0] == []; }
    CopyKeeps(j, low.id, p, p);
    CopyKeeps(Copied(j, low.id, p), mid.id, p, p);
  }

  lemma HeldByPair<V>(low: Shard, mid: Shard, p: Bytes, v: V, w: V, c: Cluster<V>, j: Cluster<V>)
    requires Holds(c, low, mid, p, Some(v), w) && j.copies == c.copies && j.todo == PassOver(j.members, j.copies)
    requires IsSource(j.members, low.id) && IsSource(j.members, mid.id)
    ensures j.todo == {(low.id, p), (mid.id, p)}
  {
    hide IsSource;
    forall t | t in j.todo ensures t == (low.id, p) || t == (mid.id, p) { assert Held(c.copies, t.0, t.1).Some?; }
  }

  /** Drain a shard, copy a point, cancel the drain, write the point, then grow: the leftover
      on the first source is copied, the current value is skipped as present, and after
      the flip a get returns the old value. */
  lemma CancelledDrain<V(!new)>(low: Shard, mid: Shard, top: Shard, p: Bytes, v: V, w: V)
    requires Ranked(low, mid, top, p) && v != w
    ensures var c, actions := Pair(low, mid, p, v), [StartDrain(mid.id), Copy(mid.id, p), CancelDrain(mid.id), Write(p, Some(w))];
      && Fine(c) && After(c, actions).Some? && Get(After(c, actions).value, p) == Some(w)
      && var j := Step(After(c, actions).value, StartJoin(top));
         Starting(j) && !Clean(j) && FlipServes(j, low.id, mid.id, top.id, p, v)
  {
    hide HrwScore, Step, Allowed, Get, Copied, Written, Starting, Clean, Ranked, Holds, FlipServes;
    var c := Pair(low, mid, p, v);
    PairQuiet(low, mid, top, p, 0);
    var a0, a1, a2, a3: Action<V> := StartDrain(mid.id), Copy(mid.id, p), CancelDrain(mid.id), Write(p, Some(w));
    DrainStarts(low, mid, top, p, v);
    var c1 := Step(c, a0);
    DrainCopiesThenCancels(low, mid, top, p, v, c1);
    var c2 := Step(c1, a1);
    var c3 := Step(c2, a2);
    OwnerWrites(low, mid, top, p, v, w, c3);
    WriteIsStep(c3, p, Some(w));
    JoinStarts(low, mid, top, p, v, w, Step(c3, a3));
    JoinServesLeftover(low, mid, top, p, v, w, Step(Step(c3, a3), StartJoin(top)));
    EmptyRun(c);
    NextStep(c, [], c, a0);
    NextStep(c, [] + [a0], c1, a1);
    NextStep(c, [] + [a0] + [a1], c2, a2);
    NextStep(c, [] + [a0] + [a1] + [a2], c3, a3);
    assert [] + [a0] + [a1] + [a2] + [a3] == [a0, a1, a2, a3];
  }

  lemma WriteIsStep<V>(c: Cluster<V>, p: Bytes, v: Option<V>)
    requires c.members.shards != []
    ensures Allowed(c, Write(p, v)) && Step(c, Write(p, v)) == Written(c, p, v)
  {}

  // ---- a copy that is not one step -----------------------------------------

  function WriteAll<V>(c: Cluster<V>, point: Bytes, values: seq<Option<V>>): (d: Cluster<V>)
    requires c.members.shards != []
    ensures d.members == c.members
  {
    if values == [] then c else Written(WriteAll(c, point, values[..|values| - 1]), point, values[|values| - 1])
  }

  lemma {:induction false} WriteAllServes<V>(c: Cluster<V>, p: Bytes, values: seq<Option<V>>)
    requires c.members.shards != []
    ensures Get(WriteAll(c, p, values), p) == if values == [] then Get(c, p) else values[|values| - 1]
  {
    hide ShardFor, DonorFor;
  }

  /** A copy reads a point from its get target, client writes land, and the copy then
      stores what it read. */
  function StoredLate<V>(c: Cluster<V>, p: Bytes, values: seq<Option<V>>): (e: Cluster<V>)
    requires c.members.shards != []
    ensures e.members == c.members
  {
    var d := WriteAll(c, p, values);
    d.(copies := Put(d.copies, ShardFor(c.members, p).id, p, Get(c, p)))
  }

  /** The copies agree exactly when nothing was written meanwhile or the last write was the
      value read. */
  lemma CopyRace<V>(c: Cluster<V>, p: Bytes, values: seq<Option<V>>)
    requires c.members.shards != [] && Held(c.copies, ShardFor(c.members, p).id, p).None? && Get(c, p).Some?
    ensures Synced(StoredLate(c, p, values), p) <==> values == [] || values[|values| - 1] == Get(c, p)
  {
    hide ShardFor, DonorFor, WriteAll;
    WriteAllServes(c, p, values);
    assert ShardFor(c.members, p).id != GetTarget(c.members, p).id;
  }

  /** One write in between, and the newcomer keeps the old value. */
  lemma CopyRaceLoses<V>(low: Shard, mid: Shard, top: Shard, p: Bytes, v: V, w: V)
    requires Ranked(low, mid, top, p) && v != w
    ensures var c := Cluster(Membership(1, [low, mid, top], [top.id], []), map[mid.id := map[p := v]], {(mid.id, p)});
      && Starting(c) && Clean(c) && !Synced(StoredLate(c, p, [Some(w)]), p)
  {
    hide HrwScore, Best, ShardFor, DonorFor, GetTarget, StoredLate, IsSource, Destination;
    var c := Cluster(Membership(1, [low, mid, top], [top.id], []), map[mid.id := map[p := v]], {(mid.id, p)});
    TripleJoining(low, mid, top, p, 1);
    assert PassOver(c.members, c.copies) == c.todo;
    assert Sequential(c.members);
    forall q ensures CleanAt(c, q) { }
    CopyRace(c, p, [Some(w)]);
  }

  /** A drain's source holds a copy of a point another shard serves, and that point has been
      deleted: the pass brings it back. */
  lemma DrainRevives<V>(low: Shard, mid: Shard, top: Shard, p: Bytes, v: V)
    requires Ranked(low, mid, top, p)
    ensures var c := Cluster(Membership(1, [low, mid], [], [low.id]), map[low.id := map[p := v]], {(low.id, p)});
      Starting(c) && !Clean(c) && Get(c, p) == None && Copied(c, low.id, p).members == c.members && Get(Copied(c, low.id, p), p) == Some(v)
  {
    hide HrwScore, Best, ShardFor, DonorFor, GetTarget, Copied;
    var c := Cluster(Membership(1, [low, mid], [], [low.id]), map[low.id := map[p := v]], {(low.id, p)});
    LowLeaving(low, mid, top, p, 1);
    assert PassOver(c.members, c.copies) == c.todo;
    assert Sequential(c.members);
    assert !CleanAt(c, p);
    CopyKeeps(c, low.id, p, p);
  }

  lemma LowLeaving(low: Shard, mid: Shard, top: Shard, p: Bytes, version: nat)
    requires Ranked(low, mid, top, p)
    ensures var m := Membership(version, [low, mid], [], [low.id]);
      Leaving(m, low.id) && ShardFor(m, p) == mid && GetTarget(m, p) == mid
  {
    hide HrwScore, Best;
    var m := Membership(version, [low, mid], [], [low.id]);
    assert HasId(m.shards, m.shards[0].id) && HasId(m.shards, m.shards[1].id);
    assert Settled(m, m.shards[1].id);
    assert Wins(mid, m.shards, p, []);
    WinnerIs(m.shards, p, [], mid);
    assert Wins(mid, m.shards, p, [low.id]);
    WinnerIs(m.shards, p, [low.id], mid);
  }

  // ---- paging --------------------------------------------------------------

  function Page(ids: seq<Bytes>, offset: nat, limit: nat): seq<Bytes> {
    if offset >= |ids| then [] else if offset + limit <= |ids| then ids[offset..offset + limit] else ids[offset..]
  }

  /** A page from number `from` on of a list holds the point. */
  ghost predicate PagedFrom(ids: seq<Bytes>, limit: nat, from: nat, p: Bytes) {
    exists k: nat :: k >= from && p in Page(ids, k * limit, limit)
  }

  lemma PageHas(ids: seq<Bytes>, limit: nat, k: nat, i: nat)
    requires limit > 0 && i < |ids| && forall a, b :: 0 <= a < b < |ids| ==> ids[a] != ids[b]
    ensures ids[i] in Page(ids, k * limit, limit) <==> k * limit <= i < k * limit + limit
  {
    var page, at := Page(ids, k * limit, limit), k * limit;
    if at <= i < at + limit { assert page[i - at] == ids[i]; }
    if ids[i] in page {
      var j :| 0 <= j < |page| && page[j] == ids[i];
      assert ids[at + j] == ids[i];
    }
  }

  /** The rest of the pages, read from a list as it is by then, hold a point exactly when it
      does not lie below the offset already passed. */
  lemma PagingIff(ids: seq<Bytes>, limit: nat, from: nat, i: nat)
    requires limit > 0 && i < |ids| && forall a, b :: 0 <= a < b < |ids| ==> ids[a] != ids[b]
    ensures PagedFrom(ids, limit, from, ids[i]) <==> i >= from * limit
  {
    if i >= from * limit {
      var k := i / limit;
      PageAt(i, limit, from);
      PageHas(ids, limit, k, i);
    }
    forall k: nat | k >= from && ids[i] in Page(ids, k * limit, limit) ensures i >= from * limit {
      PageHas(ids, limit, k, i);
      OffsetsGrow(from, k, limit);
    }
  }

  lemma PageAt(i: nat, limit: nat, from: nat)
    requires limit > 0 && i >= from * limit
    ensures (i / limit) * limit <= i < (i / limit) * limit + limit && i / limit >= from
  {
    assert i == limit * (i / limit) + i % limit;
    if i / limit < from { OffsetsGrow(i / limit + 1, from, limit); }
  }

  lemma OffsetsGrow(a: nat, b: nat, limit: nat)
    requires a <= b
    ensures a * limit <= b * limit
  {}

  /** Delete the first point of a source after its first page has been read: the first point
      of the next page is never visited. */
  lemma PagingSkips(ids: seq<Bytes>, limit: nat)
    requires 0 < limit < |ids| && forall a, b :: 0 <= a < b < |ids| ==> ids[a] != ids[b]
    ensures ids[limit] !in Page(ids, 0, limit) && !PagedFrom(ids[1..], limit, 1, ids[limit])
  {
    PageHas(ids, limit, 0, limit);
    PagingIff(ids[1..], limit, 1, limit - 1);
  }

  /** Copy some points of a source, one after the other. */
  function CopyAll<V>(c: Cluster<V>, source: nat, ids: seq<Bytes>): (e: Cluster<V>)
    requires c.members.shards != []
    ensures e.members == c.members
  {
    if ids == [] then c else Copied(CopyAll(c, source, ids[..|ids| - 1]), source, ids[|ids| - 1])
  }

  lemma {:induction false} CopyAllSkips<V>(c: Cluster<V>, source: nat, ids: seq<Bytes>, q: Bytes)
    requires c.members.shards != [] && q !in ids
    ensures forall x: nat :: Held(CopyAll(c, source, ids).copies, x, q) == Held(c.copies, x, q)
  {
    hide Copied, Destination;
    if ids != [] {
      var n := |ids| - 1;
      CopyAllSkips(c, source, ids[..n], q);
      CopyKeeps(CopyAll(c, source, ids[..n]), source, ids[n], q);
    }
  }

  /** The points of the pages from an offset on, up to the first short page. */
  function PagesFrom(ids: seq<Bytes>, offset: nat, limit: nat): seq<Bytes>
    requires limit > 0
    decreases if offset <= |ids| then |ids| - offset else 0
  {
    var page := Page(ids, offset, limit);
    if |page| < limit then page else page + PagesFrom(ids, offset + limit, limit)
  }

  lemma {:induction false} PagesAreRest(ids: seq<Bytes>, offset: nat, limit: nat)
    requires limit > 0
    ensures PagesFrom(ids, offset, limit) == if offset <= |ids| then ids[offset..] else []
    decreases if offset <= |ids| then |ids| - offset else 0
  {
    if offset + limit <= |ids| {
      PagesAreRest(ids, offset + limit, limit);
      assert ids[offset..] == ids[offset..offset + limit] + ids[offset + limit..];
    }
  }

  /** Read the first page and copy it, delete the first point, then read and copy the pages after
      the first, of the list as it is by then. */
  function PagedAround<V>(c: Cluster<V>, source: nat, ids: seq<Bytes>, limit: nat): (e: Cluster<V>)
    requires c.members.shards != [] && 0 < limit < |ids|
    ensures e.members == c.members
  {
    hide Destination, Copied;
    var first := CopyAll(c, source, Page(ids, 0, limit));
    MembersKept(first, ids[0], None, 0);
    CopyAll(Written(first, ids[0], None), source, PagesFrom(ids[1..], limit, limit))
  }

  /** The loop after the first page visits exactly what some later page holds. */
  lemma RestOfPages(ids: seq<Bytes>, limit: nat, p: Bytes)
    requires 0 < limit <= |ids| && p in ids && forall a, b :: 0 <= a < b < |ids| ==> ids[a] != ids[b]
    ensures PagedFrom(ids, limit, 1, p) <==> p in PagesFrom(ids, limit, limit)
  {
    hide PagedFrom, PagesFrom;
    PagesAreRest(ids, limit, limit);
    var i :| 0 <= i < |ids| && ids[i] == p;
    PagingIff(ids, limit, 1, i);
    assert 1 * limit == limit;
    var rest := ids[limit..];
    if i >= limit { assert rest[i - limit] == p; }
    if p in rest {
      var j :| 0 <= j < |rest| && rest[j] == p;
      assert ids[limit + j] == p;
    }
  }

  /** A join whose newcomer takes a shard's points. That shard is paged around a deletion, the
      paging ends and the map flips: a get of the point that was skipped, which nobody deleted,
      finds nothing. */
  lemma PagedJoinLoses<V>(low: Shard, mid: Shard, top: Shard, rows: map<Bytes, V>, ids: seq<Bytes>, limit: nat)
    requires 0 < limit < |ids| && (forall a, b :: 0 <= a < b < |ids| ==> ids[a] != ids[b])
    requires (forall p :: p in ids <==> p in rows) && forall i :: 0 <= i < |ids| ==> Ranked(low, mid, top, ids[i])
    ensures var m, q := Membership(1, [low, mid, top], [top.id], []), ids[limit];
      var c := Cluster(m, map[mid.id := rows], PassOver(m, map[mid.id := rows]));
      && Starting(c) && Clean(c) && q in rows && Get(c, q) == Some(rows[q])
      && q !in Page(ids, 0, limit) && !PagedFrom(ids[1..], limit, 1, q)
      && var e := PagedAround(c, mid.id, ids, limit);
      && Get(e, q) == Some(rows[q]) && Promoted(m, top.id).shards != [] && Get(Ended(e, Promoted(m, top.id)), q) == None
  {
    hide HrwScore, Best, ShardFor, DonorFor, GetTarget, IsSource, Copied, Written, Ranked, PagedFrom, PagesFrom;
    var m, q := Membership(1, [low, mid, top], [top.id], []), ids[limit];
    var c := Cluster(m, map[mid.id := rows], PassOver(m, map[mid.id := rows]));
    TripleJoining(low, mid, top, q, 1);
    RankedIds(low, mid, top, q);
    assert Sequential(m);
    forall p ensures CleanAt(c, p) { if p in rows { TripleJoining(low, mid, top, p, 1); } }
    PagingSkips(ids, limit);
    assert q == ids[1..][limit - 1];
    RestOfPages(ids[1..], limit, q);
    var first := CopyAll(c, mid.id, Page(ids, 0, limit));
    CopyAllSkips(c, mid.id, Page(ids, 0, limit), q);
    WriteKeeps(first, ids[0], None, q);
    CopyAllSkips(Written(first, ids[0], None), mid.id, PagesFrom(ids[1..], limit, limit), q);
    assert Without([top.id], top.id) == [] by { assert [top.id][..0] == []; }
  }

  lemma RankedIds(low: Shard, mid: Shard, top: Shard, p: Bytes)
    requires Ranked(low, mid, top, p)
    ensures top.id != mid.id
  {}
}
