/** Migrations that run to their end (crates/quiver-server/src/coordinator.rs,
    `run_migration`, `run_drain`): from any tidy cluster at rest, a join and a drain can
    be completed, and no get notices. */
module Completions {
  import opened ByteStrings
  import opened Rendezvous
  import opened ShardMaps
  import opened ClusterMap
  import opened Migration
  import opened CopyPasses

  /** A run of a first action and then others. */
  lemma {:induction false} AfterFirst<V>(c: Cluster<V>, a: Action<V>, actions: seq<Action<V>>)
    requires Allowed(c, a)
    ensures After(c, [a] + actions) == After(Step(c, a), actions)
  {
    hide Allowed, Step;
    if actions == [] {
      assert [a] + actions == [a] && [a][..0] == [];
      assert After(c, [a][..0]) == Some(c);
    } else {
      var n := |actions| - 1;
      AfterFirst(c, a, actions[..n]);
      assert ([a] + actions)[..|actions|] == [a] + actions[..n];
    }
  }

  lemma AfterLast<V>(c: Cluster<V>, actions: seq<Action<V>>, a: Action<V>)
    requires After(c, actions).Some? && Allowed(After(c, actions).value, a)
    ensures After(c, actions + [a]) == Some(Step(After(c, actions).value, a))
  {
    hide Allowed, Step;
    assert (actions + [a])[..|actions|] == actions;
  }

  /** A pass without writes visits everything it owes. */
  lemma PassRuns<V(!new)>(c: Cluster<V>) returns (actions: seq<Action<V>>)
    requires Starting(c)
    ensures After(c, actions).Some? && (forall i :: 0 <= i < |actions| ==> actions[i].Copy?)
    ensures After(c, actions).value.todo == {} && After(c, actions).value.members == c.members
  {
    hide Filled, Sequential, Migrating, Copied;
    forall p ensures Filled(c, c, p) { FilledAtOnce(c, p); }
    OwedAreSources(c);
    EmptyRun(c);
    actions := CopyEverything(c, [], c, c);
    MembersStay(c, actions);
  }

  lemma FilledAtOnce<V>(c: Cluster<V>, p: Bytes)
    requires c.members.shards != []
    ensures Filled(c, c, p)
  {
    hide ShardFor;
  }

  lemma {:induction false} NoWrites<V>(actions: seq<Action<V>>, p: Bytes, initial: Option<V>)
    requires forall i :: 0 <= i < |actions| ==> !actions[i].Write?
    ensures LastWrite(actions, p, initial) == initial
  {
    if actions != [] { NoWrites(actions[..|actions| - 1], p, initial); }
  }

  /** A start, a whole pass and a flip, as one run that no get notices. */
  lemma Migrates<V(!new)>(c: Cluster<V>, start: Action<V>, flip: Action<V>) returns (actions: seq<Action<V>>)
    requires Quiet(c.members) && Allowed(c, start) && (start.StartJoin? || start.StartDrain?) && (flip.Promote? || flip.FinishDrain?)
    requires Starting(Step(c, start)) && flip.Promote? == start.StartJoin?
    requires if flip.Promote? then Joining(Step(c, start).members, flip.id) else Leaving(Step(c, start).members, flip.id)
    ensures After(c, actions).Some?
    ensures After(c, actions).value.members == (if flip.Promote? then Promoted(Step(c, start).members, flip.id) else Removed(Step(c, start).members, flip.id))
    ensures forall p :: Get(After(c, actions).value, p) == Get(c, p)
  {
    hide Starting, Quiet, Sequential, Joining, Leaving, After, Get, Started, PassOver, AddedJoining, MarkedLeaving, Clean;
    var copies := PassRuns(Step(c, start));
    var done := After(Step(c, start), copies).value;
    SettledMembers(done.members, flip.id);
    EndQuiet(done.members, flip.id);
    AfterLast(Step(c, start), copies, flip);
    AfterFirst(c, start, copies + [flip]);
    actions := [start] + (copies + [flip]);
    QuietIsFine(c);
    forall p ensures Get(After(c, actions).value, p) == Get(c, p) {
      GetsReturnLastWrite(c, actions, p);
      NoWrites(actions, p, Get(c, p));
    }
  }

  lemma SettledMembers(m: Membership, id: nat)
    ensures Joining(m, id) || Leaving(m, id) ==> m.shards != []
  {}

  lemma QuietIsFine<V>(c: Cluster<V>)
    requires Quiet(c.members)
    ensures Fine(c)
  {
    hide Anchored;
    QuietAnchored(c.members);
  }

  /** From a tidy cluster at rest, an empty newcomer can join: some run ends with it among
      the shards and nothing migrating, and every get returns what it returned before. */
  lemma JoinCompletes<V(!new)>(c: Cluster<V>, s: Shard) returns (actions: seq<Action<V>>)
    requires Tidy(c) && Quiet(c.members)
    requires s.id < WORD && s.primaryUrl != "" && !HasId(c.members.shards, s.id) && forall p :: Held(c.copies, s.id, p).None?
    ensures After(c, actions).Some?
    ensures var e := After(c, actions).value;
      && Quiet(e.members) && e.members.shards == c.members.shards + [s] && e.members.version == c.members.version + 2
      && forall p :: Get(e, p) == Get(c, p)
  {
    hide Tidy, Get, After, PassOver, Allowed, Anchored, Well;
    TidyIsClean(c, StartJoin(s));
    QuietAnchored(c.members);
    AddJoiningKeeps(c.members, s);
    var m := AddedJoining(c.members, s);
    assert Joining(m, s.id);
    StartIs(c, StartJoin(s), m, s.id);
    actions := Migrates(c, StartJoin(s), Promote(s.id));
    Unjoined(m, s.id);
  }

  /** And a shard can be drained away, if a settled one remains. */
  lemma DrainCompletes<V(!new)>(c: Cluster<V>, id: nat) returns (actions: seq<Action<V>>)
    requires Tidy(c) && Quiet(c.members) && HasId(c.members.shards, id) && HasDestination(c.members, id)
    ensures After(c, actions).Some?
    ensures var e := After(c, actions).value;
      && Quiet(e.members) && (forall s :: s in e.members.shards <==> s in c.members.shards && s.id != id)
      && forall p :: Get(e, p) == Get(c, p)
  {
    hide Tidy, Get, After, PassOver, Allowed, Anchored, Well, HasDestination, HasId;
    TidyIsClean<V>(c, StartDrain(id));
    LeaveKeeps(c.members, id);
    var m := MarkedLeaving(c.members, id);
    assert Leaving(m, id);
    StartIs<V>(c, StartDrain(id), m, id);
    actions := Migrates(c, StartDrain(id), FinishDrain(id));
    Unleft(m, id);
  }

  lemma StartIs<V>(c: Cluster<V>, a: Action<V>, m: Membership, id: nat)
    requires c.members.shards != [] && (a.StartJoin? || a.StartDrain?) && (Joining(m, id) || Leaving(m, id))
    requires m == if a.StartJoin? then AddedJoining(c.members, a.newcomer) else MarkedLeaving(c.members, a.id)
    ensures Step(c, a).members == m && Starting(Step(c, a))
  {
    hide Well, Anchored;
    SettledMembers(m, id);
  }
}
