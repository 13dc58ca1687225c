/** A follower that starts from nothing and applies a leader's stream
    (crates/quiver-core/src/store.rs, `apply_replicated`). */
module Replication {
  import opened ByteStrings
  import opened Replay
  import opened WindowReplay
  import opened Disks
  import opened Commands
  import opened Stores
  import opened Streams
  import opened Opening
  import opened Runs
  import opened Points
  import opened Survivors
  import opened Shadows
  import opened Marks

  /** Everything a follower knows of was created by the stream so far. */
  ghost predicate KnowsOnly(l: Ledger, tail: seq<Entry>, ops: seq<Op>) {
    && (forall cid: nat :: cid in l.tables ==> CreatesIn(ops, cid))
    && (forall i :: 0 <= i < |tail| && (tail[i].op.Create? || tail[i].op.Drop?) ==> CreatesIn(ops, tail[i].op.cid))
  }

  /** An operation the stream allows is one the follower's log may take. */
  lemma StreamedIsAppendable(k: Catalog, tail: seq<Entry>, ops: seq<Op>, op: Op)
    requires KnowsOnly(Meaning(k), tail, ops) && NextOk(Meaning(k), ops, op)
    ensures Appendable(DirectoryOf(k), tail, op)
  {
    assert forall cid :: cid in DirectoryOf(k).dir <==> cid in Meaning(k).tables;
  }

  lemma KnowsMore(l: Ledger, tail: seq<Entry>, ops: seq<Op>, op: Op, more: seq<Entry>)
    requires KnowsOnly(l, tail, ops) && NextOk(l, ops, op)
    requires more == tail || (|more| == |tail| + 1 && more[..|tail|] == tail && more[|tail|].op == op)
    ensures KnowsOnly(LedgerApply(l, op), more, ops + [op])
  {
    forall cid: nat ensures CreatesIn(ops + [op], cid) <==> CreatesIn(ops, cid) || (op.Create? && op.cid == cid) {
      CreatesExtend(ops, op, cid);
    }
    forall i | 0 <= i < |more| && (more[i].op.Create? || more[i].op.Drop?) ensures CreatesIn(ops + [op], more[i].op.cid) {
      if i < |tail| { assert more[i] == tail[i]; }
    }
  }

  /** A store that has handed out no id knows of no collection. */
  lemma KnowsNothing(store: Store)
    requires store.Valid() && store.nextCid == 0 && store.Acknowledged().ledger == EMPTY_LEDGER
    ensures KnowsOnly(store.Acknowledged().ledger, Tail(store.disk), [])
  {
    hide Recover, Store.Linked, CatalogOk, EntriesOk, Idempotent, WellNamed, Leaves, AllTrail, Store.Exact;
    TracksFull(store.memory, store.disk, |store.pending|, store.Counts());
    assert LogOk(DirectoryOf(Load(store.disk)), Tail(store.disk), 0);
  }

  /** The log takes the operation, or it never reaches the log. */
  predicate Takes(fits: Entry -> bool, lsn: nat, op: Op) { op.CheckpointMark? || fits(Entry(lsn, op)) }

  /** A fresh follower takes any stream, unless its log refuses a record, and ends with the state
      the stream describes. It stops at a refused record, with the state up to there. At a refused
      creation the allocator would also have passed the refused id (`Store.ApplyReplicated`). */
  method Follow(ops: seq<Op>, fits: Entry -> bool) returns (store: Store, done: nat)
    requires Streamable(ops)
    ensures fresh(store) && fresh(store.collections.Values) && store.Valid()
    ensures done <= |ops| && store.Acknowledged().ledger == LedgerReplay(EMPTY_LEDGER, ops[..done])
    ensures done < |ops| ==> !Takes(fits, store.nextLsn, ops[done])
    ensures forall cid: nat :: CreatesIn(ops[..done], cid) ==> cid < store.nextCid
  {
    hide DiskOk, Durable, AllRecover, KnowsOnly, LedgerApply, LedgerReplay, Appendable, DirectoryOf, Tail, NextOk, CreatesIn, Store.Valid,
      Meaning, Streamable;
    EmptyDiskOk();
    store := new Store(EMPTY_DISK, fits);
    KnowsNothing(store);
    assert ops[..0] == [];
    PartNothing(EMPTY_LEDGER);
    NothingStreamed();
    for i := 0 to |ops|
      invariant fresh(store) && fresh(store.collections.Values) && store.Valid() && store.fits == fits
      invariant store.Acknowledged().ledger == LedgerReplay(EMPTY_LEDGER, ops[..i])
      invariant KnowsOnly(store.Acknowledged().ledger, Tail(store.disk), ops[..i])
      invariant forall cid: nat :: CreatesIn(ops[..i], cid) ==> cid < store.nextCid
    {
      ghost var l, tail := store.Acknowledged().ledger, Tail(store.disk);
      NextLedger(ops, i);
      NextAllowed(ops, i);
      StreamedIsAppendable(store.memory, tail, ops[..i], ops[i]);
      if ops[i].Create? && !fits(Entry(store.nextLsn, ops[i])) { return store, i; }
      var ok := store.ApplyReplicated(ops[i]);
      if !ok { return store, i; }
      KnowsMore(l, tail, ops[..i], ops[i], Tail(store.disk));
      forall cid: nat ensures CreatesIn(ops[..i] + [ops[i]], cid) <==> CreatesIn(ops[..i], cid) || (ops[i].Create? && ops[i].cid == cid) {
        CreatesExtend(ops[..i], ops[i], cid);
      }
      assert ops[..i + 1] == ops[..i] + [ops[i]];
    }
    done := |ops|;
  }

  lemma NextAllowed(ops: seq<Op>, i: nat)
    requires Streamable(ops) && i < |ops|
    ensures NextOk(LedgerReplay(EMPTY_LEDGER, ops[..i]), ops[..i], ops[i])
  {}

  lemma NextLedger(ops: seq<Op>, i: nat)
    requires i < |ops|
    ensures LedgerReplay(EMPTY_LEDGER, ops[..i + 1]) == LedgerApply(LedgerReplay(EMPTY_LEDGER, ops[..i]), ops[i])
  {
    assert ops[..i + 1][..i] == ops[..i];
  }

  lemma StreamIs(ops: seq<Op>, s: State)
    requires StreamOf(ops, s)
    ensures Streamable(ops) && LedgerReplay(EMPTY_LEDGER, ops) == s.ledger
  {}

  /** Snapshot a leader, let it run on, and feed a fresh follower the snapshot and what
      the leader published since: unless the follower's log refuses a record, the follower ends
      with the leader's state. */
  method Replicate(leader: Store, cmds: seq<Command>, fits: Entry -> bool) returns (follower: Store, ghost sent: seq<Op>, done: nat)
    requires leader.Valid()
    modifies leader, leader.collections.Values
    ensures leader.Valid() && follower.Valid() && done <= |sent|
    ensures LedgerReplay(EMPTY_LEDGER, sent) == leader.Acknowledged().ledger && LedgerReplay(EMPTY_LEDGER, sent[..done]) == follower.Acknowledged().ledger
    ensures done < |sent| ==> !fits(Entry(follower.nextLsn, sent[done]))
    ensures forall cid :: cid in follower.Acknowledged().ledger.tables ==> cid < follower.nextCid
  {
    hide StreamOf, Ops, Performed, Completed, Logged, Named, Store.Valid, Meaning, LedgerReplay, Marked, AllMarked, Spent;
    var ops := leader.ReplicationSnapshot();
    var from := |leader.published|;
    assert ops + leader.published[from..] == ops;
    for i := 0 to |cmds|
      invariant leader.Valid() && fresh(leader.collections.Values - old(leader.collections.Values))
      invariant |leader.published| >= from
      invariant StreamOf(ops + leader.published[from..], leader.Acknowledged())
    {
      ghost var stream, v, lsn := ops + leader.published[from..], leader.Worlds(), leader.nextLsn;
      NamedLedger(leader);
      PublishedStream(stream, v, cmds[i], lsn, leader.fits);
      Execute(leader, cmds[i]);
      assert ops + leader.published[from..] == stream + Logged(v.now, cmds[i], lsn, leader.fits);
    }
    sent := ops + leader.published[from..];
    StreamIs(sent, leader.Acknowledged());
    follower, done := Follow(ops + leader.published[from..], fits);
    NamedLedger(follower);
  }

  lemma NamedLedger(store: Store)
    requires store.Valid()
    ensures Named(store.Acknowledged().ledger) && forall cid :: cid in store.Acknowledged().ledger.tables ==> cid < store.nextCid
  {
    hide Store.Linked, CatalogOk, Tracks, Leaves, Store.Exact, Named, Meaning;
    store.LedgerNamed();
  }
}
