/** What each command does to the acknowledged maps, said on the maps themselves
    (crates/quiver-core/src/store.rs, `apply_wal_entry` as the commands call it). */
module Effects {
  import opened ByteStrings
  import opened Segments
  import opened Descriptors
  import opened Collections
  import opened Replay
  import opened WindowReplay
  import opened Disks
  import opened Commands
  import opened Points

  /** One table's rows are replaced; names, schemas, other tables and the next id stay. */
  ghost predicate RowsBecome(s: State, s': State, cid: nat, rows: map<Id, Row>) {
    && cid in s.ledger.tables
    && s'.nextCid == s.nextCid && s'.ledger.names == s.ledger.names
    && s'.ledger.tables == s.ledger.tables[cid := Table(s.ledger.tables[cid].name, s.ledger.tables[cid].desc, rows)]
  }

  /** A new, empty table under the next id, and a name for it. */
  ghost predicate TableAdded(s: State, s': State, name: Bytes, desc: Descriptor) {
    && s'.nextCid == s.nextCid + 1 && s'.ledger.names == s.ledger.names[name := s.nextCid]
    && s'.ledger.tables == s.ledger.tables[s.nextCid := Table(name, desc, map[])]
  }

  /** The named table and the name are gone. */
  ghost predicate TableRemoved(s: State, s': State, name: Bytes) {
    && name in s.ledger.names
    && s'.nextCid == s.nextCid && s'.ledger.names == s.ledger.names - {name}
    && s'.ledger.tables == s.ledger.tables - {s.ledger.names[name]}
  }

  predicate LastOf(records: seq<(Id, Row)>, i: int) {
    0 <= i < |records| && forall j :: i < j < |records| ==> records[j].0 != records[i].0
  }

  predicate Includes(records: seq<(Id, Row)>, id: Id) { exists i :: 0 <= i < |records| && records[i].0 == id }

  /** Each id of the batch holds its last record; every other id is as before. */
  ghost predicate RowsOverwritten(rows: map<Id, Row>, rows': map<Id, Row>, records: seq<(Id, Row)>) {
    && (forall i :: LastOf(records, i) ==> records[i].0 in rows' && rows'[records[i].0] == records[i].1)
    && (forall id :: !Includes(records, id) ==> (id in rows' <==> id in rows) && (id in rows ==> rows'[id] == rows[id]))
  }

  ghost predicate BatchWritten(s: State, s': State, cid: nat, records: seq<(Id, Row)>) {
    && cid in s.ledger.tables && cid in s'.ledger.tables
    && RowsBecome(s, s', cid, s'.ledger.tables[cid].rows)
    && RowsOverwritten(s.ledger.tables[cid].rows, s'.ledger.tables[cid].rows, records)
  }

  lemma UpsertEffect(s: State, cid: nat, id: Id, row: Row)
    requires cid in s.ledger.tables
    ensures RowsBecome(s, StateApply(s, Upsert(cid, id, row)), cid, s.ledger.tables[cid].rows[id := row])
  {}

  lemma DeleteEffect(s: State, cid: nat, id: Id)
    requires cid in s.ledger.tables
    ensures RowsBecome(s, StateApply(s, Delete(cid, id)), cid, s.ledger.tables[cid].rows - {id})
  {}

  lemma CreateEffect(s: State, name: Bytes, desc: Descriptor)
    ensures TableAdded(s, StateApply(s, Create(s.nextCid, name, desc)), name, desc)
  {}

  lemma DropEffect(s: State, name: Bytes)
    requires name in s.ledger.names && s.ledger.names[name] in s.ledger.tables && s.ledger.tables[s.ledger.names[name]].name == name
    ensures TableRemoved(s, StateApply(s, Drop(s.ledger.names[name])), name)
  {}

  lemma {:induction false} BatchEffect(s: State, cid: nat, records: seq<(Id, Row)>)
    requires cid in s.ledger.tables
    ensures BatchWritten(s, StateReplay(s, UpsertOps(cid, records)), cid, records)
  {
    hide StateApply, RowsOverwritten;
    if records == [] {
      NothingOverwritten(s.ledger.tables[cid].rows);
    } else {
      var n := |records| - 1;
      var before := StateReplay(s, UpsertOps(cid, records[..n]));
      assert UpsertOps(cid, records)[..n] == UpsertOps(cid, records[..n]);
      BatchEffect(s, cid, records[..n]);
      UpsertEffect(before, cid, records[n].0, records[n].1);
      OneMore(s.ledger.tables[cid].rows, before.ledger.tables[cid].rows, records);
    }
  }

  lemma NothingOverwritten(rows: map<Id, Row>)
    ensures RowsOverwritten(rows, rows, [])
  {}

  lemma OneMore(rows: map<Id, Row>, before: map<Id, Row>, records: seq<(Id, Row)>)
    requires records != [] && RowsOverwritten(rows, before, records[..|records| - 1])
    ensures RowsOverwritten(rows, before[records[|records| - 1].0 := records[|records| - 1].1], records)
  {
    hide LastOf, Includes;
    var n := |records| - 1;
    var after := before[records[n].0 := records[n].1];
    forall i | LastOf(records, i) ensures 0 <= i < |records| && records[i].0 in after && after[records[i].0] == records[i].1 {
      LastBefore(records, i);
    }
    forall id | !Includes(records, id) ensures (id in after <==> id in rows) && (id in rows ==> after[id] == rows[id]) {
      NotBefore(records, id);
    }
  }

  lemma LastBefore(records: seq<(Id, Row)>, i: int)
    requires LastOf(records, i)
    ensures 0 <= i < |records|
    ensures i < |records| - 1 ==> LastOf(records[..|records| - 1], i) && records[i].0 != records[|records| - 1].0
  {}

  lemma NotBefore(records: seq<(Id, Row)>, id: Id)
    requires records != [] && !Includes(records, id)
    ensures !Includes(records[..|records| - 1], id) && records[|records| - 1].0 != id
  {}

  /** A batch the log took to its end, and one it did not. */
  lemma BatchWrote(v: Worlds, v': Worlds, cid: nat, records: seq<(Id, Row)>, lsn: nat, fits: Entry -> bool, steps: seq<Point>)
    requires Wrote(v, v', Commands.UpsertBatch(cid, records), lsn, fits, steps) && records != []
    requires Ops(v.now, Commands.UpsertBatch(cid, records)) == UpsertOps(cid, records) && cid in v.now.ledger.tables
    ensures if Taken(fits, lsn, UpsertOps(cid, records)) == |records| then
        BatchWritten(v.now, v'.now, cid, records) && v'.kept == StateReplay(v.kept, v.pending + UpsertOps(cid, records)) && v'.pending == []
      else v'.now == v.now
  {
    hide Ops, BatchWritten, Framed, Taken, StateReplay;
    BatchEffect(v.now, cid, records);
  }

  /** The log takes a whole batch exactly when no record is too large under its number. */
  lemma AllTaken(fits: Entry -> bool, lsn: nat, cid: nat, records: seq<(Id, Row)>)
    ensures Taken(fits, lsn, UpsertOps(cid, records)) < |records|
       <==> exists i :: 0 <= i < |records| && !fits(Entry(lsn + i, Upsert(cid, records[i].0, records[i].1)))
  {
    var ops := UpsertOps(cid, records);
    var n := Taken(fits, lsn, ops);
    if n < |records| { assert ops[n] == Upsert(cid, records[n].0, records[n].1); }
    if n == |records| {
      forall i | 0 <= i < |records| ensures fits(Entry(lsn + i, Upsert(cid, records[i].0, records[i].1))) {
        assert fits(Entry(lsn + i, ops[i]));
      }
    }
  }

  /** Names that are allowed and names that are not, at every boundary. */
  lemma NameBoundaries(b: Byte)
    ensures !ValidName([]) && (ValidName([b]) <==> b == 45 || b == 46 || 48 <= b < 58 || 65 <= b < 91 || b == 95 || 97 <= b < 123)
    ensures ValidName(seq(255, _ => 97)) && !ValidName(seq(256, _ => 97))
  {
    assert [b][0] == b;
  }
}
