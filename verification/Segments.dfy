/** Sealed segments as the engine sees them (crates/quiver-core/src/segment.rs): the
    rows of one immutable file set, its sorted forward index, and lookup by id. */
module Segments {
  import opened ByteStrings
  import opened KeyOrder
  import opened SecondaryIndex
  import Sorting

  type Id = Bytes

  /** A stored record. The vector is kept as its 4-byte element patterns. */
  datatype Row = Row(vector: seq<bv32>, payload: Payload)

  /** The content of one segment's files: ids and rows in row order, the row numbers
      in id order, and the secondary index over the payloads. */
  datatype SegFile = SegFile(ids: seq<Id>, rows: seq<Row>, sortedRows: seq<nat>, sec: SecIndex)

  function Payloads(rows: seq<Row>): (ps: seq<Payload>)
    ensures |ps| == |rows|
    ensures forall i :: 0 <= i < |rows| ==> ps[i] == rows[i].payload
  {
    seq(|rows|, i requires 0 <= i < |rows| => rows[i].payload)
  }

  predicate Distinct(ids: seq<Id>) {
    forall i, j :: 0 <= i < j < |ids| ==> ids[i] != ids[j]
  }

  /** `sortedRows` lists every row once, in ascending id order. */
  predicate ForwardIndex(ids: seq<Id>, sortedRows: seq<nat>) {
    && (forall i :: 0 <= i < |sortedRows| ==> sortedRows[i] < |ids|)
    && (forall r :: 0 <= r < |ids| ==> r in sortedRows)
    && (forall i, j :: 0 <= i < j < |sortedRows| ==> Less(ids[sortedRows[i]], ids[sortedRows[j]]))
  }

  predicate FileShape(f: SegFile) {
    |f.ids| == |f.rows| && Distinct(f.ids)
  }

  /** Both indexes of the segment describe its rows. */
  ghost predicate Indexed(f: SegFile, filterable: seq<FilterableField>) {
    && ForwardIndex(f.ids, f.sortedRows)
    && IndexFor(f.sec, filterable, Payloads(f.rows))
  }

  /** Row numbers in ascending id order. */
  method SortedRowsById(ids: seq<Id>) returns (order: seq<nat>)
    requires Distinct(ids)
    ensures ForwardIndex(ids, order)
  {
    var keys := SortedKeys(set id | id in ids);
    order := [];
    for i := 0 to |keys|
      invariant |order| == i
      invariant forall j :: 0 <= j < i ==> order[j] < |ids| && ids[order[j]] == keys[j]
    {
      assert keys[i] in keys;
      var at := Position(ids, keys[i]);
      order := order + [at.value];
    }
    forall r | 0 <= r < |ids| ensures r in order {
      assert ids[r] in keys;
      var i :| 0 <= i < |keys| && keys[i] == ids[r];
      assert ids[order[i]] == ids[r] && order[i] == r;
    }
  }

  /** Seal rows into a new segment: the forward index and the secondary index are
      computed from the rows, in the given row order. */
  method WriteSegment(ids: seq<Id>, rows: seq<Row>, filterable: seq<FilterableField>) returns (f: SegFile)
    requires |ids| == |rows| && Distinct(ids)
    ensures FileShape(f) && Indexed(f, filterable)
    ensures f.ids == ids && f.rows == rows
  {
    var order := SortedRowsById(ids);
    var sec := Build(filterable, Payloads(rows));
    f := SegFile(ids, rows, order, sec);
  }

  /** The row carrying `id`: range rejection by the smallest and largest id, then a
      binary search of the forward index. */
  method FindRow(f: SegFile, id: Id) returns (row: Option<nat>)
    requires Distinct(f.ids) && ForwardIndex(f.ids, f.sortedRows)
    ensures row == Position(f.ids, id)
  {
    var n := |f.sortedRows|;
    if n == 0 {
      assert |f.ids| > 0 ==> 0 in f.sortedRows;
      return None;
    }
    var min, max := f.ids[f.sortedRows[0]], f.ids[f.sortedRows[n - 1]];
    if Less(id, min) || Less(max, id) {
      OutOfRange(f, id);
      return None;
    }
    var lo, hi := 0, n;
    while lo < hi
      invariant 0 <= lo <= hi <= n
      invariant forall i :: 0 <= i < lo ==> Less(f.ids[f.sortedRows[i]], id)
      invariant forall i :: hi <= i < n ==> Less(id, f.ids[f.sortedRows[i]])
    {
      var mid := lo + (hi - lo) / 2;
      var r := f.sortedRows[mid];
      if Less(f.ids[r], id) {
        forall i | 0 <= i < mid ensures Less(f.ids[f.sortedRows[i]], id) {
          LessTransitive(f.ids[f.sortedRows[i]], f.ids[r], id);
        }
        lo := mid + 1;
      } else if Less(id, f.ids[r]) {
        forall i | mid < i < n ensures Less(id, f.ids[f.sortedRows[i]]) {
          LessTransitive(id, f.ids[r], f.ids[f.sortedRows[i]]);
        }
        hi := mid;
      } else {
        LessTotal(f.ids[r], id);
        return Some(r);
      }
    }
    if id in f.ids {
      var r :| 0 <= r < |f.ids| && f.ids[r] == id;
      assert r in f.sortedRows;
      var i :| 0 <= i < n && f.sortedRows[i] == r;
      LessIrreflexive(id);
      assert false;
    }
    row := None;
  }

  lemma OutOfRange(f: SegFile, id: Id)
    requires ForwardIndex(f.ids, f.sortedRows) && |f.sortedRows| > 0
    requires Less(id, f.ids[f.sortedRows[0]]) || Less(f.ids[f.sortedRows[|f.sortedRows| - 1]], id)
    ensures id !in f.ids
  {
    var n := |f.sortedRows|;
    forall r | 0 <= r < |f.ids| ensures f.ids[r] != id {
      assert r in f.sortedRows;
      var i :| 0 <= i < n && f.sortedRows[i] == r;
      LessIrreflexive(id);
      if Less(id, f.ids[f.sortedRows[0]]) && i > 0 { LessTransitive(id, f.ids[f.sortedRows[0]], f.ids[r]); }
      if !Less(id, f.ids[f.sortedRows[0]]) && i < n - 1 { LessTransitive(f.ids[r], f.ids[f.sortedRows[n - 1]], id); }
    }
  }
}
