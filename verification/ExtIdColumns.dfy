/** The on-disk id column behind the id map: offsets, forward index and id bytes in one
    block file (crates/quiver-core/src/extidcol.rs). */
module ExtIdColumns {
  import opened ByteStrings
  import opened KeyOrder
  import opened Words
  import opened Pages
  import opened Blocks
  import opened SegmentFiles
  import Segments
  import Sorting

  // ---- tables of words -----------------------------------------------------

  function Table(ws: seq<nat>, width: nat): Bytes {
    if ws == [] then [] else Table(ws[..|ws| - 1], width) + Le(ws[|ws| - 1], width)
  }

  lemma {:induction false} TableLength(ws: seq<nat>, width: nat)
    ensures |Table(ws, width)| == |ws| * width
  {
    if ws != [] {
      TableLength(ws[..|ws| - 1], width);
      MulStep(|ws|, width);
    }
  }

  /** Entry `i` of a table lies at `i` times the width. */
  lemma {:induction false} TableAt(ws: seq<nat>, width: nat, i: nat, at: nat)
    requires i < |ws| && at == i * width
    ensures at + width <= |Table(ws, width)| && Table(ws, width)[at..at + width] == Le(ws[i], width)
  {
    hide Le;
    var n := |ws| - 1;
    TableLength(ws[..n], width);
    if i < n { TableAt(ws[..n], width, i, at); }
  }

  /** Cumulative lengths, starting at zero. */
  function Offsets(ids: seq<Bytes>): (o: seq<nat>)
    ensures |o| == |ids| + 1 && forall i :: 0 <= i <= |ids| ==> o[i] == |Concat(ids[..i])|
  {
    seq(|ids| + 1, i requires 0 <= i <= |ids| => |Concat(ids[..i])|)
  }

  function Content(ids: seq<Bytes>, order: seq<nat>): Bytes {
    Le(|ids|, 8) + Table(Offsets(ids), 8) + Table(order, 4) + Concat(ids)
  }

  // ---- writing -------------------------------------------------------------

  lemma TableNext(ws: seq<nat>, width: nat, i: nat)
    requires i < |ws|
    ensures Table(ws[..i + 1], width) == Table(ws[..i], width) + Le(ws[i], width)
  {
    assert ws[..i + 1][..i] == ws[..i];
  }

  lemma ConcatNext(ids: seq<Bytes>, i: nat)
    requires i < |ids|
    ensures Concat(ids[..i + 1]) == Concat(ids[..i]) + ids[i]
  {
    assert ids[..i + 1][..i] == ids[..i];
  }

  /** Every position once, by ascending id. */
  ghost predicate AscendingOrder(ids: seq<Bytes>, order: seq<nat>) {
    && multiset(order) == multiset(seq(|ids|, i => i))
    && (forall i :: 0 <= i < |order| ==> order[i] < |ids|)
    && (forall i, j :: 0 <= i < j < |order| ==> AtMost(ids[order[i]], ids[order[j]]))
  }

  function IdAt(ids: seq<Bytes>, i: nat): Bytes { if i < |ids| then ids[i] else [] }

  /** Positions sorted by id. */
  method SortedById(ids: seq<Bytes>) returns (order: seq<nat>)
    ensures AscendingOrder(ids, order)
    ensures Segments.Distinct(ids) ==> Segments.ForwardIndex(ids, order)
  {
    var all: seq<nat> := seq(|ids|, i => i);
    var le := (a: nat, b: nat) => AtMost(IdAt(ids, a), IdAt(ids, b));
    ById(ids);
    order := Sorting.Sort(all, le);
    Sorting.SortSorted(all, le);
    SortedIs(ids, all, order);
  }

  lemma ById(ids: seq<Bytes>)
    ensures Sorting.TotalPreorder((a: nat, b: nat) => AtMost(IdAt(ids, a), IdAt(ids, b)))
  {
    hide IdAt;
    AtMostIsTotalPreorder();
  }

  lemma SortedIs(ids: seq<Bytes>, all: seq<nat>, order: seq<nat>)
    requires all == seq(|ids|, i => i) && multiset(order) == multiset(all)
    requires Sorting.SortedBy(order, (a: nat, b: nat) => AtMost(IdAt(ids, a), IdAt(ids, b)))
    ensures AscendingOrder(ids, order) && (Segments.Distinct(ids) ==> Segments.ForwardIndex(ids, order))
  {
    forall i | 0 <= i < |order| ensures order[i] < |ids| { assert order[i] in multiset(order); }
    forall r | 0 <= r < |ids| ensures r in order { assert all[r] in multiset(all); }
    if Segments.Distinct(ids) {
      forall i, j | 0 <= i < j < |order| ensures Less(ids[order[i]], ids[order[j]]) {
        Sorting.DistinctKeys(all, order, (x: nat) => x, i, j);
      }
    }
  }

  /** Stream the column through one page. */
  method Write(f: Format, ids: seq<Bytes>) returns (file: Bytes)
    ensures exists order: seq<nat> ::
      && AscendingOrder(ids, order) && file == FileOf(f, Content(ids, order))
      && (Segments.Distinct(ids) ==> Segments.ForwardIndex(ids, order))
  {
    hide Le, Table, Concat, FileOf, FirstBlocks, Segments.ForwardIndex, Segments.Distinct, AscendingOrder;
    var w := new BlockWriter(f);
    w.Write(Le(|ids|, 8));
    WriteOffsets(w, ids);
    var sorted := SortedById(ids);
    WriteTable(w, sorted);
    WriteIds(w, ids);
    assert w.content == Content(ids, sorted);
    w.Finish();
    file := w.file;
  }

  method WriteOffsets(w: BlockWriter, ids: seq<Bytes>)
    requires w.Valid()
    modifies w
    ensures w.Valid() && w.content == old(w.content) + Table(Offsets(ids), 8)
  {
    hide Le, Table, Concat, FirstBlocks;
    ghost var o := Offsets(ids);
    NothingYet(o, ids);
    w.Write(Le(0, 8));
    var cum := 0;
    for i := 0 to |ids|
      invariant w.Valid() && cum == |Concat(ids[..i])|
      invariant w.content == old(w.content) + Table(o[..i + 1], 8)
    {
      ConcatNext(ids, i);
      TableNext(o, 8, i + 1);
      cum := cum + |ids[i]|;
      w.Write(Le(cum, 8));
    }
    assert o[..|ids| + 1] == o;
  }

  lemma NothingYet(o: seq<nat>, ids: seq<Bytes>)
    ensures Concat(ids[..0]) == []
    ensures o != [] && o[0] == 0 ==> Table(o[..1], 8) == Le(0, 8)
  {
    if o != [] { assert o[..1] == [o[0]] && [o[0]][..0] == []; }
  }

  method WriteTable(w: BlockWriter, ws: seq<nat>)
    requires w.Valid()
    modifies w
    ensures w.Valid() && w.content == old(w.content) + Table(ws, 4)
  {
    hide Le, FirstBlocks;
    for i := 0 to |ws|
      invariant w.Valid() && w.content == old(w.content) + Table(ws[..i], 4)
    {
      TableNext(ws, 4, i);
      w.Write(Le(ws[i], 4));
    }
    assert ws[..|ws|] == ws;
  }

  method WriteIds(w: BlockWriter, ids: seq<Bytes>)
    requires w.Valid()
    modifies w
    ensures w.Valid() && w.content == old(w.content) + Concat(ids)
  {
    hide FirstBlocks;
    for i := 0 to |ids|
      invariant w.Valid() && w.content == old(w.content) + Concat(ids[..i])
    {
      ConcatNext(ids, i);
      w.Write(ids[i]);
    }
    assert ids[..|ids|] == ids;
  }

  // ---- opening -------------------------------------------------------------

  datatype Column = Column(offsets: seq<nat>, sorted: seq<nat>, idsBase: nat)

  predicate Sized(ids: seq<Bytes>, order: seq<nat>) { |ids| < 0x1_0000_0000 && |order| == |ids| && Word64(|Content(ids, order)|) }

  /** The three regions of the content. */
  lemma Regions(ids: seq<Bytes>, order: seq<nat>)
    requires |order| == |ids|
    ensures var c, n := Content(ids, order), |ids|;
      && |c| == 8 + (n + 1) * 8 + n * 4 + |Concat(ids)|
      && c[..8] == Le(n, 8) && c[8..8 + (n + 1) * 8] == Table(Offsets(ids), 8)
      && c[8 + (n + 1) * 8..8 + (n + 1) * 8 + n * 4] == Table(order, 4)
      && c[8 + (n + 1) * 8 + n * 4..] == Concat(ids)
  {
    hide Le, Table, Concat;
    TableLength(Offsets(ids), 8);
    TableLength(order, 4);
    var a, b, t, d := Le(|ids|, 8), Table(Offsets(ids), 8), Table(order, 4), Concat(ids);
    assert Content(ids, order) == a + b + t + d;
  }

  /** Split a table into its words. */
  method ReadTable(b: Bytes, width: nat, ghost ws: seq<nat>) returns (r: seq<nat>)
    requires width > 0 && b == Table(ws, width) && forall i :: 0 <= i < |ws| ==> ws[i] < Range(width)
    ensures r == ws
  {
    hide Le, FromLe, Table;
    r := [];
    var at := 0;
    TableLength(ws, width);
    while at < |b|
      invariant |r| <= |ws| && at == |r| * width && r == ws[..|r|]
      decreases |b| - at
    {
      Beyond(|r|, |ws|, width);
      TableAt(ws, width, |r|, at);
      LeRoundTrip(ws[|r|], width);
      MulStep(|r| + 1, width);
      r := r + [FromLe(b[at..at + width])];
      at := at + width;
    }
    if |r| < |ws| { Apart(|ws|, |r|, width); }
    assert ws[..|ws|] == ws;
  }

  lemma Beyond(a: nat, b: nat, width: nat)
    requires a <= b && a * width < b * width
    ensures a < b
  {}

  method Open(f: Format, file: Bytes, ghost ids: seq<Bytes>, ghost order: seq<nat>) returns (r: Result<Column, PageError>)
    requires FormatOk(f) && Sized(ids, order) && file == FileOf(f, Content(ids, order))
    requires forall i :: 0 <= i < |order| ==> order[i] < |ids|
    ensures r == Ok(Column(Offsets(ids), order, 8 + (|ids| + 1) * 8 + |ids| * 4))
  {
    hide Le, FromLe, Table, Concat, FileOf;
    ghost var c := Content(ids, order);
    Regions(ids, order);
    Ranges();
    LeRoundTrip(|ids|, 8);
    OffsetsFit(ids, order);
    var head := ReadRange(f, file, 0, 8, c);
    assert c[0..8] == c[..8];
    var n := FromLe(head.value);
    var offBytes := ReadRange(f, file, 8, (n + 1) * 8, c);
    var offsets := ReadTable(offBytes.value, 8, Offsets(ids));
    var sortedOff := 8 + (n + 1) * 8;
    var sortedBytes := ReadRange(f, file, sortedOff, n * 4, c);
    EmptyTable(order);
    var sorted := ReadTable(sortedBytes.value, 4, order);
    return Ok(Column(offsets, sorted, sortedOff + n * 4));
  }

  lemma EmptyTable(order: seq<nat>)
    ensures |order| == 0 ==> Table(order, 4) == []
  {}

  lemma {:induction false} PrefixShorter(ids: seq<Bytes>, i: nat)
    requires i <= |ids|
    ensures |Concat(ids[..i])| <= |Concat(ids)|
  {
    if i == |ids| {
      assert ids[..i] == ids;
    } else {
      var n := |ids| - 1;
      PrefixShorter(ids[..n], i);
      assert ids[..n][..i] == ids[..i];
    }
  }

  lemma OffsetsFit(ids: seq<Bytes>, order: seq<nat>)
    requires Sized(ids, order)
    ensures forall i :: 0 <= i < |Offsets(ids)| ==> Offsets(ids)[i] < Range(8)
  {
    hide Concat;
    Regions(ids, order);
    Ranges();
    forall i | 0 <= i <= |ids| ensures |Concat(ids[..i])| < Range(8) { PrefixShorter(ids, i); }
  }

  // ---- reading -------------------------------------------------------------

  /** The external id of an internal one. */
  method Read(f: Format, file: Bytes, col: Column, internal: nat, ghost ids: seq<Bytes>, ghost order: seq<nat>) returns (r: Result<Bytes, PageError>)
    requires FormatOk(f) && Sized(ids, order) && file == FileOf(f, Content(ids, order))
    requires col == Column(Offsets(ids), order, 8 + (|ids| + 1) * 8 + |ids| * 4)
    ensures r == if internal < |ids| then Ok(ids[internal]) else Err(MalformedPage)
  {
    hide Le, Table, Concat, FileOf;
    if internal + 1 >= |col.offsets| { return Err(MalformedPage); }
    ghost var c := Content(ids, order);
    Regions(ids, order);
    PartSlice(ids, internal);
    ConcatNext(ids, internal);
    var off := col.idsBase + col.offsets[internal];
    var len := col.offsets[internal + 1] - col.offsets[internal];
    assert c[off..off + len] == c[col.idsBase..][col.offsets[internal]..col.offsets[internal] + len];
    r := ReadRange(f, file, off, len, c);
  }

  /** The internal id of an external one: binary search over the forward index, reading
      each candidate from disk to compare. */
  method Lookup(f: Format, file: Bytes, col: Column, ext: Bytes, ghost ids: seq<Bytes>) returns (r: Result<Option<nat>, PageError>)
    requires FormatOk(f) && Sized(ids, col.sorted) && file == FileOf(f, Content(ids, col.sorted))
    requires col == Column(Offsets(ids), col.sorted, 8 + (|ids| + 1) * 8 + |ids| * 4)
    requires Segments.Distinct(ids) && Segments.ForwardIndex(ids, col.sorted)
    ensures r == Ok(Position(ids, ext))
  {
    hide FileOf, Content, Position, Offsets;
    var lo, hi := 0, |col.sorted| - 1;
    while lo <= hi
      invariant 0 <= lo <= hi + 1 <= |col.sorted|
      invariant forall i :: 0 <= i < lo ==> Less(ids[col.sorted[i]], ext)
      invariant forall i :: hi < i < |col.sorted| ==> Less(ext, ids[col.sorted[i]])
      decreases hi - lo + 1
    {
      var mid := (lo + hi) / 2;
      var row := col.sorted[mid];
      var candidate := Read(f, file, col, row, ids, col.sorted);
      LessTotal(candidate.value, ext);
      if candidate.value == ext {
        assert Position(ids, ext).Some?;
        return Ok(Some(row));
      } else if Less(candidate.value, ext) {
        forall i | 0 <= i < mid ensures Less(ids[col.sorted[i]], ext) { LessTransitive(ids[col.sorted[i]], ids[row], ext); }
        lo := mid + 1;
      } else {
        forall i | mid < i < |col.sorted| ensures Less(ext, ids[col.sorted[i]]) { LessTransitive(ext, ids[row], ids[col.sorted[i]]); }
        hi := mid - 1;
      }
    }
    if Position(ids, ext).Some? {
      var at := Position(ids, ext).value;
      assert at in col.sorted;
      LessIrreflexive(ext);
    }
    return Ok(None);
  }

  /** One column's bytes: the count, the cumulative offsets, the forward index and the ids,
      words least significant byte first. */
  lemma KnownColumn()
    ensures Content([[98], [97]], [1, 0]) ==
      [2, 0, 0, 0, 0, 0, 0, 0] +
      [0, 0, 0, 0, 0, 0, 0, 0] + [1, 0, 0, 0, 0, 0, 0, 0] + [2, 0, 0, 0, 0, 0, 0, 0] +
      [1, 0, 0, 0] + [0, 0, 0, 0] + [98, 97]
  {
    hide Le, Table, Concat;
    var ids: seq<Bytes> := [[98], [97]];
    SmallWord(0);
    SmallWord(1);
    SmallWord(2);
    ConcatOf(ids);
    assert Offsets(ids) == [0, 1, 2];
    TableOf3(0, 1, 2, 8);
    TableOf2(1, 0, 4);
  }

  lemma SmallWord(n: nat)
    requires n < 256
    ensures Le(n, 8) == [n, 0, 0, 0, 0, 0, 0, 0] && Le(n, 4) == [n, 0, 0, 0]
  {
    assert Le(0, 1) == [0];
    assert Le(0, 2) == [0, 0];
    assert Le(0, 3) == [0, 0, 0];
    assert Le(0, 4) == [0, 0, 0, 0];
    assert Le(0, 5) == [0, 0, 0, 0, 0];
    assert Le(0, 6) == [0, 0, 0, 0, 0, 0];
    assert Le(0, 7) == [0, 0, 0, 0, 0, 0, 0];
  }

  lemma ConcatOf(ids: seq<Bytes>)
    requires |ids| == 2
    ensures Concat(ids) == ids[0] + ids[1] && Concat(ids[..2]) == ids[0] + ids[1] && Concat(ids[..1]) == ids[0] && Concat(ids[..0]) == []
  {
    var one := ids[..1];
    assert ids[..0] == [] && one[..0] == [] && one[0] == ids[0] && ids[..2] == ids;
    assert Concat(one) == [] + ids[0];
  }

  lemma TableOf2(a: nat, b: nat, width: nat)
    ensures Table([a, b], width) == Le(a, width) + Le(b, width)
  {
    hide Le;
    assert [a, b][..1] == [a] && [a][..0] == [];
    assert Table([a], width) == [] + Le(a, width);
  }

  lemma TableOf3(a: nat, b: nat, c: nat, width: nat)
    ensures Table([a, b, c], width) == Le(a, width) + Le(b, width) + Le(c, width)
  {
    hide Le;
    TableOf2(a, b, width);
    assert [a, b, c][..2] == [a, b];
  }
}
