/** The per-segment secondary index (crates/quiver-core/src/sec.rs): built from
    payloads, queried by binary search, proved to agree with direct evaluation. */
module SecondaryIndex {
  import opened ByteStrings
  import opened KeyOrder
  import opened Doubles

  datatype FieldType = Keyword | Numeric

  datatype FilterableField = FilterableField(path: Bytes, fieldType: FieldType)

  /** A JSON value as far as the index looks into it. */
  datatype FieldValue = Text(s: Bytes) | Number(f: Double) | OtherJson

  /** Opaque payload bytes with the values their JSON form holds at each dot-path.
      Bytes that are not JSON hold no values. */
  datatype Payload = Payload(raw: Bytes, fields: map<Bytes, FieldValue>)

  datatype SecValue = KeywordValue(s: Bytes) | NumericValue(f: Double)

  datatype SecPredicate =
    | Eq(field: Bytes, value: SecValue)
    | In(field: Bytes, values: seq<SecValue>)
    | Range(field: Bytes, lo: Option<SecValue>, hi: Option<SecValue>, loInclusive: bool, hiInclusive: bool)

  function EncodeFieldValue(t: FieldType, v: FieldValue): Option<Bytes> {
    match (t, v)
    case (Keyword, Text(s)) => Some(s)
    case (Numeric, Number(f)) => if IsNaN(f) then None else Some(EncodeF64(f))
    case (_, _) => None
  }

  function EncodeSecValue(t: FieldType, v: SecValue): Option<Bytes> {
    match (t, v)
    case (Keyword, KeywordValue(s)) => Some(s)
    case (Numeric, NumericValue(f)) => if IsNaN(f) then None else Some(EncodeF64(f))
    case (_, _) => None
  }

  /** The key a payload holds at a path, if any. */
  function KeyOf(path: Bytes, t: FieldType, p: Payload): Option<Bytes> {
    if path in p.fields then EncodeFieldValue(t, p.fields[path]) else None
  }

  // ---- direct evaluation ---------------------------------------------------

  predicate EqualsKey(t: FieldType, v: SecValue, key: Bytes) {
    EncodeSecValue(t, v) == Some(key)
  }

  predicate AboveLow(t: FieldType, lo: Option<SecValue>, inclusive: bool, key: Bytes) {
    match lo
    case None => true
    case Some(v) =>
      match EncodeSecValue(t, v)
      case None => false
      case Some(l) => Less(l, key) || (key == l && inclusive)
  }

  predicate BelowHigh(t: FieldType, hi: Option<SecValue>, inclusive: bool, key: Bytes) {
    match hi
    case None => true
    case Some(v) =>
      match EncodeSecValue(t, v)
      case None => false
      case Some(h) => Less(key, h) || (key == h && inclusive)
  }

  predicate KeyMatches(p: SecPredicate, t: FieldType, key: Bytes) {
    match p
    case Eq(_, v) => EqualsKey(t, v, key)
    case In(_, vs) => exists i :: 0 <= i < |vs| && EqualsKey(t, vs[i], key)
    case Range(_, lo, hi, li, hi') => AboveLow(t, lo, li, key) && BelowHigh(t, hi, hi', key)
  }

  /** Whether one payload satisfies a predicate: the un-indexed path. */
  predicate PayloadMatches(p: SecPredicate, t: FieldType, payload: Payload) {
    var key := KeyOf(p.field, t, payload);
    key.Some? && KeyMatches(p, t, key.value)
  }

  /** On a numeric field, a range means the range of the numbers denoted. */
  lemma NumericRangeMeaning(path: Bytes, lo: Double, hi: Double, li: bool, hi': bool, payload: Payload)
    requires !IsNaN(lo) && !IsNaN(hi)
    ensures PayloadMatches(Range(path, Some(NumericValue(lo)), Some(NumericValue(hi)), li, hi'), Numeric, payload)
       <==> path in payload.fields && payload.fields[path].Number? && !IsNaN(payload.fields[path].f)
            && (var x := Value(payload.fields[path].f);
                && (NumLess(Value(lo), x) || (li && x == Value(lo)))
                && (NumLess(x, Value(hi)) || (hi' && x == Value(hi))))
  {
    if path in payload.fields && payload.fields[path].Number? && !IsNaN(payload.fields[path].f) {
      var x := payload.fields[path].f;
      OrderEmbedding(lo, x);
      OrderEmbedding(x, hi);
      OrderEmbedding(x, lo);
    }
  }

  // ---- the index -----------------------------------------------------------

  /** One field's index: ascending keys, each with the rows holding it. */
  datatype FieldIndex = FieldIndex(path: Bytes, fieldType: FieldType, keys: seq<Bytes>, bitmaps: seq<set<nat>>)

  type SecIndex = seq<FieldIndex>

  function RowsHolding(path: Bytes, t: FieldType, payloads: seq<Payload>, key: Bytes): set<nat> {
    set r | 0 <= r < |payloads| && KeyOf(path, t, payloads[r]) == Some(key)
  }

  /** The field index describes exactly the keys of `payloads`. */
  ghost predicate Describes(fi: FieldIndex, payloads: seq<Payload>) {
    && StrictlyAscending(fi.keys)
    && |fi.bitmaps| == |fi.keys|
    && (forall i :: 0 <= i < |fi.keys| ==>
          fi.bitmaps[i] == RowsHolding(fi.path, fi.fieldType, payloads, fi.keys[i]))
    && (forall r :: 0 <= r < |payloads| && KeyOf(fi.path, fi.fieldType, payloads[r]).Some? ==>
          KeyOf(fi.path, fi.fieldType, payloads[r]).value in fi.keys)
  }

  ghost predicate IndexFor(idx: SecIndex, filterable: seq<FilterableField>, payloads: seq<Payload>) {
    && |idx| == |filterable|
    && forall i :: 0 <= i < |idx| ==>
         && idx[i].path == filterable[i].path
         && idx[i].fieldType == filterable[i].fieldType
         && Describes(idx[i], payloads)
  }

  ghost predicate MapFor(m: map<Bytes, set<nat>>, f: FilterableField, payloads: seq<Payload>) {
    && (forall key :: key in m ==> m[key] == RowsHolding(f.path, f.fieldType, payloads, key))
    && (forall r :: 0 <= r < |payloads| && KeyOf(f.path, f.fieldType, payloads[r]).Some? ==>
          KeyOf(f.path, f.fieldType, payloads[r]).value in m)
  }

  /** Adding one row to a field's map keeps it exact. */
  lemma MapForAppend(m: map<Bytes, set<nat>>, f: FilterableField, payloads: seq<Payload>, p: Payload)
    requires MapFor(m, f, payloads)
    ensures var key := KeyOf(f.path, f.fieldType, p);
      MapFor(if key.None? then m
             else m[key.value := (if key.value in m then m[key.value] else {}) + {|payloads|}],
             f, payloads + [p])
  {
    var key := KeyOf(f.path, f.fieldType, p);
    var ps := payloads + [p];
    forall k: Bytes
      ensures RowsHolding(f.path, f.fieldType, ps, k)
           == RowsHolding(f.path, f.fieldType, payloads, k) + (if key == Some(k) then {|payloads|} else {})
    {
      assert forall r :: 0 <= r < |payloads| ==> ps[r] == payloads[r];
    }
    if key.Some? && key.value !in m {
      assert RowsHolding(f.path, f.fieldType, payloads, key.value) == {};
    }
  }

  method Build(filterable: seq<FilterableField>, payloads: seq<Payload>) returns (idx: SecIndex)
    ensures IndexFor(idx, filterable, payloads)
  {
    hide MapFor, Describes;
    var maps := CollectKeys(filterable, payloads);
    idx := [];
    for i := 0 to |filterable|
      invariant IndexFor(idx, filterable[..i], payloads)
    {
      var fi := SortField(filterable[i], maps[i], payloads);
      idx := idx + [fi];
    }
    assert filterable[..|filterable|] == filterable;
  }

  /** One pass over the rows: each field's keys with the rows that hold them. */
  method CollectKeys(filterable: seq<FilterableField>, payloads: seq<Payload>) returns (maps: seq<map<Bytes, set<nat>>>)
    ensures |maps| == |filterable| && forall i :: 0 <= i < |maps| ==> MapFor(maps[i], filterable[i], payloads)
  {
    hide MapFor, KeyOf;
    maps := seq(|filterable|, _ => map[]);
    assert payloads[..0] == [];
    forall i | 0 <= i < |maps| ensures MapFor(maps[i], filterable[i], []) { MapForNothing(filterable[i]); }
    for row := 0 to |payloads|
      invariant |maps| == |filterable|
      invariant forall i :: 0 <= i < |maps| ==> MapFor(maps[i], filterable[i], payloads[..row])
    {
      ghost var next := payloads[..row] + [payloads[row]];
      for i := 0 to |filterable|
        invariant |maps| == |filterable|
        invariant forall j :: 0 <= j < i ==> MapFor(maps[j], filterable[j], next)
        invariant forall j :: i <= j < |maps| ==> MapFor(maps[j], filterable[j], payloads[..row])
      {
        var key := KeyOf(filterable[i].path, filterable[i].fieldType, payloads[row]);
        MapForAppend(maps[i], filterable[i], payloads[..row], payloads[row]);
        if key.Some? {
          var held := if key.value in maps[i] then maps[i][key.value] else {};
          maps := maps[i := maps[i][key.value := held + {row}]];
        }
      }
      assert payloads[..row + 1] == next;
    }
    assert payloads[..|payloads|] == payloads;
  }

  lemma MapForNothing(f: FilterableField)
    ensures MapFor(map[], f, [])
  {}

  /** A field's keys in ascending order, each with its rows. */
  method SortField(f: FilterableField, m: map<Bytes, set<nat>>, ghost payloads: seq<Payload>) returns (fi: FieldIndex)
    requires MapFor(m, f, payloads)
    ensures fi.path == f.path && fi.fieldType == f.fieldType && Describes(fi, payloads)
  {
    var keys := SortedKeys(m.Keys);
    var bitmaps := seq(|keys|, k requires 0 <= k < |keys| => assert keys[k] in keys; m[keys[k]]);
    fi := FieldIndex(f.path, f.fieldType, keys, bitmaps);
  }

  /** Rows whose key is matched by any key test, as the union over matching keys. */
  lemma UnionOverKeys(fi: FieldIndex, payloads: seq<Payload>, r: nat)
    requires Describes(fi, payloads)
    ensures (exists i :: 0 <= i < |fi.keys| && r in fi.bitmaps[i])
       <==> r < |payloads| && KeyOf(fi.path, fi.fieldType, payloads[r]).Some?
    ensures forall i :: 0 <= i < |fi.keys| ==>
              (r in fi.bitmaps[i] <==> r < |payloads| && KeyOf(fi.path, fi.fieldType, payloads[r]) == Some(fi.keys[i]))
  {
    if r < |payloads| && KeyOf(fi.path, fi.fieldType, payloads[r]).Some? {
      var i :| 0 <= i < |fi.keys| && fi.keys[i] == KeyOf(fi.path, fi.fieldType, payloads[r]).value;
      assert r in fi.bitmaps[i];
    }
  }

  method Equals(fi: FieldIndex, v: SecValue, ghost payloads: seq<Payload>) returns (rows: set<nat>)
    requires Describes(fi, payloads)
    ensures forall r :: r in rows <==>
              0 <= r < |payloads| && (var k := KeyOf(fi.path, fi.fieldType, payloads[r]);
                                      k.Some? && EqualsKey(fi.fieldType, v, k.value))
  {
    var key := EncodeSecValue(fi.fieldType, v);
    if key.None? { return {}; }
    var at := BinarySearch(fi.keys, key.value);
    rows := if at.Some? then fi.bitmaps[at.value] else {};
  }

  method RangeRows(fi: FieldIndex, lo: Option<SecValue>, hi: Option<SecValue>, loInclusive: bool, hiInclusive: bool,
                   ghost payloads: seq<Payload>)
    returns (rows: set<nat>)
    requires Describes(fi, payloads)
    ensures forall r :: r in rows <==>
              0 <= r < |payloads| && (var k := KeyOf(fi.path, fi.fieldType, payloads[r]);
                k.Some? && AboveLow(fi.fieldType, lo, loInclusive, k.value) && BelowHigh(fi.fieldType, hi, hiInclusive, k.value))
  {
    var start, end := 0, |fi.keys|;
    if lo.Some? {
      var l := EncodeSecValue(fi.fieldType, lo.value);
      if l.None? { return {}; }
      start := Bisect(fi.keys, l.value, !loInclusive);
    }
    if hi.Some? {
      var h := EncodeSecValue(fi.fieldType, hi.value);
      if h.None? { return {}; }
      end := Bisect(fi.keys, h.value, hiInclusive);
    }
    // The window is exactly the matching keys.
    forall i | 0 <= i < |fi.keys|
      ensures start <= i < end <==>
        AboveLow(fi.fieldType, lo, loInclusive, fi.keys[i]) && BelowHigh(fi.fieldType, hi, hiInclusive, fi.keys[i])
    {
      WindowKey(fi, lo, hi, loInclusive, hiInclusive, i);
    }
    rows := {};
    var i := start;
    while i < end
      invariant start <= i
      invariant i <= end || i == start
      invariant forall r :: r in rows <==> exists j :: start <= j < i && r in fi.bitmaps[j]
    {
      rows := rows + fi.bitmaps[i];
      i := i + 1;
    }
    forall r: nat { UnionOverKeys(fi, payloads, r); }
  }

  /** Where one key falls relative to the two bounds. */
  lemma WindowKey(fi: FieldIndex, lo: Option<SecValue>, hi: Option<SecValue>, li: bool, hi': bool, i: nat)
    requires StrictlyAscending(fi.keys) && i < |fi.keys|
    ensures lo.Some? && EncodeSecValue(fi.fieldType, lo.value).Some? ==>
      (PartitionPoint(fi.keys, EncodeSecValue(fi.fieldType, lo.value).value, !li) <= i <==>
       AboveLow(fi.fieldType, lo, li, fi.keys[i]))
    ensures hi.Some? && EncodeSecValue(fi.fieldType, hi.value).Some? ==>
      (i < PartitionPoint(fi.keys, EncodeSecValue(fi.fieldType, hi.value).value, hi') <==>
       BelowHigh(fi.fieldType, hi, hi', fi.keys[i]))
  {
    if lo.Some? && EncodeSecValue(fi.fieldType, lo.value).Some? {
      var l := EncodeSecValue(fi.fieldType, lo.value).value;
      PartitionExact(fi.keys, l, !li, i);
      LessTotal(l, fi.keys[i]);
      LessIrreflexive(l);
      if Less(l, fi.keys[i]) { LessAsymmetric(l, fi.keys[i]); }
    }
    if hi.Some? && EncodeSecValue(fi.fieldType, hi.value).Some? {
      PartitionExact(fi.keys, EncodeSecValue(fi.fieldType, hi.value).value, hi', i);
      LessIrreflexive(fi.keys[i]);
    }
  }

  /** First field of a schema with the given path. */
  function FindField(filterable: seq<FilterableField>, path: Bytes): (r: Option<FieldType>)
    ensures r.None? ==> forall f :: f in filterable ==> f.path != path
  {
    if filterable == [] then None
    else if filterable[0].path == path then Some(filterable[0].fieldType)
    else FindField(filterable[1..], path)
  }

  /** The type found is the one the first field with this path declares. */
  lemma {:induction false} FieldFound(filterable: seq<FilterableField>, path: Bytes, i: nat)
    requires i < |filterable| && filterable[i].path == path && forall j :: 0 <= j < i ==> filterable[j].path != path
    ensures FindField(filterable, path) == Some(filterable[i].fieldType)
  {
    if i > 0 { FieldFound(filterable[1..], path, i - 1); }
  }

  /** The rows matching a predicate are exactly those the direct evaluation accepts;
      absent only when the field is not indexed. */
  method Query(idx: SecIndex, p: SecPredicate, ghost filterable: seq<FilterableField>, ghost payloads: seq<Payload>)
    returns (rows: Option<set<nat>>)
    requires IndexFor(idx, filterable, payloads)
    ensures rows.Some? <==> FindField(filterable, p.field).Some?
    ensures rows.Some? ==> forall r :: r in rows.value <==>
              0 <= r < |payloads| && PayloadMatches(p, FindField(filterable, p.field).value, payloads[r])
  {
    var at := 0;
    while at < |idx| && idx[at].path != p.field
      invariant 0 <= at <= |idx|
      invariant FindField(filterable, p.field) == FindField(filterable[at..], p.field)
    {
      assert filterable[at..][0] == filterable[at];
      assert filterable[at..][1..] == filterable[at + 1..];
      at := at + 1;
    }
    if at == |idx| { return None; }
    assert filterable[at..][0] == filterable[at];
    var fi := idx[at];
    match p {
      case Eq(_, v) =>
        var hit := Equals(fi, v, payloads);
        rows := Some(hit);
      case In(_, vs) =>
        var out: set<nat> := {};
        for i := 0 to |vs|
          invariant forall r :: r in out <==>
            0 <= r < |payloads| && (var k := KeyOf(fi.path, fi.fieldType, payloads[r]);
              k.Some? && exists j :: 0 <= j < i && EqualsKey(fi.fieldType, vs[j], k.value))
        {
          var hit := Equals(fi, vs[i], payloads);
          out := out + hit;
        }
        rows := Some(out);
      case Range(_, lo, hi, li, hi') =>
        var hit := RangeRows(fi, lo, hi, li, hi', payloads);
        rows := Some(hit);
    }
  }
}
