/** Decoding every historical descriptor layout
    (crates/quiver-core/src/descriptor.rs, `Descriptor::decode`). */
module DescriptorCodec {
  import opened ByteStrings
  import opened SecondaryIndex
  import opened Descriptors
  import opened Postcard

  /** The wire layouts, newest first. */
  datatype Layout = Current | PreBinary | V4 | V3 | V2 | Legacy

  /** Which paths are valid text; the empty one is. */
  type Text = t: Bytes -> bool | t([]) witness (b: Bytes) => true

  // ---- enumerations --------------------------------------------------------

  function MetricTag(m: DistanceMetric): nat { match m case Dot => 0 case Cosine => 1 case L2 => 2 }

  function MetricOf(t: nat): DistanceMetric { if t == 0 then Dot else if t == 1 then Cosine else L2 }

  function KindTag(k: IndexKind): nat {
    match k case Hnsw => 0 case Vamana => 1 case DiskVamana => 2 case Ivf => 3 case Colbert => 4
  }

  function KindOf(t: nat): IndexKind {
    if t == 0 then Hnsw else if t == 1 then Vamana else if t == 2 then DiskVamana else if t == 3 then Ivf else Colbert
  }

  function EncryptionTag(e: VectorEncryption): nat { match e case Plain => 0 case Dcpe => 1 case ClientSide => 2 }

  function EncryptionOf(t: nat): VectorEncryption { if t == 0 then Plain else if t == 1 then Dcpe else ClientSide }

  function TypeTag(t: FieldType): nat { match t case Keyword => 0 case Numeric => 1 }

  function TypeOf(t: nat): FieldType { if t == 0 then Keyword else Numeric }

  // ---- filterable fields ---------------------------------------------------

  function PutField(f: FilterableField): Bytes { PutString(f.path) + PutInt(TypeTag(f.fieldType)) }

  function GetField(b: Bytes, text: Text): Parsed<FilterableField> {
    match GetString(b, text)
    case None => None
    case Some((path, rest)) =>
      match GetTag(rest, 2)
      case None => None
      case Some((t, rest2)) => Some((FilterableField(path, TypeOf(t)), rest2))
  }

  function PutAll(fs: seq<FilterableField>): Bytes { if fs == [] then [] else PutField(fs[0]) + PutAll(fs[1..]) }

  function GetAll(b: Bytes, n: nat, text: Text): Parsed<seq<FilterableField>>
    decreases n
  {
    if n == 0 then Some(([], b))
    else
      match GetField(b, text)
      case None => None
      case Some((f, rest)) =>
        match GetAll(rest, n - 1, text)
        case None => None
        case Some((fs, rest2)) => Some(([f] + fs, rest2))
  }

  function PutFields(fs: seq<FilterableField>): Bytes { PutInt(|fs|) + PutAll(fs) }

  function GetFields(b: Bytes, text: Text): Parsed<seq<FilterableField>> {
    match GetU64(b)
    case None => None
    case Some((n, rest)) => GetAll(rest, n, text)
  }

  predicate FieldOk(f: FilterableField, text: Text) { U64(|f.path|) && text(f.path) }

  predicate FieldsOk(fs: seq<FilterableField>, text: Text) {
    U64(|fs|) && forall i :: 0 <= i < |fs| ==> FieldOk(fs[i], text)
  }

  lemma FieldRoundTrip(f: FilterableField, rest: Bytes, text: Text)
    requires FieldOk(f, text)
    ensures GetField(PutField(f) + rest, text) == Some((f, rest))
  {
    hide GetString, GetTag;
    var t := TypeTag(f.fieldType);
    assert PutField(f) + rest == PutString(f.path) + (PutInt(t) + rest);
    StringRoundTrip(f.path, PutInt(t) + rest, text);
    TagRoundTrip(t, 2, rest);
  }

  lemma {:induction false} AllRoundTrip(fs: seq<FilterableField>, rest: Bytes, text: Text)
    requires forall i :: 0 <= i < |fs| ==> FieldOk(fs[i], text)
    ensures GetAll(PutAll(fs) + rest, |fs|, text) == Some((fs, rest))
  {
    hide GetField, PutField, FieldOk;
    if fs == [] {
      assert PutAll(fs) + rest == rest;
    } else {
      assert PutAll(fs) + rest == PutField(fs[0]) + (PutAll(fs[1..]) + rest);
      FieldRoundTrip(fs[0], PutAll(fs[1..]) + rest, text);
      AllRoundTrip(fs[1..], rest, text);
      assert [fs[0]] + fs[1..] == fs;
    }
  }

  lemma FieldsRoundTrip(fs: seq<FilterableField>, rest: Bytes, text: Text)
    requires FieldsOk(fs, text)
    ensures GetFields(PutFields(fs) + rest, text) == Some((fs, rest))
  {
    hide GetU64, GetAll, PutAll;
    assert PutFields(fs) + rest == PutInt(|fs|) + (PutAll(fs) + rest);
    U64RoundTrip(|fs|, PutAll(fs) + rest);
    AllRoundTrip(fs, rest, text);
  }

  /** A field takes at least two bytes: a length and a type. */
  lemma {:induction false} AllCost(b: Bytes, n: nat, text: Text)
    ensures var r := GetAll(b, n, text); r.Some? ==> |r.value.1| + 2 * n <= |b|
    decreases n
  {
    hide GetString, GetU32;
    if n > 0 {
      var f := GetField(b, text);
      if f.Some? {
        StringCost(b, text);
        TagCost(GetString(b, text).value.1, 2);
        AllCost(f.value.1, n - 1, text);
      }
    }
  }

  lemma TagCost(b: Bytes, n: nat)
    ensures var r := GetTag(b, n); r.Some? ==> |r.value.1| + 1 <= |b|
  {
    IntCost(b, 5, 15);
  }

  // ---- layouts -------------------------------------------------------------

  function PutHead(d: Descriptor): Bytes { PutInt(d.dim) + PutInt(0) + PutInt(MetricTag(d.metric)) }

  function GetHead(b: Bytes): Parsed<(nat, DistanceMetric)> {
    match GetU32(b)
    case None => None
    case Some((dim, rest)) =>
      match GetTag(rest, 1)
      case None => None
      case Some((_, rest2)) =>
        match GetTag(rest2, 3)
        case None => None
        case Some((t, rest3)) => Some(((dim, MetricOf(t)), rest3))
  }

  function PutSpec(d: Descriptor): Bytes { PutInt(KindTag(d.index.kind)) + PutOption(d.index.pqSubspaces) }

  function GetSpec(b: Bytes): Parsed<(IndexKind, Option<nat>)> {
    match GetTag(b, 5)
    case None => None
    case Some((t, rest)) =>
      match GetOption(rest)
      case None => None
      case Some((pq, rest2)) => Some(((KindOf(t), pq), rest2))
  }

  /** The fields after the index specification's two original ones. */
  datatype Tail = Tail(binary: bool, filterable: seq<FilterableField>, multivector: bool, encryption: VectorEncryption)

  function TailBytes(l: Layout, d: Descriptor): Bytes {
    match l
    case Current => PutBool(d.index.binary) + (PutFields(d.filterable) + (PutBool(d.multivector) + PutInt(EncryptionTag(d.vectorEncryption))))
    case PreBinary => PutFields(d.filterable) + (PutBool(d.multivector) + PutInt(EncryptionTag(d.vectorEncryption)))
    case V4 => PutFields(d.filterable) + PutBool(d.multivector)
    case V3 => PutFields(d.filterable)
    case V2 => []
    case Legacy => []
  }

  /** A fallback's reading of what follows the fields. */
  function GetRest(l: Layout, binary: bool, fs: seq<FilterableField>, b: Bytes): Option<Tail> {
    if l == V3 then Some(Tail(binary, fs, false, Plain))
    else
      match GetBool(b)
      case None => None
      case Some((mv, rest)) =>
        if l == V4 then Some(Tail(binary, fs, mv, Plain))
        else
          match GetTag(rest, 3)
          case None => None
          case Some((t, _)) => Some(Tail(binary, fs, mv, EncryptionOf(t)))
  }

  function GetFrom(l: Layout, binary: bool, b: Bytes, text: Text): Option<Tail> {
    match GetFields(b, text)
    case None => None
    case Some((fs, rest)) => GetRest(l, binary, fs, rest)
  }

  function GetTail(l: Layout, b: Bytes, text: Text): Option<Tail> {
    match l
    case Current => (match GetBool(b) case None => None case Some((binary, rest)) => GetFrom(l, binary, rest, text))
    case V2 => Some(Tail(false, [], false, Plain))
    case Legacy => Some(Tail(false, [], false, Plain))
    case _ => GetFrom(l, false, b, text)
  }

  function Encode(l: Layout, d: Descriptor): Bytes {
    if l == Legacy then PutHead(d) else PutHead(d) + PutSpec(d) + TailBytes(l, d)
  }

  function Build(head: (nat, DistanceMetric), spec: (IndexKind, Option<nat>), t: Tail): Descriptor {
    Descriptor(head.0, F32, head.1, IndexSpec(spec.0, spec.1, t.binary), t.filterable, t.multivector, t.encryption)
  }

  function DecodeAs(l: Layout, b: Bytes, text: Text): Option<Descriptor> {
    match GetHead(b)
    case None => None
    case Some((head, rest)) =>
      if l == Legacy then Some(Build(head, (Hnsw, None), Tail(false, [], false, Plain)))
      else
        match GetSpec(rest)
        case None => None
        case Some((spec, rest2)) =>
          match GetTail(l, rest2, text)
          case None => None
          case Some(t) => Some(Build(head, spec, t))
  }

  function Else(a: Option<Descriptor>, b: Option<Descriptor>): Option<Descriptor> { if a.Some? then a else b }

  /** Try the layouts newest first. */
  function Decode(b: Bytes, text: Text): Option<Descriptor> {
    Else(DecodeAs(Current, b, text),
         Else(DecodeAs(PreBinary, b, text),
              Else(DecodeAs(V4, b, text), Else(DecodeAs(V3, b, text), Else(DecodeAs(V2, b, text), DecodeAs(Legacy, b, text))))))
  }

  /** What a layout kept of a descriptor; the rest takes its default. */
  function Kept(l: Layout, d: Descriptor): Tail {
    match l
    case Current => Tail(d.index.binary, d.filterable, d.multivector, d.vectorEncryption)
    case PreBinary => Tail(false, d.filterable, d.multivector, d.vectorEncryption)
    case V4 => Tail(false, d.filterable, d.multivector, Plain)
    case V3 => Tail(false, d.filterable, false, Plain)
    case V2 => Tail(false, [], false, Plain)
    case Legacy => Tail(false, [], false, Plain)
  }

  function Recovered(l: Layout, d: Descriptor): Descriptor {
    Build((d.dim, d.metric), if l == Legacy then (Hnsw, None) else (d.index.kind, d.index.pqSubspaces), Kept(l, d))
  }

  predicate DescriptorOk(d: Descriptor, text: Text) {
    U32(d.dim) && (d.index.pqSubspaces.Some? ==> U32(d.index.pqSubspaces.value)) && FieldsOk(d.filterable, text)
  }

  // ---- the common prefix ---------------------------------------------------

  lemma HeadRoundTrip(d: Descriptor, rest: Bytes)
    requires U32(d.dim)
    ensures GetHead(PutHead(d) + rest) == Some(((d.dim, d.metric), rest))
  {
    hide GetU32, GetTag, PutInt;
    var m := MetricTag(d.metric);
    assert PutHead(d) + rest == PutInt(d.dim) + (PutInt(0) + (PutInt(m) + rest));
    U32RoundTrip(d.dim, PutInt(0) + (PutInt(m) + rest));
    TagRoundTrip(0, 1, PutInt(m) + rest);
    TagRoundTrip(m, 3, rest);
  }

  lemma SpecRoundTrip(d: Descriptor, rest: Bytes)
    requires d.index.pqSubspaces.Some? ==> U32(d.index.pqSubspaces.value)
    ensures GetSpec(PutSpec(d) + rest) == Some(((d.index.kind, d.index.pqSubspaces), rest))
  {
    hide GetOption, GetTag, PutInt, PutOption;
    var k := KindTag(d.index.kind);
    assert PutSpec(d) + rest == PutInt(k) + (PutOption(d.index.pqSubspaces) + rest);
    TagRoundTrip(k, 5, PutOption(d.index.pqSubspaces) + rest);
    OptionRoundTrip(d.index.pqSubspaces, rest);
  }

  /** Decoders after the first three fields see only the tail. */
  lemma DecodeSeesTail(reader: Layout, l: Layout, d: Descriptor, text: Text)
    requires DescriptorOk(d, text) && l != Legacy && reader != Legacy
    ensures var t := GetTail(reader, TailBytes(l, d), text);
      DecodeAs(reader, Encode(l, d), text) ==
        if t.Some? then Some(Build((d.dim, d.metric), (d.index.kind, d.index.pqSubspaces), t.value)) else None
  {
    hide GetHead, GetSpec, GetTail, TailBytes, PutHead, PutSpec, FieldsOk;
    var tail := TailBytes(l, d);
    assert Encode(l, d) == PutHead(d) + (PutSpec(d) + tail);
    HeadRoundTrip(d, PutSpec(d) + tail);
    SpecRoundTrip(d, tail);
  }

  // ---- a layout reads its own tail -----------------------------------------

  /** What follows the fields in each layout. */
  function After(l: Layout, d: Descriptor): Bytes {
    if l == V4 then PutBool(d.multivector)
    else if l == V3 then []
    else PutBool(d.multivector) + PutInt(EncryptionTag(d.vectorEncryption))
  }

  lemma RestRoundTrip(l: Layout, d: Descriptor, binary: bool)
    requires l == Current || l == PreBinary || l == V4 || l == V3
    ensures GetRest(l, binary, d.filterable, After(l, d)) == Some(Kept(l, d).(binary := binary))
  {
    hide GetTag, GetBool, PutBool, PutInt;
    var t := EncryptionTag(d.vectorEncryption);
    BoolRoundTrip(d.multivector, []);
    BoolRoundTrip(d.multivector, PutInt(t));
    TagRoundTrip(t, 3, []);
    assert PutBool(d.multivector) + [] == PutBool(d.multivector) && PutInt(t) + [] == PutInt(t);
  }

  lemma OwnTail(l: Layout, d: Descriptor, text: Text)
    requires DescriptorOk(d, text)
    ensures GetTail(l, TailBytes(l, d), text) == Some(Kept(l, d))
  {
    hide GetFields, PutFields, GetBool, PutBool, PutInt, GetRest;
    if l == Current || l == PreBinary || l == V4 || l == V3 {
      FieldsRoundTrip(d.filterable, After(l, d), text);
      RestRoundTrip(l, d, l == Current && d.index.binary);
      assert PutFields(d.filterable) + [] == PutFields(d.filterable);
      if l == Current { BoolRoundTrip(d.index.binary, PutFields(d.filterable) + After(l, d)); }
    }
  }

  // ---- older readers reject what is missing --------------------------------

  /** A reader that wants more after the fields runs out of bytes. */
  lemma RunsOut(reader: Layout, l: Layout, d: Descriptor, text: Text)
    requires DescriptorOk(d, text)
    requires (reader == PreBinary && (l == V4 || l == V3)) || (reader == V4 && l == V3)
    ensures GetTail(reader, TailBytes(l, d), text).None?
  {
    hide GetFields, PutFields;
    FieldsRoundTrip(d.filterable, After(l, d), text);
    assert PutFields(d.filterable) + [] == PutFields(d.filterable);
    if l == V4 { assert After(l, d)[1..] == []; }
  }

  lemma NoTail(reader: Layout, text: Text)
    requires reader == Current || reader == PreBinary || reader == V4 || reader == V3
    ensures GetTail(reader, [], text).None?
  {}

  // ---- the current reader on older tails -----------------------------------

  /** The one shape an older tail can be misread in: a single field whose path is empty,
      or, where two bytes follow the fields, a single zero byte. */
  predicate Misread(l: Layout, d: Descriptor) {
    |d.filterable| == 1 &&
    (var p := d.filterable[0].path; (l == PreBinary && (p == [] || p == [0])) || (l == V4 && p == []))
  }

  /** After the fields the current reader needs two more bytes. */
  lemma CurrentCost(b: Bytes, binary: bool, text: Text)
    ensures GetFrom(Current, binary, b, text).Some? ==>
      var n := GetU64(b); n.Some? && |n.value.1| >= 2 * n.value.0 + 2
  {
    hide GetU64, GetAll, GetU32;
    var n := GetU64(b);
    if n.Some? {
      AllCost(n.value.1, n.value.0, text);
      var fs := GetAll(n.value.1, n.value.0, text);
      if fs.Some? {
        var mv := GetBool(fs.value.1);
        if mv.Some? { TagCost(mv.value.1, 3); }
      }
    }
  }

  /** A count of two or more is no boolean. */
  lemma CountIsNoBool(n: nat, rest: Bytes)
    ensures n >= 2 ==> GetBool(PutInt(n) + rest).None?
    ensures n < 2 ==> GetBool(PutInt(n) + rest) == Some((n == 1, rest))
  {
    if n < 2 { assert (PutInt(n) + rest)[1..] == rest; }
  }

  lemma AfterLength(l: Layout, d: Descriptor)
    ensures |After(l, d)| == if l == V4 then 1 else if l == V3 then 0 else 2
  {}

  lemma OlderTail(l: Layout, d: Descriptor)
    requires l == PreBinary || l == V4 || l == V3
    ensures TailBytes(l, d) == PutInt(|d.filterable|) + (PutAll(d.filterable) + After(l, d))
  {
    hide PutInt, PutAll, PutBool;
    if l == V3 { assert PutAll(d.filterable) + [] == PutAll(d.filterable); }
  }

  lemma OneField(f: FilterableField)
    ensures PutAll([f]) == PutInt(|f.path|) + (f.path + PutInt(TypeTag(f.fieldType)))
  {
    hide PutInt;
    assert [f][1..] == [];
    assert PutField(f) + [] == PutInt(|f.path|) + (f.path + PutInt(TypeTag(f.fieldType)));
  }

  /** By counting bytes, only the two odd shapes leave the current reader enough. */
  lemma TooShort(l: Layout, d: Descriptor, text: Text)
    requires DescriptorOk(d, text) && (l == PreBinary || l == V4 || l == V3)
    requires |d.filterable| == 1 ==> |d.filterable[0].path| + 1 > |After(l, d)|
    ensures GetTail(Current, TailBytes(l, d), text).None?
  {
    hide PutInt, PutAll, After, GetU64, GetFrom, GetBool, TailBytes;
    var n, a := |d.filterable|, After(l, d);
    OlderTail(l, d);
    AfterLength(l, d);
    CountIsNoBool(n, PutAll(d.filterable) + a);
    if n == 0 {
      NoFields(a);
      CurrentCost(a, false, text);
      ShortCost(a);
    } else if n == 1 {
      var f := d.filterable[0];
      assert d.filterable == [f];
      var body := f.path + PutInt(TypeTag(f.fieldType)) + a;
      OneField(f);
      assert PutAll(d.filterable) + a == PutInt(|f.path|) + body;
      U64RoundTrip(|f.path|, body);
      CurrentCost(PutInt(|f.path|) + body, true, text);
      TypeLength(f.fieldType);
    }
  }

  lemma NoFields(a: Bytes)
    ensures PutAll([]) + a == a
  {}

  lemma TypeLength(t: FieldType)
    ensures |PutInt(TypeTag(t))| == 1
  {}

  lemma ShortCost(a: Bytes)
    ensures var n := GetU64(a); n.Some? ==> |n.value.1| + 1 <= |a|
  {
    IntCost(a, 10, 1);
  }

  // ---- the two odd shapes --------------------------------------------------

  lemma SmallInt(n: nat, rest: Bytes)
    requires n < 128
    ensures PutInt(n) + rest == [n] + rest && ([n] + rest)[1..] == rest
    ensures GetU64([n] + rest) == Some((n, rest)) && GetU32([n] + rest) == Some((n, rest))
  {
    assert ([n] + rest)[1..] == rest;
  }

  /** An older tail with one field of a known path, byte by byte. */
  lemma OneFieldBytes(l: Layout, d: Descriptor)
    requires (l == PreBinary || l == V4) && |d.filterable| == 1 && |d.filterable[0].path| < 128
    ensures var f := d.filterable[0];
      TailBytes(l, d) == [1] + ([|f.path|] + (f.path + ([TypeTag(f.fieldType)] + After(l, d))))
  {
    hide After, PutAll;
    var f := d.filterable[0];
    assert d.filterable == [f];
    OlderTail(l, d);
    OneField(f);
  }

  lemma AfterStarts(l: Layout, d: Descriptor)
    requires l == PreBinary || l == V4
    ensures GetBool(After(l, d)).Some? && After(l, d)[0] <= 1
    ensures GetTag(After(l, d), 3).Some?
    ensures l == PreBinary ==> GetTag(After(l, d)[1..], 3).Some?
  {
    var a := After(l, d);
    assert a == [a[0]] + a[1..];
    SmallInt(a[0], a[1..]);
    if l == PreBinary {
      var e := EncryptionTag(d.vectorEncryption);
      assert a[1..] == [e] + [];
      SmallInt(e, []);
    }
  }

  /** An empty path reads as no fields and shifts everything by one. */
  lemma EmptyPathMisread(l: Layout, d: Descriptor, text: Text)
    requires (l == PreBinary || l == V4) && |d.filterable| == 1 && d.filterable[0].path == []
    ensures var t := GetTail(Current, TailBytes(l, d), text); t.Some? && t.value.binary
  {
    hide After, GetU64, GetTag, TailBytes;
    var t, a := TypeTag(d.filterable[0].fieldType), After(l, d);
    OneFieldBytes(l, d);
    AfterStarts(l, d);
    assert [] + ([t] + a) == [t] + a;
    assert ([1] + ([0] + ([t] + a)))[1..] == [0] + ([t] + a) && ([t] + a)[1..] == a;
    SmallInt(0, [t] + a);
  }

  /** A single zero byte reads as one field with an empty path. */
  lemma ZeroPathMisread(d: Descriptor, text: Text)
    requires |d.filterable| == 1 && d.filterable[0].path == [0]
    ensures var t := GetTail(Current, TailBytes(PreBinary, d), text); t.Some? && t.value.binary
  {
    hide After, GetU64, TailBytes;
    var t, a := TypeTag(d.filterable[0].fieldType), After(PreBinary, d);
    OneFieldBytes(PreBinary, d);
    AfterStarts(PreBinary, d);
    var b := [0] + ([t] + a);
    assert ([1] + ([1] + b))[1..] == [1] + b;
    SmallInt(1, b);
    SmallInt(0, [t] + a);
    SmallInt(t, a);
    assert ([t] + a)[..0] == [] && ([t] + a)[0..] == [t] + a;
    assert GetString(b, text) == Some(([], [t] + a));
    var f := FilterableField([], TypeOf(t));
    assert GetTag([t] + a, 2) == Some((t, a));
    assert GetField(b, text) == Some((f, a));
    assert [f] + [] == [f];
    assert GetAll(b, 1, text) == Some(([f], a));
  }

  /** A string whose length byte is not zero takes two bytes or more. */
  lemma LongString(b: Bytes, text: Text)
    requires b != [] && b[0] != 0
    ensures var r := GetString(b, text); r.Some? ==> |r.value.1| + 2 <= |b|
  {
    var n := GetU64(b);
    if b[0] >= 128 { IntCost(b[1..], 9, 1); }
  }

  /** One field and what follows it need three bytes after the path. */
  lemma NeedsThree(b: Bytes, text: Text)
    requires var s := GetString(b, text); s.Some? ==> |s.value.1| < 3
    ensures var r := GetAll(b, 1, text); r.Some? ==> GetRest(Current, true, r.value.0, r.value.1).None?
  {
    hide GetString, GetU32;
    var s := GetString(b, text);
    if s.Some? {
      TagCost(s.value.1, 2);
      var r := GetAll(b, 1, text);
      if r.Some? && GetBool(r.value.1).Some? { TagCost(GetBool(r.value.1).value.1, 3); }
    }
  }

  lemma OtherByteRejected(d: Descriptor, text: Text)
    requires |d.filterable| == 1 && |d.filterable[0].path| == 1 && d.filterable[0].path != [0]
    ensures GetTail(Current, TailBytes(PreBinary, d), text).None?
  {
    hide After, GetU64, GetAll, GetRest, TailBytes, GetString;
    var f, a := d.filterable[0], After(PreBinary, d);
    var t := TypeTag(f.fieldType);
    OneFieldBytes(PreBinary, d);
    AfterLength(PreBinary, d);
    var b := f.path + ([t] + a);
    assert ([1] + ([1] + b))[1..] == [1] + b;
    SmallInt(1, b);
    LongString(b, text);
    NeedsThree(b, text);
  }

  /** The current reader accepts an older tail exactly when it is one of the odd shapes,
      and then it has read the field count as the binary flag. */
  lemma CurrentOnOlder(l: Layout, d: Descriptor, text: Text)
    requires DescriptorOk(d, text) && (l == PreBinary || l == V4 || l == V3)
    ensures var t := GetTail(Current, TailBytes(l, d), text);
      (t.Some? <==> Misread(l, d)) && (t.Some? ==> t.value.binary)
  {
    hide GetTail, TailBytes, After, FieldsOk;
    AfterLength(l, d);
    if |d.filterable| == 1 && |d.filterable[0].path| + 1 <= |After(l, d)| {
      var p := d.filterable[0].path;
      if p == [] {
        EmptyPathMisread(l, d, text);
      } else if p == [0] {
        ZeroPathMisread(d, text);
      } else {
        OtherByteRejected(d, text);
      }
    } else {
      TooShort(l, d, text);
    }
  }

  // ---- recovery ------------------------------------------------------------

  /** Legacy bytes end before the index specification. */
  lemma LegacyOnly(d: Descriptor, text: Text)
    requires U32(d.dim)
    ensures Decode(Encode(Legacy, d), text) == Some(Recovered(Legacy, d))
  {
    hide GetHead, PutHead;
    HeadRoundTrip(d, []);
    assert PutHead(d) + [] == PutHead(d);
    assert GetSpec([]).None?;
  }

  /** Decoding recovers every historical layout, except exactly the descriptors whose only
      filterable path is empty (the two layouts that end in flags) or a single zero byte
      (the layout before the binary flag). */
  lemma DecodeRecovers(l: Layout, d: Descriptor, text: Text)
    requires DescriptorOk(d, text)
    ensures Decode(Encode(l, d), text) == Some(Recovered(l, d)) <==> !Misread(l, d)
  {
    hide DecodeAs, Encode, GetTail, TailBytes, FieldsOk;
    if l == Legacy {
      LegacyOnly(d, text);
    } else {
      OwnTail(l, d, text);
      DecodeSeesTail(l, l, d, text);
      DecodeSeesTail(Current, l, d, text);
      DecodeSeesTail(PreBinary, l, d, text);
      DecodeSeesTail(V4, l, d, text);
      DecodeSeesTail(V3, l, d, text);
      match l {
        case Current =>
        case PreBinary => CurrentOnOlder(l, d, text);
        case V4 =>
          CurrentOnOlder(l, d, text);
          RunsOut(PreBinary, l, d, text);
        case V3 =>
          CurrentOnOlder(l, d, text);
          RunsOut(PreBinary, l, d, text);
          RunsOut(V4, l, d, text);
        case V2 => EmptyTails(d, text);
      }
    }
  }

  lemma EmptyTails(d: Descriptor, text: Text)
    ensures TailBytes(V2, d) == []
    ensures GetTail(Current, [], text).None? && GetTail(PreBinary, [], text).None?
    ensures GetTail(V4, [], text).None? && GetTail(V3, [], text).None?
  {
    NoTail(Current, text);
    NoTail(PreBinary, text);
    NoTail(V4, text);
    NoTail(V3, text);
  }

  /** What each layout brings back, field by field: what it stored, and for what it did
      not store yet, the graph index without quantisation, no filterable fields, one
      vector per point and no encryption. */
  lemma LayoutDefaults(l: Layout, d: Descriptor, text: Text)
    requires DescriptorOk(d, text) && !Misread(l, d)
    ensures var r := Decode(Encode(l, d), text);
      && r.Some? && r.value.dim == d.dim && r.value.metric == d.metric
      && r.value.index.kind == (if l == Legacy then Hnsw else d.index.kind)
      && r.value.index.pqSubspaces == (if l == Legacy then None else d.index.pqSubspaces)
      && r.value.index.binary == (l == Current && d.index.binary)
      && r.value.filterable == (if l == V2 || l == Legacy then [] else d.filterable)
      && r.value.multivector == ((l == Current || l == PreBinary || l == V4) && d.multivector)
      && r.value.vectorEncryption == (if l == Current || l == PreBinary then d.vectorEncryption else Plain)
  {
    hide Decode, Encode, FieldsOk;
    DecodeRecovers(l, d, text);
  }

  /** One descriptor's bytes, in every layout that stores all of its first fields. */
  lemma KnownBytes()
    ensures var d := Descriptor(300, F32, L2, IndexSpec(Ivf, Some(8), true), [FilterableField([107], Numeric)], true, ClientSide);
      && Encode(Current, d) == [172, 2, 0, 2, 3, 1, 8, 1, 1, 1, 107, 1, 1, 2]
      && Encode(PreBinary, d) == [172, 2, 0, 2, 3, 1, 8, 1, 1, 107, 1, 1, 2]
      && Encode(V4, d) == [172, 2, 0, 2, 3, 1, 8, 1, 1, 107, 1, 1]
      && Encode(V3, d) == [172, 2, 0, 2, 3, 1, 8, 1, 1, 107, 1]
      && Encode(V2, d) == [172, 2, 0, 2, 3, 1, 8] && Encode(Legacy, d) == [172, 2, 0, 2]
  {
    hide PutHead, PutSpec, PutFields;
    var d := Descriptor(300, F32, L2, IndexSpec(Ivf, Some(8), true), [FilterableField([107], Numeric)], true, ClientSide);
    KnownHead(d);
    KnownSpec(d);
    KnownFields(d);
  }

  lemma KnownHead(d: Descriptor)
    requires d.dim == 300 && d.metric == L2
    ensures PutHead(d) == [172, 2, 0, 2]
  {
    assert PutInt(300) == [172, 2] by { assert PutInt(2) == [2]; }
  }

  lemma KnownSpec(d: Descriptor)
    requires d.index.kind == Ivf && d.index.pqSubspaces == Some(8)
    ensures PutSpec(d) == [3, 1, 8]
  {}

  lemma KnownFields(d: Descriptor)
    requires d.filterable == [FilterableField([107], Numeric)]
    ensures PutFields(d.filterable) == [1, 1, 107, 1]
  {
    assert PutField(d.filterable[0]) == [1, 107, 1];
    assert PutAll(d.filterable) == [1, 107, 1] by { assert d.filterable[1..] == []; }
  }
}
