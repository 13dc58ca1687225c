/** What a filter means (crates/quiver-core/src/sec.rs, `payload_matches`): on the values
    a payload holds, without the keys they are indexed by. */
module Filters {
  import opened ByteStrings
  import opened Doubles
  import opened SecondaryIndex

  /** The field holds a value of the declared type: a string, or a number that is one. */
  predicate Held(t: FieldType, x: FieldValue) {
    match t
    case Keyword => x.Text?
    case Numeric => x.Number? && !IsNaN(x.f)
  }

  /** The filter's value is of the declared type. */
  predicate Comparable(t: FieldType, v: SecValue) {
    match t
    case Keyword => v.KeywordValue?
    case Numeric => v.NumericValue? && !IsNaN(v.f)
  }

  /** The same string, or the same number. */
  predicate Same(t: FieldType, x: FieldValue, v: SecValue)
    requires Held(t, x)
  {
    Comparable(t, v) && match t
    case Keyword => x.s == v.s
    case Numeric => Value(x.f) == Value(v.f)
  }

  /** Earlier in byte order, or a smaller number. */
  ghost predicate Under(t: FieldType, x: FieldValue, v: SecValue)
    requires Held(t, x)
  {
    Comparable(t, v) && match t
    case Keyword => Precedes(x.s, v.s)
    case Numeric => NumLess(Value(x.f), Value(v.f))
  }

  ghost predicate Over(t: FieldType, x: FieldValue, v: SecValue)
    requires Held(t, x)
  {
    Comparable(t, v) && match t
    case Keyword => Precedes(v.s, x.s)
    case Numeric => NumLess(Value(v.f), Value(x.f))
  }

  /** The payload holds a value at the field's path that the filter admits. A bound that
      is absent admits everything; a bound or value of the wrong type admits nothing. */
  ghost predicate Satisfies(p: SecPredicate, t: FieldType, payload: Payload) {
    && p.field in payload.fields
    && var x := payload.fields[p.field];
    && Held(t, x)
    && match p
       case Eq(_, v) => Same(t, x, v)
       case In(_, vs) => exists i :: 0 <= i < |vs| && Same(t, x, vs[i])
       case Range(_, lo, hi, withLo, withHi) =>
         && (lo.None? || Over(t, x, lo.value) || (withLo && Same(t, x, lo.value)))
         && (hi.None? || Under(t, x, hi.value) || (withHi && Same(t, x, hi.value)))
  }

  lemma EqualsMeans(t: FieldType, x: FieldValue, v: SecValue)
    requires Held(t, x)
    ensures EncodeFieldValue(t, x).Some? && (EqualsKey(t, v, EncodeFieldValue(t, x).value) <==> Same(t, x, v))
  {
    hide EncodeF64, Value;
    if t.Numeric? && v.NumericValue? && !IsNaN(v.f) { OrderEmbedding(v.f, x.f); }
  }

  lemma LowMeans(t: FieldType, x: FieldValue, lo: Option<SecValue>, with: bool)
    requires Held(t, x)
    ensures EncodeFieldValue(t, x).Some?
    ensures AboveLow(t, lo, with, EncodeFieldValue(t, x).value) <==> lo.None? || Over(t, x, lo.value) || (with && Same(t, x, lo.value))
  {
    hide EncodeF64, Value, Less, Precedes;
    if lo.Some? && Comparable(t, lo.value) {
      match t
      case Keyword => LessMeans(lo.value.s, x.s);
      case Numeric => OrderEmbedding(lo.value.f, x.f);
    }
  }

  lemma HighMeans(t: FieldType, x: FieldValue, hi: Option<SecValue>, with: bool)
    requires Held(t, x)
    ensures EncodeFieldValue(t, x).Some?
    ensures BelowHigh(t, hi, with, EncodeFieldValue(t, x).value) <==> hi.None? || Under(t, x, hi.value) || (with && Same(t, x, hi.value))
  {
    hide EncodeF64, Value, Less, Precedes;
    if hi.Some? && Comparable(t, hi.value) {
      match t
      case Keyword => LessMeans(x.s, hi.value.s);
      case Numeric => OrderEmbedding(x.f, hi.value.f);
    }
  }

  /** Direct evaluation decides exactly what the filter means. */
  lemma MatchesMeans(p: SecPredicate, t: FieldType, payload: Payload)
    ensures PayloadMatches(p, t, payload) <==> Satisfies(p, t, payload)
  {
    hide AboveLow, BelowHigh, EqualsKey, Same, Over, Under;
    if p.field in payload.fields && Held(t, payload.fields[p.field]) {
      var x := payload.fields[p.field];
      match p
      case Eq(_, v) => EqualsMeans(t, x, v);
      case In(_, vs) =>
        HighMeans(t, x, None, true);
        forall i | 0 <= i < |vs| ensures EqualsKey(t, vs[i], EncodeFieldValue(t, x).value) <==> Same(t, x, vs[i]) { EqualsMeans(t, x, vs[i]); }
      case Range(_, lo, hi, withLo, withHi) =>
        LowMeans(t, x, lo, withLo);
        HighMeans(t, x, hi, withHi);
    }
  }
}
