/** Internal to external ids: a sealed base and a resident tail
    (crates/quiver-embed/src/idmap.rs). */
module IdMaps {
  import opened ByteStrings
  import opened KeyOrder
  import Segments

  class IdMap {
    const base: seq<Bytes> // the sealed column, by internal id
    var tail: seq<Bytes>
    var overlay: map<Bytes, nat>

    /** Every id, by internal id: newer entries shadow older ones. */
    function All(): seq<Bytes>
      reads this`tail
    {
      base + tail
    }

    /** A sealed column holds an id once; the overlay names the newest tail entry of every tail
        id. */
    ghost predicate Valid()
      reads this
    {
      && Segments.Distinct(base)
      && (forall e :: e in overlay <==> e in tail)
      && (forall e :: e in overlay ==> Position(tail, e).Some? && overlay[e] == |base| + Position(tail, e).value)
    }

    constructor FromBase(column: seq<Bytes>)
      requires Segments.Distinct(column)
      ensures Valid() && All() == column && base == column && tail == []
    {
      base, tail, overlay := column, [], map[];
    }

    /** Rebuild from a base and a persisted tail. */
    constructor Restore(column: seq<Bytes>, persisted: seq<Bytes>)
      requires Segments.Distinct(column)
      ensures Valid() && All() == column + persisted && base == column && tail == persisted
    {
      base, tail, overlay := column, persisted, map[];
      new;
      for j := 0 to |persisted|
        invariant tail == persisted
        invariant forall e :: e in overlay <==> e in persisted[..j]
        invariant forall e :: e in overlay ==> Position(persisted[..j], e).Some? && overlay[e] == |base| + Position(persisted[..j], e).value
      {
        assert persisted[..j + 1][..j] == persisted[..j];
        overlay := overlay[persisted[j] := |base| + j];
      }
      assert persisted[..|persisted|] == persisted;
    }

    method Ext(internal: nat) returns (r: Option<Bytes>)
      ensures r == if internal < |All()| then Some(All()[internal]) else None
    {
      if internal < |base| { return Some(base[internal]); }
      if internal - |base| < |tail| { return Some(tail[internal - |base|]); }
      return None;
    }

    /** The newest internal id of an external one: the overlay wins over the base. */
    method Internal(ext: Bytes) returns (r: Option<nat>)
      requires Valid()
      ensures r == Position(All(), ext)
    {
      PositionAppend(base, tail, ext);
      if ext in overlay { return Some(overlay[ext]); }
      return Position(base, ext);
    }

    method Push(ext: Bytes) returns (internal: nat)
      requires Valid()
      modifies this
      ensures Valid() && All() == old(All()) + [ext] && internal == |old(All())|
    {
      internal := |base| + |tail|;
      assert (tail + [ext])[..|tail|] == tail;
      assert base + (tail + [ext]) == base + tail + [ext];
      tail := tail + [ext];
      overlay := overlay[ext := internal];
    }
  }

  /** The newest copy is in the newer part if it is there at all. */
  lemma {:induction false} PositionAppend(a: seq<Bytes>, b: seq<Bytes>, e: Bytes)
    ensures Position(a + b, e) == if e in b then (match Position(b, e) case Some(j) => Some(|a| + j) case None => None) else Position(a, e)
  {
    if b == [] {
      assert a + b == a;
    } else {
      var n := |b| - 1;
      PositionAppend(a, b[..n], e);
      assert (a + b)[..|a| + n] == a + b[..n];
    }
  }
}
