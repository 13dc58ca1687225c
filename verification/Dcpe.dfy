/** Distance-comparison-preserving encryption over the reals
    (crates/quiver-crypto/src/dcpe.rs). Keyed randomness enters as functions. */
module Dcpe {
  import opened ByteStrings
  import opened Euclid

  datatype Normalization = Normalization(shift: Vec, scale: real)

  datatype DcpeError = EmptyVector | Integrity | DimensionMismatch(vector: nat, shift: nat)

  /** A key: the secret scale, the approximation factor, the shuffle keystream, the
      direction and relative radius each initialisation vector yields, and the tag. */
  datatype Cipher = Cipher(
    scale: real,
    beta: real,
    normalization: Option<Normalization>,
    draw: nat -> nat,
    direction: (nat, nat) -> Vec,
    fraction: (nat, nat) -> real,
    length: Vec -> real,
    tag: (nat, Vec) -> nat)

  datatype EncryptedVector = EncryptedVector(ciphertext: Vec, iv: nat, tag: nat)

  ghost predicate CipherOk(c: Cipher) {
    && 1.0 <= c.scale < 2.0 && c.beta >= 0.0
    && (c.normalization.Some? ==> c.normalization.value.scale > 0.0)
    && (forall iv, d :: |c.direction(iv, d)| == d)
    && (forall iv, d :: 0.0 <= c.fraction(iv, d) <= 1.0)
    && IsLength(c.length)
  }

  // ---- the shuffle ---------------------------------------------------------

  function Iota(d: nat): (p: seq<nat>)
    ensures |p| == d && forall i :: 0 <= i < d ==> p[i] == i
  {
    seq(d, i => i)
  }

  /** Fisher–Yates from position `i` down, taking keystream words from the `k`-th on. */
  function Shuffle<T>(p: seq<T>, i: nat, k: nat, draw: nat -> nat): (r: seq<T>)
    requires i < |p| || i == 0
    ensures |r| == |p|
    decreases i
  {
    if i == 0 then p else Shuffle(Swapped(p, i, draw(k) % (i + 1)), i - 1, k + 1, draw)
  }

  function PermutationOf(c: Cipher, d: nat): (p: seq<nat>)
    ensures |p| == d
  {
    if d <= 1 then Iota(d) else Shuffle(Iota(d), d - 1, 0, c.draw)
  }

  /** Every position once. */
  predicate IsPermutation(p: seq<nat>) {
    && (forall i :: 0 <= i < |p| ==> p[i] < |p|)
    && (forall i, j :: 0 <= i < j < |p| ==> p[i] != p[j])
    && (forall x :: 0 <= x < |p| ==> x in p)
  }

  lemma SwapPermutes(p: seq<nat>, i: nat, j: nat)
    requires IsPermutation(p) && i < |p| && j < |p|
    ensures IsPermutation(Swapped(p, i, j))
  {
    var q := Swapped(p, i, j);
    forall x | 0 <= x < |q| ensures x in q {
      assert x in p;
      var k :| 0 <= k < |p| && p[k] == x;
      assert q[if k == i then j else if k == j then i else k] == x;
    }
  }

  lemma {:induction false} ShufflePermutes(p: seq<nat>, i: nat, k: nat, draw: nat -> nat)
    requires IsPermutation(p) && (i < |p| || i == 0)
    ensures IsPermutation(Shuffle(p, i, k, draw))
    decreases i
  {
    hide IsPermutation, Swapped;
    if i > 0 {
      SwapPermutes(p, i, draw(k) % (i + 1));
      SwapLength(p, i, draw(k) % (i + 1));
      ShufflePermutes(Swapped(p, i, draw(k) % (i + 1)), i - 1, k + 1, draw);
    }
  }

  lemma SwapLength<T>(p: seq<T>, i: nat, j: nat)
    requires i < |p| && j < |p|
    ensures |Swapped(p, i, j)| == |p|
  {}

  lemma PermutationIs(c: Cipher, d: nat)
    ensures IsPermutation(PermutationOf(c, d))
  {
    assert IsPermutation(Iota(d)) by { forall x | 0 <= x < d ensures x in Iota(d) { assert Iota(d)[x] == x; } }
    if d > 1 { ShufflePermutes(Iota(d), d - 1, 0, c.draw); }
  }

  method SwapInPlace(a: array<nat>, i: nat, j: nat)
    requires i < a.Length && j < a.Length
    modifies a
    ensures a[..] == Swapped(old(a[..]), i, j)
  {
    a[i], a[j] := a[j], a[i];
  }

  lemma ShuffleStep<T>(p: seq<T>, i: nat, k: nat, draw: nat -> nat)
    requires 0 < i < |p|
    ensures Shuffle(p, i, k, draw) == Shuffle(Swapped(p, i, draw(k) % (i + 1)), i - 1, k + 1, draw)
  {}

  lemma ShuffleDone<T>(p: seq<T>, k: nat, draw: nat -> nat)
    ensures Shuffle(p, 0, k, draw) == p
  {}

  /** The in-place shuffle. */
  method Permutation(c: Cipher, d: nat) returns (perm: array<nat>)
    ensures fresh(perm) && perm[..] == PermutationOf(c, d)
  {
    hide Shuffle, Swapped;
    perm := new nat[d](i => i);
    assert perm[..] == Iota(d);
    if d <= 1 { return; }
    var i, k := d - 1, 0;
    while i > 0
      invariant 0 <= i < d && fresh(perm) && perm.Length == d
      invariant Shuffle(perm[..], i, k, c.draw) == PermutationOf(c, d)
    {
      var j := c.draw(k) % (i + 1);
      ShuffleStep(perm[..], i, k, c.draw);
      SwapInPlace(perm, i, j);
      i, k := i - 1, k + 1;
    }
    ShuffleDone(perm[..], k, c.draw);
  }

  predicate Within(p: seq<nat>, n: nat) { forall i :: 0 <= i < |p| ==> p[i] < n }

  /** Components in shuffled order. */
  function Permuted(v: Vec, p: seq<nat>): (r: Vec)
    requires Within(p, |v|)
    ensures |r| == |p| && forall i :: 0 <= i < |p| ==> r[i] == v[p[i]]
  {
    seq(|p|, i requires 0 <= i < |p| => v[p[i]])
  }

  /** Undo the shuffle: each component back to where it came from. */
  method Unshuffle(c: Cipher, shuffled: Vec) returns (out: Vec)
    ensures |out| == |shuffled|
    ensures var p := PermutationOf(c, |shuffled|);
      forall i :: 0 <= i < |p| ==> p[i] < |out| && out[p[i]] == shuffled[i]
  {
    hide PermutationOf;
    var perm := Permutation(c, |shuffled|);
    PermutationIs(c, |shuffled|);
    ghost var p := PermutationOf(c, |shuffled|);
    var a := new real[|shuffled|](_ => 0.0);
    for i := 0 to perm.Length
      invariant perm[..] == p && a.Length == |shuffled|
      invariant forall j :: 0 <= j < i ==> a[p[j]] == shuffled[j]
    {
      a[perm[i]] := shuffled[i];
    }
    out := a[..];
  }

  lemma UnshuffleUndoes(p: seq<nat>, v: Vec, out: Vec)
    requires IsPermutation(p) && |p| == |v| == |out|
    requires forall i :: 0 <= i < |p| ==> out[p[i]] == Permuted(v, p)[i]
    ensures out == v
  {
    forall x | 0 <= x < |v| ensures out[x] == v[x] {
      assert x in p;
      var j :| 0 <= j < |p| && p[j] == x;
    }
  }

  // ---- the pipeline --------------------------------------------------------

  function Normalize(c: Cipher, v: Vec): (r: Result<Vec, DcpeError>)
    ensures r.Ok? ==> |r.value| == |v|
  {
    match c.normalization
    case None => Ok(v)
    case Some(n) =>
      if |n.shift| != |v| then Err(DimensionMismatch(|v|, |n.shift|))
      else Ok(Scale(n.scale, Sub(v, n.shift)))
  }

  function Denormalize(c: Cipher, v: Vec): Result<Vec, DcpeError>
    requires c.normalization.Some? ==> c.normalization.value.scale > 0.0
  {
    match c.normalization
    case None => Ok(v)
    case Some(n) =>
      if |n.shift| != |v| then Err(DimensionMismatch(|v|, |n.shift|))
      else Ok(Add(Scale(1.0 / n.scale, v), n.shift))
  }

  /** Normalise, then shuffle. */
  function Pretransform(c: Cipher, v: Vec): (r: Result<Vec, DcpeError>)
    ensures r.Ok? ==> |r.value| == |v|
  {
    match Normalize(c, v)
    case Err(e) => Err(e)
    case Ok(n) =>
      PermutationIs(c, |v|);
      Ok(Permuted(n, PermutationOf(c, |v|)))
  }

  /** A point of the ball of radius a quarter of the scale times the factor. */
  function Perturbation(c: Cipher, iv: nat, d: nat): (r: Vec)
    requires CipherOk(c)
    ensures |r| == d
  {
    var direction := c.direction(iv, d);
    var norm := c.length(direction);
    if norm == 0.0 then seq(d, _ => 0.0) else Scale(Radius(c, iv, d) / norm, direction)
  }

  function Radius(c: Cipher, iv: nat, d: nat): real { c.scale / 4.0 * c.beta * c.fraction(iv, d) }

  function ScaleAndPerturb(c: Cipher, x: Vec, iv: nat): (r: Vec)
    requires CipherOk(c)
    ensures |r| == |x|
  {
    Add(Scale(c.scale, x), Perturbation(c, iv, |x|))
  }

  function Encrypt(c: Cipher, v: Vec, iv: nat): (r: Result<EncryptedVector, DcpeError>)
    requires CipherOk(c)
    ensures r.Ok? ==> r.value.iv == iv
  {
    if v == [] then Err(EmptyVector)
    else
      match Pretransform(c, v)
      case Err(e) => Err(e)
      case Ok(pre) =>
        var ciphertext := ScaleAndPerturb(c, pre, iv);
        Ok(EncryptedVector(ciphertext, iv, c.tag(iv, ciphertext)))
  }

  /** Verify, subtract the perturbation, unscale, unshuffle, denormalise. A sealed vector
      decrypts to the vector it was made from. */
  method Decrypt(c: Cipher, sealed: EncryptedVector, ghost v: Vec) returns (r: Result<Vec, DcpeError>)
    requires CipherOk(c)
    ensures sealed.ciphertext == [] ==> r == Err(EmptyVector)
    ensures sealed.ciphertext != [] && sealed.tag != c.tag(sealed.iv, sealed.ciphertext) ==> r == Err(Integrity)
    ensures Encrypt(c, v, sealed.iv) == Ok(sealed) ==> r == Ok(v)
  {
    hide Perturbation, PermutationOf, Denormalize, IsLength, Encrypt;
    var d := |sealed.ciphertext|;
    if Encrypt(c, v, sealed.iv) == Ok(sealed) { SealedShape(c, v, sealed); }
    if d == 0 { return Err(EmptyVector); }
    if sealed.tag != c.tag(sealed.iv, sealed.ciphertext) { return Err(Integrity); }
    var lambda := Perturbation(c, sealed.iv, d);
    var shuffled := Scale(1.0 / c.scale, Sub(sealed.ciphertext, lambda));
    var normalized := Unshuffle(c, shuffled);
    r := Denormalize(c, normalized);
    if Encrypt(c, v, sealed.iv) == Ok(sealed) { PipelineUndone(c, v, sealed, shuffled, normalized); }
  }

  lemma SealedShape(c: Cipher, v: Vec, sealed: EncryptedVector)
    requires CipherOk(c) && Encrypt(c, v, sealed.iv) == Ok(sealed)
    ensures v != [] && |sealed.ciphertext| == |v| && sealed.tag == c.tag(sealed.iv, sealed.ciphertext)
    ensures Normalize(c, v).Ok? && Pretransform(c, v).Ok?
    ensures sealed.ciphertext == ScaleAndPerturb(c, Pretransform(c, v).value, sealed.iv)
  {
    hide ScaleAndPerturb, Normalize, PermutationOf;
  }

  lemma PipelineUndone(c: Cipher, v: Vec, sealed: EncryptedVector, shuffled: Vec, normalized: Vec)
    requires CipherOk(c) && Encrypt(c, v, sealed.iv) == Ok(sealed)
    requires shuffled == Scale(1.0 / c.scale, Sub(sealed.ciphertext, Perturbation(c, sealed.iv, |sealed.ciphertext|)))
    requires |normalized| == |shuffled|
    requires var p := PermutationOf(c, |shuffled|); forall i :: 0 <= i < |p| ==> p[i] < |normalized| && normalized[p[i]] == shuffled[i]
    ensures Denormalize(c, normalized) == Ok(v)
  {
    hide Perturbation, PermutationOf, Denormalize, Normalize, IsLength, Encrypt, IsPermutation;
    SealedShape(c, v, sealed);
    PermutationIs(c, |v|);
    Unscaled(c.scale, Pretransform(c, v).value, Perturbation(c, sealed.iv, |v|));
    UnshuffleUndoes(PermutationOf(c, |v|), Normalize(c, v).value, normalized);
    DenormalizeUndoes(c, v);
  }

  lemma Unscaled(s: real, x: Vec, lambda: Vec)
    requires s > 0.0 && |x| == |lambda|
    ensures Scale(1.0 / s, Sub(Add(Scale(s, x), lambda), lambda)) == x
  {
    var y := Scale(1.0 / s, Sub(Add(Scale(s, x), lambda), lambda));
    forall i | 0 <= i < |x| ensures y[i] == x[i] { Cancels(s, x[i]); }
  }

  lemma Cancels(s: real, x: real)
    requires s > 0.0
    ensures (1.0 / s) * (s * x) == x
  {
    assert (1.0 / s) * s == 1.0;
    assert (1.0 / s) * (s * x) == ((1.0 / s) * s) * x;
  }

  lemma DenormalizeUndoes(c: Cipher, v: Vec)
    requires (c.normalization.Some? ==> c.normalization.value.scale > 0.0) && Normalize(c, v).Ok?
    ensures Denormalize(c, Normalize(c, v).value) == Ok(v)
  {
    if c.normalization.Some? {
      var n := c.normalization.value;
      var w := Add(Scale(1.0 / n.scale, Scale(n.scale, Sub(v, n.shift))), n.shift);
      forall i | 0 <= i < |v| ensures w[i] == v[i] { Cancels(n.scale, v[i] - n.shift[i]); }
      assert w == v;
    }
  }

  // ---- the perturbation is small -------------------------------------------

  lemma RadiusBound(c: Cipher, iv: nat, d: nat)
    requires CipherOk(c)
    ensures 0.0 <= Radius(c, iv, d) <= c.scale / 4.0 * c.beta
  {
    var bound, t := c.scale / 4.0 * c.beta, c.fraction(iv, d);
    ProductNonNegative(c.scale / 4.0, c.beta);
    ProductNonNegative(bound, t);
    ProductMonotone(t, 1.0, bound);
    assert bound * t == t * bound && 1.0 * bound == bound;
  }

  lemma PerturbationBound(c: Cipher, iv: nat, d: nat)
    requires CipherOk(c)
    ensures c.length(Perturbation(c, iv, d)) <= c.scale / 4.0 * c.beta
  {
    hide Dot, Radius;
    var direction, radius := c.direction(iv, d), Radius(c, iv, d);
    var norm := c.length(direction);
    RadiusBound(c, iv, d);
    if norm == 0.0 {
      ZeroLength(c.length, d);
    } else {
      QuotientNonNegative(radius, norm);
      LengthScale(c.length, radius / norm, direction);
      QuotientTimes(radius, norm);
    }
  }

  lemma QuotientTimes(x: real, y: real)
    requires y != 0.0
    ensures x / y * y == x
  {}

  lemma QuotientNonNegative(x: real, y: real)
    requires x >= 0.0 && y > 0.0
    ensures x / y >= 0.0
  {}

  lemma {:induction false} ZeroSumSq(d: nat)
    ensures SumSq(seq(d, _ => 0.0)) == 0.0
  {
    if d > 0 {
      ZeroSumSq(d - 1);
      assert seq(d, _ => 0.0)[..d - 1] == seq(d - 1, _ => 0.0);
    }
  }

  lemma ZeroLength(len: Vec -> real, d: nat)
    requires IsLength(len)
    ensures len(seq(d, _ => 0.0)) == 0.0
  {
    hide Dot;
    ZeroSumSq(d);
    SquareLe(len(seq(d, _ => 0.0)), 0.0);
  }

  // ---- comparisons are preserved -------------------------------------------

  function Distance(c: Cipher, u: Vec, w: Vec): real
    requires |u| == |w|
  {
    c.length(Sub(u, w))
  }

  /** Distances of shuffled vectors are those of the vectors. */
  lemma {:induction false} ShuffleKeepsSumSq(v: Vec, i: nat, k: nat, draw: nat -> nat)
    requires i < |v| || i == 0
    ensures SumSq(Shuffle(v, i, k, draw)) == SumSq(v)
    decreases i
  {
    hide Dot, Swapped;
    if i > 0 {
      var j := draw(k) % (i + 1);
      SwapKeepsSumSq(v, i, j);
      SwapLength(v, i, j);
      ShuffleKeepsSumSq(Swapped(v, i, j), i - 1, k + 1, draw);
    }
  }

  /** Reordering by a shuffled index list is shuffling. */
  lemma {:induction false} PermutedShuffle(v: Vec, p: seq<nat>, i: nat, k: nat, draw: nat -> nat)
    requires Within(p, |v|) && (i < |p| || i == 0)
    ensures Within(Shuffle(p, i, k, draw), |v|)
    ensures Permuted(v, Shuffle(p, i, k, draw)) == Shuffle(Permuted(v, p), i, k, draw)
    decreases i
  {
    if i > 0 {
      var j := draw(k) % (i + 1);
      assert Permuted(v, Swapped(p, i, j)) == Swapped(Permuted(v, p), i, j);
      PermutedShuffle(v, Swapped(p, i, j), i - 1, k + 1, draw);
    }
  }

  lemma PermutedSumSq(c: Cipher, v: Vec)
    ensures IsPermutation(PermutationOf(c, |v|))
    ensures SumSq(Permuted(v, PermutationOf(c, |v|))) == SumSq(v)
  {
    hide Dot, Shuffle;
    var d := |v|;
    PermutationIs(c, d);
    assert Permuted(v, Iota(d)) == v;
    if d > 1 {
      PermutedShuffle(v, Iota(d), d - 1, 0, c.draw);
      ShuffleKeepsSumSq(v, d - 1, 0, c.draw);
    }
  }

  lemma PermutedSub(u: Vec, w: Vec, p: seq<nat>)
    requires |u| == |w| == |p| && IsPermutation(p)
    ensures Sub(Permuted(u, p), Permuted(w, p)) == Permuted(Sub(u, w), p)
  {}

  /** The shuffle preserves every distance. */
  lemma ShuffleKeepsDistance(c: Cipher, u: Vec, w: Vec)
    requires CipherOk(c) && |u| == |w| && IsPermutation(PermutationOf(c, |u|))
    ensures var p := PermutationOf(c, |u|); Distance(c, Permuted(u, p), Permuted(w, p)) == Distance(c, u, w)
  {
    hide Dot, PermutationOf;
    var p := PermutationOf(c, |u|);
    PermutedSub(u, w, p);
    PermutedSumSq(c, Sub(u, w));
    var a, b := c.length(Sub(u, w)), c.length(Permuted(Sub(u, w), p));
    SquareLe(a, b);
    SquareLe(b, a);
  }

  /** A ciphertext difference is the scaled difference plus a small one. */
  lemma CipherDifference(s: real, x: Vec, y: Vec, l: Vec, m: Vec)
    requires |x| == |y| == |l| == |m|
    ensures Sub(Add(Scale(s, x), l), Add(Scale(s, y), m)) == Add(Scale(s, Sub(x, y)), Sub(l, m))
  {
    var a, b := Sub(Add(Scale(s, x), l), Add(Scale(s, y), m)), Add(Scale(s, Sub(x, y)), Sub(l, m));
    forall i | 0 <= i < |x| ensures a[i] == b[i] { assert s * (x[i] - y[i]) == s * x[i] - s * y[i]; }
  }

  lemma DifferenceBound(len: Vec -> real, l: Vec, m: Vec, bound: real)
    requires IsLength(len) && |l| == |m| && len(l) <= bound && len(m) <= bound
    ensures len(Sub(l, m)) <= 2.0 * bound
  {
    Triangle(len, l, Scale(-1.0, m));
    LengthNegate(len, m);
    assert Sub(l, m) == Add(l, Scale(-1.0, m));
  }

  /** A sum is no shorter than one part less the other. */
  lemma TriangleBelow(len: Vec -> real, u: Vec, w: Vec)
    requires IsLength(len) && |u| == |w|
    ensures len(Add(u, w)) >= len(u) - len(w)
  {
    var s := Add(u, w);
    Triangle(len, s, Scale(-1.0, w));
    LengthNegate(len, w);
    assert Add(s, Scale(-1.0, w)) == u;
  }

  /** A ciphertext distance lies within half the scale times the factor of the scaled
      plaintext distance. */
  lemma CipherDistance(c: Cipher, x: Vec, y: Vec, iv: nat, jv: nat)
    requires CipherOk(c) && |x| == |y|
    ensures var d := Distance(c, ScaleAndPerturb(c, x, iv), ScaleAndPerturb(c, y, jv));
      c.scale * Distance(c, x, y) - c.scale / 2.0 * c.beta <= d <= c.scale * Distance(c, x, y) + c.scale / 2.0 * c.beta
  {
    hide IsLength, Perturbation;
    var l, m, s := Perturbation(c, iv, |x|), Perturbation(c, jv, |y|), c.scale;
    PerturbationBound(c, iv, |x|);
    PerturbationBound(c, jv, |y|);
    DifferenceBound(c.length, l, m, s / 4.0 * c.beta);
    CipherDifference(s, x, y, l, m);
    LengthScale(c.length, s, Sub(x, y));
    Triangle(c.length, Scale(s, Sub(x, y)), Sub(l, m));
    TriangleBelow(c.length, Scale(s, Sub(x, y)), Sub(l, m));
    assert 2.0 * (s / 4.0 * c.beta) == s / 2.0 * c.beta;
  }

  /** Distances of the normalised vectors. */
  function NormalizedDistance(c: Cipher, u: Vec, w: Vec): real
    requires |u| == |w| && Normalize(c, u).Ok? && Normalize(c, w).Ok?
  {
    Distance(c, Normalize(c, u).value, Normalize(c, w).value)
  }

  lemma PretransformDistance(c: Cipher, u: Vec, w: Vec)
    requires CipherOk(c) && |u| == |w| && Pretransform(c, u).Ok? && Pretransform(c, w).Ok?
    ensures Normalize(c, u).Ok? && Normalize(c, w).Ok?
    ensures Distance(c, Pretransform(c, u).value, Pretransform(c, w).value) == NormalizedDistance(c, u, w)
  {
    hide Normalize, PermutationOf, IsPermutation;
    PermutationIs(c, |u|);
    ShuffleKeepsDistance(c, Normalize(c, u).value, Normalize(c, w).value);
  }

  /** Whenever one neighbour is closer than another by more than the approximation factor,
      the ciphertexts keep that order, whatever initialisation vectors were drawn. */
  lemma ComparisonPreserved(c: Cipher, x: Vec, y: Vec, z: Vec, iv: nat, jv: nat, kv: nat)
    requires CipherOk(c) && |x| == |y| == |z|
    requires Encrypt(c, x, iv).Ok? && Encrypt(c, y, jv).Ok? && Encrypt(c, z, kv).Ok?
    requires Normalize(c, x).Ok? && Normalize(c, y).Ok? && Normalize(c, z).Ok?
    requires NormalizedDistance(c, x, y) + c.beta < NormalizedDistance(c, x, z)
    ensures var cx, cy, cz := Encrypt(c, x, iv).value, Encrypt(c, y, jv).value, Encrypt(c, z, kv).value;
      && |cx.ciphertext| == |cy.ciphertext| == |cz.ciphertext|
      && Distance(c, cx.ciphertext, cy.ciphertext) < Distance(c, cx.ciphertext, cz.ciphertext)
  {
    hide Normalize, NormalizedDistance, Distance, Encrypt, IsLength, ScaleAndPerturb, PermutationOf;
    SealedShape(c, x, Encrypt(c, x, iv).value);
    SealedShape(c, y, Encrypt(c, y, jv).value);
    SealedShape(c, z, Encrypt(c, z, kv).value);
    PretransformDistance(c, x, y);
    PretransformDistance(c, x, z);
    CipherDistance(c, Pretransform(c, x).value, Pretransform(c, y).value, iv, jv);
    CipherDistance(c, Pretransform(c, x).value, Pretransform(c, z).value, iv, kv);
    var a, b, s := NormalizedDistance(c, x, y), NormalizedDistance(c, x, z), c.scale;
    ProductPositive(s, b - a - c.beta);
    assert s * (b - a - c.beta) == s * b - s * a - s * c.beta;
    assert s / 2.0 * c.beta + s / 2.0 * c.beta == s * c.beta;
  }
}
