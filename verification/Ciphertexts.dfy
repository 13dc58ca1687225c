/** What a ciphertext is, component by component (crates/quiver-crypto/src/dcpe.rs). */
module Ciphertexts {
  import opened ByteStrings
  import opened Euclid
  import opened Dcpe

  /** Encryption refuses exactly the empty vector and a vector of another dimension than
      the fitted shift. */
  lemma EncryptRefusesIff(c: Cipher, v: Vec, iv: nat)
    requires CipherOk(c)
    ensures Encrypt(c, v, iv) == Err(EmptyVector) <==> v == []
    ensures Encrypt(c, v, iv).Err? && v != [] <==> v != [] && c.normalization.Some? && |c.normalization.value.shift| != |v|
  {
    hide PermutationOf, ScaleAndPerturb, IsLength;
  }

  /** Each ciphertext component is the scaled component the shuffle puts there, shifted
      and rescaled when a normalisation was fitted, plus its share of the noise. */
  lemma ComponentIs(c: Cipher, v: Vec, iv: nat, i: nat)
    requires CipherOk(c) && Encrypt(c, v, iv).Ok? && i < |v|
    ensures |Encrypt(c, v, iv).value.ciphertext| == |v|
    ensures var p := PermutationOf(c, |v|); p[i] < |v|
    ensures var from, noise := PermutationOf(c, |v|)[i], Perturbation(c, iv, |v|)[i];
      match c.normalization
      case None => Encrypt(c, v, iv).value.ciphertext[i] == c.scale * v[from] + noise
      case Some(n) => |n.shift| == |v| && Encrypt(c, v, iv).value.ciphertext[i] == c.scale * (n.scale * (v[from] - n.shift[from])) + noise
  {
    hide PermutationOf, Perturbation, IsLength;
    PermutationIs(c, |v|);
  }

  /** The noise points along the drawn direction and is exactly as long as the drawn
      fraction of a quarter of the scale times the factor. */
  lemma NoiseIs(c: Cipher, iv: nat, d: nat)
    requires CipherOk(c) && c.length(c.direction(iv, d)) != 0.0
    ensures c.length(Perturbation(c, iv, d)) == c.scale / 4.0 * c.beta * c.fraction(iv, d)
    ensures forall i :: 0 <= i < d ==>
      Perturbation(c, iv, d)[i] * c.length(c.direction(iv, d)) == c.scale / 4.0 * c.beta * c.fraction(iv, d) * c.direction(iv, d)[i]
  {
    hide Dot, Radius;
    var direction, radius := c.direction(iv, d), Radius(c, iv, d);
    var norm := c.length(direction);
    RadiusBound(c, iv, d);
    QuotientNonNegative(radius, norm);
    LengthScale(c.length, radius / norm, direction);
    QuotientTimes(radius, norm);
    forall i | 0 <= i < d ensures Perturbation(c, iv, d)[i] * norm == radius * direction[i] {
      Carried(radius, norm, direction[i]);
    }
    RadiusIs(c, iv, d);
  }

  lemma RadiusIs(c: Cipher, iv: nat, d: nat)
    ensures Radius(c, iv, d) == c.scale / 4.0 * c.beta * c.fraction(iv, d)
  {}

  lemma Carried(x: real, y: real, z: real)
    requires y != 0.0
    ensures x / y * z * y == x * z
  {
    assert x / y * y == x;
    assert x / y * z * y == x / y * y * z;
  }

  /** Encrypting one vector twice gives one ciphertext exactly when the noise agrees. */
  lemma SameCiphertextIff(c: Cipher, v: Vec, iv: nat, jv: nat)
    requires CipherOk(c) && Encrypt(c, v, iv).Ok? && Encrypt(c, v, jv).Ok?
    ensures Encrypt(c, v, iv).value.ciphertext == Encrypt(c, v, jv).value.ciphertext
       <==> Perturbation(c, iv, |v|) == Perturbation(c, jv, |v|)
  {
    hide Encrypt, Perturbation, PermutationOf, IsLength, Normalize;
    SealedShape(c, v, Encrypt(c, v, iv).value);
    SealedShape(c, v, Encrypt(c, v, jv).value);
    var x, l, m := Pretransform(c, v).value, Perturbation(c, iv, |v|), Perturbation(c, jv, |v|);
    assert |x| == |v|;
    if Add(Scale(c.scale, x), l) == Add(Scale(c.scale, x), m) {
      forall i | 0 <= i < |v| ensures l[i] == m[i] {
        assert Add(Scale(c.scale, x), l)[i] == c.scale * x[i] + l[i] && Add(Scale(c.scale, x), m)[i] == c.scale * x[i] + m[i];
      }
    }
  }

  // ---- squared length ------------------------------------------------------

  /** Squared length is the sum of the squares, wherever the vector is cut. */
  lemma {:induction false} SumSqSplits(u: Vec, w: Vec)
    ensures SumSq(u + w) == SumSq(u) + SumSq(w)
  {
    if w == [] {
      assert u + w == u;
    } else {
      var n := |w| - 1;
      SumSqSplits(u, w[..n]);
      assert (u + w)[..|u + w| - 1] == u + w[..n];
    }
  }

  lemma SumSqOfOne(x: real)
    ensures SumSq([]) == 0.0 && SumSq([x]) == x * x
  {
    assert [x][..0] == [];
    assert Dot([x], [x]) == Dot([], []) + x * x;
  }
}
