/** Vectors of reals: squared length, the Cauchy–Schwarz and triangle inequalities, and
    permutations of components. */
module Euclid {

  type Vec = seq<real>

  function Add(u: Vec, w: Vec): (r: Vec)
    requires |u| == |w|
    ensures |r| == |u| && forall i :: 0 <= i < |r| ==> r[i] == u[i] + w[i]
  {
    seq(|u|, i requires 0 <= i < |u| => u[i] + w[i])
  }

  function Sub(u: Vec, w: Vec): (r: Vec)
    requires |u| == |w|
    ensures |r| == |u| && forall i :: 0 <= i < |r| ==> r[i] == u[i] - w[i]
  {
    seq(|u|, i requires 0 <= i < |u| => u[i] - w[i])
  }

  function Scale(t: real, u: Vec): (r: Vec)
    ensures |r| == |u| && forall i :: 0 <= i < |r| ==> r[i] == t * u[i]
  {
    seq(|u|, i requires 0 <= i < |u| => t * u[i])
  }

  function Dot(u: Vec, w: Vec): real
    requires |u| == |w|
  {
    if u == [] then 0.0 else Dot(u[..|u| - 1], w[..|w| - 1]) + u[|u| - 1] * w[|w| - 1]
  }

  function SumSq(u: Vec): real { Dot(u, u) }

  lemma {:induction false} SumSqNonNegative(u: Vec)
    ensures SumSq(u) >= 0.0
  {
    if u != [] { SumSqNonNegative(u[..|u| - 1]); }
  }

  lemma ScalePrefix(t: real, u: Vec, n: nat)
    requires n <= |u|
    ensures Scale(t, u)[..n] == Scale(t, u[..n])
  {
    forall i | 0 <= i < n ensures Scale(t, u)[..n][i] == Scale(t, u[..n])[i] { assert u[..n][i] == u[i]; }
  }

  lemma {:induction false} DotScale(t: real, u: Vec, w: Vec)
    requires |u| == |w|
    ensures Dot(Scale(t, u), w) == t * Dot(u, w)
  {
    if u != [] {
      var n := |u| - 1;
      DotScale(t, u[..n], w[..n]);
      ScalePrefix(t, u, n);
      var a, x, y := Dot(u[..n], w[..n]), u[n], w[n];
      assert t * a + t * x * y == t * (a + x * y);
    }
  }

  lemma {:induction false} DotSymmetric(u: Vec, w: Vec)
    requires |u| == |w|
    ensures Dot(u, w) == Dot(w, u)
  {
    if u != [] { DotSymmetric(u[..|u| - 1], w[..|w| - 1]); }
  }

  lemma SumSqScale(t: real, u: Vec)
    ensures SumSq(Scale(t, u)) == t * t * SumSq(u)
  {
    hide Dot;
    DotScale(t, u, Scale(t, u));
    DotSymmetric(u, Scale(t, u));
    DotScale(t, u, u);
    var d := Dot(u, u);
    assert t * (t * d) == t * t * d;
  }

  lemma {:induction false} SumSqAdd(u: Vec, w: Vec)
    requires |u| == |w|
    ensures SumSq(Add(u, w)) == SumSq(u) + 2.0 * Dot(u, w) + SumSq(w)
  {
    if u != [] {
      var n := |u| - 1;
      SumSqAdd(u[..n], w[..n]);
      assert Add(u, w)[..n] == Add(u[..n], w[..n]);
      var x, y := u[n], w[n];
      assert (x + y) * (x + y) == x * x + 2.0 * (x * y) + y * y;
    }
  }

  // ---- Cauchy–Schwarz ------------------------------------------------------

  lemma SquareLe(x: real, y: real)
    requires y >= 0.0 && x * x <= y * y
    ensures x <= y
  {
    if x > y {
      assert x * x - y * y == (x - y) * (x + y);
      ProductPositive(x - y, x + y);
    }
  }

  lemma ProductPositive(x: real, y: real)
    requires x > 0.0 && y > 0.0
    ensures x * y > 0.0
  {}

  lemma SquareNonNegative(x: real)
    ensures x * x >= 0.0
  {}

  lemma ProductNonNegative(x: real, y: real)
    requires x >= 0.0 && y >= 0.0
    ensures x * y >= 0.0
  {}

  lemma ProductMonotone(x: real, y: real, t: real)
    requires x <= y && t >= 0.0
    ensures x * t <= y * t
  {
    ProductNonNegative(y - x, t);
    assert (y - x) * t == y * t - x * t;
  }

  /** Twice a mixed term is at most the sum of the two pure ones. */
  lemma Mixed(a: real, p: real, q: real, x: real, y: real)
    requires p >= 0.0 && q >= 0.0 && a * a <= p * q
    ensures 2.0 * (a * (x * y)) <= p * (y * y) + q * (x * x)
  {
    var u, v, m := p * (y * y), q * (x * x), a * (x * y);
    var xx, yy := x * x, y * y;
    SquareNonNegative(x);
    SquareNonNegative(y);
    ProductNonNegative(p, yy);
    ProductNonNegative(q, xx);
    ProductNonNegative(xx, yy);
    ProductMonotone(a * a, p * q, xx * yy);
    assert u * v == (p * q) * (xx * yy);
    assert m * m == (a * a) * (xx * yy);
    SquareNonNegative(u - v);
    assert (u - v) * (u - v) == u * u - 2.0 * (u * v) + v * v;
    assert (u + v) * (u + v) == u * u + 2.0 * (u * v) + v * v;
    assert (2.0 * m) * (2.0 * m) == 4.0 * (m * m);
    SquareLe(2.0 * m, u + v);
  }

  lemma {:induction false} CauchySchwarz(u: Vec, w: Vec)
    requires |u| == |w|
    ensures Dot(u, w) * Dot(u, w) <= SumSq(u) * SumSq(w)
  {
    if u != [] {
      var n := |u| - 1;
      CauchySchwarz(u[..n], w[..n]);
      SumSqNonNegative(u[..n]);
      SumSqNonNegative(w[..n]);
      CauchyStep(Dot(u[..n], w[..n]), SumSq(u[..n]), SumSq(w[..n]), u[n], w[n]);
    }
  }

  lemma CauchyStep(a: real, p: real, q: real, x: real, y: real)
    requires p >= 0.0 && q >= 0.0 && a * a <= p * q
    ensures (a + x * y) * (a + x * y) <= (p + x * x) * (q + y * y)
  {
    Mixed(a, p, q, x, y);
    var xy, xx, yy := x * y, x * x, y * y;
    assert (a + xy) * (a + xy) == a * a + 2.0 * (a * xy) + xy * xy;
    assert (p + xx) * (q + yy) == p * q + p * yy + xx * q + xx * yy;
    assert xy * xy == xx * yy;
    assert xx * q == q * xx;
  }

  // ---- lengths -------------------------------------------------------------

  /** A length function: the non-negative square root of the squared length. */
  ghost predicate IsLength(len: Vec -> real) {
    forall u :: len(u) >= 0.0 && len(u) * len(u) == SumSq(u)
  }

  lemma DotLength(len: Vec -> real, u: Vec, w: Vec)
    requires IsLength(len) && |u| == |w|
    ensures Dot(u, w) <= len(u) * len(w)
  {
    hide Dot;
    CauchySchwarz(u, w);
    var p, q := len(u), len(w);
    ProductNonNegative(p, q);
    assert (p * q) * (p * q) == (p * p) * (q * q);
    SquareLe(Dot(u, w), p * q);
  }

  lemma Triangle(len: Vec -> real, u: Vec, w: Vec)
    requires IsLength(len) && |u| == |w|
    ensures len(Add(u, w)) <= len(u) + len(w)
  {
    hide Dot;
    SumSqAdd(u, w);
    DotLength(len, u, w);
    var p, q, r := len(u), len(w), len(Add(u, w));
    assert (p + q) * (p + q) == p * p + 2.0 * (p * q) + q * q;
    SquareLe(r, p + q);
  }

  lemma LengthScale(len: Vec -> real, t: real, u: Vec)
    requires IsLength(len) && t >= 0.0
    ensures len(Scale(t, u)) == t * len(u)
  {
    hide Dot;
    SumSqScale(t, u);
    var p, r := len(u), len(Scale(t, u));
    ProductNonNegative(t, p);
    assert (t * p) * (t * p) == t * t * (p * p);
    SquareLe(r, t * p);
    SquareLe(t * p, r);
  }

  lemma LengthNegate(len: Vec -> real, u: Vec)
    requires IsLength(len)
    ensures len(Scale(-1.0, u)) == len(u)
  {
    hide Dot;
    SumSqScale(-1.0, u);
    SquareLe(len(Scale(-1.0, u)), len(u));
    SquareLe(len(u), len(Scale(-1.0, u)));
  }

  // ---- permutations --------------------------------------------------------

  function Swapped<T>(s: seq<T>, i: nat, j: nat): seq<T>
    requires i < |s| && j < |s|
  {
    s[i := s[j]][j := s[i]]
  }

  lemma {:induction false} DotUpdate(u: Vec, i: nat, x: real)
    requires i < |u|
    ensures SumSq(u[i := x]) == SumSq(u) - u[i] * u[i] + x * x
  {
    var n := |u| - 1;
    if i < n {
      DotUpdate(u[..n], i, x);
      assert u[i := x][..n] == u[..n][i := x];
    } else {
      assert u[i := x][..n] == u[..n];
    }
  }

  lemma SwapKeepsSumSq(u: Vec, i: nat, j: nat)
    requires i < |u| && j < |u|
    ensures SumSq(Swapped(u, i, j)) == SumSq(u)
  {
    hide Dot;
    DotUpdate(u, i, u[j]);
    DotUpdate(u[i := u[j]], j, u[i]);
  }
}
