/** Dense vectors over exact reals. */
module Vectors {
  import opened Basics

  type Vec = seq<real>

  ghost predicate Rectangular(m: seq<Vec>) {
    forall i, j | 0 <= i < |m| && 0 <= j < |m| :: |m[i]| == |m[j]|
  }

  function Dot(a: Vec, b: Vec): real
    requires |a| == |b|
  {
    if a == [] then 0.0
    else Dot(a[..|a| - 1], b[..|b| - 1]) + a[|a| - 1] * b[|b| - 1]
  }

  /** Length of the first usable vector; every row of the matrix gets this length. */
  function Dimension(vectors: seq<Vec>): nat {
    if vectors == [] then 0
    else if |vectors[0]| > 0 then |vectors[0]|
    else Dimension(vectors[1..])
  }

  function Scaled(v: Vec, c: real): (r: Vec)
    ensures |r| == |v| && forall i | 0 <= i < |v| :: r[i] == v[i] * c
  {
    seq(|v|, i requires 0 <= i < |v| => v[i] * c)
  }

  /** One row: unusable vectors become zero, tiny ones stay, the rest are divided by their norm. */
  function UnitRow(v: Vec, dim: nat, norm: Vec -> real): (r: Vec)
    ensures |r| == dim
  {
    if |v| != dim then seq(dim, _ => 0.0)
    else if norm(v) > 0.000000000001 then Scaled(v, 1.0 / norm(v))
    else v
  }

  /** Rows scaled to length one, all of the same dimension. */
  function UnitMatrix(vectors: seq<Vec>, norm: Vec -> real): (m: seq<Vec>)
    ensures |m| == |vectors| && Rectangular(m)
  {
    seq(|vectors|, i requires 0 <= i < |vectors| => UnitRow(vectors[i], Dimension(vectors), norm))
  }

  function Plus(a: Vec, b: Vec): (r: Vec)
    requires |a| == |b|
    ensures |r| == |a| && forall i | 0 <= i < |a| :: r[i] == a[i] + b[i]
  {
    seq(|a|, i requires 0 <= i < |a| => a[i] + b[i])
  }

  /** The square root on exact reals, known only by what makes it a square root. */
  ghost predicate IsRoot(root: real -> real) {
    forall x | x >= 0.0 :: root(x) >= 0.0 && root(x) * root(x) == x
  }

  // ---- Laws of the dot product ----

  lemma {:induction false} DotPlus(a: Vec, b: Vec, c: Vec)
    requires |a| == |b| == |c|
    ensures Dot(Plus(a, b), c) == Dot(a, c) + Dot(b, c)
  {
    if a != [] {
      var last := |a| - 1;
      DotPlus(a[..last], b[..last], c[..last]);
      assert Plus(a, b)[..last] == Plus(a[..last], b[..last]);
      Distribute(a[last], b[last], c[last]);
    }
  }

  lemma Distribute(a: real, b: real, c: real)
    ensures (a + b) * c == a * c + b * c
  {}

  lemma ScaleTerm(k: real, d: real, a: real, c: real)
    ensures k * d + (a * k) * c == k * (d + a * c)
  {
    assert (a * k) * c == k * (a * c);
    Distribute(d, a * c, k);
  }

  lemma ScaledPrefix(a: Vec, k: real, n: nat)
    requires n <= |a|
    ensures Scaled(a, k)[..n] == Scaled(a[..n], k)
  {
    var whole, front := Scaled(a, k)[..n], Scaled(a[..n], k);
    forall i | 0 <= i < n
      ensures whole[i] == front[i]
    {
      var x := a[i];
      assert a[..n][i] == x;
      assert whole[i] == x * k && front[i] == x * k;
    }
  }

  lemma {:induction false} DotScaled(a: Vec, k: real, c: Vec)
    requires |a| == |c|
    ensures Dot(Scaled(a, k), c) == k * Dot(a, c)
  {
    if a != [] {
      var last := |a| - 1;
      DotScaled(a[..last], k, c[..last]);
      ScaledPrefix(a, k, last);
      ScaleTerm(k, Dot(a[..last], c[..last]), a[last], c[last]);
    }
  }

  lemma {:induction false} DotSymmetric(a: Vec, b: Vec)
    requires |a| == |b|
    ensures Dot(a, b) == Dot(b, a)
  {
    if a != [] {
      DotSymmetric(a[..|a| - 1], b[..|a| - 1]);
    }
  }

  lemma {:induction false} DotNonNegative(a: Vec)
    ensures Dot(a, a) >= 0.0
  {
    if a != [] {
      DotNonNegative(a[..|a| - 1]);
    }
  }

  lemma {:induction false} DotMonotone(a: Vec, b: Vec)
    requires |a| == |b|
    requires forall i | 0 <= i < |a| :: a[i] * a[i] <= b[i] * b[i]
    ensures Dot(a, a) <= Dot(b, b)
  {
    if a != [] {
      DotMonotone(a[..|a| - 1], b[..|a| - 1]);
    }
  }

  lemma SquareStrict(y: real, x: real)
    requires 0.0 <= y < x
    ensures y * y < x * x
  {
    var d := x - y;
    assert x * x == y * y + 2.0 * (d * y) + d * d;
  }

  lemma RootMonotone(x: real, y: real)
    requires y >= 0.0 && x * x <= y * y
    ensures x <= y
  {
    if x > y {
      SquareStrict(y, x);
    }
  }

  lemma Regroup(a: real, b: real, x: real, y: real)
    ensures (a * (y * y)) * (b * (x * x)) == (a * b) * ((x * y) * (x * y))
  {
    var xx, yy := x * x, y * y;
    assert (x * y) * (x * y) == yy * xx;
    assert (a * yy) * (b * xx) == (a * b) * (yy * xx);
  }

  lemma SquareOfDouble(p: real, w: real)
    ensures (2.0 * p * w) * (2.0 * p * w) == 4.0 * ((p * p) * (w * w))
  {
    var z := p * w;
    assert z * z == (p * p) * (w * w);
    assert 2.0 * p * w == 2.0 * z;
  }

  lemma BelowSum(q: real, s: real, t: real)
    requires s >= 0.0 && t >= 0.0 && q * q <= 4.0 * (s * t)
    ensures q <= s + t
  {
    var d := (s - t) * (s - t);
    assert d >= 0.0;
    assert (s + t) * (s + t) == d + 4.0 * (s * t);
    RootMonotone(q, s + t);
  }

  lemma Discriminant(p: real, aa: real, bb: real, x: real, y: real)
    requires aa >= 0.0 && bb >= 0.0 && p * p <= aa * bb
    ensures 2.0 * p * (x * y) <= aa * (y * y) + bb * (x * x)
  {
    Regroup(aa, bb, x, y);
    SquareOfDouble(p, x * y);
    MulMonotone(p * p, aa * bb, (x * y) * (x * y));
    BelowSum(2.0 * p * (x * y), aa * (y * y), bb * (x * x));
  }

  lemma MulMonotone(a: real, b: real, k: real)
    requires a <= b && k >= 0.0
    ensures a * k <= b * k
  {}

  /** Cauchy-Schwarz. */
  lemma {:induction false} CauchySchwarz(a: Vec, b: Vec)
    requires |a| == |b|
    ensures Dot(a, b) * Dot(a, b) <= Dot(a, a) * Dot(b, b)
  {
    if a != [] {
      var last := |a| - 1;
      var p, aa, bb := Dot(a[..last], b[..last]), Dot(a[..last], a[..last]), Dot(b[..last], b[..last]);
      var x, y := a[last], b[last];
      CauchySchwarz(a[..last], b[..last]);
      DotNonNegative(a[..last]);
      DotNonNegative(b[..last]);
      Discriminant(p, aa, bb, x, y);
      SquareOfSum(p, x * y);
      assert (aa + x * x) * (bb + y * y) == aa * bb + (aa * (y * y) + bb * (x * x)) + (x * y) * (x * y);
    }
  }

  lemma SquareOfSum(p: real, q: real)
    ensures (p + q) * (p + q) == p * p + 2.0 * p * q + q * q
  {}

  lemma SquareOfPlus(a: Vec, b: Vec)
    requires |a| == |b|
    ensures Dot(Plus(a, b), Plus(a, b)) == Dot(a, a) + 2.0 * Dot(a, b) + Dot(b, b)
  {
    var s := Plus(a, b);
    DotPlus(a, b, s);
    DotPlus(a, b, a);
    DotPlus(a, b, b);
    DotSymmetric(a, s);
    DotSymmetric(b, s);
    DotSymmetric(b, a);
  }

  lemma SquareBound(p: real, aa: real, bb: real, ra: real, rb: real)
    requires 0.0 <= ra && 0.0 <= rb && 0.0 <= aa <= ra * ra && 0.0 <= bb <= rb * rb && p * p <= aa * bb
    ensures p <= ra * rb
  {
    MulMonotone(aa, ra * ra, bb);
    MulMonotone(bb, rb * rb, ra * ra);
    assert (ra * rb) * (ra * rb) == (ra * ra) * (rb * rb);
    RootMonotone(p, ra * rb);
  }

  lemma SumBound(aa: real, p: real, bb: real, ra: real, rb: real, rs: real)
    requires 0.0 <= ra && 0.0 <= rb && aa <= ra * ra && bb <= rb * rb && p <= ra * rb
    requires rs * rs == aa + 2.0 * p + bb
    ensures rs <= ra + rb
  {
    SquareOfSum(ra, rb);
    assert 2.0 * ra * rb == 2.0 * (ra * rb);
    RootMonotone(rs, ra + rb);
  }

  /** Minkowski's inequality: the sum of two vectors is no longer than their lengths together. */
  lemma Minkowski(a: Vec, b: Vec, ra: real, rb: real, rs: real)
    requires |a| == |b| && ra >= 0.0 && rb >= 0.0
    requires ra * ra >= Dot(a, a) && rb * rb >= Dot(b, b) && rs * rs == Dot(Plus(a, b), Plus(a, b))
    ensures rs <= ra + rb
  {
    SquareOfPlus(a, b);
    CauchySchwarz(a, b);
    DotNonNegative(a);
    DotNonNegative(b);
    SquareBound(Dot(a, b), Dot(a, a), Dot(b, b), ra, rb);
    SumBound(Dot(a, a), Dot(a, b), Dot(b, b), ra, rb, rs);
  }

  // ---- Similarity and blending ----

  /** Similarity: dot product, zero when the vectors cannot be compared. */
  function Cosine(a: Option<Vec>, b: Option<Vec>): real {
    if a.None? || b.None? || |a.value| == 0 || |a.value| != |b.value| then 0.0 else Dot(a.value, b.value)
  }

  predicate IsUnit(a: Option<Vec>) {
    a.Some? ==> Dot(a.value, a.value) == 1.0
  }

  /** Similarity of normalised vectors lies in [-1, 1], and is 1 for a vector with itself. */
  lemma CosineBounded(a: Option<Vec>, b: Option<Vec>)
    requires IsUnit(a) && IsUnit(b)
    ensures -1.0 <= Cosine(a, b) <= 1.0
    ensures Cosine(a, b) == Cosine(b, a)
    ensures a.Some? && |a.value| > 0 ==> Cosine(a, a) == 1.0
  {
    if a.Some? && b.Some? && |a.value| == |b.value| {
      var d := Dot(a.value, b.value);
      CauchySchwarz(a.value, b.value);
      RootMonotone(d, 1.0);
      RootMonotone(-d, 1.0);
      DotSymmetric(a.value, b.value);
    }
  }

  datatype Weighted = Weighted(vec: Option<Vec>, weight: real)

  function Usable(vectors: seq<Weighted>): (r: seq<Weighted>)
    ensures forall i | 0 <= i < |r| :: r[i].vec.Some? && |r[i].vec.value| > 0 && r[i] in vectors
  {
    if vectors == [] then []
    else
      var last := vectors[|vectors| - 1];
      var r := Usable(vectors[..|vectors| - 1]);
      if last.vec.Some? && |last.vec.value| > 0 then r + [last] else r
  }

  predicate SameLength(vectors: seq<Weighted>, dim: nat) {
    forall i | 0 <= i < |vectors| :: vectors[i].vec.Some? ==> |vectors[i].vec.value| in {0, dim}
  }

  function AbsSum(vectors: seq<Weighted>): real {
    if vectors == [] then 0.0
    else AbsSum(vectors[..|vectors| - 1]) + MaxReal(vectors[|vectors| - 1].weight, -vectors[|vectors| - 1].weight)
  }

  /** The rows added up with their weights. */
  function WeightedSum(vectors: seq<Weighted>, dim: nat): (r: Vec)
    requires forall i | 0 <= i < |vectors| :: vectors[i].vec.Some? && |vectors[i].vec.value| == dim
    ensures |r| == dim
  {
    if vectors == [] then seq(dim, _ => 0.0)
    else
      var last := vectors[|vectors| - 1];
      Plus(WeightedSum(vectors[..|vectors| - 1], dim), Scaled(last.vec.value, last.weight))
  }

  function BlendVectors(vectors: seq<Weighted>, dim: nat, root: real -> real): (r: Option<Vec>)
    requires SameLength(vectors, dim)
    ensures r.Some? ==> |r.value| == dim
  {
    var usable := Usable(vectors);
    if usable == [] || AbsSum(usable) < 0.000000000001 then None
    else
      var acc := WeightedSum(usable, dim);
      var norm := root(Dot(acc, acc));
      if norm < 0.000000000001 then None else Some(Scaled(acc, 1.0 / norm))
  }

  lemma ScaledSquare(a: Vec, k: real)
    ensures Dot(Scaled(a, k), Scaled(a, k)) == k * k * Dot(a, a)
  {
    var s := Scaled(a, k);
    DotScaled(a, k, s);
    DotSymmetric(a, s);
    DotScaled(a, k, a);
    assert k * (k * Dot(a, a)) == k * k * Dot(a, a);
  }

  /** Whatever the vectors and weights, a blend has length one. */
  lemma BlendIsUnit(vectors: seq<Weighted>, dim: nat, root: real -> real)
    requires SameLength(vectors, dim) && IsRoot(root)
    ensures IsUnit(BlendVectors(vectors, dim, root))
  {
    var r := BlendVectors(vectors, dim, root);
    if r.Some? {
      var acc := WeightedSum(Usable(vectors), dim);
      DotNonNegative(acc);
      DividedIsUnit(acc, root(Dot(acc, acc)));
    }
  }

  lemma DividedIsUnit(a: Vec, norm: real)
    requires norm > 0.0 && norm * norm == Dot(a, a)
    ensures Dot(Scaled(a, 1.0 / norm), Scaled(a, 1.0 / norm)) == 1.0
  {
    ScaledSquare(a, 1.0 / norm);
    InverseSquare(1.0 / norm, norm, Dot(a, a));
  }

  lemma InverseSquare(k: real, norm: real, square: real)
    requires k * norm == 1.0 && norm * norm == square
    ensures k * k * square == 1.0
  {
    assert k * k * (norm * norm) == (k * norm) * (k * norm);
  }
}
