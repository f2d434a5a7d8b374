/** What the dot product, the similarity and the normalised rows are (embeddings.py; pipeline.py, `_unit_matrix`). */
module VectorLaws {
  import opened Basics
  import opened Vectors

  // ---- The dot product and the similarity ----

  /** Coordinate by coordinate: a product in one dimension, a sum over parts. */
  lemma {:induction false} DotConcat(a: Vec, b: Vec, c: Vec, d: Vec)
    requires |a| == |b| && |c| == |d|
    ensures Dot(a + c, b + d) == Dot(a, b) + Dot(c, d)
  {
    if c == [] {
      assert a + c == a && b + d == b;
    } else {
      var last := |c| - 1;
      DotConcat(a, b, c[..last], d[..last]);
      assert (a + c)[..|a + c| - 1] == a + c[..last] && (b + d)[..|b + d| - 1] == b + d[..last];
    }
  }

  lemma DotOne(x: real, y: real)
    ensures Dot([x], [y]) == x * y
  {
    assert [x][..0] == [] && [y][..0] == [];
  }

  /** The similarity follows scaling and addition, so a vector is as unlike its opposite as it is like itself; without a
      vector, or with one of another length, there is none. */
  lemma CosineLinear(a: Option<Vec>, b: Vec, c: Vec, k: real)
    requires |b| == |c|
    ensures Cosine(a, Some(Scaled(b, k))) == k * Cosine(a, Some(b))
    ensures Cosine(a, Some(Plus(b, c))) == Cosine(a, Some(b)) + Cosine(a, Some(c))
    ensures Cosine(a, None) == 0.0 == Cosine(None, Some(b))
    ensures a.Some? && |a.value| != |b| ==> Cosine(a, Some(b)) == 0.0
  {
    if a.Some? && |a.value| == |b| {
      DotSymmetric(a.value, Scaled(b, k));
      DotScaled(b, k, a.value);
      DotSymmetric(b, a.value);
      DotSymmetric(a.value, Plus(b, c));
      DotPlus(b, c, a.value);
      DotSymmetric(c, a.value);
    }
  }

  lemma CosineOpposite(a: Vec)
    requires IsUnit(Some(a)) && |a| > 0
    ensures Cosine(Some(a), Some(Scaled(a, -1.0))) == -1.0
  {
    CosineLinear(Some(a), a, a, -1.0);
  }

  // ---- Unit rows ----

  /** A vector of the common length and a proper norm keeps its direction and gets length one; one of another length
      becomes zero. */
  lemma UnitRowMeaning(v: Vec, dim: nat, norm: Vec -> real)
    ensures |v| != dim ==> forall a | 0 <= a < dim :: UnitRow(v, dim, norm)[a] == 0.0
    ensures |v| == dim && norm(v) > 0.000000000001 && norm(v) * norm(v) == Dot(v, v) ==>
              && Dot(UnitRow(v, dim, norm), UnitRow(v, dim, norm)) == 1.0
              && forall a | 0 <= a < dim :: UnitRow(v, dim, norm)[a] * norm(v) == v[a]
  {
    if |v| == dim && norm(v) > 0.000000000001 && norm(v) * norm(v) == Dot(v, v) {
      DividedIsUnit(v, norm(v));
      forall a | 0 <= a < dim
        ensures UnitRow(v, dim, norm)[a] * norm(v) == v[a]
      {
        BackToLength(v[a], norm(v), UnitRow(v, dim, norm)[a]);
      }
    }
  }

  lemma BackToLength(x: real, length: real, y: real)
    requires length > 0.0 && y == x * (1.0 / length)
    ensures y * length == x
  {}

  /** The common length is that of the first vector with any coordinates. */
  lemma {:induction false} DimensionIsFirst(vectors: seq<Vec>, i: nat)
    requires i < |vectors| && |vectors[i]| > 0 && forall j | 0 <= j < i :: vectors[j] == []
    ensures Dimension(vectors) == |vectors[i]|
  {
    if i > 0 {
      DimensionIsFirst(vectors[1..], i - 1);
    }
  }
}
