/**
 * Item-item cosine similarity between the pivot's rows, following
 * scikit-learn's `cosine_similarity`: each row is divided by its Euclidean
 * norm, a zero norm being replaced by 1, and the result is the matrix of dot
 * products. The matrix is indexed by the pivot's ISBN order on both axes.
 * The square root is a parameter: nothing here depends on how it is computed.
 */
module Similarity {
  import opened Records
  import opened Pivoting

  datatype SimilarityMatrix = SimilarityMatrix(index: seq<Isbn>, sim: seq<seq<real>>)

  /** Rows and columns both follow `index`. */
  ghost predicate Square(m: SimilarityMatrix)
  {
    |m.sim| == |m.index| && forall i :: 0 <= i < |m.sim| ==> |m.sim[i]| == |m.index|
  }

  /** `sqrt` is a square root on the non-negative reals. */
  ghost predicate IsSqrt(sqrt: real -> real)
  {
    forall x :: 0.0 <= x ==> 0.0 <= sqrt(x) && sqrt(x) * sqrt(x) == x
  }

  function Dot(u: seq<real>, v: seq<real>): real
    requires |u| == |v|
  {
    if u == [] then 0.0 else u[0] * v[0] + Dot(u[1..], v[1..])
  }

  /** The norm scikit-learn divides by: the Euclidean norm, or 1 for a zero vector. */
  function SafeNorm(v: seq<real>, sqrt: real -> real): (r: real)
    ensures r != 0.0
    ensures (forall x :: 0.0 <= x ==> 0.0 <= sqrt(x)) ==> r > 0.0
    ensures sqrt(Dot(v, v)) != 0.0 ==> r == sqrt(Dot(v, v))
    ensures sqrt(Dot(v, v)) == 0.0 ==> r == 1.0
  {
    DotSelfZero(v);
    var n := sqrt(Dot(v, v));
    if n == 0.0 then 1.0 else n
  }

  /**
   * One cell of scikit-learn's cosine similarity: the dot product of the two
   * rows divided by the product of their safe norms. An all-zero row has
   * similarity 0 with every row rather than an undefined value.
   */
  function Cosine(u: seq<real>, v: seq<real>, sqrt: real -> real): (r: real)
    requires |u| == |v|
    ensures (forall k :: 0 <= k < |u| ==> u[k] == 0.0) ==> r == 0.0
    ensures (forall k :: 0 <= k < |v| ==> v[k] == 0.0) ==> r == 0.0
  {
    var nu := SafeNorm(u, sqrt);
    var nv := SafeNorm(v, sqrt);
    assert nu * nv != 0.0;
    assert (forall k :: 0 <= k < |u| ==> u[k] == 0.0) ==> Dot(u, v) == 0.0 by {
      if forall k :: 0 <= k < |u| ==> u[k] == 0.0 {
        DotZero(u, v);
      }
    }
    assert (forall k :: 0 <= k < |v| ==> v[k] == 0.0) ==> Dot(u, v) == 0.0 by {
      if forall k :: 0 <= k < |v| ==> v[k] == 0.0 {
        DotZero(v, u);
        DotSymmetric(u, v);
      }
    }
    Dot(u, v) / (nu * nv)
  }

  /** An all-zero row has dot product 0 with every row. */
  lemma {:induction false} DotZero(u: seq<real>, v: seq<real>)
    requires |u| == |v| && forall k :: 0 <= k < |u| ==> u[k] == 0.0
    ensures Dot(u, v) == 0.0
  {
    if u != [] {
      assert u[0] == 0.0;
      DotZero(u[1..], v[1..]);
    }
  }

  /** The similarity matrix of a pivot: square, indexed by the pivot's rows, each cell the rows' cosine. */
  function BuildSimilarity(p: PivotTable, sqrt: real -> real): (m: SimilarityMatrix)
    requires Shaped(p)
    ensures m.index == p.rows && Square(m)
    ensures forall i, j :: 0 <= i < |m.index| && 0 <= j < |m.index| ==>
      m.sim[i][j] == Cosine(p.cells[i], p.cells[j], sqrt)
  {
    SimilarityMatrix(p.rows,
      seq(|p.rows|, i requires 0 <= i < |p.rows| =>
        seq(|p.rows|, j requires 0 <= j < |p.rows| => Cosine(p.cells[i], p.cells[j], sqrt))))
  }

  lemma {:induction false} DotSymmetric(u: seq<real>, v: seq<real>)
    requires |u| == |v|
    ensures Dot(u, v) == Dot(v, u)
  {
    if u != [] {
      DotSymmetric(u[1..], v[1..]);
    }
  }

  lemma {:induction false} DotNonNegative(u: seq<real>, v: seq<real>)
    requires |u| == |v|
    requires forall k :: 0 <= k < |u| ==> u[k] >= 0.0 && v[k] >= 0.0
    ensures Dot(u, v) >= 0.0
  {
    if u != [] {
      DotNonNegative(u[1..], v[1..]);
      assert u[0] * v[0] >= 0.0;
    }
  }

  /** A vector's dot product with itself vanishes exactly when every entry is zero. */
  lemma {:induction false} DotSelfZero(v: seq<real>)
    ensures Dot(v, v) >= 0.0
    ensures Dot(v, v) == 0.0 <==> forall k :: 0 <= k < |v| ==> v[k] == 0.0
  {
    if v != [] {
      var rest := v[1..];
      DotSelfZero(rest);
      assert Dot(v, v) == v[0] * v[0] + Dot(rest, rest);
      SquareZero(v[0], v[0] * v[0]);
      if Dot(v, v) == 0.0 {
        assert v[0] == 0.0 && Dot(rest, rest) == 0.0;
        forall k | 0 <= k < |v| ensures v[k] == 0.0 {
          if k > 0 { assert v[k] == rest[k - 1]; }
        }
      }
      if forall k :: 0 <= k < |v| ==> v[k] == 0.0 {
        forall k | 0 <= k < |rest| ensures rest[k] == 0.0 {
          assert rest[k] == v[k + 1];
        }
        assert v[0] == 0.0;
      }
    }
  }

  lemma ProductPositive(a: real, b: real, p: real)
    requires a > 0.0 && b > 0.0 && p == a * b
    ensures p > 0.0
  {
  }

  lemma DivSelf(d: real)
    requires d != 0.0
    ensures d / d == 1.0
  {
  }

  /** A square is non-negative, and zero only for zero. */
  lemma SquareZero(x: real, s: real)
    requires s == x * x
    ensures s >= 0.0
    ensures s == 0.0 ==> x == 0.0
  {
    if x > 0.0 {
      ProductPositive(x, x, s);
    } else if x < 0.0 {
      ProductPositive(-x, -x, (-x) * (-x));
      assert (-x) * (-x) == x * x;
    }
  }

  /** The matrix is symmetric: sim(i, j) == sim(j, i). */
  lemma SimilaritySymmetric(p: PivotTable, sqrt: real -> real, i: nat, j: nat)
    requires Shaped(p) && i < |p.rows| && j < |p.rows|
    ensures BuildSimilarity(p, sqrt).sim[i][j] == BuildSimilarity(p, sqrt).sim[j][i]
  {
    DotSymmetric(p.cells[i], p.cells[j]);
  }

  /** Two rows with the same non-zero vector have similarity 1. */
  lemma EqualRowsFullySimilar(p: PivotTable, sqrt: real -> real, i: nat, j: nat)
    requires Shaped(p) && IsSqrt(sqrt) && i < |p.rows| && j < |p.rows|
    requires p.cells[i] == p.cells[j]
    requires exists k :: 0 <= k < |p.cols| && p.cells[i][k] != 0.0
    ensures BuildSimilarity(p, sqrt).sim[i][j] == 1.0
  {
    var v := p.cells[i];
    DotSelfZero(v);
    var d := Dot(v, v);
    assert d > 0.0;
    var n := sqrt(d);
    var nn := n * n;
    assert nn == d;
    assert n != 0.0;
    assert SafeNorm(v, sqrt) == n;
    assert Cosine(v, v, sqrt) == d / nn;
    DivSelf(d);
    assert BuildSimilarity(p, sqrt).sim[i][j] == Cosine(v, v, sqrt);
  }

  /** Self-similarity is 1 for a row with a non-zero entry and 0 for an all-zero row. */
  lemma SelfSimilarity(p: PivotTable, sqrt: real -> real, i: nat)
    requires Shaped(p) && IsSqrt(sqrt) && i < |p.rows|
    ensures BuildSimilarity(p, sqrt).sim[i][i] ==
      if forall k :: 0 <= k < |p.cols| ==> p.cells[i][k] == 0.0 then 0.0 else 1.0
  {
    var v := p.cells[i];
    DotSelfZero(v);
    if !(forall k :: 0 <= k < |p.cols| ==> v[k] == 0.0) {
      EqualRowsFullySimilar(p, sqrt, i, i);
    } else {
      assert Dot(v, v) == 0.0;
      var n := sqrt(0.0);
      assert n * n == 0.0;
      SquareZero(n, n * n);
      assert SafeNorm(v, sqrt) == 1.0;
      assert Cosine(v, v, sqrt) == 0.0 / (1.0 * 1.0) == 0.0;
    }
  }

  /** Rows without negative entries have non-negative similarity. */
  lemma SimilarityNonNegative(p: PivotTable, sqrt: real -> real, i: nat, j: nat)
    requires Shaped(p) && i < |p.rows| && j < |p.rows|
    requires forall x :: 0.0 <= x ==> 0.0 <= sqrt(x)
    requires forall k :: 0 <= k < |p.cols| ==> p.cells[i][k] >= 0.0 && p.cells[j][k] >= 0.0
    ensures BuildSimilarity(p, sqrt).sim[i][j] >= 0.0
  {
    DotNonNegative(p.cells[i], p.cells[j]);
    DotSelfZero(p.cells[i]);
    DotSelfZero(p.cells[j]);
    var nu := SafeNorm(p.cells[i], sqrt);
    var nv := SafeNorm(p.cells[j], sqrt);
    assert nu > 0.0 && nv > 0.0;
    ProductPositive(nu, nv, nu * nv);
  }
}
