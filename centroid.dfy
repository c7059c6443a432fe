/**
 * `centroid(X)` of kabsch_algorithm.py: `sum(X) / len(X)` for a non-empty
 * point set, a ValueError('Empty vector!') for an empty one.  A
 * one-dimensional array such as `np.ones(10)` is the point set of ten
 * one-coordinate points.
 */
module Centroids {
  import opened Wrappers
  import opened Matrices

  datatype CentroidError = EmptyVector  // ValueError('Empty vector!')

  /** Sum of coordinate `a` over the first `n` points of `X`. */
  function ColumnSum(X: Mat, a: nat, n: nat): real
    requires a < X.cols && n <= X.rows
  {
    if n == 0 then 0.0 else ColumnSum(X, a, n - 1) + X.data[n - 1][a]
  }

  /** The mean point of `X`, or the error for an empty `X`. */
  function Centroid(X: Mat): (r: Result<seq<real>, CentroidError>)
    ensures r.Failure? <==> X.rows == 0
    ensures r.Success? ==> |r.value| == X.cols
  {
    if X.rows == 0 then Failure(EmptyVector)
    else Success(seq(X.cols, a requires 0 <= a < X.cols => ColumnSum(X, a, X.rows) / X.rows as real))
  }

  /** `X` with the vector `t` added to every point. */
  function Shift(X: Mat, t: seq<real>): (Y: Mat)
    requires |t| == X.cols
    ensures Y.rows == X.rows && Y.cols == X.cols
    ensures forall i, a | 0 <= i < X.rows && 0 <= a < X.cols :: Y.data[i][a] == X.data[i][a] + t[a]
  {
    Matrix(X.rows, X.cols,
      seq(X.rows, i requires 0 <= i < X.rows => seq(X.cols, a requires 0 <= a < X.cols => X.data[i][a] + t[a])))
  }

  lemma {:induction false} ColumnSumConstant(X: Mat, p: seq<real>, a: nat, n: nat)
    requires |p| == X.cols && a < X.cols && n <= X.rows
    requires forall i | 0 <= i < X.rows :: X.data[i] == p
    ensures ColumnSum(X, a, n) == n as real * p[a]
  {
    if n > 0 {
      ColumnSumConstant(X, p, a, n - 1);
    }
  }

  /** The centroid of a non-empty set of copies of one point is that point. */
  lemma CentroidOfConstant(X: Mat, p: seq<real>)
    requires X.rows > 0 && |p| == X.cols
    requires forall i | 0 <= i < X.rows :: X.data[i] == p
    ensures Centroid(X) == Success(p)
  {
    var c := Centroid(X).value;
    forall a | 0 <= a < X.cols
      ensures c[a] == p[a]
    {
      ColumnSumConstant(X, p, a, X.rows);
      var n := X.rows as real;
      assert c[a] == (n * p[a]) / n;
    }
    assert c == p;
  }

  /** `centroid(np.ones(10)) == 1` and `centroid(np.zeros(10)) == 0`, and `centroid([])` raises. */
  lemma CentroidExamples()
    ensures Centroid(Matrix(10, 1, seq(10, _ => [1.0]))) == Success([1.0])
    ensures Centroid(Matrix(10, 1, seq(10, _ => [0.0]))) == Success([0.0])
    ensures Centroid(Matrix(0, 1, [])) == Failure(EmptyVector)
  {
    CentroidOfConstant(Matrix(10, 1, seq(10, _ => [1.0])), [1.0]);
    CentroidOfConstant(Matrix(10, 1, seq(10, _ => [0.0])), [0.0]);
  }

  lemma {:induction false} ColumnSumShift(X: Mat, t: seq<real>, a: nat, n: nat)
    requires |t| == X.cols && a < X.cols && n <= X.rows
    ensures ColumnSum(Shift(X, t), a, n) == ColumnSum(X, a, n) + n as real * t[a]
  {
    if n > 0 {
      ColumnSumShift(X, t, a, n - 1);
      var m := (n - 1) as real;
      var x := X.data[n - 1][a];
      assert Shift(X, t).data[n - 1][a] == x + t[a];
      assert m * t[a] + t[a] == n as real * t[a];
    }
  }

  /** Adding `n` copies of `x` to a sum of `n` values adds `x` to their mean. */
  lemma MeanShift(s: real, s': real, n: real, x: real, mean: real, shifted: real)
    requires n > 0.0 && s' == s + n * x
    requires mean == s / n && shifted == s' / n
    ensures shifted == mean + x
  {
    assert s == mean * n;
    assert s' == (mean + x) * n;
  }

  /** Translating every point by `t` translates the centroid by `t`. */
  lemma CentroidOfShift(X: Mat, t: seq<real>)
    requires X.rows > 0 && |t| == X.cols
    ensures Centroid(Shift(X, t)).Success? && Centroid(X).Success?
    ensures forall a | 0 <= a < X.cols :: Centroid(Shift(X, t)).value[a] == Centroid(X).value[a] + t[a]
  {
    var Y := Shift(X, t);
    var n := X.rows as real;
    var c, d := Centroid(X).value, Centroid(Y).value;
    forall a | 0 <= a < X.cols
      ensures d[a] == c[a] + t[a]
    {
      var s, s' := ColumnSum(X, a, X.rows), ColumnSum(Y, a, X.rows);
      assert c[a] == s / n;
      assert d[a] == s' / n;
      ColumnSumShift(X, t, a, X.rows);
      MeanShift(s, s', n, t[a], c[a], d[a]);
    }
  }

  /** The vector with every coordinate of `m` negated. */
  function Negate(m: seq<real>): (u: seq<real>)
    ensures |u| == |m| && forall a | 0 <= a < |m| :: u[a] == -m[a]
  {
    seq(|m|, a requires 0 <= a < |m| => -m[a])
  }

  /** The deviations of `n` values from `m` sum to zero exactly when `m` is their mean. */
  lemma DeviationsVanish(s: real, s': real, n: real, m: real)
    requires n > 0.0 && s' == s + n * -m
    ensures s' == 0.0 <==> m == s / n
  {
    var q := s / n;
    assert s == q * n;
    assert s' == (q - m) * n;
  }

  /**
   * The property that singles out the mean: `m` is the centroid of a
   * non-empty `X` exactly when the deviations of the points from `m` sum to
   * zero in every coordinate.
   */
  lemma CentroidIsBalancePoint(X: Mat, m: seq<real>)
    requires X.rows > 0 && |m| == X.cols
    ensures Centroid(X) == Success(m) <==>
      forall a | 0 <= a < X.cols :: ColumnSum(Shift(X, Negate(m)), a, X.rows) == 0.0
  {
    var n := X.rows as real;
    var c := Centroid(X).value;
    var Y := Shift(X, Negate(m));
    forall a | 0 <= a < X.cols
      ensures ColumnSum(Y, a, X.rows) == 0.0 <==> c[a] == m[a]
    {
      var s, s' := ColumnSum(X, a, X.rows), ColumnSum(Y, a, X.rows);
      ColumnSumShift(X, Negate(m), a, X.rows);
      assert c[a] == s / n;
      DeviationsVanish(s, s', n, m[a]);
    }
    if Centroid(X) == Success(m) {
      assert forall a | 0 <= a < X.cols :: ColumnSum(Y, a, X.rows) == 0.0;
    } else {
      assert c != m;
      var a :| 0 <= a < X.cols && c[a] != m[a];
      assert ColumnSum(Y, a, X.rows) != 0.0;
    }
  }

  /** Subtracting the centroid from every point centres the set: its new centroid is the origin. */
  lemma CenteringZeroesCentroid(X: Mat)
    requires X.rows > 0
    ensures var c := Centroid(X).value;
      Centroid(Shift(X, seq(X.cols, a requires 0 <= a < X.cols => -c[a]))) == Success(seq(X.cols, _ => 0.0))
  {
    var c := Centroid(X).value;
    var t := seq(X.cols, a requires 0 <= a < X.cols => -c[a]);
    CentroidOfShift(X, t);
    var z := Centroid(Shift(X, t)).value;
    assert forall a | 0 <= a < X.cols :: z[a] == 0.0;
    assert z == seq(X.cols, _ => 0.0);
  }
}
