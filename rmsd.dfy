/**
 * `rmsd(V, W)` of kabsch_algorithm.py: the root of the mean, over the points
 * of V, of the squared distance between paired points.  The pairing is the
 * one `zip` makes, so only the first min(len(V), len(W)) pairs contribute,
 * while the divisor is always len(V).  The square root is supplied by the
 * caller as the function `sqrt`.
 */
module Deviation {
  import opened Wrappers
  import opened Matrices

  datatype RmsdError =
    | DimensionMismatch  // the assertion 'Dimensions are not equal!'
    | NoPoints           // `V[0]` on an array with no rows (IndexError)

  /** What the model needs of a square root: sqrt(0) == 0, monotone and non-negative on non-negative reals. */
  ghost predicate IsRoot(sqrt: real -> real) {
    && sqrt(0.0) == 0.0
    && forall x, y | 0.0 <= x <= y :: 0.0 <= sqrt(x) <= sqrt(y)
  }

  /** Sum over the coordinates of the squared differences of two points. */
  function SquaredDistance(v: seq<real>, w: seq<real>): real
    requires |v| == |w|
  {
    if |v| == 0 then 0.0
    else
      var d := v[|v| - 1] - w[|w| - 1];
      SquaredDistance(v[..|v| - 1], w[..|w| - 1]) + d * d
  }

  /** Sum of the squared distances of the first `n` pairs of rows. */
  function SumOfSquares(V: Mat, W: Mat, n: nat): real
    requires V.cols == W.cols && n <= V.rows && n <= W.rows
  {
    if n == 0 then 0.0
    else SumOfSquares(V, W, n - 1) + SquaredDistance(V.data[n - 1], W.data[n - 1])
  }

  /** The value `rmsd(V, W)` computes, with its two failures. */
  function RmsdOf(V: Mat, W: Mat, sqrt: real -> real): Result<real, RmsdError> {
    if V.cols != W.cols then Failure(DimensionMismatch)
    else if V.rows == 0 then Failure(NoPoints)
    else Success(sqrt(SumOfSquares(V, W, Min(V.rows, W.rows)) / V.rows as real))
  }

  /** The accumulation loop of `rmsd`, over the pairs that `zip(V, W)` yields. */
  method Rmsd(V: Mat, W: Mat, sqrt: real -> real) returns (r: Result<real, RmsdError>)
    ensures r == RmsdOf(V, W, sqrt)
  {
    if V.cols != W.cols {
      return Failure(DimensionMismatch);
    }
    if V.rows == 0 {
      return Failure(NoPoints);
    }
    var d := |V.data[0]|;
    var n := V.rows;
    var acc := 0.0;
    var k := 0;
    while k < V.rows && k < W.rows
      invariant 0 <= k <= Min(V.rows, W.rows)
      invariant acc == SumOfSquares(V, W, k)
    {
      assert V.data[k][..d] == V.data[k] && W.data[k][..d] == W.data[k];
      acc := acc + SquaredDistance(V.data[k][..d], W.data[k][..d]);
      k := k + 1;
    }
    r := Success(sqrt(acc / n as real));
  }

  lemma {:induction false} SquaredDistanceNonNegative(v: seq<real>, w: seq<real>)
    requires |v| == |w|
    ensures SquaredDistance(v, w) >= 0.0
  {
    if |v| > 0 {
      SquaredDistanceNonNegative(v[..|v| - 1], w[..|w| - 1]);
    }
  }

  lemma {:induction false} SumOfSquaresNonNegative(V: Mat, W: Mat, n: nat)
    requires V.cols == W.cols && n <= V.rows && n <= W.rows
    ensures SumOfSquares(V, W, n) >= 0.0
  {
    if n > 0 {
      SumOfSquaresNonNegative(V, W, n - 1);
      SquaredDistanceNonNegative(V.data[n - 1], W.data[n - 1]);
    }
  }

  /** rmsd fails with 'Dimensions are not equal!' exactly when the trailing dimensions differ. */
  lemma RmsdDimensionCheck(V: Mat, W: Mat, sqrt: real -> real)
    ensures RmsdOf(V, W, sqrt) == Failure(DimensionMismatch) <==> V.cols != W.cols
    ensures RmsdOf(V, W, sqrt).Success? <==> V.cols == W.cols && V.rows > 0
  {
  }

  /** Every successful rmsd is non-negative: each step adds a sum of squares to an accumulator that starts at 0. */
  lemma RmsdNonNegative(V: Mat, W: Mat, sqrt: real -> real)
    requires IsRoot(sqrt)
    requires RmsdOf(V, W, sqrt).Success?
    ensures RmsdOf(V, W, sqrt).value >= 0.0
  {
    SumOfSquaresNonNegative(V, W, Min(V.rows, W.rows));
    var ms := SumOfSquares(V, W, Min(V.rows, W.rows)) / V.rows as real;
    assert 0.0 <= ms;
    assert 0.0 <= sqrt(0.0) <= sqrt(ms);
  }

  lemma {:induction false} SquaredDistanceSelf(v: seq<real>)
    ensures SquaredDistance(v, v) == 0.0
  {
    if |v| > 0 {
      SquaredDistanceSelf(v[..|v| - 1]);
    }
  }

  lemma {:induction false} SumOfSquaresSelf(X: Mat, n: nat)
    requires n <= X.rows
    ensures SumOfSquares(X, X, n) == 0.0
  {
    if n > 0 {
      SumOfSquaresSelf(X, n - 1);
      SquaredDistanceSelf(X.data[n - 1]);
    }
  }

  /** The deviation of a non-empty point set from itself is exactly zero. */
  lemma RmsdSelfIsZero(X: Mat, sqrt: real -> real)
    requires IsRoot(sqrt)
    requires X.rows > 0
    ensures RmsdOf(X, X, sqrt) == Success(0.0)
  {
    SumOfSquaresSelf(X, X.rows);
  }

  /** `n` copies of the same row. */
  function Copies(n: nat, p: seq<real>): (m: Mat)
    ensures m.rows == n && m.cols == |p|
    ensures forall i | 0 <= i < n :: m.data[i] == p
  {
    Matrix(n, |p|, seq(n, _ => p))
  }

  lemma {:induction false} SumOfSquaresCopies(n: nat, k: nat, p: seq<real>, q: seq<real>)
    requires |p| == |q| && k <= n
    ensures SumOfSquares(Copies(n, p), Copies(n, q), k) == k as real * SquaredDistance(p, q)
  {
    if k > 0 {
      SumOfSquaresCopies(n, k - 1, p, q);
    }
  }

  /**
   * Ten copies of (1, 0, 0) against ten copies of (0, 1, 0): the mean square
   * is exactly 2, so rmsd is sqrt(2).
   */
  lemma RmsdOfUnitVectors(sqrt: real -> real)
    ensures RmsdOf(Copies(10, [1.0, 0.0, 0.0]), Copies(10, [0.0, 1.0, 0.0]), sqrt) == Success(sqrt(2.0))
  {
    var p, q := [1.0, 0.0, 0.0], [0.0, 1.0, 0.0];
    assert SquaredDistance(p, q) == 2.0 by {
      assert p[..2] == [1.0, 0.0] && q[..2] == [0.0, 1.0];
      assert p[..2][..1] == [1.0] && q[..2][..1] == [0.0];
      assert [1.0][..0] == [] && [0.0][..0] == [];
    }
    SumOfSquaresCopies(10, 10, p, q);
  }

  /**
   * `zip` truncation: two points of V against one point of W.  Only the one
   * zipped pair is summed, but the divisor is len(V) == 2, so the mean square
   * is 1 and not the 2 of the paired point.
   */
  lemma RmsdZipTruncates(sqrt: real -> real)
    ensures RmsdOf(Copies(2, [1.0, 0.0, 0.0]), Copies(1, [0.0, 1.0, 0.0]), sqrt) == Success(sqrt(1.0))
  {
    var p, q := [1.0, 0.0, 0.0], [0.0, 1.0, 0.0];
    assert SquaredDistance(p, q) == 2.0 by {
      assert p[..2] == [1.0, 0.0] && q[..2] == [0.0, 1.0];
      assert p[..2][..1] == [1.0] && q[..2][..1] == [0.0];
      assert [1.0][..0] == [] && [0.0][..0] == [];
    }
    SumOfSquaresCopies(2, 1, p, q);
  }
}
