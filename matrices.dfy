/**
 * Dense real matrices standing for the two-dimensional numpy arrays that
 * kabsch_algorithm.py works on.  A matrix keeps its shape explicitly, so an
 * array with no rows still has a trailing dimension, as numpy's `shape[-1]`
 * does.
 */
module Matrices {

  datatype Matrix = Matrix(rows: nat, cols: nat, data: seq<seq<real>>)

  /** Every row has `cols` entries and there are `rows` of them. */
  predicate WellShaped(m: Matrix) {
    |m.data| == m.rows && forall i | 0 <= i < |m.data| :: |m.data[i]| == m.cols
  }

  type Mat = m: Matrix | WellShaped(m) witness Matrix(0, 0, [])

  function Min(a: nat, b: nat): nat {
    if a <= b then a else b
  }

  /** Column `j` of `m`, top to bottom. */
  function Column(m: Mat, j: nat): (c: seq<real>)
    requires j < m.cols
    ensures |c| == m.rows
    ensures forall i | 0 <= i < m.rows :: c[i] == m.data[i][j]
  {
    seq(m.rows, i requires 0 <= i < m.rows => m.data[i][j])
  }

  /** The inner product of two vectors of the same length. */
  function Dot(u: seq<real>, v: seq<real>): real
    requires |u| == |v|
  {
    if |u| == 0 then 0.0
    else Dot(u[..|u| - 1], v[..|v| - 1]) + u[|u| - 1] * v[|v| - 1]
  }

  /** `np.transpose` of a two-dimensional array. */
  function Transpose(m: Mat): (t: Mat)
    ensures t.rows == m.cols && t.cols == m.rows
    ensures forall i, j | 0 <= i < m.cols && 0 <= j < m.rows :: t.data[i][j] == m.data[j][i]
  {
    Matrix(m.cols, m.rows,
      seq(m.cols, i requires 0 <= i < m.cols => seq(m.rows, j requires 0 <= j < m.rows => m.data[j][i])))
  }

  /** `np.dot` of two two-dimensional arrays whose inner dimensions agree. */
  function MatMul(a: Mat, b: Mat): (c: Mat)
    requires a.cols == b.rows
    ensures c.rows == a.rows && c.cols == b.cols
    ensures forall i, j | 0 <= i < a.rows && 0 <= j < b.cols :: c.data[i][j] == Dot(a.data[i], Column(b, j))
  {
    Matrix(a.rows, b.cols,
      seq(a.rows, i requires 0 <= i < a.rows => seq(b.cols, j requires 0 <= j < b.cols => Dot(a.data[i], Column(b, j)))))
  }

  /** Two matrices of one shape with the same entries are the same matrix. */
  lemma Extensionality(a: Mat, b: Mat)
    requires a.rows == b.rows && a.cols == b.cols
    requires forall i, j | 0 <= i < a.rows && 0 <= j < a.cols :: a.data[i][j] == b.data[i][j]
    ensures a == b
  {
    forall i | 0 <= i < a.rows
      ensures a.data[i] == b.data[i]
    {
      assert |a.data[i]| == |b.data[i]| == a.cols;
      forall j | 0 <= j < a.cols
        ensures a.data[i][j] == b.data[i][j]
      {
      }
    }
  }
}
