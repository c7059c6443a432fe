/**
 * `kabsch(P, Q, normal, rotation)` of kabsch_algorithm.py: the covariance
 * C = Pᵗ·Q, its singular value decomposition C = V·diag(S)·W, the reflection
 * guard that negates the last singular value and the last column of V when
 * det(V)·det(W) < 0, the rotation U = V·W, the rotated set P·U, and the
 * output built from rmsd(P·U, Q), optionally rmsd(P, Q), optionally U.
 * `np.linalg.svd` and `np.linalg.det` are supplied as the parameters `svd`
 * and `det`; `svd` answers None where numpy raises LinAlgError.
 */
module KabschAlgorithm {
  import opened Wrappers
  import opened Matrices
  import opened Deviation

  /** The factors `V, S, W` that `np.linalg.svd(C)` returns. */
  datatype Svd = Svd(V: Mat, S: seq<real>, W: Mat)

  /** The shapes numpy's SVD gives for a C of shape m×n: V is m×m, W is n×n, S has min(m, n) entries. */
  predicate SvdShaped(C: Mat, t: Svd) {
    && t.V.rows == C.rows && t.V.cols == C.rows
    && t.W.rows == C.cols && t.W.cols == C.cols
    && |t.S| == Min(C.rows, C.cols)
  }

  /** The decomposition routine returns factors of those shapes whenever it succeeds. */
  ghost predicate SvdContract(svd: Mat -> Option<Svd>) {
    forall C: Mat :: svd(C).Some? ==> SvdShaped(C, svd(C).value)
  }

  datatype KabschError =
    | NotAligned              // np.dot on arrays whose inner dimensions differ (ValueError)
    | SvdFailed               // np.linalg.svd did not converge (LinAlgError)
    | IndexOutOfRange         // S[-1] or V[:,-1] on an empty axis (IndexError)
    | RmsdFailed(cause: RmsdError)

  /** The result tuple as a record: the optimal deviation, then the optional raw deviation and rotation. */
  datatype Alignment = Alignment(optimal: real, raw: Option<real>, rotation: Option<Mat>)

  /** An element of the tuple `kabsch` returns. */
  datatype Item = Distance(distance: real) | Rotation(matrix: Mat)

  /** The record laid out as the source's tuple. */
  function Items(a: Alignment): (t: seq<Item>)
    ensures |t| == 1 + (if a.raw.Some? then 1 else 0) + (if a.rotation.Some? then 1 else 0)
    ensures t[0] == Distance(a.optimal)
    ensures a.raw.Some? ==> t[1] == Distance(a.raw.value)
    ensures a.rotation.Some? ==> t[|t| - 1] == Rotation(a.rotation.value)
  {
    [Distance(a.optimal)]
    + (if a.raw.Some? then [Distance(a.raw.value)] else [])
    + (if a.rotation.Some? then [Rotation(a.rotation.value)] else [])
  }

  /** The covariance matrix Pᵗ·Q of two point sets with the same number of points. */
  function Covariance(P: Mat, Q: Mat): (C: Mat)
    requires P.rows == Q.rows
    ensures C.rows == P.cols && C.cols == Q.cols
  {
    MatMul(Transpose(P), Q)
  }

  /** Σ over the first `n` points of P[i][a]·Q[i][b]. */
  function CrossSum(P: Mat, Q: Mat, a: nat, b: nat, n: nat): real
    requires a < P.cols && b < Q.cols && n <= P.rows && n <= Q.rows
  {
    if n == 0 then 0.0 else CrossSum(P, Q, a, b, n - 1) + P.data[n - 1][a] * Q.data[n - 1][b]
  }

  lemma {:induction false} DotOfColumns(P: Mat, Q: Mat, a: nat, b: nat, n: nat)
    requires a < P.cols && b < Q.cols && n <= P.rows && n <= Q.rows
    ensures Dot(Column(P, a)[..n], Column(Q, b)[..n]) == CrossSum(P, Q, a, b, n)
  {
    if n > 0 {
      DotOfColumns(P, Q, a, b, n - 1);
      assert Column(P, a)[..n][..n - 1] == Column(P, a)[..n - 1];
      assert Column(Q, b)[..n][..n - 1] == Column(Q, b)[..n - 1];
    }
  }

  /** Every covariance entry is C[a][b] = Σᵢ P[i][a]·Q[i][b]. */
  lemma CovarianceEntries(P: Mat, Q: Mat)
    requires P.rows == Q.rows
    ensures forall a, b | 0 <= a < P.cols && 0 <= b < Q.cols :: Covariance(P, Q).data[a][b] == CrossSum(P, Q, a, b, P.rows)
  {
    forall a, b | 0 <= a < P.cols && 0 <= b < Q.cols
      ensures Covariance(P, Q).data[a][b] == CrossSum(P, Q, a, b, P.rows)
    {
      assert Transpose(P).data[a] == Column(P, a);
      DotOfColumns(P, Q, a, b, P.rows);
      assert Column(P, a)[..P.rows] == Column(P, a);
      assert Column(Q, b)[..P.rows] == Column(Q, b);
    }
  }

  /** `kabsch`'s reflection test: det(V)·det(W) < 0, so the decomposition describes a reflection. */
  function Flips(t: Svd, det: Mat -> real): bool {
    det(t.V) * det(t.W) < 0.0
  }

  /** The reflection guard of `kabsch` on values: the last singular value and the last column of V negated. */
  function Reflect(t: Svd): (u: Svd)
    requires |t.S| > 0 && t.V.cols > 0
    ensures u.W == t.W && |u.S| == |t.S| && u.V.rows == t.V.rows && u.V.cols == t.V.cols
    ensures forall k | 0 <= k < |t.S| :: u.S[k] == if k == |t.S| - 1 then -t.S[k] else t.S[k]
    ensures forall i, j | 0 <= i < t.V.rows && 0 <= j < t.V.cols ::
      u.V.data[i][j] == if j == t.V.cols - 1 then -t.V.data[i][j] else t.V.data[i][j]
  {
    var last := t.V.cols - 1;
    var V := Matrix(t.V.rows, t.V.cols,
      seq(t.V.rows, i requires 0 <= i < t.V.rows =>
        seq(t.V.cols, j requires 0 <= j < t.V.cols => if j == last then -t.V.data[i][j] else t.V.data[i][j])));
    Svd(V, t.S[..|t.S| - 1] + [-t.S[|t.S| - 1]], t.W)
  }

  /** V·diag(S): column j of V scaled by S[j]. */
  function ScaleColumns(V: Mat, S: seq<real>): (M: Mat)
    requires |S| == V.cols
    ensures M.rows == V.rows && M.cols == V.cols
    ensures forall i, j | 0 <= i < V.rows && 0 <= j < V.cols :: M.data[i][j] == V.data[i][j] * S[j]
  {
    Matrix(V.rows, V.cols,
      seq(V.rows, i requires 0 <= i < V.rows => seq(V.cols, j requires 0 <= j < V.cols => V.data[i][j] * S[j])))
  }

  /** The diagonal of diag(1, …, 1, σ) of size n, with σ == -1 exactly when `flip`. */
  function Signs(n: nat, flip: bool): (d: seq<real>)
    ensures |d| == n
    ensures forall j | 0 <= j < n :: d[j] == if flip && j == n - 1 then -1.0 else 1.0
  {
    seq(n, j requires 0 <= j < n => if flip && j == n - 1 then -1.0 else 1.0)
  }

  /**
   * The V the reflection guard leaves behind is V·diag(1, …, 1, σ), with
   * σ == -1 exactly when the guard flips.
   */
  lemma CorrectedIsScaled(t: Svd, det: Mat -> real)
    requires !(Flips(t, det) && (|t.S| == 0 || t.V.cols == 0))
    ensures (if Flips(t, det) then Reflect(t) else t).V == ScaleColumns(t.V, Signs(t.V.cols, Flips(t, det)))
  {
    var c := if Flips(t, det) then Reflect(t) else t;
    var M := ScaleColumns(t.V, Signs(t.V.cols, Flips(t, det)));
    forall i, j | 0 <= i < t.V.rows && 0 <= j < t.V.cols
      ensures c.V.data[i][j] == M.data[i][j]
    {
      if Flips(t, det) && j == t.V.cols - 1 {
        assert M.data[i][j] == t.V.data[i][j] * -1.0;
      } else {
        assert M.data[i][j] == t.V.data[i][j] * 1.0;
      }
    }
    Extensionality(c.V, M);
  }

  /** The product V·diag(S)·W that the decomposition factors C into. */
  function Reconstruct(t: Svd): (C: Mat)
    requires |t.S| == t.V.cols == t.W.rows
    ensures C.rows == t.V.rows && C.cols == t.W.cols
  {
    MatMul(ScaleColumns(t.V, t.S), t.W)
  }

  /**
   * The reflection guard keeps the factorisation: negating both the last
   * singular value and the last column of V leaves V·diag(S)·W unchanged,
   * so the corrected triple still decomposes C.
   */
  lemma ReflectKeepsFactorization(t: Svd)
    requires 0 < |t.S| == t.V.cols == t.W.rows
    ensures Reconstruct(Reflect(t)) == Reconstruct(t)
  {
    var u := Reflect(t);
    var A, B := ScaleColumns(u.V, u.S), ScaleColumns(t.V, t.S);
    forall i, j | 0 <= i < A.rows && 0 <= j < A.cols
      ensures A.data[i][j] == B.data[i][j]
    {
      if j == t.V.cols - 1 {
        assert A.data[i][j] == (-t.V.data[i][j]) * (-t.S[j]);
      }
    }
    Extensionality(A, B);
  }

  /** What `kabsch` returns, with the errors numpy raises on the way. */
  function Align(P: Mat, Q: Mat, normal: bool, rotation: bool,
                 svd: Mat -> Option<Svd>, det: Mat -> real, sqrt: real -> real): Result<Alignment, KabschError>
  {
    if P.rows != Q.rows then Failure(NotAligned)
    else
      match svd(Covariance(P, Q))
      case None => Failure(SvdFailed)
      case Some(t) =>
        var flip := Flips(t, det);
        if flip && (|t.S| == 0 || t.V.cols == 0) then Failure(IndexOutOfRange)
        else
          var corrected := if flip then Reflect(t) else t;
          if corrected.V.cols != corrected.W.rows then Failure(NotAligned)
          else
            var U := MatMul(corrected.V, corrected.W);
            if P.cols != U.rows then Failure(NotAligned)
            else
              match RmsdOf(MatMul(P, U), Q, sqrt)
              case Failure(e) => Failure(RmsdFailed(e))
              case Success(optimal) =>
                var raw := RmsdOf(P, Q, sqrt);
                if normal && raw.Failure? then Failure(RmsdFailed(raw.error))
                else Success(Alignment(optimal, if normal then Some(raw.value) else None, if rotation then Some(U) else None))
  }

  /**
   * With numpy's SVD shapes, `kabsch` succeeds exactly when P and Q have the
   * same shape with at least one point, the decomposition succeeds, and the
   * guard does not index an empty axis (a reflection with D == 0).
   */
  lemma AlignSucceeds(P: Mat, Q: Mat, normal: bool, rotation: bool,
                      svd: Mat -> Option<Svd>, det: Mat -> real, sqrt: real -> real)
    requires SvdContract(svd)
    ensures Align(P, Q, normal, rotation, svd, det, sqrt).Success? <==>
      && P.rows == Q.rows && P.cols == Q.cols && P.rows > 0
      && svd(Covariance(P, Q)).Some?
      && !(Flips(svd(Covariance(P, Q)).value, det) && P.cols == 0)
  {
    if P.rows == Q.rows {
      var C := Covariance(P, Q);
      if svd(C).Some? {
        var t := svd(C).value;
        assert SvdShaped(C, t);
      }
    }
  }

  /**
   * The layout of a successful result: the covariance is D×D, the first
   * element is the deviation of P·U from Q where U is the D×D rotation, the
   * raw deviation rmsd(P, Q) follows exactly when `normal`, U comes last
   * exactly when `rotation`, so the tuple has 1 + [normal] + [rotation]
   * elements; P·U has the shape of P.
   */
  lemma AlignOutput(P: Mat, Q: Mat, normal: bool, rotation: bool,
                    svd: Mat -> Option<Svd>, det: Mat -> real, sqrt: real -> real)
    requires SvdContract(svd)
    requires Align(P, Q, normal, rotation, svd, det, sqrt).Success?
    ensures P.rows == Q.rows && P.cols == Q.cols
    ensures Covariance(P, Q).rows == P.cols && Covariance(P, Q).cols == P.cols
    ensures var a := Align(P, Q, normal, rotation, svd, det, sqrt).value;
      && |Items(a)| == 1 + (if normal then 1 else 0) + (if rotation then 1 else 0)
      && (a.raw.Some? <==> normal)
      && (a.rotation.Some? <==> rotation)
      && (normal ==> Items(a)[1] == Distance(RmsdOf(P, Q, sqrt).value))
      && (rotation ==>
            var U := a.rotation.value;
            && U.rows == P.cols && U.cols == P.cols
            && MatMul(P, U).rows == P.rows && MatMul(P, U).cols == P.cols
            && Items(a)[0] == Distance(RmsdOf(MatMul(P, U), Q, sqrt).value))
  {
    AlignSucceeds(P, Q, normal, rotation, svd, det, sqrt);
    assert SvdShaped(Covariance(P, Q), svd(Covariance(P, Q)).value);
  }

  /**
   * The flags only select what is reported: the call succeeds or fails
   * regardless of them, and the optimal deviation, the raw deviation and
   * the rotation are those of the call with both flags set.
   */
  lemma FlagsOnlySelect(P: Mat, Q: Mat, normal: bool, rotation: bool,
                        svd: Mat -> Option<Svd>, det: Mat -> real, sqrt: real -> real)
    requires SvdContract(svd)
    ensures var r, full := Align(P, Q, normal, rotation, svd, det, sqrt), Align(P, Q, true, true, svd, det, sqrt);
      && r.Success? == full.Success?
      && (r.Success? ==>
            && r.value.optimal == full.value.optimal
            && r.value.raw == (if normal then full.value.raw else None)
            && r.value.rotation == (if rotation then full.value.rotation else None))
  {
    AlignSucceeds(P, Q, normal, rotation, svd, det, sqrt);
    AlignSucceeds(P, Q, true, true, svd, det, sqrt);
  }

  /**
   * Whatever the flags, the optimal deviation is rmsd(P·U, Q) for the
   * rotation U = V·diag(1, …, 1, σ)·W built from the decomposition of the
   * covariance, with σ == -1 exactly when det(V)·det(W) < 0; that same U is
   * the one reported when `rotation` is set.
   */
  lemma AlignRotation(P: Mat, Q: Mat, normal: bool, rotation: bool,
                      svd: Mat -> Option<Svd>, det: Mat -> real, sqrt: real -> real)
    requires SvdContract(svd)
    requires Align(P, Q, normal, rotation, svd, det, sqrt).Success?
    ensures P.rows == Q.rows && svd(Covariance(P, Q)).Some?
    ensures var t := svd(Covariance(P, Q)).value;
      && t.V.cols == P.cols && t.W.rows == P.cols
      && var U := MatMul(ScaleColumns(t.V, Signs(P.cols, Flips(t, det))), t.W);
         var a := Align(P, Q, normal, rotation, svd, det, sqrt).value;
         && U.rows == P.cols && U.cols == P.cols
         && RmsdOf(MatMul(P, U), Q, sqrt).Success?
         && a.optimal == RmsdOf(MatMul(P, U), Q, sqrt).value
         && (rotation ==> a.rotation == Some(U))
  {
    var t := svd(Covariance(P, Q)).value;
    assert SvdShaped(Covariance(P, Q), t);
    CorrectedIsScaled(t, det);
  }

  /** Both reported deviations are non-negative. */
  lemma AlignNonNegative(P: Mat, Q: Mat, normal: bool, rotation: bool,
                         svd: Mat -> Option<Svd>, det: Mat -> real, sqrt: real -> real)
    requires IsRoot(sqrt)
    requires Align(P, Q, normal, rotation, svd, det, sqrt).Success?
    ensures var a := Align(P, Q, normal, rotation, svd, det, sqrt).value;
      a.optimal >= 0.0 && (a.raw.Some? ==> a.raw.value >= 0.0)
  {
    var t := svd(Covariance(P, Q)).value;
    var corrected := if Flips(t, det) then Reflect(t) else t;
    var U := MatMul(corrected.V, corrected.W);
    RmsdNonNegative(MatMul(P, U), Q, sqrt);
    if normal {
      RmsdNonNegative(P, Q, sqrt);
    }
  }

  /** The contents of a two-dimensional array as a matrix. */
  function Snapshot(a: array2<real>): (m: Mat)
    reads a
    ensures m.rows == a.Length0 && m.cols == a.Length1
    ensures forall i, j | 0 <= i < a.Length0 && 0 <= j < a.Length1 :: m.data[i][j] == a[i, j]
  {
    Matrix(a.Length0, a.Length1,
      seq(a.Length0, i requires 0 <= i < a.Length0 reads a =>
        seq(a.Length1, j requires 0 <= j < a.Length1 reads a => a[i, j])))
  }

  /**
   * The reflection guard of `kabsch`, in place: when det(V)·det(W) < 0, negate S[-1] in place and then the
   * column V[:,-1] in place; `ok` is false where numpy raises IndexError
   * because S is empty or V has no columns.
   */
  method ReflectionGuard(S: array<real>, V: array2<real>, detV: real, detW: real) returns (ok: bool)
    modifies S, V
    ensures ok == !(detV * detW < 0.0 && (S.Length == 0 || V.Length1 == 0))
    ensures ok ==> forall k | 0 <= k < S.Length ::
      S[k] == if detV * detW < 0.0 && k == S.Length - 1 then -old(S[k]) else old(S[k])
    ensures ok ==> forall i, j | 0 <= i < V.Length0 && 0 <= j < V.Length1 ::
      V[i, j] == if detV * detW < 0.0 && j == V.Length1 - 1 then -old(V[i, j]) else old(V[i, j])
  {
    var d := detV * detW < 0.0;
    if d {
      if S.Length == 0 {
        return false;
      }
      S[S.Length - 1] := -S[S.Length - 1];
      if V.Length1 == 0 {
        return false;
      }
      var last := V.Length1 - 1;
      for i := 0 to V.Length0
        modifies V
        invariant forall i', j | 0 <= i' < V.Length0 && 0 <= j < V.Length1 ::
          V[i', j] == if j == last && i' < i then -old(V[i', j]) else old(V[i', j])
      {
        V[i, last] := -V[i, last];
      }
    }
    return true;
  }

  /**
   * The reflection guard of `kabsch` on a copy of the decomposition: loads S and V into arrays,
   * runs the guard on them and reads the result back.
   */
  method CorrectReflection(t: Svd, det: Mat -> real) returns (ok: bool, corrected: Svd)
    ensures ok == !(Flips(t, det) && (|t.S| == 0 || t.V.cols == 0))
    ensures ok ==> corrected == if Flips(t, det) then Reflect(t) else t
  {
    var S := new real[|t.S|](k requires 0 <= k < |t.S| => t.S[k]);
    var V := new real[t.V.rows, t.V.cols]((i, j) requires 0 <= i < t.V.rows && 0 <= j < t.V.cols => t.V.data[i][j]);
    ok := ReflectionGuard(S, V, det(t.V), det(t.W));
    corrected := Svd(Snapshot(V), S[..], t.W);
    if ok {
      var expected := if Flips(t, det) then Reflect(t) else t;
      Extensionality(corrected.V, expected.V);
      assert corrected.S == expected.S;
    }
  }

  /** `kabsch(P, Q, normal, rotation)`, with the decomposition and determinant supplied. */
  method Kabsch(P: Mat, Q: Mat, normal: bool, rotation: bool,
                svd: Mat -> Option<Svd>, det: Mat -> real, sqrt: real -> real)
    returns (r: Result<Alignment, KabschError>)
    ensures r == Align(P, Q, normal, rotation, svd, det, sqrt)
  {
    if P.rows != Q.rows {
      return Failure(NotAligned);
    }
    var C := MatMul(Transpose(P), Q);
    var decomposition := svd(C);
    if decomposition.None? {
      return Failure(SvdFailed);
    }
    var t := decomposition.value;
    var ok, corrected := CorrectReflection(t, det);
    if !ok {
      return Failure(IndexOutOfRange);
    }
    if corrected.V.cols != corrected.W.rows {
      return Failure(NotAligned);
    }
    var U := MatMul(corrected.V, corrected.W);
    if P.cols != U.rows {
      return Failure(NotAligned);
    }
    var pRotated := MatMul(P, U);
    var optimal := Rmsd(pRotated, Q, sqrt);
    if optimal.Failure? {
      return Failure(RmsdFailed(optimal.error));
    }
    var output := Alignment(optimal.value, None, None);
    if normal {
      var raw := Rmsd(P, Q, sqrt);
      if raw.Failure? {
        return Failure(RmsdFailed(raw.error));
      }
      output := output.(raw := Some(raw.value));
    }
    if rotation {
      output := output.(rotation := Some(U));
    }
    return Success(output);
  }
}
