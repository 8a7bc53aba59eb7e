/**
 * basic_corr: parameter validation, case-insensitive method dispatch between
 * the clr estimate and run_sparcc, and the fallback to clr when the SparCC
 * correlations leave the range [-1 - tol, 1 + tol].
 */
module BasicCorrelation {
  import opened Wrappers
  import opened Floats
  import opened Matrices
  import opened Exclusion
  import opened Basis
  import opened CompositionalMethods
  import opened Sparcc

  /** The exceptions basic_corr lets escape, as values. */
  datatype CorrError =
    | ThresholdOutOfRange(th: real)    // AssertionError: th must lie strictly between 0 and 1
    | TooFewComponents(k: nat)         // ValueError: fewer than 4 components
    | UnsupportedMethod(name: string)  // ValueError: neither 'clr' nor 'sparcc'
    | SingularSystem                   // LinAlgError from the solve inside basis_var

  // ------------------------------------------------------------ str.lower

  /** The lower-case form of an ASCII letter; every other character is kept. */
  function LowerChar(c: char): (r: char)
    ensures !('A' <= r <= 'Z')
    ensures 'A' <= c <= 'Z' ==> r as int == c as int + 32
    ensures !('A' <= c <= 'Z') ==> r == c
  {
    if 'A' <= c <= 'Z' then (c as int + 32) as char else c
  }

  /** str.lower on ASCII text. */
  function Lower(s: string): (r: string)
    ensures |r| == |s|
    ensures forall i :: 0 <= i < |s| ==> r[i] == LowerChar(s[i])
    ensures forall i :: 0 <= i < |r| ==> !('A' <= r[i] <= 'Z')
  {
    if s == [] then [] else Lower(s[..|s| - 1]) + [LowerChar(s[|s| - 1])]
  }

  /** Lowering twice is lowering once. */
  lemma LowerIdempotent(s: string)
    ensures Lower(Lower(s)) == Lower(s)
  {
    var t := Lower(s);
    assert forall i :: 0 <= i < |t| ==> Lower(t)[i] == t[i];
  }

  /** The capitalised name "SparCC" selects the SparCC method. */
  lemma MixedCaseSelectsSparcc()
    ensures Lower("SparCC") == "sparcc"
  {
    var r := Lower("SparCC");
    assert r[0] == LowerChar('S') && r[4] == LowerChar('C') && r[5] == LowerChar('C');
  }

  // ------------------------------------------------------ np.max(np.abs(C))

  /** Two values combined as np.max combines them: NaN wins, otherwise the larger. */
  function Max2(x: Float, y: Float): (r: Float)
    ensures r.NaN? <==> x.NaN? || y.NaN?
    ensures !r.NaN? ==> (r == x || r == y) && !Gt(x, r) && !Gt(y, r)
  {
    if x.NaN? || y.NaN? then NaN else if Gt(y, x) then y else x
  }

  /** np.max of a vector: NaN if any entry is NaN, otherwise its greatest entry. */
  function MaxOf(s: seq<Float>): (r: Float)
    requires |s| > 0
    ensures r.NaN? <==> HasNaN(s)
    ensures !r.NaN? ==> (exists i :: 0 <= i < |s| && s[i] == r) && forall i :: 0 <= i < |s| ==> !Gt(s[i], r)
  {
    if |s| == 1 then s[0]
    else
      var m := MaxOf(s[..|s| - 1]);
      assert HasNaN(s[..|s| - 1]) ==> HasNaN(s);
      assert HasNaN(s) ==> HasNaN(s[..|s| - 1]) || s[|s| - 1].NaN?;
      Max2(m, s[|s| - 1])
  }

  /** np.abs applied to every entry. */
  function AbsAll(C: Matrix<Float>): (A: Matrix<Float>)
    ensures |A| == |C| && forall i :: 0 <= i < |C| ==> |A[i]| == |C[i]|
    ensures forall i, j :: 0 <= i < |C| && 0 <= j < |C[i]| ==> A[i][j] == Abs(C[i][j])
  {
    seq(|C|, i requires 0 <= i < |C| => seq(|C[i]|, j requires 0 <= j < |C[i]| => Abs(C[i][j])))
  }

  /** np.max over every entry of a matrix whose rows are not empty. */
  function MaxAll(C: Matrix<Float>): (r: Float)
    requires |C| > 0 && forall i :: 0 <= i < |C| ==> |C[i]| > 0
    ensures r.NaN? <==> MatrixHasNaN(C)
    ensures !r.NaN? ==>
      (exists i, j :: 0 <= i < |C| && 0 <= j < |C[i]| && C[i][j] == r) &&
      forall i, j :: 0 <= i < |C| && 0 <= j < |C[i]| ==> !Gt(C[i][j], r)
  {
    var last := |C| - 1;
    var row := MaxOf(C[last]);
    if last == 0 then
      assert MatrixHasNaN(C) ==> HasNaN(C[0]);
      row
    else
      var m := MaxAll(C[..last]);
      assert MatrixHasNaN(C) ==> MatrixHasNaN(C[..last]) || HasNaN(C[last]);
      assert MatrixHasNaN(C[..last]) ==> MatrixHasNaN(C);
      assert HasNaN(C[last]) ==> MatrixHasNaN(C);
      Max2(m, row)
  }

  /** The tolerance on the correlation range, 1e-3. */
  const Tol: real := 0.001

  /**
   * The sparsity check of basic_corr: np.max(np.abs(C)) > 1 + tol. NaN
   * propagates through np.max and NaN > x is false.
   */
  predicate RangeViolated(C: Matrix<Float>)
    requires |C| > 0 && forall i :: 0 <= i < |C| ==> |C[i]| > 0
  {
    Gt(MaxAll(AbsAll(C)), Num(1.0 + Tol))
  }

  /** The check fires exactly when C holds no NaN and some entry exceeds 1 + tol in magnitude. */
  lemma RangeViolatedIff(C: Matrix<Float>)
    requires |C| > 0 && forall i :: 0 <= i < |C| ==> |C[i]| > 0
    ensures RangeViolated(C) <==>
      !MatrixHasNaN(C) &&
      exists i, j :: 0 <= i < |C| && 0 <= j < |C[i]| && Gt(Abs(C[i][j]), Num(1.0 + Tol))
  {
    var A := AbsAll(C);
    var t := Num(1.0 + Tol);
    assert MatrixHasNaN(A) <==> MatrixHasNaN(C) by {
      if MatrixHasNaN(C) {
        var i, j :| 0 <= i < |C| && 0 <= j < |C[i]| && C[i][j].NaN?;
        assert A[i][j].NaN?;
      }
      if MatrixHasNaN(A) {
        var i, j :| 0 <= i < |A| && 0 <= j < |A[i]| && A[i][j].NaN?;
        assert C[i][j].NaN?;
      }
    }
    var m := MaxAll(A);
    if RangeViolated(C) {
      var i, j :| 0 <= i < |A| && 0 <= j < |A[i]| && A[i][j] == m;
      assert Gt(Abs(C[i][j]), t);
    }
    if !MatrixHasNaN(C) && exists i, j :: 0 <= i < |C| && 0 <= j < |C[i]| && Gt(Abs(C[i][j]), t) {
      var i, j :| 0 <= i < |C| && 0 <= j < |C[i]| && Gt(Abs(C[i][j]), t);
      assert !Gt(A[i][j], m);
      GtTrichotomy(A[i][j], m);
      if m != A[i][j] {
        GtTransitive(m, A[i][j], t);
      }
    }
  }

  /**
   * Once a component is excluded its NaN row reaches np.max, so the range check
   * can no longer fire, however large the remaining correlations are.
   */
  lemma NaNDisablesRangeCheck(C: Matrix<Float>, i: nat, j: nat)
    requires |C| > 0 && forall a :: 0 <= a < |C| ==> |C[a]| > 0
    requires i < |C| && j < |C[i]| && C[i][j].NaN?
    ensures !RangeViolated(C)
  {
    RangeViolatedIff(C);
  }

  // ------------------------------------------------------------ basic_corr

  /**
   * basic_corr(frame, method, th, x_iter). `clr` is run_clr(frame), a k×k
   * estimate computed outside this model. The checks run in the source's
   * order: th, then the component count, then the method name.
   */
  method BasicCorr(frame: Matrix<real>, k: nat, name: string, th: real, xIter: nat, clr: Estimate,
                   pairStat: (seq<real>, seq<real>) -> real, solve: Solver, sqrt: real -> real)
    returns (r: Result<Estimate, CorrError>, ghost pairs: seq<Pair>, ghost fellBack: bool)
    requires IsMatrix(frame, |frame|, k) && SolverSpec(solve) && SqrtSpec(sqrt)
    requires IsMatrix(clr.corr, k, k)
    ensures !(0.0 < th < 1.0) ==> r == Failure(ThresholdOutOfRange(th))
    ensures 0.0 < th < 1.0 && k < 4 ==> r == Failure(TooFewComponents(k))
    ensures 0.0 < th < 1.0 && k >= 4 && Lower(name) == "clr" ==> r == Success(clr)
    ensures 0.0 < th < 1.0 && k >= 4 && Lower(name) != "clr" && Lower(name) != "sparcc" ==>
      r == Failure(UnsupportedMethod(Lower(name)))
    ensures 0.0 < th < 1.0 && k >= 4 && Lower(name) == "sparcc" ==>
      var V := Variation(frame, k, pairStat);
      && |pairs| <= xIter && Ordered(pairs, k) && History(V, k, pairs, solve, sqrt, th)
      && (fellBack ==> r == Success(clr))
      && (!fellBack ==>
            match Estimated(V, k, pairs, solve, sqrt)
            case None => r == Failure(SingularSystem)
            case Some(e) => r == Success(if RangeViolated(e.corr) then clr else e))
  {
    pairs, fellBack := [], false;
    if !(0.0 < th < 1.0) {
      return Failure(ThresholdOutOfRange(th)), pairs, fellBack;
    }
    var lowered := Lower(name);
    if k < 4 {
      return Failure(TooFewComponents(k)), pairs, fellBack;
    }
    if lowered == "clr" {
      r := Success(clr);
    } else if lowered == "sparcc" {
      var est;
      est, pairs, fellBack := RunSparcc(frame, k, pairStat, solve, sqrt, th, xIter, clr);
      if est.None? {
        return Failure(SingularSystem), pairs, fellBack;
      }
      r := Success(if RangeViolated(est.value.corr) then clr else est.value);
    } else {
      r := Failure(UnsupportedMethod(lowered));
    }
  }
}
