/**
 * Conversion of a count table (samples in rows, components in columns) into
 * component fractions: plain normalisation by totals, or a Dirichlet draw
 * whose randomness is supplied by the caller.
 */
module CoreMethods {
  import opened Wrappers
  import opened Floats
  import opened Matrices

  datatype FractionError =
    | UnsupportedMethod(name: string)  // ValueError('Unsupported method ...')
    | InvalidAxis(axis: int)           // numpy AxisError from apply_along_axis
    | EmptyIteration                   // apply_along_axis over a zero-length dimension
    | NonPositiveAlpha                 // numpy dirichlet: alpha <= 0

  /** `frame.sum(axis=0)`: one total per column. */
  function ColumnSums(frame: Matrix<real>, cols: nat): (r: seq<real>)
    requires IsMatrix(frame, |frame|, cols)
    ensures |r| == cols
  {
    seq(cols, j requires 0 <= j < cols => Sum(Column(frame, j)))
  }

  /**
   * normalize(frame, axis): every entry divided by its column total when
   * axis is 0 and by its row total for any other axis, with floating-point
   * division (a zero total gives NaN or an infinity, not an error).
   */
  function Normalize(frame: Matrix<real>, cols: nat, axis: int): (r: Matrix<Float>)
    requires IsMatrix(frame, |frame|, cols)
    ensures IsMatrix(r, |frame|, cols)
  {
    if axis == 0 then
      var totals := ColumnSums(frame, cols);
      seq(|frame|, i requires 0 <= i < |frame| =>
        seq(cols, j requires 0 <= j < cols => Div(frame[i][j], totals[j])))
    else
      var totals := RowSums(frame);
      seq(|frame|, i requires 0 <= i < |frame| =>
        seq(cols, j requires 0 <= j < cols => Div(frame[i][j], totals[i])))
  }

  predicate AllNumbers(s: seq<Float>)
  {
    forall j :: 0 <= j < |s| ==> s[j].Num?
  }

  function Values(s: seq<Float>): (r: seq<real>)
    requires AllNumbers(s)
    ensures |r| == |s| && forall j :: 0 <= j < |s| ==> r[j] == s[j].v
  {
    seq(|s|, j requires 0 <= j < |s| => s[j].v)
  }

  /** With row normalisation, every row with a non-zero total sums to 1. */
  lemma NormalizeRowSumsToOne(frame: Matrix<real>, cols: nat, axis: int, i: nat)
    requires IsMatrix(frame, |frame|, cols) && axis != 0
    requires i < |frame| && Sum(frame[i]) != 0.0
    ensures AllNumbers(Normalize(frame, cols, axis)[i])
    ensures Sum(Values(Normalize(frame, cols, axis)[i])) == 1.0
  {
    var row := Normalize(frame, cols, axis)[i];
    assert RowSums(frame)[i] == Sum(frame[i]);
    assert forall j :: 0 <= j < cols ==> row[j] == Num(frame[i][j] / Sum(frame[i]));
    SumDivided(frame[i], Values(row), Sum(frame[i]));
    DivSelf(Sum(frame[i]));
  }

  /** With column normalisation, every column with a non-zero total sums to 1. */
  lemma NormalizeColumnSumsToOne(frame: Matrix<real>, cols: nat, j: nat)
    requires IsMatrix(frame, |frame|, cols)
    requires j < cols && Sum(Column(frame, j)) != 0.0
    ensures forall i :: 0 <= i < |frame| ==> Normalize(frame, cols, 0)[i][j].Num?
    ensures Sum(ColumnValues(Normalize(frame, cols, 0), j)) == 1.0
  {
    var r := Normalize(frame, cols, 0);
    assert ColumnSums(frame, cols)[j] == Sum(Column(frame, j));
    assert forall i :: 0 <= i < |frame| ==> r[i][j] == Num(frame[i][j] / Sum(Column(frame, j)));
    SumDivided(Column(frame, j), ColumnValues(r, j), Sum(Column(frame, j)));
    DivSelf(Sum(Column(frame, j)));
  }

  lemma DivSelf(x: real)
    requires x != 0.0
    ensures x / x == 1.0
  {
  }

  /** The values of column `j` of a matrix whose column `j` holds only numbers. */
  function ColumnValues(m: Matrix<Float>, j: nat): (r: seq<real>)
    requires forall i :: 0 <= i < |m| ==> j < |m[i]| && m[i][j].Num?
    ensures |r| == |m| && forall i :: 0 <= i < |m| ==> r[i] == m[i][j].v
  {
    seq(|m|, i requires 0 <= i < |m| => m[i][j].v)
  }

  /** Non-negative counts with a positive row total become fractions in [0, 1]. */
  lemma NormalizeRowFractionsInUnitInterval(frame: Matrix<real>, cols: nat, axis: int, i: nat, j: nat)
    requires IsMatrix(frame, |frame|, cols) && axis != 0
    requires i < |frame| && j < cols
    requires forall c :: 0 <= c < cols ==> frame[i][c] >= 0.0
    requires Sum(frame[i]) > 0.0
    ensures Normalize(frame, cols, axis)[i][j].Num?
    ensures 0.0 <= Normalize(frame, cols, axis)[i][j].v <= 1.0
  {
    SumBoundsEntry(frame[i], j);
  }

  /** Non-negative counts with a positive column total become fractions in [0, 1]. */
  lemma NormalizeColumnFractionsInUnitInterval(frame: Matrix<real>, cols: nat, i: nat, j: nat)
    requires IsMatrix(frame, |frame|, cols)
    requires i < |frame| && j < cols
    requires forall r :: 0 <= r < |frame| ==> frame[r][j] >= 0.0
    requires Sum(Column(frame, j)) > 0.0
    ensures Normalize(frame, cols, 0)[i][j].Num?
    ensures 0.0 <= Normalize(frame, cols, 0)[i][j].v <= 1.0
  {
    assert ColumnSums(frame, cols)[j] == Sum(Column(frame, j));
    SumBoundsEntry(Column(frame, j), i);
  }

  /** A row of non-negative counts that are all zero normalises to NaN (0/0) everywhere. */
  lemma NormalizeZeroRowIsNaN(frame: Matrix<real>, cols: nat, axis: int, i: nat, j: nat)
    requires IsMatrix(frame, |frame|, cols) && axis != 0
    requires i < |frame| && j < cols
    requires forall c :: 0 <= c < cols ==> frame[i][c] >= 0.0
    requires Sum(frame[i]) == 0.0
    ensures Normalize(frame, cols, axis)[i][j].NaN?
  {
    SumBoundsEntry(frame[i], j);
  }

  /** A table of ones with `cols` components normalises to 1/cols everywhere (1/50 = 0.02 for 50). */
  lemma NormalizeAllOnes(frame: Matrix<real>, cols: nat, axis: int)
    requires IsMatrix(frame, |frame|, cols) && axis != 0 && cols > 0
    requires forall i, j :: 0 <= i < |frame| && 0 <= j < cols ==> frame[i][j] == 1.0
    ensures forall i, j :: 0 <= i < |frame| && 0 <= j < cols ==>
      Normalize(frame, cols, axis)[i][j] == Num(1.0 / cols as real)
  {
    forall i | 0 <= i < |frame|
      ensures Sum(frame[i]) == cols as real
    {
      SumAffine(frame[i], frame[i], 1.0, 0.0);
    }
  }

  /** Python's int() on a float: truncation toward zero. */
  function Trunc(x: real): (n: int)
    ensures x >= 0.0 ==> n as real <= x < n as real + 1.0
    ensures x < 0.0 ==> n as real - 1.0 < x <= n as real
  {
    if x >= 0.0 then x.Floor else -((-x).Floor)
  }

  /** The Dirichlet parameter vector `counts + int(p_counts)`. */
  function DirichletParams(counts: seq<real>, pCounts: real): (alpha: seq<real>)
    ensures |alpha| == |counts|
  {
    seq(|counts|, i requires 0 <= i < |counts| => counts[i] + Trunc(pCounts) as real)
  }

  predicate AllPositive(s: seq<real>)
  {
    forall i :: 0 <= i < |s| ==> s[i] > 0.0
  }

  /** Non-negative counts and a pseudo count of at least 1 give strictly positive parameters. */
  lemma DirichletParamsPositive(counts: seq<real>, pCounts: real)
    requires forall i :: 0 <= i < |counts| ==> counts[i] >= 0.0
    requires pCounts >= 1.0
    ensures AllPositive(DirichletParams(counts, pCounts))
    ensures forall i :: 0 <= i < |counts| ==> DirichletParams(counts, pCounts)[i] >= counts[i] + 1.0
  {
    assert Trunc(pCounts) >= 1;
  }

  /** The draw keeps the length of its parameter vector, as a Dirichlet sample does. */
  ghost predicate DrawSpec(draw: seq<real> -> seq<real>)
  {
    forall alpha :: |draw(alpha)| == |alpha|
  }

  /**
   * `np.apply_along_axis(dirichlet_fun, axis, frame)`: one Dirichlet draw per
   * row (axis 1 or -1) or per column (axis 0 or -2); the random draw is the
   * parameter `draw`.
   */
  function DirichletFractions(frame: Matrix<real>, cols: nat, pCounts: real, axis: int,
                              draw: seq<real> -> seq<real>): (r: Result<Matrix<Float>, FractionError>)
    requires IsMatrix(frame, |frame|, cols) && DrawSpec(draw)
    ensures r.Success? ==> IsMatrix(r.value, |frame|, cols) && forall i :: 0 <= i < |frame| ==> AllNumbers(r.value[i])
    ensures r.Failure? && -2 <= axis <= 1 ==> r.error == EmptyIteration || r.error == NonPositiveAlpha
    ensures (axis == 1 || axis == -1) && r.Success? ==>
      forall i :: 0 <= i < |frame| ==> Values(r.value[i]) == draw(DirichletParams(frame[i], pCounts))
    ensures (axis == 0 || axis == -2) && r.Success? ==>
      forall i, j :: 0 <= i < |frame| && 0 <= j < cols ==>
        r.value[i][j] == Num(draw(DirichletParams(Column(frame, j), pCounts))[i])
  {
    if !(-2 <= axis <= 1) then Failure(InvalidAxis(axis))
    else if axis == 1 || axis == -1 then
      if |frame| == 0 then Failure(EmptyIteration)
      else if exists i :: 0 <= i < |frame| && !AllPositive(DirichletParams(frame[i], pCounts)) then
        Failure(NonPositiveAlpha)
      else
        Success(seq(|frame|, i requires 0 <= i < |frame| =>
          var sample := draw(DirichletParams(frame[i], pCounts));
          seq(cols, j requires 0 <= j < cols => Num(sample[j]))))
    else
      if cols == 0 then Failure(EmptyIteration)
      else if exists j :: 0 <= j < cols && !AllPositive(DirichletParams(Column(frame, j), pCounts)) then
        Failure(NonPositiveAlpha)
      else
        Success(seq(|frame|, i requires 0 <= i < |frame| =>
          seq(cols, j requires 0 <= j < cols => Num(draw(DirichletParams(Column(frame, j), pCounts))[i]))))
  }

  /** A table of non-negative counts with at least one sample never trips the Dirichlet checks along rows. */
  lemma DirichletRowsSucceedOnCounts(frame: Matrix<real>, cols: nat, pCounts: real, axis: int,
                                     draw: seq<real> -> seq<real>)
    requires IsMatrix(frame, |frame|, cols) && DrawSpec(draw)
    requires |frame| > 0 && (axis == 1 || axis == -1) && pCounts >= 1.0
    requires forall i, j :: 0 <= i < |frame| && 0 <= j < cols ==> frame[i][j] >= 0.0
    ensures DirichletFractions(frame, cols, pCounts, axis, draw).Success?
  {
    forall i | 0 <= i < |frame|
      ensures AllPositive(DirichletParams(frame[i], pCounts))
    {
      DirichletParamsPositive(frame[i], pCounts);
    }
  }

  /**
   * to_fractions: 'normalize' divides by totals, 'dirichlet' draws, and every
   * other name (including 'pseudo') is rejected.
   */
  function ToFractions(frame: Matrix<real>, cols: nat, name: string, pCounts: real, axis: int,
                       draw: seq<real> -> seq<real>): (r: Result<Matrix<Float>, FractionError>)
    requires IsMatrix(frame, |frame|, cols) && DrawSpec(draw)
    ensures name == "normalize" ==> r == Success(Normalize(frame, cols, axis))
    ensures name == "dirichlet" ==> r == DirichletFractions(frame, cols, pCounts, axis, draw)
    ensures name != "normalize" && name != "dirichlet" ==> r == Failure(UnsupportedMethod(name))
    ensures r.Success? ==> IsMatrix(r.value, |frame|, cols)
  {
    if name == "normalize" then Success(Normalize(frame, cols, axis))
    else if name == "dirichlet" then DirichletFractions(frame, cols, pCounts, axis, draw)
    else Failure(UnsupportedMethod(name))
  }
}
