/**
 * Choice of the next component pair to exclude (new_excluded_pair): the
 * strongest remaining correlation on the strict upper triangle, located as
 * numpy's argmax locates it.
 */
module Exclusion {
  import opened Wrappers
  import opened Floats
  import opened Matrices

  /** A component pair (i, j), as new_excluded_pair returns it. */
  type Pair = (nat, nat)

  predicate HasNaN(s: seq<Float>)
  {
    exists i :: 0 <= i < |s| && s[i].NaN?
  }

  /**
   * np.argmax over a vector: the index of the first NaN if there is one,
   * otherwise the index of the first occurrence of the maximum. Written as
   * numpy scans: the last element replaces the best of the prefix only when
   * it is NaN or strictly greater.
   */
  function ArgMax(s: seq<Float>): (k: nat)
    requires |s| > 0
    ensures k < |s|
    ensures HasNaN(s) ==> s[k].NaN? && forall i :: 0 <= i < k ==> !s[i].NaN?
    ensures !HasNaN(s) ==> forall i :: 0 <= i < |s| ==> !Gt(s[i], s[k])
    ensures !HasNaN(s) ==> forall i :: 0 <= i < k ==> Gt(s[k], s[i])
  {
    if |s| == 1 then 0
    else
      var last := |s| - 1;
      var k := ArgMax(s[..last]);
      assert HasNaN(s[..last]) ==> HasNaN(s);
      if s[k].NaN? then k
      else if s[last].NaN? then last
      else if Gt(s[last], s[k]) then last
      else k
  }

  /** Row-major order of cells: (i, j) is scanned before (a, b). */
  predicate Before(p: Pair, q: Pair)
  {
    p.0 < q.0 || (p.0 == q.0 && p.1 < q.1)
  }

  /**
   * np.unravel_index(np.argmax(T), T.shape): the first NaN cell in row-major
   * order if there is one, otherwise the first cell holding the maximum.
   */
  function ArgMax2(T: Matrix<Float>, n: nat): (p: Pair)
    requires IsMatrix(T, |T|, n) && |T| > 0 && n > 0
    ensures p.0 < |T| && p.1 < n
    ensures MatrixHasNaN(T) ==> T[p.0][p.1].NaN?
    ensures MatrixHasNaN(T) ==> forall i, j :: 0 <= i < |T| && 0 <= j < n && Before((i, j), p) ==> !T[i][j].NaN?
    ensures !MatrixHasNaN(T) ==> forall i, j :: 0 <= i < |T| && 0 <= j < n ==> !Gt(T[i][j], T[p.0][p.1])
    ensures !MatrixHasNaN(T) ==>
      forall i, j :: 0 <= i < |T| && 0 <= j < n && Before((i, j), p) ==> Gt(T[p.0][p.1], T[i][j])
  {
    var last := |T| - 1;
    var b := ArgMax(T[last]);
    if last == 0 then
      assert MatrixHasNaN(T) ==> HasNaN(T[0]);
      (0, b)
    else
      var p := ArgMax2(T[..last], n);
      assert MatrixHasNaN(T) ==> MatrixHasNaN(T[..last]) || HasNaN(T[last]);
      assert MatrixHasNaN(T[..last]) ==> MatrixHasNaN(T);
      assert HasNaN(T[last]) ==> MatrixHasNaN(T);
      if T[p.0][p.1].NaN? then p
      else if T[last][b].NaN? then (last, b)
      else if Gt(T[last][b], T[p.0][p.1]) then (last, b)
      else p
  }

  predicate InRange(pairs: seq<Pair>, n: nat)
  {
    forall t :: 0 <= t < |pairs| ==> pairs[t].0 < n && pairs[t].1 < n
  }

  /**
   * C_temp of new_excluded_pair: `np.triu(np.abs(C), 1)` with the previously
   * excluded cells set to 0.
   */
  function Candidates(C: Matrix<Float>, excluded: seq<Pair>): (T: Matrix<Float>)
    requires IsSquare(C)
    ensures IsMatrix(T, |C|, |C|)
    ensures forall i, j :: 0 <= i < |C| && 0 <= j < |C| ==>
      T[i][j] == if i < j && (i, j) !in excluded then Abs(C[i][j]) else Num(0.0)
  {
    var n := |C|;
    seq(n, i requires 0 <= i < n =>
      seq(n, j requires 0 <= j < n =>
        if j <= i || (i, j) in excluded then Num(0.0) else Abs(C[i][j])))
  }

  /** A cell new_excluded_pair may still choose: strict upper triangle, not excluded before. */
  predicate Open(C: Matrix<Float>, excluded: seq<Pair>, i: nat, j: nat)
  {
    i < j < |C| && (i, j) !in excluded
  }

  /**
   * new_excluded_pair(C, previously_excluded, th). For a non-negative
   * threshold: a pair is returned exactly when no open cell of C is NaN and
   * some open cell exceeds th in magnitude; the pair returned is open, its
   * magnitude is maximal among open cells and strictly greater than that of
   * every open cell scanned before it.
   */
  function NewExcludedPair(C: Matrix<Float>, excluded: seq<Pair>, th: real): (r: Option<Pair>)
    requires IsSquare(C) && |C| > 0 && InRange(excluded, |C|)
    ensures r.Some? ==> r.value.0 < |C| && r.value.1 < |C|
    ensures th >= 0.0 ==>
      (r.Some? <==>
        (forall i: nat, j: nat :: Open(C, excluded, i, j) ==> !C[i][j].NaN?) &&
        (exists i: nat, j: nat :: Open(C, excluded, i, j) && Gt(Abs(C[i][j]), Num(th))))
    ensures th >= 0.0 && r.Some? ==>
      var (i, j) := r.value;
      && Open(C, excluded, i, j)
      && Gt(Abs(C[i][j]), Num(th))
      && (forall a: nat, b: nat :: Open(C, excluded, a, b) ==> !Gt(Abs(C[a][b]), Abs(C[i][j])))
      && (forall a: nat, b: nat :: Open(C, excluded, a, b) && Before((a, b), (i, j)) ==> Gt(Abs(C[i][j]), Abs(C[a][b])))
  {
    var T := Candidates(C, excluded);
    var p := ArgMax2(T, |C|);
    if Gt(T[p.0][p.1], Num(th)) then Some(p) else None
  }

  /** A matrix of zeros has nothing above a non-negative threshold: no pair is returned. */
  lemma ZeroMatrixExcludesNothing(C: Matrix<Float>, excluded: seq<Pair>, th: real)
    requires IsSquare(C) && |C| > 0 && InRange(excluded, |C|) && th >= 0.0
    requires forall i, j :: 0 <= i < |C| && 0 <= j < |C| ==> C[i][j] == Num(0.0)
    ensures NewExcludedPair(C, excluded, th) == None
  {
  }

  /**
   * Once component x has NaN in its whole row and column, new_excluded_pair
   * returns None as long as one pair through x is still open: argmax lands on
   * a NaN and NaN > th is false.
   */
  lemma NaNComponentStopsExclusion(C: Matrix<Float>, excluded: seq<Pair>, th: real, x: nat, y: nat)
    requires IsSquare(C) && |C| > 0 && InRange(excluded, |C|) && th >= 0.0
    requires x < |C| && y < |C| && x != y
    requires forall z :: 0 <= z < |C| ==> C[x][z].NaN? && C[z][x].NaN?
    requires (if x < y then (x, y) else (y, x)) !in excluded
    ensures NewExcludedPair(C, excluded, th) == None
  {
    if x < y {
      assert Open(C, excluded, x, y) && C[x][y].NaN?;
    } else {
      assert Open(C, excluded, y, x) && C[y][x].NaN?;
    }
  }

  /** The 4×4 matrix whose rows are constant -0.2, -0.1, 0 and 0.1. */
  const RowRamp: Matrix<real> := [[-0.2, -0.2, -0.2, -0.2],
                                  [-0.1, -0.1, -0.1, -0.1],
                                  [ 0.0,  0.0,  0.0,  0.0],
                                  [ 0.1,  0.1,  0.1,  0.1]]

  /** On RowRamp the strongest magnitude 0.2 fills row 0; the first of those cells, (0, 1), wins. */
  lemma FirstMaximumWins()
    ensures NewExcludedPair(Lift(RowRamp), [], 0.1) == Some((0, 1))
  {
    var C: Matrix<Float> := Lift(RowRamp);
    RampMagnitude(0, 1);
    assert Open(C, [], 0, 1);
    var r := NewExcludedPair(C, [], 0.1);
    var (i, j) := r.value;
    RampMagnitude(i, j);
    assert i == 0;
    assert Before((0, 1), (i, j)) || j == 1;
  }

  /** The magnitudes in RowRamp: 0.2 in row 0, 0.1 in rows 1 and 3, 0 in row 2. */
  lemma RampMagnitude(i: nat, j: nat)
    requires i < 4 && j < 4
    ensures Abs(Lift(RowRamp)[i][j]) == Num(if i == 0 then 0.2 else if i == 2 then 0.0 else 0.1)
  {
    assert Lift(RowRamp)[i][j] == Num(RowRamp[i][j]);
  }
}
