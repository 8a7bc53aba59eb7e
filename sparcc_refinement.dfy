/**
 * run_sparcc: the iterative refinement. Starting from the basis estimate of
 * the full system, it repeatedly excludes the most strongly correlated pair,
 * removes it from the system matrix M and from the working variation matrix,
 * excludes outright every component left in at least D - 3 excluded pairs,
 * re-solves, and blanks the excluded components' rows and columns with NaN.
 *
 * The state after a sequence of excluded pairs is described in closed form
 * (SystemEntry, WorkEntry, Estimated); the method is proved to keep its
 * arrays equal to that closed form and to choose every pair the way
 * new_excluded_pair chooses it on the estimate of the round before.
 */
module Sparcc {
  import opened Wrappers
  import opened Floats
  import opened Matrices
  import opened Exclusion
  import opened Basis
  import opened CompositionalMethods

  /** The two matrices run_sparcc returns (or run_clr, when it falls back). */
  datatype Estimate = Estimate(corr: Matrix<Float>, cov: Matrix<Float>)

  // ---------------------------------------------------------------------------
  // Excluded pairs and components

  /** Every pair lies on the strict upper triangle of a k×k matrix. */
  predicate Ordered(pairs: seq<Pair>, k: nat)
  {
    forall t :: 0 <= t < |pairs| ==> pairs[t].0 < pairs[t].1 < k
  }

  predicate Distinct(pairs: seq<Pair>)
  {
    forall t, u :: 0 <= t < u < |pairs| ==> pairs[t] != pairs[u]
  }

  /** np.bincount(np.ravel(pairs))[x]: the number of excluded pairs containing x. */
  function BinCount(pairs: seq<Pair>, x: nat): nat
  {
    if pairs == [] then 0
    else
      var p := pairs[|pairs| - 1];
      BinCount(pairs[..|pairs| - 1], x) + (if p.0 == x then 1 else 0) + (if p.1 == x then 1 else 0)
  }

  /**
   * np.where(nexcluded >= D - 3): the components excluded outright. (For
   * D >= 4 a component past the end of the bincount has count 0 < D - 3, so
   * ranging over all k components changes nothing.)
   */
  function FullyExcluded(pairs: seq<Pair>, k: nat): (X: set<nat>)
    ensures forall x: nat :: x in X <==> x < k && BinCount(pairs, x) + 3 >= k
  {
    set x: nat | x < k && BinCount(pairs, x) + 3 >= k
  }

  /** (a, b) has been excluded, in either orientation. */
  predicate Touched(pairs: seq<Pair>, a: nat, b: nat)
  {
    (a, b) in pairs || (b, a) in pairs
  }

  // ---------------------------------------------------------------------------
  // Closed form of the state after a sequence of exclusions

  /**
   * M[a, b] after the pairs were excluded (each lowering its two off-diagonal
   * cells and its two diagonal cells by one) and then the components X
   * replaced by unit rows and columns.
   */
  function SystemEntry(k: nat, pairs: seq<Pair>, X: set<nat>, a: nat, b: nat): real
  {
    if a in X || b in X then (if a == b then 1.0 else 0.0)
    else if a == b then (k - 1 - BinCount(pairs, a)) as real
    else if Touched(pairs, a, b) then 0.0
    else 1.0
  }

  function SystemMatrix(k: nat, pairs: seq<Pair>, X: set<nat>): (M: Matrix<real>)
    ensures IsMatrix(M, k, k)
    ensures forall a, b :: 0 <= a < k && 0 <= b < k ==> M[a][b] == SystemEntry(k, pairs, X, a, b)
  {
    seq(k, a requires 0 <= a < k => seq(k, b requires 0 <= b < k => SystemEntry(k, pairs, X, a, b)))
  }

  /** Var_mat_temp[a, b]: the observed variation, zeroed on excluded pairs and components. */
  function WorkEntry(V: Matrix<real>, pairs: seq<Pair>, X: set<nat>, a: nat, b: nat): real
    requires a < |V| && b < |V[a]|
  {
    if a in X || b in X || Touched(pairs, a, b) then 0.0 else V[a][b]
  }

  function WorkMatrix(V: Matrix<real>, k: nat, pairs: seq<Pair>, X: set<nat>): (W: Matrix<real>)
    requires IsMatrix(V, k, k)
    ensures IsMatrix(W, k, k)
    ensures forall a, b :: 0 <= a < k && 0 <= b < k ==> W[a][b] == WorkEntry(V, pairs, X, a, b)
  {
    seq(k, a requires 0 <= a < k => seq(k, b requires 0 <= b < k => WorkEntry(V, pairs, X, a, b)))
  }

  /** Rows and columns of the components X overwritten with NaN. */
  function Mask(m: Matrix<Float>, k: nat, X: set<nat>): (r: Matrix<Float>)
    requires IsMatrix(m, k, k)
    ensures IsMatrix(r, k, k)
    ensures forall a, b :: 0 <= a < k && 0 <= b < k ==> r[a][b] == if a in X || b in X then NaN else m[a][b]
  {
    seq(k, a requires 0 <= a < k => seq(k, b requires 0 <= b < k => if a in X || b in X then NaN else m[a][b]))
  }

  /**
   * The estimate run_sparcc holds once `pairs` have been excluded: basis
   * variances from the reduced system, covariances and correlations from the
   * ORIGINAL variation matrix V, excluded components blanked. None when the
   * linear solve fails.
   */
  function Estimated(V: Matrix<real>, k: nat, pairs: seq<Pair>, solve: Solver, sqrt: real -> real): (r: Option<Estimate>)
    requires IsMatrix(V, k, k) && k > 0 && SolverSpec(solve) && SqrtSpec(sqrt)
    ensures r.Some? ==> IsMatrix(r.value.corr, k, k) && IsMatrix(r.value.cov, k, k)
    ensures r.None? <==> solve(SystemMatrix(k, pairs, FullyExcluded(pairs, k)),
                                RowSums(WorkMatrix(V, k, pairs, FullyExcluded(pairs, k)))).None?
  {
    var X := FullyExcluded(pairs, k);
    match BasisVar(WorkMatrix(V, k, pairs, X), SystemMatrix(k, pairs, X), solve, VMin)
    case None => None
    case Some(b) =>
      var (C, Cov) := CFromV(V, b, sqrt);
      Some(Estimate(Mask(Lift(C), k, X), Mask(Lift(Cov), k, X)))
  }

  /** new_excluded_pair picks `p` on the estimate held after excluding `prefix`. */
  ghost predicate ChoiceFrom(V: Matrix<real>, k: nat, prefix: seq<Pair>, p: Pair,
                             solve: Solver, sqrt: real -> real, th: real)
    requires IsMatrix(V, k, k) && k > 0 && SolverSpec(solve) && SqrtSpec(sqrt)
  {
    var e := Estimated(V, k, prefix, solve, sqrt);
    && e.Some?
    && InRange(prefix, k)
    && NewExcludedPair(e.value.corr, prefix, th) == Some(p)
  }

  /**
   * excluded_pairs as the loop builds it: each pair was returned by
   * new_excluded_pair on the estimate held before it was added, at a time
   * when no component was excluded.
   */
  ghost predicate History(V: Matrix<real>, k: nat, pairs: seq<Pair>, solve: Solver, sqrt: real -> real, th: real)
    requires IsMatrix(V, k, k) && k > 0 && SolverSpec(solve) && SqrtSpec(sqrt)
    decreases |pairs|
  {
    pairs == [] ||
    var prev := pairs[..|pairs| - 1];
    && History(V, k, prev, solve, sqrt, th)
    && FullyExcluded(prev, k) == {}
    && ChoiceFrom(V, k, prev, pairs[|pairs| - 1], solve, sqrt, th)
  }

  // ---------------------------------------------------------------------------
  // Properties of the closed form

  /** Before any exclusion the system is the initial one and the work matrix is V. */
  lemma NothingExcludedIsInitial(V: Matrix<real>, k: nat)
    requires IsMatrix(V, k, k) && k >= 4
    ensures FullyExcluded([], k) == {}
    ensures SystemMatrix(k, [], {}) == InitialSystem(k)
    ensures WorkMatrix(V, k, [], {}) == V
  {
    assert forall x :: x !in FullyExcluded([], k);
    MatrixExt(SystemMatrix(k, [], {}), InitialSystem(k), k, k);
    MatrixExt(WorkMatrix(V, k, [], {}), V, k, k);
  }

  /** The system matrix stays symmetric, and so does the work matrix of a symmetric V. */
  lemma ClosedFormSymmetric(V: Matrix<real>, k: nat, pairs: seq<Pair>, X: set<nat>)
    requires IsMatrix(V, k, k) && Symmetric(V)
    ensures Symmetric(SystemMatrix(k, pairs, X)) && Symmetric(WorkMatrix(V, k, pairs, X))
  {
  }

  /**
   * An excluded component is decoupled: its equation reads x_c = 0, so its
   * basis variance comes out at the floor VMin.
   */
  lemma ExcludedComponentAtFloor(V: Matrix<real>, k: nat, pairs: seq<Pair>, solve: Solver, c: nat)
    requires IsMatrix(V, k, k) && k > 0 && SolverSpec(solve)
    requires c in FullyExcluded(pairs, k)
    requires BasisVar(WorkMatrix(V, k, pairs, FullyExcluded(pairs, k)),
                      SystemMatrix(k, pairs, FullyExcluded(pairs, k)), solve, VMin).Some?
    ensures BasisVar(WorkMatrix(V, k, pairs, FullyExcluded(pairs, k)),
                     SystemMatrix(k, pairs, FullyExcluded(pairs, k)), solve, VMin).value[c] == VMin
  {
    var X := FullyExcluded(pairs, k);
    var W, M := WorkMatrix(V, k, pairs, X), SystemMatrix(k, pairs, X);
    var x := solve(M, RowSums(W)).value;
    assert Dot(M[c], x) == RowSums(W)[c];
    ZeroRowSum(W[c]);
    UnitRowDot(M[c], x, c);
  }

  /**
   * The result blanks exactly the excluded components: their rows and columns
   * are NaN, every other entry is a finite number, and a kept component has
   * correlation 1 with itself.
   */
  lemma EstimatedShape(V: Matrix<real>, k: nat, pairs: seq<Pair>, solve: Solver, sqrt: real -> real)
    requires IsMatrix(V, k, k) && k > 0 && SolverSpec(solve) && SqrtSpec(sqrt)
    requires forall a :: 0 <= a < k ==> V[a][a] == 0.0
    requires Estimated(V, k, pairs, solve, sqrt).Some?
    ensures var e := Estimated(V, k, pairs, solve, sqrt).value;
      forall a, b :: 0 <= a < k && 0 <= b < k ==>
        (e.corr[a][b].NaN? <==> a in FullyExcluded(pairs, k) || b in FullyExcluded(pairs, k)) &&
        (e.cov[a][b].NaN? <==> a in FullyExcluded(pairs, k) || b in FullyExcluded(pairs, k)) &&
        (e.corr[a][b].Num? <==> a !in FullyExcluded(pairs, k) && b !in FullyExcluded(pairs, k))
    ensures var e := Estimated(V, k, pairs, solve, sqrt).value;
      forall a :: 0 <= a < k && a !in FullyExcluded(pairs, k) ==> e.corr[a][a] == Num(1.0)
  {
    var X := FullyExcluded(pairs, k);
    var b := BasisVar(WorkMatrix(V, k, pairs, X), SystemMatrix(k, pairs, X), solve, VMin).value;
    forall a | 0 <= a < k
      ensures CFromV(V, b, sqrt).0[a][a] == 1.0
    {
      CFromVDiagonal(V, b, sqrt, a);
    }
  }

  // ---------------------------------------------------------------------------
  // Why exclusion stops once a component is excluded

  /** The components paired with x in some excluded pair. */
  function Partners(pairs: seq<Pair>, x: nat): set<nat>
  {
    if pairs == [] then {}
    else
      var p := pairs[|pairs| - 1];
      Partners(pairs[..|pairs| - 1], x) + (if p.0 == x then {p.1} else {}) + (if p.1 == x then {p.0} else {})
  }

  lemma {:induction false} PartnersBounded(pairs: seq<Pair>, x: nat)
    ensures |Partners(pairs, x)| <= BinCount(pairs, x)
    ensures forall y :: Touched(pairs, x, y) ==> y in Partners(pairs, x)
  {
    if pairs != [] {
      var n := |pairs|;
      PartnersBounded(pairs[..n - 1], x);
      assert pairs == pairs[..n - 1] + [pairs[n - 1]];
    }
  }

  /** The component indices 0 .. k-1. */
  function Components(k: nat): (s: set<nat>)
    ensures forall x: nat :: x in s <==> x < k
    ensures |s| == k
  {
    if k == 0 then {} else Components(k - 1) + {k - 1}
  }

  lemma {:induction false} SubsetSize(A: set<nat>, B: set<nat>)
    requires A <= B
    ensures |A| <= |B|
  {
    if A != {} {
      var a :| a in A;
      SubsetSize(A - {a}, B - {a});
    }
  }

  /** A component in fewer than k - 1 excluded pairs still has an untouched partner. */
  lemma UntouchedPartner(pairs: seq<Pair>, k: nat, x: nat) returns (y: nat)
    requires x < k && BinCount(pairs, x) < k - 1
    ensures y < k && y != x && !Touched(pairs, x, y)
  {
    var others := Components(k) - {x};
    assert |others| == k - 1;
    PartnersBounded(pairs, x);
    if others <= Partners(pairs, x) {
      SubsetSize(others, Partners(pairs, x));
      assert false;
    }
    y :| y in others && y !in Partners(pairs, x);
  }

  /**
   * Once some component is excluded, new_excluded_pair on the current
   * estimate returns None: the excluded component is in at most k - 3 pairs,
   * so one of its cells is still open, and that cell is NaN.
   */
  lemma ExclusionStops(V: Matrix<real>, k: nat, pairs: seq<Pair>, solve: Solver, sqrt: real -> real, th: real, e: Estimate)
    requires IsMatrix(V, k, k) && k >= 4 && SolverSpec(solve) && SqrtSpec(sqrt) && th >= 0.0
    requires Ordered(pairs, k)
    requires forall x :: BinCount(pairs, x) + 3 <= k
    requires FullyExcluded(pairs, k) != {}
    requires Estimated(V, k, pairs, solve, sqrt) == Some(e)
    ensures IsMatrix(e.corr, k, k) && InRange(pairs, k)
    ensures NewExcludedPair(e.corr, pairs, th) == None
  {
    var x: nat :| x in FullyExcluded(pairs, k);
    var y := UntouchedPartner(pairs, k, x);
    ExcludedIsNaN(V, k, pairs, solve, sqrt, x);
    NaNComponentStopsExclusion(e.corr, pairs, th, x, y);
  }

  /** The row and column of an excluded component are NaN in the correlation estimate. */
  lemma ExcludedIsNaN(V: Matrix<real>, k: nat, pairs: seq<Pair>, solve: Solver, sqrt: real -> real, x: nat)
    requires IsMatrix(V, k, k) && k > 0 && SolverSpec(solve) && SqrtSpec(sqrt)
    requires x in FullyExcluded(pairs, k) && Estimated(V, k, pairs, solve, sqrt).Some?
    ensures var C := Estimated(V, k, pairs, solve, sqrt).value.corr;
      forall z :: 0 <= z < k ==> C[x][z].NaN? && C[z][x].NaN?
  {
  }

  // ---------------------------------------------------------------------------
  // The refinement loop

  lemma BinCountAppend(pairs: seq<Pair>, p: Pair, x: nat)
    ensures BinCount(pairs + [p], x) == BinCount(pairs, x) + (if p.0 == x then 1 else 0) + (if p.1 == x then 1 else 0)
  {
    assert (pairs + [p])[..|pairs|] == pairs;
  }

  /**
   * Excluding one more pair, and then the components it pushes over the
   * D - 3 bound, never raises an entry of M: off-diagonal cells only drop
   * from 1 to 0, a diagonal cell loses one per pair, and a newly excluded
   * component's diagonal drops from at least 3 to 1.
   */
  lemma SystemNeverIncreases(k: nat, pairs: seq<Pair>, p: Pair, a: nat, b: nat)
    requires FullyExcluded(pairs, k) == {} && a < k && b < k
    ensures SystemEntry(k, pairs + [p], FullyExcluded(pairs + [p], k), a, b) <= SystemEntry(k, pairs, {}, a, b)
  {
  }

  /** The cells of M follow the closed form. */
  ghost predicate SystemHolds(M: array2<real>, k: nat, pairs: seq<Pair>, X: set<nat>)
    reads M
  {
    M.Length0 == k && M.Length1 == k &&
    forall a, b :: 0 <= a < k && 0 <= b < k ==> M[a, b] == SystemEntry(k, pairs, X, a, b)
  }

  /** The cells of Var_mat_temp follow the closed form. */
  ghost predicate WorkHolds(W: array2<real>, V: Matrix<real>, k: nat, pairs: seq<Pair>, X: set<nat>)
    requires IsMatrix(V, k, k)
    reads W
  {
    W.Length0 == k && W.Length1 == k &&
    forall a, b :: 0 <= a < k && 0 <= b < k ==> W[a, b] == WorkEntry(V, pairs, X, a, b)
  }

  /** Removing pair (i, j) from M: both off-diagonal cells and both diagonal cells drop by one. */
  method DropPair(M: array2<real>, i: nat, j: nat, ghost k: nat, ghost pairs: seq<Pair>)
    modifies M
    requires SystemHolds(M, k, pairs, {}) && Ordered(pairs, k)
    requires i < j < k && (i, j) !in pairs
    ensures SystemHolds(M, k, pairs + [(i, j)], {})
  {
    M[i, j] := M[i, j] - 1.0;
    M[j, i] := M[j, i] - 1.0;
    M[i, i] := M[i, i] - 1.0;
    M[j, j] := M[j, j] - 1.0;
    ghost var next := pairs + [(i, j)];
    forall a, b | 0 <= a < k && 0 <= b < k
      ensures M[a, b] == SystemEntry(k, next, {}, a, b)
    {
      assert old(M[a, b]) == SystemEntry(k, pairs, {}, a, b);
      BinCountAppend(pairs, (i, j), a);
      TouchedAppend(pairs, (i, j), a, b);
    }
  }

  lemma TouchedAppend(pairs: seq<Pair>, p: Pair, a: nat, b: nat)
    ensures Touched(pairs + [p], a, b) <==> Touched(pairs, a, b) || p == (a, b) || p == (b, a)
  {
  }

  /** Var_mat_temp[inda, indb] = 0 and Var_mat_temp.T[inda, indb] = 0 over all excluded pairs. */
  method ZeroPairs(W: array2<real>, pairs: seq<Pair>, ghost V: Matrix<real>, ghost k: nat)
    modifies W
    requires IsMatrix(V, k, k) && |pairs| > 0 && Ordered(pairs, k)
    requires WorkHolds(W, V, k, pairs[..|pairs| - 1], {})
    ensures WorkHolds(W, V, k, pairs, {})
  {
    forall t | 0 <= t < |pairs| {
      W[pairs[t].0, pairs[t].1] := 0.0;
    }
    forall t | 0 <= t < |pairs| {
      W[pairs[t].1, pairs[t].0] := 0.0;
    }
    ghost var last := pairs[|pairs| - 1];
    assert pairs == pairs[..|pairs| - 1] + [last];
    forall a, b | 0 <= a < k && 0 <= b < k
      ensures W[a, b] == WorkEntry(V, pairs, {}, a, b)
    {
      if Touched(pairs, a, b) {
        if (a, b) in pairs {
          var t :| 0 <= t < |pairs| && pairs[t] == (a, b);
        } else {
          var t :| 0 <= t < |pairs| && pairs[t] == (b, a);
        }
      }
    }
  }

  /** The exclusion of new components: their rows and columns of Var_mat_temp and M cleared, M[x, x] = 1. */
  method ExcludeComponents(M: array2<real>, W: array2<real>, X: set<nat>,
                           ghost V: Matrix<real>, k: nat, ghost pairs: seq<Pair>)
    modifies M, W
    requires M != W && IsMatrix(V, k, k) && forall x :: x in X ==> x < k
    requires SystemHolds(M, k, pairs, {}) && WorkHolds(W, V, k, pairs, {})
    ensures SystemHolds(M, k, pairs, X) && WorkHolds(W, V, k, pairs, X)
  {
    var rest := X;
    ghost var done: set<nat> := {};
    while rest != {}
      invariant rest <= X && done == X - rest
      invariant SystemHolds(M, k, pairs, done) && WorkHolds(W, V, k, pairs, done)
      decreases rest
    {
      var x :| x in rest;
      ClearWork(W, V, x, k, pairs, done);
      ClearSystem(M, x, k, pairs, done);
      rest := rest - {x};
      done := done + {x};
    }
  }

  /** Var_mat_temp[x, :] = 0 and Var_mat_temp[:, x] = 0. */
  method ClearWork(W: array2<real>, ghost V: Matrix<real>, x: nat, k: nat, ghost pairs: seq<Pair>, ghost done: set<nat>)
    modifies W
    requires IsMatrix(V, k, k) && x < k && WorkHolds(W, V, k, pairs, done)
    ensures WorkHolds(W, V, k, pairs, done + {x})
  {
    forall b | 0 <= b < k {
      W[x, b] := 0.0;
    }
    forall a | 0 <= a < k {
      W[a, x] := 0.0;
    }
    forall a, b | 0 <= a < k && 0 <= b < k
      ensures W[a, b] == WorkEntry(V, pairs, done + {x}, a, b)
    {
      if a != x && b != x {
        assert old(W[a, b]) == WorkEntry(V, pairs, done, a, b);
      }
    }
  }

  /** M[x, :] = 0, M[:, x] = 0 and M[x, x] = 1. */
  method ClearSystem(M: array2<real>, x: nat, k: nat, ghost pairs: seq<Pair>, ghost done: set<nat>)
    modifies M
    requires x < k && SystemHolds(M, k, pairs, done)
    ensures SystemHolds(M, k, pairs, done + {x})
  {
    forall b | 0 <= b < k {
      M[x, b] := 0.0;
    }
    forall a | 0 <= a < k {
      M[a, x] := 0.0;
    }
    M[x, x] := 1.0;
    forall a, b | 0 <= a < k && 0 <= b < k
      ensures M[a, b] == SystemEntry(k, pairs, done + {x}, a, b)
    {
      if a != x && b != x {
        assert old(M[a, b]) == SystemEntry(k, pairs, done, a, b);
      }
    }
  }

  /** C_base[x, :] = NaN and C_base[:, x] = NaN for every excluded component x. */
  method MaskComponents(A: array2<Float>, X: set<nat>, k: nat)
    modifies A
    requires A.Length0 == k && A.Length1 == k && forall x :: x in X ==> x < k
    ensures ToSeq(A) == Mask(old(ToSeq(A)), k, X)
  {
    ghost var before := ToSeq(A);
    var rest := X;
    while rest != {}
      invariant rest <= X
      invariant forall a, b :: 0 <= a < k && 0 <= b < k ==>
        A[a, b] == if a in X - rest || b in X - rest then NaN else before[a][b]
      decreases rest
    {
      var x :| x in rest;
      forall b | 0 <= b < k {
        A[x, b] := NaN;
      }
      forall a | 0 <= a < k {
        A[a, x] := NaN;
      }
      rest := rest - {x};
    }
    MatrixExt(ToSeq(A), Mask(before, k, X), k, k);
  }

  /** A fresh k×k array holding m (the array numpy allocates for an expression's result). */
  method FromMatrix<T>(m: Matrix<T>, k: nat) returns (A: array2<T>)
    requires IsMatrix(m, k, k)
    ensures fresh(A) && A.Length0 == k && A.Length1 == k && ToSeq(A) == m
  {
    A := new T[k, k]((a, b) requires 0 <= a < |m| && 0 <= b < |m[a]| => m[a][b]);
    MatrixExt(ToSeq(A), m, k, k);
  }

  lemma ArraysHoldClosedForm(M: array2<real>, W: array2<real>, V: Matrix<real>, k: nat, pairs: seq<Pair>, X: set<nat>)
    requires IsMatrix(V, k, k) && SystemHolds(M, k, pairs, X) && WorkHolds(W, V, k, pairs, X)
    ensures ToSeq(M) == SystemMatrix(k, pairs, X) && ToSeq(W) == WorkMatrix(V, k, pairs, X)
  {
    MatrixExt(ToSeq(M), SystemMatrix(k, pairs, X), k, k);
    MatrixExt(ToSeq(W), WorkMatrix(V, k, pairs, X), k, k);
  }

  /**
   * The estimate of the current arrays: basis_var on them, C_from_V with the
   * original V into fresh arrays, then the NaN overwrite of the excluded
   * components' rows and columns. None when the linear solve fails.
   */
  method Reestimate(M: array2<real>, W: array2<real>, V: Matrix<real>, k: nat, excluded: set<nat>,
                    solve: Solver, sqrt: real -> real, ghost pairs: seq<Pair>)
    returns (r: Option<Estimate>)
    requires IsMatrix(V, k, k) && k > 0 && SolverSpec(solve) && SqrtSpec(sqrt)
    requires excluded == FullyExcluded(pairs, k)
    requires SystemHolds(M, k, pairs, excluded) && WorkHolds(W, V, k, pairs, excluded)
    ensures r == Estimated(V, k, pairs, solve, sqrt)
  {
    ArraysHoldClosedForm(M, W, V, k, pairs, excluded);
    var b := BasisVar(ToSeq(W), ToSeq(M), solve, VMin);
    if b.None? {
      return None;
    }
    var (c, cov) := CFromV(V, b.value, sqrt);
    var C := FromMatrix(Lift(c), k);
    var Cov := FromMatrix(Lift(cov), k);
    MaskComponents(C, excluded, k);
    MaskComponents(Cov, excluded, k);
    r := Some(Estimate(ToSeq(C), ToSeq(Cov)));
  }

  /** How a round that excluded a pair ends. */
  datatype RoundStatus = Refined | TooManyExcluded | SolveFailed

  /**
   * The state between rounds: the history of excluded pairs, the components
   * it excludes (at most k - 4 of them), M and Var_mat_temp in closed form,
   * and the estimate of that state.
   */
  ghost predicate Between(M: array2<real>, W: array2<real>, V: Matrix<real>, k: nat,
                          pairs: seq<Pair>, excluded: set<nat>, r: Option<Estimate>,
                          solve: Solver, sqrt: real -> real, th: real)
    requires IsMatrix(V, k, k) && k > 0 && SolverSpec(solve) && SqrtSpec(sqrt)
    reads M, W
  {
    && Ordered(pairs, k) && History(V, k, pairs, solve, sqrt, th)
    && excluded == FullyExcluded(pairs, k) && |excluded| <= k - 4
    && SystemHolds(M, k, pairs, excluded) && WorkHolds(W, V, k, pairs, excluded)
    && r.Some? && r == Estimated(V, k, pairs, solve, sqrt)
  }

  /**
   * One pass of the loop body once new_excluded_pair returned `p`: the pair
   * and any newly saturated components are excluded and, unless too many
   * components are excluded, the basis is re-estimated.
   */
  method Round(M: array2<real>, W: array2<real>, V: Matrix<real>, k: nat,
               pairs: seq<Pair>, excluded: set<nat>, r: Option<Estimate>, p: Pair,
               solve: Solver, sqrt: real -> real, th: real)
    returns (next: seq<Pair>, excludedNext: set<nat>, r': Option<Estimate>, status: RoundStatus)
    modifies M, W
    requires IsMatrix(V, k, k) && k >= 4 && SolverSpec(solve) && SqrtSpec(sqrt) && th >= 0.0
    requires M != W && Between(M, W, V, k, pairs, excluded, r, solve, sqrt, th)
    requires NewExcludedPair(r.value.corr, pairs, th) == Some(p)
    ensures next == pairs + [p]
    ensures status == Refined ==> Between(M, W, V, k, next, excludedNext, r', solve, sqrt, th)
    ensures status != Refined ==> Ordered(next, k) && History(V, k, next, solve, sqrt, th)
    ensures status == TooManyExcluded ==> r' == None && |FullyExcluded(next, k)| > k - 4
    ensures status == SolveFailed ==> |FullyExcluded(next, k)| <= k - 4 && r' == Estimated(V, k, next, solve, sqrt) == None
  {
    ChoiceIsValid(V, k, pairs, solve, sqrt, th, r.value, p);
    var tooMany;
    next, excludedNext, tooMany := ExcludePair(M, W, pairs, excluded, p, k, V);
    if tooMany {
      return next, excludedNext, None, TooManyExcluded;
    }
    r' := Reestimate(M, W, V, k, excludedNext, solve, sqrt, next);
    status := if r'.Some? then Refined else SolveFailed;
  }

  /**
   * The start of run_sparcc: the variation matrix V, Var_mat_temp as a copy of
   * it, the initial system M, and the basis estimate before any exclusion.
   */
  method Start(frame: Matrix<real>, k: nat, pairStat: (seq<real>, seq<real>) -> real,
               solve: Solver, sqrt: real -> real)
    returns (V: Matrix<real>, M: array2<real>, W: array2<real>, r: Option<Estimate>)
    requires IsMatrix(frame, |frame|, k) && k >= 4 && SolverSpec(solve) && SqrtSpec(sqrt)
    ensures V == Variation(frame, k, pairStat)
    ensures fresh(M) && fresh(W) && M != W
    ensures SystemHolds(M, k, [], {}) && WorkHolds(W, V, k, [], {})
    ensures r == Estimated(V, k, [], solve, sqrt)
  {
    var Varr;
    ghost var writes;
    Varr, writes := VariationMat(frame, k, pairStat);
    V := ToSeq(Varr);
    W := new real[k, k]((a, b) requires 0 <= a < |V| && 0 <= b < |V[a]| => V[a][b]);
    var M0 := InitialSystem(k);
    M := new real[k, k]((a, b) requires 0 <= a < |M0| && 0 <= b < |M0[a]| => M0[a][b]);
    NothingExcludedIsInitial(V, k);
    r := Reestimate(M, W, V, k, {}, solve, sqrt, []);
  }

  /**
   * run_sparcc(frame, th, x_iter). `r` is None when the linear solve fails;
   * `fellBack` records the return of the clr result when too many components
   * are excluded. `pairs` is excluded_pairs at the end.
   */
  method RunSparcc(frame: Matrix<real>, k: nat, pairStat: (seq<real>, seq<real>) -> real,
                   solve: Solver, sqrt: real -> real, th: real, xIter: nat, clr: Estimate)
    returns (r: Option<Estimate>, ghost pairs: seq<Pair>, ghost fellBack: bool)
    requires IsMatrix(frame, |frame|, k) && k >= 4 && th >= 0.0
    requires SolverSpec(solve) && SqrtSpec(sqrt)
    ensures var V := Variation(frame, k, pairStat);
      && |pairs| <= xIter && Ordered(pairs, k) && History(V, k, pairs, solve, sqrt, th)
      && (fellBack ==> r == Some(clr) && |FullyExcluded(pairs, k)| > k - 4)
      && (!fellBack ==> |FullyExcluded(pairs, k)| <= k - 4 && r == Estimated(V, k, pairs, solve, sqrt))
      && (!fellBack && r.Some? ==> |pairs| == xIter || NewExcludedPair(r.value.corr, pairs, th) == None)
  {
    var V, M, W;
    V, M, W, r := Start(frame, k, pairStat, solve, sqrt);
    pairs, fellBack := [], false;
    NothingExcludedIsInitial(V, k);
    if r.None? {
      return;
    }
    r, pairs, fellBack := Iterate(M, W, V, k, r, solve, sqrt, th, xIter, clr);
  }

  /**
   * The exclusion loop of run_sparcc: up to xIter rounds, each excluding the
   * most strongly correlated pair left and re-estimating, until no pair is
   * above th, the solve fails, or too many components are excluded.
   */
  method Iterate(M: array2<real>, W: array2<real>, V: Matrix<real>, k: nat, r0: Option<Estimate>,
                 solve: Solver, sqrt: real -> real, th: real, xIter: nat, clr: Estimate)
    returns (r: Option<Estimate>, ghost pairs: seq<Pair>, ghost fellBack: bool)
    modifies M, W
    requires IsMatrix(V, k, k) && k >= 4 && th >= 0.0 && SolverSpec(solve) && SqrtSpec(sqrt)
    requires M != W && Between(M, W, V, k, [], {}, r0, solve, sqrt, th)
    ensures |pairs| <= xIter && Ordered(pairs, k) && History(V, k, pairs, solve, sqrt, th)
    ensures fellBack ==> r == Some(clr) && |FullyExcluded(pairs, k)| > k - 4
    ensures !fellBack ==> |FullyExcluded(pairs, k)| <= k - 4 && r == Estimated(V, k, pairs, solve, sqrt)
    ensures !fellBack && r.Some? ==> |pairs| == xIter || NewExcludedPair(r.value.corr, pairs, th) == None
  {
    r := r0;
    var excludedPairs: seq<Pair> := [];
    var excluded: set<nat> := {};
    pairs, fellBack := [], false;
    var xi := 0;
    while xi < xIter
      invariant xi <= xIter && |excludedPairs| == xi
      invariant Between(M, W, V, k, excludedPairs, excluded, r, solve, sqrt, th)
      invariant pairs == excludedPairs && !fellBack
    {
      var toExclude := NewExcludedPair(r.value.corr, excludedPairs, th);
      if toExclude.None? {
        break;
      }
      var status;
      excludedPairs, excluded, r, status :=
        Round(M, W, V, k, excludedPairs, excluded, r, toExclude.value, solve, sqrt, th);
      pairs := excludedPairs;
      match status
      case Refined =>
        xi := xi + 1;
      case SolveFailed =>
        return;
      case TooManyExcluded =>
        fellBack := true;
        return Some(clr), pairs, fellBack;
    }
    pairs := excludedPairs;
  }

  /**
   * What a history guarantees: the pairs lie on the strict upper triangle,
   * none repeats, and no component is in more than k - 3 of them.
   */
  lemma {:induction false} HistoryFacts(V: Matrix<real>, k: nat, pairs: seq<Pair>, solve: Solver, sqrt: real -> real, th: real)
    requires IsMatrix(V, k, k) && k >= 4 && SolverSpec(solve) && SqrtSpec(sqrt) && th >= 0.0
    requires History(V, k, pairs, solve, sqrt, th)
    ensures Ordered(pairs, k) && Distinct(pairs)
    ensures forall x :: BinCount(pairs, x) + 3 <= k
    decreases |pairs|
  {
    if pairs == [] {
      assert forall x :: BinCount(pairs, x) == 0;
    } else {
      var prev, p := pairs[..|pairs| - 1], pairs[|pairs| - 1];
      HistoryFacts(V, k, prev, solve, sqrt, th);
      AppendLast(pairs);
      ExtendCounts(prev, p, k);
    }
  }

  /**
   * A pair new_excluded_pair returns on the current estimate is a new pair on
   * the strict upper triangle, it can only be returned while no component is
   * excluded, and appending it extends the history.
   */
  lemma ChoiceIsValid(V: Matrix<real>, k: nat, pairs: seq<Pair>, solve: Solver, sqrt: real -> real, th: real,
                      e: Estimate, p: Pair)
    requires IsMatrix(V, k, k) && k >= 4 && SolverSpec(solve) && SqrtSpec(sqrt) && th >= 0.0
    requires History(V, k, pairs, solve, sqrt, th)
    requires Estimated(V, k, pairs, solve, sqrt) == Some(e)
    requires IsSquare(e.corr) && |e.corr| > 0 && InRange(pairs, |e.corr|)
    requires NewExcludedPair(e.corr, pairs, th) == Some(p)
    ensures FullyExcluded(pairs, k) == {}
    ensures p.0 < p.1 < k && p !in pairs
    ensures Ordered(pairs + [p], k) && History(V, k, pairs + [p], solve, sqrt, th)
  {
    HistoryFacts(V, k, pairs, solve, sqrt, th);
    if FullyExcluded(pairs, k) != {} {
      ExclusionStops(V, k, pairs, solve, sqrt, th, e);
      assert false;
    }
    assert ChoiceFrom(V, k, pairs, p, solve, sqrt, th);
    ExtendHistory(V, k, pairs, p, solve, sqrt, th);
    ExtendCounts(pairs, p, k);
  }

  /** A pair chosen while no component is excluded extends the history. */
  lemma ExtendHistory(V: Matrix<real>, k: nat, pairs: seq<Pair>, p: Pair, solve: Solver, sqrt: real -> real, th: real)
    requires IsMatrix(V, k, k) && k > 0 && SolverSpec(solve) && SqrtSpec(sqrt)
    requires History(V, k, pairs, solve, sqrt, th) && FullyExcluded(pairs, k) == {}
    requires ChoiceFrom(V, k, pairs, p, solve, sqrt, th)
    ensures History(V, k, pairs + [p], solve, sqrt, th)
  {
    PrefixOfAppend(pairs, p);
  }

  lemma AppendLast(pairs: seq<Pair>)
    requires pairs != []
    ensures pairs[..|pairs| - 1] + [pairs[|pairs| - 1]] == pairs
  {
  }

  lemma PrefixOfAppend(pairs: seq<Pair>, p: Pair)
    ensures (pairs + [p])[..|pairs|] == pairs && (pairs + [p])[|pairs|] == p
  {
  }

  /** A new ordered pair added while no component is excluded keeps the pairs distinct and every count at most k - 3. */
  lemma ExtendCounts(pairs: seq<Pair>, p: Pair, k: nat)
    requires k >= 4 && Ordered(pairs, k) && Distinct(pairs) && p.0 < p.1 < k && p !in pairs
    requires FullyExcluded(pairs, k) == {}
    ensures Ordered(pairs + [p], k) && Distinct(pairs + [p])
    ensures forall x :: BinCount(pairs + [p], x) + 3 <= k
  {
    var next := pairs + [p];
    forall x: nat
      ensures BinCount(next, x) + 3 <= k
    {
      BinCountAppend(pairs, p, x);
      if x >= k {
        BinCountOutside(next, k, x);
      } else {
        assert x !in FullyExcluded(pairs, k);
        assert BinCount(pairs, x) + 3 < k;
      }
    }
    forall t, u | 0 <= t < u < |next|
      ensures next[t] != next[u]
    {
      if u == |pairs| {
        assert next[t] == pairs[t];
      }
    }
  }

  /**
   * One round's exclusion: pair (i, j) appended and removed from M and
   * Var_mat_temp, the components now in at least k - 3 pairs computed, and,
   * unless there are too many of them, removed as well.
   */
  method ExcludePair(M: array2<real>, W: array2<real>, pairs: seq<Pair>, previous: set<nat>,
                     p: Pair, k: nat, ghost V: Matrix<real>)
    returns (next: seq<Pair>, excluded: set<nat>, tooMany: bool)
    modifies M, W
    requires M != W && IsMatrix(V, k, k) && k >= 4
    requires Ordered(pairs, k) && p.0 < p.1 < k && p !in pairs
    requires previous == FullyExcluded(pairs, k) == {}
    requires SystemHolds(M, k, pairs, {}) && WorkHolds(W, V, k, pairs, {})
    ensures next == pairs + [p]
    ensures excluded == FullyExcluded(next, k)
    ensures tooMany <==> |excluded| > k - 4
    ensures !tooMany ==> SystemHolds(M, k, next, excluded) && WorkHolds(W, V, k, next, excluded)
    ensures !tooMany ==> forall a, b :: 0 <= a < k && 0 <= b < k ==> M[a, b] <= old(M[a, b])
  {
    var (i, j) := p;
    next := pairs + [p];
    DropPair(M, i, j, k, pairs);
    ZeroPairs(W, next, V, k);
    excluded := FullyExcluded(next, k);
    var newlyExcluded := excluded - previous;
    tooMany := false;
    if |newlyExcluded| > 0 {
      if |excluded| > k - 4 {
        tooMany := true;
        return;
      }
      ExcludeComponents(M, W, newlyExcluded, V, k, next);
    }
    forall a, b | 0 <= a < k && 0 <= b < k
      ensures M[a, b] <= old(M[a, b])
    {
      SystemNeverIncreases(k, pairs, p, a, b);
    }
  }

  lemma {:induction false} BinCountOutside(pairs: seq<Pair>, k: nat, x: nat)
    requires Ordered(pairs, k) && x >= k
    ensures BinCount(pairs, x) == 0
  {
    if pairs != [] {
      BinCountOutside(pairs[..|pairs| - 1], k, x);
    }
  }

  // Helpers for ExcludedComponentAtFloor

  lemma {:induction false} ZeroRowSum(row: seq<real>)
    requires forall b :: 0 <= b < |row| ==> row[b] == 0.0
    ensures Sum(row) == 0.0
  {
    if row != [] {
      ZeroRowSum(row[..|row| - 1]);
    }
  }

  lemma {:induction false} UnitRowDot(row: seq<real>, x: seq<real>, c: nat)
    requires |row| == |x| && c < |x|
    requires forall b :: 0 <= b < |row| ==> row[b] == if b == c then 1.0 else 0.0
    ensures Dot(row, x) == x[c]
  {
    var n := |x|;
    if c < n - 1 {
      UnitRowDot(row[..n - 1], x[..n - 1], c);
    } else {
      ZeroRowDot(row[..n - 1], x[..n - 1]);
    }
  }

  lemma {:induction false} ZeroRowDot(row: seq<real>, x: seq<real>)
    requires |row| == |x|
    requires forall b :: 0 <= b < |row| ==> row[b] == 0.0
    ensures Dot(row, x) == 0.0
  {
    if x != [] {
      ZeroRowDot(row[..|row| - 1], x[..|x| - 1]);
    }
  }
}
