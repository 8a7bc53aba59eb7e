/**
 * Basis variances and basis correlations from a variation matrix: the linear
 * system of the SparCC paper (eq. 13), its clamped solution (basis_var) and the
 * covariance/correlation assembly (Mesh, C_from_V). The linear solve and the
 * square root are supplied by the caller and specified only by what they return.
 */
module Basis {
  import opened Wrappers
  import opened Matrices

  // ---------------------------------------------------------------- Mesh

  /** `n` copies of `x`. */
  function Fill(x: real, n: nat): (r: seq<real>)
    ensures |r| == n && forall i :: 0 <= i < n ==> r[i] == x
  {
    seq(n, _ => x)
  }

  /** np.repeat(a, n): every element repeated `n` times in place. */
  function Repeat(a: seq<real>, n: nat): seq<real>
  {
    if a == [] then [] else Fill(a[0], n) + Repeat(a[1..], n)
  }

  /** np.reshape(flat, (rows, n)): consecutive runs of `n` become rows. */
  function Reshape(flat: seq<real>, rows: nat, n: nat): Matrix<real>
    requires |flat| == rows * n
  {
    if rows == 0 then []
    else
      assert |flat[n..]| == (rows - 1) * n;
      [flat[..n]] + Reshape(flat[n..], rows - 1, n)
  }

  function Transpose(A: Matrix<real>, n: nat): (T: Matrix<real>)
    requires IsMatrix(A, n, n)
    ensures IsMatrix(T, n, n) && forall i, j :: 0 <= i < n && 0 <= j < n ==> T[i][j] == A[j][i]
  {
    seq(n, i requires 0 <= i < n => seq(n, j requires 0 <= j < n => A[j][i]))
  }

  /** Reshaping `a` repeated row-wise gives the matrix whose row i is constant a[i]. */
  lemma {:induction false} ReshapeRepeat(a: seq<real>, n: nat)
    ensures |Repeat(a, n)| == |a| * n
    ensures IsMatrix(Reshape(Repeat(a, n), |a|, n), |a|, n)
    ensures forall i, j :: 0 <= i < |a| && 0 <= j < n ==> Reshape(Repeat(a, n), |a|, n)[i][j] == a[i]
  {
    if a != [] {
      ReshapeRepeat(a[1..], n);
      var flat := Repeat(a, n);
      assert flat == Fill(a[0], n) + Repeat(a[1..], n);
      assert |flat| == n + (|a| - 1) * n == |a| * n;
      assert flat[..n] == Fill(a[0], n);
      assert flat[n..] == Repeat(a[1..], n);
      var R := Reshape(flat, |a|, n);
      assert R == [Fill(a[0], n)] + Reshape(Repeat(a[1..], n), |a| - 1, n);
    }
  }

  /**
   * Mesh(a) of SparCC.py, equal to np.meshgrid(a, a): X[i][j] == a[j] and
   * Y[i][j] == a[i]. numpy refuses to reshape an empty vector this way, so
   * `a` is non-empty.
   */
  function Mesh(a: seq<real>): (r: (Matrix<real>, Matrix<real>))
    requires |a| > 0
    ensures IsMatrix(r.0, |a|, |a|) && IsMatrix(r.1, |a|, |a|)
    ensures forall i, j :: 0 <= i < |a| && 0 <= j < |a| ==> r.0[i][j] == a[j] && r.1[i][j] == a[i]
  {
    var n := |a|;
    ReshapeRepeat(a, n);
    var A1 := Reshape(Repeat(a, n), n, n);
    (Transpose(A1, n), A1)
  }

  // ------------------------------------------------------ the linear system

  /** `np.ones((D, D)) + np.diag([D - 2] * D)`: the system matrix before any exclusion. */
  function InitialSystem(D: nat): (M: Matrix<real>)
    ensures IsMatrix(M, D, D)
    ensures forall a, b :: 0 <= a < D && 0 <= b < D ==> M[a][b] == if a == b then (D - 1) as real else 1.0
  {
    seq(D, a requires 0 <= a < D => seq(D, b requires 0 <= b < D => 1.0 + if a == b then (D - 2) as real else 0.0))
  }

  /** A linear solver as `da.linalg.solve`: None when it raises on a singular system. */
  type Solver = (Matrix<real>, seq<real>) -> Option<seq<real>>

  /** Whatever the solver returns solves the system exactly. */
  ghost predicate SolverSpec(solve: Solver)
  {
    forall m, s :: solve(m, s).Some? ==> IsSolution(m, solve(m, s).value, s)
  }

  /** The default floor for basis variances, V_min = 1e-4. */
  const VMin: real := 0.0001

  /**
   * basis_var: solve M · x = rowsums(Var_mat) and replace every component
   * that is not positive by `vmin`; None when the solve fails.
   */
  function BasisVar(W: Matrix<real>, M: Matrix<real>, solve: Solver, vmin: real): (r: Option<seq<real>>)
    requires SolverSpec(solve) && IsSquare(W) && IsSquare(M) && |W| == |M|
    ensures r.None? <==> solve(M, RowSums(W)).None?
    ensures r.Some? ==> |r.value| == |M|
    ensures r.Some? ==> forall i :: 0 <= i < |M| ==>
      var x := solve(M, RowSums(W)).value[i];
      (x > 0.0 ==> r.value[i] == x) && (x <= 0.0 ==> r.value[i] == vmin)
    ensures r.Some? && vmin > 0.0 ==> forall i :: 0 <= i < |M| ==> r.value[i] > 0.0
  {
    match solve(M, RowSums(W))
    case None => None
    case Some(x) => Some(seq(|x|, i requires 0 <= i < |x| => if x[i] <= 0.0 then vmin else x[i]))
  }

  /** When no component needs the floor, basis_var's result solves the system itself. */
  lemma BasisVarSolvesWhenPositive(W: Matrix<real>, M: Matrix<real>, solve: Solver, vmin: real)
    requires SolverSpec(solve) && IsSquare(W) && IsSquare(M) && |W| == |M|
    requires solve(M, RowSums(W)).Some?
    requires forall i :: 0 <= i < |M| ==> solve(M, RowSums(W)).value[i] > 0.0
    ensures BasisVar(W, M, solve, vmin).Some?
    ensures IsSolution(M, BasisVar(W, M, solve, vmin).value, RowSums(W))
  {
    var x := solve(M, RowSums(W)).value;
    assert BasisVar(W, M, solve, vmin).value == x;
  }

  /**
   * `n` as a real. Products below multiply these atoms rather than cast
   * expressions, which keeps the nonlinear arithmetic small.
   */
  function Real(n: int): (r: real)
    ensures r == n as real
  {
    n as real
  }

  /** Row i of the initial system applied to x is Sum(x) + (D - 2) · x[i]. */
  lemma InitialSystemRow(D: nat, x: seq<real>, i: nat)
    requires D >= 3 && |x| == D && i < D
    ensures Dot(InitialSystem(D)[i], x) == Sum(x) + Real(D - 2) * x[i]
  {
    InitialRowShape(D, i);
    DotOnesExceptAt(InitialSystem(D)[i], x, i, Real(D - 2));
  }

  /** Row i of the initial system is (D - 2) + 1 on the diagonal and 1 elsewhere. */
  lemma InitialRowShape(D: nat, i: nat)
    requires D >= 3 && i < D
    ensures forall j :: 0 <= j < D ==> InitialSystem(D)[i][j] == if j == i then Real(D - 2) + 1.0 else 1.0
  {
  }

  /** Row i of the initial system holds for x: s[i] == Sum(x) + (D - 2) · x[i]. */
  ghost predicate RowEquation(D: nat, x: seq<real>, s: seq<real>, i: nat)
    requires |x| == D && |s| == D && i < D
  {
    s[i] == Sum(x) + Real(D - 2) * x[i]
  }

  /**
   * x is the closed-form solution of the initial system for right-hand side s,
   * x[i] = (s[i] - Sum(s) / (2D - 2)) / (D - 2), written without division.
   */
  ghost predicate ClosedForm(x: seq<real>, s: seq<real>)
  {
    |x| == |s| && forall i :: 0 <= i < |s| ==> LinearRow(x, s, i, Coef(|s|), Pivot(|s|), Sum(s))
  }

  /** 2D - 2, the sum of each row of the initial system. */
  function Pivot(D: nat): real
  {
    Real(2 * D - 2)
  }

  /** (D - 2)(2D - 2), the coefficient of x[i] in the closed form. */
  function Coef(D: nat): real
  {
    Real(D - 2) * Pivot(D)
  }

  /** a · x[i] == b · s[i] - S. */
  ghost predicate LinearRow(x: seq<real>, s: seq<real>, i: nat, a: real, b: real, S: real)
    requires |x| == |s| && i < |s|
  {
    a * x[i] == b * s[i] - S
  }

  /**
   * Summing the rows a · x[i] == b · s[i] - S gives a · X == |s| · (-S) + b · T
   * for X = Sum(x) and T = Sum(s).
   */
  lemma {:induction false} SumLinearRows(x: seq<real>, s: seq<real>, a: real, b: real, S: real, X: real, T: real)
    requires |x| == |s| && X == Sum(x) && T == Sum(s)
    requires forall i :: 0 <= i < |s| ==> LinearRow(x, s, i, a, b, S)
    ensures a * X == Real(|s|) * -S + b * T
  {
    if s != [] {
      var n := |s|;
      var xs, ss := x[..n - 1], s[..n - 1];
      forall i | 0 <= i < n - 1
        ensures LinearRow(xs, ss, i, a, b, S)
      {
        assert LinearRow(x, s, i, a, b, S);
      }
      SumLinearRows(xs, ss, a, b, S, Sum(xs), Sum(ss));
      assert LinearRow(x, s, n - 1, a, b, S);
      LinearStep(Sum(xs), Sum(ss), x[n - 1], s[n - 1], Real(n - 1), a, b, S, X, T, Real(n));
    }
  }

  lemma LinearStep(X: real, T: real, y: real, u: real, m: real, a: real, b: real, S: real,
                   X': real, T': real, m': real)
    requires a * X == m * -S + b * T && a * y == b * u - S
    requires X' == X + y && T' == T + u && m' == m + 1.0
    ensures a * X' == m' * -S + b * T'
  {
  }

  /** A solution of the initial system satisfies every row equation. */
  lemma SolvedRow(D: nat, x: seq<real>, s: seq<real>, i: nat)
    requires D >= 3 && |x| == D && |s| == D && i < D
    requires IsSolution(InitialSystem(D), x, s)
    ensures RowEquation(D, x, s, i)
  {
    InitialSystemRow(D, x, i);
  }

  /** Summing the row equations: Sum(s) == (2D - 2) · Sum(x). */
  lemma RowsSum(D: nat, x: seq<real>, s: seq<real>)
    requires D >= 3 && |x| == D && |s| == D
    requires forall i :: 0 <= i < D ==> RowEquation(D, x, s, i)
    ensures Sum(s) == Pivot(D) * Sum(x)
  {
    forall i | 0 <= i < D
      ensures s[i] == Sum(x) + Real(D - 2) * x[i]
    {
      assert RowEquation(D, x, s, i);
    }
    SumAffine(x, s, Sum(x), Real(D - 2));
    ScaleSum(Sum(s), Sum(x), |x| as real, Real(D - 2), Pivot(D));
  }

  /** The row equations determine x: it is the closed form for s. */
  lemma RowsDetermineSolution(D: nat, x: seq<real>, s: seq<real>)
    requires D >= 3 && |x| == D && |s| == D
    requires forall i :: 0 <= i < D ==> RowEquation(D, x, s, i)
    ensures ClosedForm(x, s)
  {
    RowsSum(D, x, s);
    forall i | 0 <= i < D
      ensures LinearRow(x, s, i, Coef(D), Pivot(D), Sum(s))
    {
      assert RowEquation(D, x, s, i);
      SolveRowScalar(x[i], s[i], Sum(x), Sum(s), Coef(D), Real(D - 2), Pivot(D));
    }
  }

  /** Any solution of the initial system is the closed form. */
  lemma InitialSystemSolutionForm(D: nat, x: seq<real>, s: seq<real>)
    requires D >= 3 && |x| == D && |s| == D
    requires IsSolution(InitialSystem(D), x, s)
    ensures ClosedForm(x, s)
  {
    forall i | 0 <= i < D
      ensures RowEquation(D, x, s, i)
    {
      SolvedRow(D, x, s, i);
    }
    RowsDetermineSolution(D, x, s);
  }

  /** The closed form sums to Sum(s) / (2D - 2): with X = Sum(x), S = Sum(s), (2D - 2) · X == S. */
  lemma ClosedFormSum(x: seq<real>, s: seq<real>, X: real, S: real)
    requires |s| >= 3 && ClosedForm(x, s) && X == Sum(x) && S == Sum(s)
    ensures Pivot(|s|) * X == S
  {
    SumLinearRows(x, s, Coef(|s|), Pivot(|s|), S, X, S);
    CancelSum(X, S, |s|);
  }

  /** The closed form solves the initial system. */
  lemma InitialSystemSolvedByForm(x: seq<real>, s: seq<real>)
    requires |s| >= 3 && ClosedForm(x, s)
    ensures IsSolution(InitialSystem(|s|), x, s)
  {
    var D := |s|;
    var X, S := Sum(x), Sum(s);
    ClosedFormSum(x, s, X, S);
    forall i | 0 <= i < D
      ensures Dot(InitialSystem(D)[i], x) == s[i]
    {
      InitialSystemRow(D, x, i);
      assert LinearRow(x, s, i, Coef(D), Pivot(D), Sum(s));
      CheckRowScalar(x[i], s[i], X, S, Coef(D), Real(D - 2), Pivot(D));
    }
  }

  /** The initial system (D >= 3) has exactly the closed form as its solution. */
  lemma InitialSystemSolution(D: nat, x: seq<real>, s: seq<real>)
    requires D >= 3 && |x| == D && |s| == D
    ensures IsSolution(InitialSystem(D), x, s) <==> ClosedForm(x, s)
  {
    if IsSolution(InitialSystem(D), x, s) {
      InitialSystemSolutionForm(D, x, s);
    }
    if ClosedForm(x, s) {
      InitialSystemSolvedByForm(x, s);
    }
  }

  /** A constant vector c of length n sums to n · c. */
  lemma SumConstant(s: seq<real>, c: real)
    requires forall i :: 0 <= i < |s| ==> s[i] == c
    ensures Sum(s) == Real(|s|) * c
  {
    var m := -c;
    forall i | 0 <= i < |s|
      ensures LinearRow(s, s, i, 1.0, 0.0, m)
    {
    }
    SumLinearRows(s, s, 1.0, 0.0, m, Sum(s), Sum(s));
  }

  /**
   * With every observed variation equal to 1 (including the diagonal, as in the
   * D = 50 all-ones example), basis_var on the initial system gives every
   * component the variance D / (2D - 2).
   */
  lemma BasisVarOfOnes(W: Matrix<real>, solve: Solver, vmin: real)
    requires |W| >= 3 && IsSquare(W) && SolverSpec(solve)
    requires forall a, b :: 0 <= a < |W| && 0 <= b < |W| ==> W[a][b] == 1.0
    requires BasisVar(W, InitialSystem(|W|), solve, vmin).Some?
    ensures forall i :: 0 <= i < |W| ==>
      BasisVar(W, InitialSystem(|W|), solve, vmin).value[i] == Real(|W|) / Pivot(|W|)
  {
    var D := |W|;
    var s := RowSums(W);
    forall i | 0 <= i < D
      ensures s[i] == Real(D)
    {
      SumConstant(W[i], 1.0);
    }
    SumConstant(s, Real(D));
    var x := solve(InitialSystem(D), s).value;
    InitialSystemSolution(D, x, s);
    forall i | 0 <= i < D
      ensures x[i] == Real(D) / Pivot(D)
    {
      assert LinearRow(x, s, i, Coef(D), Pivot(D), Sum(s));
      UniformScalar(x[i], D, Sum(s));
    }
  }

  /** The D = 50 example: every basis variance is 50/98. */
  lemma BasisVarOfOnesFifty(W: Matrix<real>, solve: Solver)
    requires |W| == 50 && IsSquare(W) && SolverSpec(solve)
    requires forall a, b :: 0 <= a < 50 && 0 <= b < 50 ==> W[a][b] == 1.0
    requires BasisVar(W, InitialSystem(50), solve, VMin).Some?
    ensures forall i :: 0 <= i < 50 ==> BasisVar(W, InitialSystem(50), solve, VMin).value[i] == 50.0 / 98.0
  {
    BasisVarOfOnes(W, solve, VMin);
  }

  /** With no observed variation, every basis variance of the initial system falls to the floor. */
  lemma BasisVarOfZeros(W: Matrix<real>, solve: Solver, vmin: real)
    requires |W| >= 3 && IsSquare(W) && SolverSpec(solve)
    requires forall a, b :: 0 <= a < |W| && 0 <= b < |W| ==> W[a][b] == 0.0
    requires BasisVar(W, InitialSystem(|W|), solve, vmin).Some?
    ensures forall i :: 0 <= i < |W| ==> BasisVar(W, InitialSystem(|W|), solve, vmin).value[i] == vmin
  {
    var D := |W|;
    var s := RowSums(W);
    forall i | 0 <= i < D
      ensures s[i] == 0.0
    {
      SumConstant(W[i], 0.0);
    }
    SumConstant(s, 0.0);
    var x := solve(InitialSystem(D), s).value;
    InitialSystemSolution(D, x, s);
    forall i | 0 <= i < D
      ensures x[i] == 0.0
    {
      assert LinearRow(x, s, i, Coef(D), Pivot(D), Sum(s));
      ZeroScalar(x[i], D, s[i], Sum(s));
    }
  }

  /** `sqrt` is a square root on the positive reals (numpy's np.sqrt there). */
  ghost predicate SqrtSpec(sqrt: real -> real)
  {
    forall x :: x > 0.0 ==> sqrt(x) > 0.0 && sqrt(x) * sqrt(x) == x
  }

  /** The covariance of two basis components from their variances and their log-ratio variance. */
  function Covariance(vi: real, vj: real, t: real): (c: real)
    ensures c + c == vi + vj - t
  {
    0.5 * (vi + vj - t)
  }

  /** A covariance divided by two standard deviations `p` and `q`. */
  function Correlation(cov: real, p: real, q: real): (c: real)
    requires p > 0.0 && q > 0.0
    ensures c * p * q == cov
    ensures (cov == p * q) <==> (c == 1.0)
  {
    UndoDivisions(cov, p, q);
    cov / p / q
  }

  /**
   * C_from_V: with Vi, Vj the mesh of the basis variances, covariances
   * `(V_i + V_j - t_ij) / 2` and correlations `Cov_ij / sqrt(V_j) / sqrt(V_i)`.
   */
  function CFromV(V: Matrix<real>, b: seq<real>, sqrt: real -> real): (r: (Matrix<real>, Matrix<real>))
    requires SqrtSpec(sqrt) && IsSquare(V) && |b| == |V| > 0
    requires forall i :: 0 <= i < |b| ==> b[i] > 0.0
    ensures IsMatrix(r.0, |b|, |b|) && IsMatrix(r.1, |b|, |b|)
    ensures forall i, j :: 0 <= i < |b| && 0 <= j < |b| ==>
      r.1[i][j] == Covariance(b[i], b[j], V[i][j]) &&
      r.0[i][j] == Correlation(r.1[i][j], sqrt(b[j]), sqrt(b[i]))
  {
    var n := |b|;
    var (Vi, Vj) := Mesh(b);
    var Cov := seq(n, i requires 0 <= i < n => seq(n, j requires 0 <= j < n => Covariance(Vj[i][j], Vi[i][j], V[i][j])));
    var C := seq(n, i requires 0 <= i < n => seq(n, j requires 0 <= j < n => Correlation(Cov[i][j], sqrt(Vi[i][j]), sqrt(Vj[i][j]))));
    (C, Cov)
  }

  /** A symmetric variation matrix gives symmetric covariances and correlations. */
  lemma CFromVSymmetric(V: Matrix<real>, b: seq<real>, sqrt: real -> real)
    requires SqrtSpec(sqrt) && IsSquare(V) && |b| == |V| > 0
    requires forall i :: 0 <= i < |b| ==> b[i] > 0.0
    requires Symmetric(V)
    ensures Symmetric(CFromV(V, b, sqrt).0) && Symmetric(CFromV(V, b, sqrt).1)
  {
    var (C, Cov) := CFromV(V, b, sqrt);
    forall i, j | 0 <= i < |b| && 0 <= j < |b|
      ensures Cov[i][j] == Cov[j][i] && C[i][j] == C[j][i]
    {
      assert Cov[i][j] == Cov[j][i];
      CorrelationSwap(Cov[i][j], sqrt(b[j]), sqrt(b[i]));
    }
  }

  /** A component with zero self-variation has covariance V_i with itself and correlation 1. */
  lemma CFromVDiagonal(V: Matrix<real>, b: seq<real>, sqrt: real -> real, i: nat)
    requires SqrtSpec(sqrt) && IsSquare(V) && |b| == |V| > 0
    requires forall i :: 0 <= i < |b| ==> b[i] > 0.0
    requires i < |b| && V[i][i] == 0.0
    ensures CFromV(V, b, sqrt).1[i][i] == b[i] && CFromV(V, b, sqrt).0[i][i] == 1.0
  {
    var s := sqrt(b[i]);
    assert s * s == b[i];
  }

  /** The square root of 1 is 1. */
  lemma SqrtOne(sqrt: real -> real)
    requires SqrtSpec(sqrt)
    ensures sqrt(1.0) == 1.0
  {
    var s := sqrt(1.0);
    assert s > 0.0 && s * s == 1.0;
    assert (s - 1.0) * (s + 1.0) == 0.0;
  }

  /**
   * Unit basis variances against the identity variation matrix: covariance and
   * correlation are 1/2 on the diagonal and 1 off it.
   */
  lemma CFromVIdentity(V: Matrix<real>, b: seq<real>, sqrt: real -> real)
    requires SqrtSpec(sqrt) && IsSquare(V) && |b| == |V| > 0
    requires forall i :: 0 <= i < |b| ==> b[i] == 1.0
    requires forall i, j :: 0 <= i < |V| && 0 <= j < |V| ==> V[i][j] == if i == j then 1.0 else 0.0
    ensures forall i, j :: 0 <= i < |b| && 0 <= j < |b| ==>
      CFromV(V, b, sqrt).0[i][j] == (if i == j then 0.5 else 1.0) &&
      CFromV(V, b, sqrt).1[i][j] == (if i == j then 0.5 else 1.0)
  {
    SqrtOne(sqrt);
  }

  /**
   * With no observed variation and a common basis variance c, every covariance is c
   * and every correlation is 1 (all components move together).
   */
  lemma CFromVNoVariation(V: Matrix<real>, b: seq<real>, sqrt: real -> real, c: real)
    requires SqrtSpec(sqrt) && IsSquare(V) && |b| == |V| > 0 && c > 0.0
    requires forall i :: 0 <= i < |b| ==> b[i] == c
    requires forall i, j :: 0 <= i < |V| && 0 <= j < |V| ==> V[i][j] == 0.0
    ensures forall i, j :: 0 <= i < |b| && 0 <= j < |b| ==>
      CFromV(V, b, sqrt).0[i][j] == 1.0 && CFromV(V, b, sqrt).1[i][j] == c
  {
    var (C, Cov) := CFromV(V, b, sqrt);
    var s := sqrt(c);
    assert s * s == c;
    forall i, j | 0 <= i < |b| && 0 <= j < |b|
      ensures C[i][j] == 1.0 && Cov[i][j] == c
    {
      assert Cov[i][j] == Covariance(c, c, 0.0) == c;
      assert C[i][j] == Correlation(c, s, s);
    }
  }

  // Scalar steps of the closed-form argument, each in a context of its own.

  lemma ScaleSum(S: real, X: real, D: real, d: real, e: real)
    requires d == D - 2.0 && e == 2.0 * D - 2.0
    requires S == D * X + d * X
    ensures S == e * X
  {
  }

  lemma SolveRowScalar(x: real, s: real, X: real, S: real, a: real, d: real, e: real)
    requires a == d * e && s == X + d * x && S == e * X
    ensures a * x == e * s - S
  {
    assert e * s == e * X + e * (d * x);
  }

  lemma CancelSum(X: real, S: real, n: nat)
    requires n >= 3
    requires Coef(n) * X == Real(n) * -S + Pivot(n) * S
    ensures Pivot(n) * X == S
  {
    var d, e := Real(n - 2), Pivot(n);
    assert Real(n) * -S + e * S == d * S;
    assert d * (e * X) == d * S;
  }

  lemma CheckRowScalar(x: real, s: real, X: real, S: real, a: real, d: real, e: real)
    requires e > 0.0 && a == d * e && e * X == S && a * x == e * s - S
    ensures X + d * x == s
  {
    assert e * (X + d * x) == e * s;
  }

  lemma UniformScalar(x: real, D: nat, S: real)
    requires D >= 3 && S == Real(D) * Real(D)
    requires Coef(D) * x == Pivot(D) * Real(D) - S
    ensures x == Real(D) / Pivot(D)
  {
    var d, e, n := Real(D - 2), Pivot(D), Real(D);
    assert e * n - n * n == d * n;
    assert d * (e * x) == d * n;
    assert e * x == n;
  }

  lemma ZeroScalar(x: real, D: nat, s: real, S: real)
    requires D >= 3 && s == 0.0 && S == 0.0
    requires Coef(D) * x == Pivot(D) * s - S
    ensures x == 0.0
  {
    var d, e := Real(D - 2), Pivot(D);
    assert d * (e * x) == 0.0;
  }

  lemma UndoDivisions(x: real, p: real, q: real)
    requires p != 0.0 && q != 0.0
    ensures x / p / q * p * q == x
  {
  }

  lemma CorrelationSwap(x: real, p: real, q: real)
    requires p > 0.0 && q > 0.0
    ensures Correlation(x, p, q) == Correlation(x, q, p)
  {
    var c, d := Correlation(x, p, q), Correlation(x, q, p);
    assert c * (p * q) == d * (p * q);
  }
}
