/**
 * Dense matrices as sequences of rows, the sums and products the core needs,
 * and the view of a mutable 2-D array as such a matrix.
 */
module Matrices {
  import opened Floats

  type Matrix<T> = seq<seq<T>>

  /** `m` has `rows` rows of `cols` entries each (numpy shape (rows, cols)). */
  predicate IsMatrix<T>(m: Matrix<T>, rows: nat, cols: nat)
  {
    |m| == rows && forall i :: 0 <= i < rows ==> |m[i]| == cols
  }

  predicate IsSquare<T>(m: Matrix<T>)
  {
    IsMatrix(m, |m|, |m|)
  }

  predicate Symmetric<T(==)>(m: Matrix<T>)
    requires IsSquare(m)
  {
    forall i, j :: 0 <= i < |m| && 0 <= j < |m| ==> m[i][j] == m[j][i]
  }

  /** The sum of a vector. */
  function Sum(s: seq<real>): real
  {
    if s == [] then 0.0 else Sum(s[..|s| - 1]) + s[|s| - 1]
  }

  /** `m.sum(axis=1)`. */
  function RowSums(m: Matrix<real>): (r: seq<real>)
    ensures |r| == |m|
  {
    seq(|m|, i requires 0 <= i < |m| => Sum(m[i]))
  }

  /** Column `c` of `m`, i.e. `m[:, c]`. */
  function Column<T>(m: Matrix<T>, c: nat): (r: seq<T>)
    requires forall i :: 0 <= i < |m| ==> c < |m[i]|
    ensures |r| == |m|
  {
    seq(|m|, i requires 0 <= i < |m| => m[i][c])
  }

  function Dot(a: seq<real>, b: seq<real>): real
    requires |a| == |b|
  {
    if a == [] then 0.0 else Dot(a[..|a| - 1], b[..|b| - 1]) + a[|a| - 1] * b[|b| - 1]
  }

  /** `x` solves the square system `m · x = s` exactly. */
  ghost predicate IsSolution(m: Matrix<real>, x: seq<real>, s: seq<real>)
  {
    && IsSquare(m) && |x| == |m| && |s| == |m|
    && forall i :: 0 <= i < |m| ==> Dot(m[i], x) == s[i]
  }

  /** The contents of a 2-D array, row by row. */
  function ToSeq<T>(A: array2<T>): (m: Matrix<T>)
    reads A
    ensures IsMatrix(m, A.Length0, A.Length1)
    ensures forall i, j :: 0 <= i < A.Length0 && 0 <= j < A.Length1 ==> m[i][j] == A[i, j]
  {
    seq(A.Length0, i requires 0 <= i < A.Length0 reads A =>
      seq(A.Length1, j requires 0 <= j < A.Length1 reads A => A[i, j]))
  }

  /** A real matrix as a matrix of finite floats. */
  function Lift(m: Matrix<real>): (r: Matrix<Float>)
    ensures |r| == |m|
    ensures forall i :: 0 <= i < |m| ==> |r[i]| == |m[i]|
    ensures forall i, j :: 0 <= i < |m| && 0 <= j < |m[i]| ==> r[i][j] == Num(m[i][j])
  {
    seq(|m|, i requires 0 <= i < |m| => seq(|m[i]|, j requires 0 <= j < |m[i]| => Num(m[i][j])))
  }

  /** Some entry of the matrix is NaN. */
  predicate MatrixHasNaN(T: Matrix<Float>)
  {
    exists i, j :: 0 <= i < |T| && 0 <= j < |T[i]| && T[i][j].NaN?
  }

  /** Two matrices with the same shape and the same entries are equal. */
  lemma MatrixExt<T>(a: Matrix<T>, b: Matrix<T>, rows: nat, cols: nat)
    requires IsMatrix(a, rows, cols) && IsMatrix(b, rows, cols)
    requires forall i, j :: 0 <= i < rows && 0 <= j < cols ==> a[i][j] == b[i][j]
    ensures a == b
  {
    forall i | 0 <= i < rows
      ensures a[i] == b[i]
    {
    }
  }

  /** Dividing every entry by `c` divides the sum by `c`. */
  lemma {:induction false} SumDivided(s: seq<real>, t: seq<real>, c: real)
    requires c != 0.0 && |t| == |s|
    requires forall j :: 0 <= j < |s| ==> t[j] == s[j] / c
    ensures Sum(t) == Sum(s) / c
  {
    if s != [] {
      SumDivided(s[..|s| - 1], t[..|t| - 1], c);
    }
  }

  /** Every entry of a non-negative vector is at most its sum. */
  lemma {:induction false} SumBoundsEntry(s: seq<real>, j: nat)
    requires j < |s|
    requires forall i :: 0 <= i < |s| ==> s[i] >= 0.0
    ensures 0.0 <= s[j] <= Sum(s)
  {
    if j < |s| - 1 {
      SumBoundsEntry(s[..|s| - 1], j);
      SumNonNegative(s[..|s| - 1]);
    } else if |s| > 1 {
      SumNonNegative(s[..|s| - 1]);
    }
  }

  lemma {:induction false} SumNonNegative(s: seq<real>)
    requires forall i :: 0 <= i < |s| ==> s[i] >= 0.0
    ensures Sum(s) >= 0.0
  {
    if s != [] {
      SumNonNegative(s[..|s| - 1]);
    }
  }

  /** The sum of the affine images `c + k * x[i]` is `|x| * c + k * Sum(x)`. */
  lemma {:induction false} SumAffine(x: seq<real>, t: seq<real>, c: real, k: real)
    requires |t| == |x|
    requires forall i :: 0 <= i < |x| ==> t[i] == c + k * x[i]
    ensures Sum(t) == (|x| as real) * c + k * Sum(x)
  {
    if x != [] {
      var n := |x|;
      SumAffine(x[..n - 1], t[..n - 1], c, k);
      AffineStep(Sum(t[..n - 1]), Sum(x[..n - 1]), t[n - 1], x[n - 1], (n - 1) as real, c, k);
    }
  }

  lemma AffineStep(T: real, X: real, u: real, y: real, m: real, c: real, k: real)
    requires T == m * c + k * X && u == c + k * y
    ensures T + u == (m + 1.0) * c + k * (X + y)
  {
  }

  /** A row that is `e + 1` at position `i` and 1 elsewhere meets `x` in `Sum(x) + e * x[i]`. */
  lemma {:induction false} DotOnesExceptAt(row: seq<real>, x: seq<real>, i: nat, e: real)
    requires |row| == |x| && i < |x|
    requires forall j :: 0 <= j < |row| ==> row[j] == if j == i then e + 1.0 else 1.0
    ensures Dot(row, x) == Sum(x) + e * x[i]
  {
    var n := |x|;
    if i == n - 1 {
      DotOnes(row[..n - 1], x[..n - 1]);
    } else {
      DotOnesExceptAt(row[..n - 1], x[..n - 1], i, e);
    }
  }

  lemma {:induction false} DotOnes(row: seq<real>, x: seq<real>)
    requires |row| == |x|
    requires forall j :: 0 <= j < |row| ==> row[j] == 1.0
    ensures Dot(row, x) == Sum(x)
  {
    if x != [] {
      DotOnes(row[..|row| - 1], x[..|x| - 1]);
    }
  }
}
