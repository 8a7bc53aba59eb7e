/**
 * The variation matrix: for every pair of components the variance of the
 * log-ratio of their fractions across samples. The statistic itself (a log
 * and a variance over one pair of columns) is the caller-supplied `pairStat`.
 */
module CompositionalMethods {
  import opened Matrices

  /** Entry (a, b) of the variation matrix of a `k`-component table. */
  function VariationEntry(frame: Matrix<real>, k: nat, pairStat: (seq<real>, seq<real>) -> real,
                          a: nat, b: nat): real
    requires IsMatrix(frame, |frame|, k) && a < k && b < k
  {
    if a == b then 0.0
    else if a < b then pairStat(Column(frame, a), Column(frame, b))
    else pairStat(Column(frame, b), Column(frame, a))
  }

  /** The variation matrix as a value: square, symmetric, zero on the diagonal. */
  function Variation(frame: Matrix<real>, k: nat, pairStat: (seq<real>, seq<real>) -> real): (V: Matrix<real>)
    requires IsMatrix(frame, |frame|, k)
    ensures IsMatrix(V, k, k) && Symmetric(V)
    ensures forall a :: 0 <= a < k ==> V[a][a] == 0.0
    ensures forall a, b :: 0 <= a < k && 0 <= b < k ==> V[a][b] == VariationEntry(frame, k, pairStat, a, b)
  {
    seq(k, a requires 0 <= a < k => seq(k, b requires 0 <= b < k => VariationEntry(frame, k, pairStat, a, b)))
  }

  /**
   * variation_mat: a zero k×k array filled pair by pair for i < j, each value
   * stored at (i, j) and (j, i). `writes` logs the cells stored, in order.
   */
  method VariationMat(frame: Matrix<real>, k: nat, pairStat: (seq<real>, seq<real>) -> real)
    returns (V: array2<real>, ghost writes: seq<(nat, nat)>)
    requires IsMatrix(frame, |frame|, k)
    ensures V.Length0 == k && V.Length1 == k
    ensures ToSeq(V) == Variation(frame, k, pairStat)
    ensures forall t, u :: 0 <= t < u < |writes| ==> writes[t] != writes[u]
    ensures forall a: nat, b: nat :: (a, b) in writes <==> a < k && b < k && a != b
  {
    V := new real[k, k]((a, b) => 0.0);
    writes := [];
    var i := 0;
    while i + 1 < k
      invariant i <= k
      invariant V.Length0 == k && V.Length1 == k
      invariant forall a, b :: 0 <= a < k && 0 <= b < k ==>
        V[a, b] == if a < i || b < i then VariationEntry(frame, k, pairStat, a, b) else 0.0
      invariant forall t, u :: 0 <= t < u < |writes| ==> writes[t] != writes[u]
      invariant forall a: nat, b: nat :: (a, b) in writes <==> a < k && b < k && a != b && (a < i || b < i)
    {
      var j := i + 1;
      while j < k
        invariant i < j <= k
        invariant forall a, b :: 0 <= a < k && 0 <= b < k ==>
          V[a, b] == if a < i || b < i || (a == i && i < b < j) || (b == i && i < a < j)
                     then VariationEntry(frame, k, pairStat, a, b) else 0.0
        invariant forall t, u :: 0 <= t < u < |writes| ==> writes[t] != writes[u]
        invariant forall a: nat, b: nat :: (a, b) in writes <==>
          a < k && b < k && a != b && (a < i || b < i || (a == i && b < j) || (b == i && a < j))
      {
        var v := pairStat(Column(frame, i), Column(frame, j));
        V[i, j] := v;
        V[j, i] := v;
        writes := writes + [(i, j), (j, i)];
        j := j + 1;
      }
      i := i + 1;
    }
    MatrixExt(ToSeq(V), Variation(frame, k, pairStat), k, k);
  }

  /** Entry (a, b) depends on columns a and b of the table and on nothing else. */
  lemma VariationDependsOnPairOnly(frame: Matrix<real>, other: Matrix<real>, k: nat,
                                   pairStat: (seq<real>, seq<real>) -> real, a: nat, b: nat)
    requires IsMatrix(frame, |frame|, k) && IsMatrix(other, |other|, k) && a < k && b < k
    requires Column(frame, a) == Column(other, a) && Column(frame, b) == Column(other, b)
    ensures Variation(frame, k, pairStat)[a][b] == Variation(other, k, pairStat)[a][b]
  {
  }

  /**
   * When every column equals `c` and the statistic of a column against itself
   * is 0 (the log-ratio is constant), the whole variation matrix is zero.
   */
  lemma VariationOfIdenticalColumnsIsZero(frame: Matrix<real>, k: nat,
                                          pairStat: (seq<real>, seq<real>) -> real, c: seq<real>)
    requires IsMatrix(frame, |frame|, k)
    requires forall j :: 0 <= j < k ==> Column(frame, j) == c
    requires pairStat(c, c) == 0.0
    ensures forall a, b :: 0 <= a < k && 0 <= b < k ==> Variation(frame, k, pairStat)[a][b] == 0.0
  {
  }

  /** A table of ones has identical columns, so its variation matrix is zero. */
  lemma VariationOfOnesIsZero(frame: Matrix<real>, k: nat, pairStat: (seq<real>, seq<real>) -> real)
    requires IsMatrix(frame, |frame|, k) && k > 0
    requires forall i, j :: 0 <= i < |frame| && 0 <= j < k ==> frame[i][j] == 1.0
    requires pairStat(Column(frame, 0), Column(frame, 0)) == 0.0
    ensures forall a, b :: 0 <= a < k && 0 <= b < k ==> Variation(frame, k, pairStat)[a][b] == 0.0
  {
    forall j | 0 <= j < k
      ensures Column(frame, j) == Column(frame, 0)
    {
    }
    VariationOfIdenticalColumnsIsZero(frame, k, pairStat, Column(frame, 0));
  }
}
