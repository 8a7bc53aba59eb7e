/**
 * Pseudo p-values from permuted data: each entry counts how often a permuted
 * correlation is at least as extreme as the inferred one, divided by the
 * number of permutations; the diagonal is forced to 1.
 */
module PseudoPvals {
  import opened Wrappers
  import opened Floats
  import opened Matrices

  /** The two comparisons get_pvalues can use. */
  datatype TestType = TwoSided | OneSided

  /** The exceptions get_pvalues lets escape, as values. */
  datatype PvalError =
    | UnsupportedTestType(name: string)   // ValueError: neither 'two_sided' nor 'one_sided'
    | NotSquare(rows: nat, cols: nat)     // ValueError from np.diag_indices_from

  function RealAbs(x: real): real
  {
    if x < 0.0 then -x else x
  }

  /** compare2sided: the permuted value is at least as large in magnitude. */
  function Compare2Sided(p: Float, r: Float): (c: bool)
    ensures p.NaN? || r.NaN? ==> !c
    ensures p.Num? && r.Num? ==> (c <==> RealAbs(p.v) >= RealAbs(r.v))
    ensures r.Inf? && !p.NaN? ==> (c <==> p.Inf?)
    ensures p.Inf? && !r.NaN? ==> c
  {
    Ge(Abs(p), Abs(r))
  }

  /** compare1sided: as large in magnitude and on the same side of zero. */
  function Compare1Sided(p: Float, r: Float): (c: bool)
    ensures c ==> Compare2Sided(p, r)
    ensures p.Num? && r.Num? ==>
      (c <==> RealAbs(p.v) >= RealAbs(r.v) &&
              ((p.v > 0.0 && r.v > 0.0) || (p.v < 0.0 && r.v < 0.0) || (p.v == 0.0 && r.v == 0.0)))
  {
    Compare2Sided(p, r) && Eq(Sign(p), Sign(r))
  }

  function Compare(test: TestType, p: Float, r: Float): (c: bool)
    ensures c ==> Compare2Sided(p, r)
  {
    match test
    case TwoSided => Compare2Sided(p, r)
    case OneSided => Compare1Sided(p, r)
  }

  /** Every permuted matrix has an entry at (a, b). */
  predicate Covers(perms: seq<Matrix<Float>>, a: nat, b: nat)
  {
    forall t :: 0 <= t < |perms| ==> a < |perms[t]| && b < |perms[t][a]|
  }

  /** Every permuted matrix has the shape (rows, cols). */
  predicate Shaped(perms: seq<Matrix<Float>>, rows: nat, cols: nat)
  {
    forall t :: 0 <= t < |perms| ==> IsMatrix(perms[t], rows, cols)
  }

  /** Entry (a, b) of n_sig after the permutations `perms` have been folded in. */
  function SigCount(test: TestType, perms: seq<Matrix<Float>>, cor: Matrix<Float>, a: nat, b: nat): (c: nat)
    requires a < |cor| && b < |cor[a]| && Covers(perms, a, b)
    ensures c <= |perms|
  {
    if perms == [] then 0
    else
      var last := perms[|perms| - 1];
      SigCount(test, perms[..|perms| - 1], cor, a, b) + if Compare(test, last[a][b], cor[a][b]) then 1 else 0
  }

  /** p_vals: the counts divided by nperm, with the diagonal set to 1. */
  function PValues(test: TestType, perms: seq<Matrix<Float>>, cor: Matrix<Float>): (P: Matrix<Float>)
    requires IsSquare(cor) && Shaped(perms, |cor|, |cor|)
    ensures IsSquare(P) && |P| == |cor|
    ensures forall a :: 0 <= a < |P| ==> P[a][a] == Num(1.0)
    ensures |perms| > 0 ==> forall a, b :: 0 <= a < |P| && 0 <= b < |P| ==>
      P[a][b].Num? && 0.0 <= P[a][b].v <= 1.0
    ensures perms == [] ==> forall a, b :: 0 <= a < |P| && 0 <= b < |P| && a != b ==> P[a][b].NaN?
  {
    var n := |cor|;
    seq(n, a requires 0 <= a < n => seq(n, b requires 0 <= b < n =>
      if a == b then Num(1.0) else Div(SigCount(test, perms, cor, a, b) as real, |perms| as real)))
  }

  /**
   * get_pvalues(cor, perm_template, nperm, test_type), with the nperm matrices
   * read from disk given as `perms`.
   */
  method GetPValues(cor: Matrix<Float>, rows: nat, cols: nat, perms: seq<Matrix<Float>>, testType: string)
    returns (r: Result<Matrix<Float>, PvalError>)
    requires IsMatrix(cor, rows, cols) && Shaped(perms, rows, cols)
    ensures testType != "two_sided" && testType != "one_sided" ==> r == Failure(UnsupportedTestType(testType))
    ensures testType == "two_sided" || testType == "one_sided" ==>
      var test := if testType == "two_sided" then TwoSided else OneSided;
      r == if rows == cols then Success(PValues(test, perms, cor)) else Failure(NotSquare(rows, cols))
  {
    var test;
    if testType == "two_sided" {
      test := TwoSided;
    } else if testType == "one_sided" {
      test := OneSided;
    } else {
      return Failure(UnsupportedTestType(testType));
    }
    var nSig := CountSignificant(cor, rows, cols, perms, test);
    var pVals := new Float[rows, cols];
    forall a, b | 0 <= a < rows && 0 <= b < cols {
      pVals[a, b] := Div(nSig[a, b] as real, |perms| as real);
    }
    if rows != cols {
      return Failure(NotSquare(rows, cols));
    }
    forall a | 0 <= a < rows {
      pVals[a, a] := Num(1.0);
    }
    MatrixExt(ToSeq(pVals), PValues(test, perms, cor), rows, cols);
    r := Success(ToSeq(pVals));
  }

  /** The loop of get_pvalues: n_sig[cmpfun(cor_perm, cor)] += 1 for each permuted matrix. */
  method CountSignificant(cor: Matrix<Float>, rows: nat, cols: nat, perms: seq<Matrix<Float>>, test: TestType)
    returns (nSig: array2<nat>)
    requires IsMatrix(cor, rows, cols) && Shaped(perms, rows, cols)
    ensures fresh(nSig) && nSig.Length0 == rows && nSig.Length1 == cols
    ensures forall a, b :: 0 <= a < rows && 0 <= b < cols ==> nSig[a, b] == SigCount(test, perms, cor, a, b)
  {
    nSig := new nat[rows, cols]((a, b) => 0);
    for i := 0 to |perms|
      invariant forall a, b :: 0 <= a < rows && 0 <= b < cols ==> nSig[a, b] == SigCount(test, perms[..i], cor, a, b)
    {
      var perm := perms[i];
      forall a, b | 0 <= a < rows && 0 <= b < cols {
        nSig[a, b] := nSig[a, b] + if Compare(test, perm[a][b], cor[a][b]) then 1 else 0;
      }
      assert perms[..i + 1][..i] == perms[..i];
    }
    assert perms[..|perms|] == perms;
  }

  // ------------------------------------------------------------ properties

  /** Counting over two batches of permutations adds their counts. */
  lemma {:induction false} SigCountAppend(test: TestType, s: seq<Matrix<Float>>, t: seq<Matrix<Float>>,
                                          cor: Matrix<Float>, a: nat, b: nat)
    requires a < |cor| && b < |cor[a]| && Covers(s, a, b) && Covers(t, a, b)
    ensures Covers(s + t, a, b)
    ensures SigCount(test, s + t, cor, a, b) == SigCount(test, s, cor, a, b) + SigCount(test, t, cor, a, b)
    decreases |t|
  {
    if t == [] {
      assert s + t == s;
    } else {
      var n := |t| - 1;
      SigCountAppend(test, s, t[..n], cor, a, b);
      assert (s + t)[..|s + t| - 1] == s + t[..n];
    }
  }

  /** The counts depend only on the multiset of permuted matrices, not on their order. */
  lemma {:induction false} SigCountPermutation(test: TestType, s: seq<Matrix<Float>>, t: seq<Matrix<Float>>,
                                               cor: Matrix<Float>, a: nat, b: nat)
    requires a < |cor| && b < |cor[a]| && Covers(s, a, b) && Covers(t, a, b)
    requires multiset(s) == multiset(t)
    ensures SigCount(test, s, cor, a, b) == SigCount(test, t, cor, a, b)
    decreases |s|
  {
    if s == [] {
      assert |t| == |multiset(t)| == 0;
    } else {
      var n := |s| - 1;
      var x := s[n];
      assert s == s[..n] + [x];
      assert x in multiset(t);
      var i :| 0 <= i < |t| && t[i] == x;
      var rest := t[..i] + t[i + 1..];
      SigCountRemove(test, t, i, cor, a, b);
      RemoveMultiset(t, i);
      SigCountPermutation(test, s[..n], rest, cor, a, b);
    }
  }

  /** Taking the permutation at position `i` out of the batch removes its contribution. */
  lemma SigCountRemove(test: TestType, t: seq<Matrix<Float>>, i: nat, cor: Matrix<Float>, a: nat, b: nat)
    requires a < |cor| && b < |cor[a]| && Covers(t, a, b) && i < |t|
    ensures Covers(t[..i] + t[i + 1..], a, b)
    ensures SigCount(test, t, cor, a, b) ==
      SigCount(test, t[..i] + t[i + 1..], cor, a, b) + if Compare(test, t[i][a][b], cor[a][b]) then 1 else 0
  {
    var pre, post := t[..i], t[i + 1..];
    assert t == pre + [t[i]] + post;
    assert Covers(pre, a, b) && Covers(post, a, b) && Covers([t[i]], a, b);
    SigCountAppend(test, pre, [t[i]], cor, a, b);
    SigCountAppend(test, pre + [t[i]], post, cor, a, b);
    SigCountAppend(test, pre, post, cor, a, b);
  }

  lemma RemoveMultiset<T>(t: seq<T>, i: nat)
    requires i < |t|
    ensures multiset(t[..i] + t[i + 1..]) == multiset(t) - multiset{t[i]}
  {
    assert t == t[..i] + [t[i]] + t[i + 1..];
  }

  /** Reordering the permuted matrices leaves every p-value unchanged. */
  lemma PValuesOrderIndependent(test: TestType, s: seq<Matrix<Float>>, t: seq<Matrix<Float>>, cor: Matrix<Float>)
    requires IsSquare(cor) && Shaped(s, |cor|, |cor|) && Shaped(t, |cor|, |cor|)
    requires multiset(s) == multiset(t)
    ensures PValues(test, s, cor) == PValues(test, t, cor)
  {
    var n := |cor|;
    assert |s| == |multiset(s)| == |t|;
    forall a, b | 0 <= a < n && 0 <= b < n
      ensures PValues(test, s, cor)[a][b] == PValues(test, t, cor)[a][b]
    {
      SigCountPermutation(test, s, t, cor, a, b);
    }
    MatrixExt(PValues(test, s, cor), PValues(test, t, cor), n, n);
  }

  /** A cell where every permutation is as extreme as `cor` counts every permutation. */
  lemma {:induction false} SigCountAllHits(test: TestType, perms: seq<Matrix<Float>>, cor: Matrix<Float>, a: nat, b: nat)
    requires a < |cor| && b < |cor[a]| && Covers(perms, a, b)
    requires forall t :: 0 <= t < |perms| ==> Compare(test, perms[t][a][b], cor[a][b])
    ensures SigCount(test, perms, cor, a, b) == |perms|
  {
    if perms != [] {
      SigCountAllHits(test, perms[..|perms| - 1], cor, a, b);
    }
  }

  /**
   * When every permuted matrix equals `cor` and `cor` holds no NaN, every
   * two-sided p-value is 1.
   */
  lemma IdenticalPermutationsGiveOne(perms: seq<Matrix<Float>>, cor: Matrix<Float>)
    requires IsSquare(cor) && Shaped(perms, |cor|, |cor|) && |perms| > 0
    requires !MatrixHasNaN(cor)
    requires forall t :: 0 <= t < |perms| ==> perms[t] == cor
    ensures forall a, b :: 0 <= a < |cor| && 0 <= b < |cor| ==> PValues(TwoSided, perms, cor)[a][b] == Num(1.0)
  {
    var n := |cor|;
    forall a, b | 0 <= a < n && 0 <= b < n
      ensures PValues(TwoSided, perms, cor)[a][b] == Num(1.0)
    {
      assert !cor[a][b].NaN?;
      SigCountAllHits(TwoSided, perms, cor, a, b);
    }
  }

  /** A cell counts at most as often one-sided as two-sided. */
  lemma {:induction false} OneSidedCountsFewer(perms: seq<Matrix<Float>>, cor: Matrix<Float>, a: nat, b: nat)
    requires a < |cor| && b < |cor[a]| && Covers(perms, a, b)
    ensures SigCount(OneSided, perms, cor, a, b) <= SigCount(TwoSided, perms, cor, a, b)
  {
    if perms != [] {
      OneSidedCountsFewer(perms[..|perms| - 1], cor, a, b);
    }
  }

  /** One-sided p-values never exceed the two-sided ones for the same inputs. */
  lemma OneSidedAtMostTwoSided(perms: seq<Matrix<Float>>, cor: Matrix<Float>)
    requires IsSquare(cor) && Shaped(perms, |cor|, |cor|) && |perms| > 0
    ensures forall a, b :: 0 <= a < |cor| && 0 <= b < |cor| ==>
      PValues(OneSided, perms, cor)[a][b].v <= PValues(TwoSided, perms, cor)[a][b].v
  {
    var n := |cor|;
    forall a, b | 0 <= a < n && 0 <= b < n
      ensures PValues(OneSided, perms, cor)[a][b].v <= PValues(TwoSided, perms, cor)[a][b].v
    {
      OneSidedCountsFewer(perms, cor, a, b);
      DivideMonotone(SigCount(OneSided, perms, cor, a, b) as real, SigCount(TwoSided, perms, cor, a, b) as real,
                     |perms| as real);
    }
  }

  lemma DivideMonotone(x: real, y: real, n: real)
    requires x <= y && n > 0.0
    ensures x / n <= y / n
  {
    assert y / n - x / n == (y - x) / n;
  }

  /** With symmetric inputs the counts at (a, b) and (b, a) agree. */
  lemma {:induction false} SigCountSymmetric(test: TestType, perms: seq<Matrix<Float>>, cor: Matrix<Float>, a: nat, b: nat)
    requires IsSquare(cor) && Shaped(perms, |cor|, |cor|) && a < |cor| && b < |cor|
    requires Symmetric(cor) && forall t :: 0 <= t < |perms| ==> Symmetric(perms[t])
    ensures SigCount(test, perms, cor, a, b) == SigCount(test, perms, cor, b, a)
  {
    if perms != [] {
      SigCountSymmetric(test, perms[..|perms| - 1], cor, a, b);
    }
  }

  /** Symmetric correlations and symmetric permuted matrices give symmetric p-values. */
  lemma PValuesSymmetric(test: TestType, perms: seq<Matrix<Float>>, cor: Matrix<Float>)
    requires IsSquare(cor) && Shaped(perms, |cor|, |cor|)
    requires Symmetric(cor) && forall t :: 0 <= t < |perms| ==> Symmetric(perms[t])
    ensures Symmetric(PValues(test, perms, cor))
  {
    var n := |cor|;
    forall a, b | 0 <= a < n && 0 <= b < n
      ensures PValues(test, perms, cor)[a][b] == PValues(test, perms, cor)[b][a]
    {
      SigCountSymmetric(test, perms, cor, a, b);
    }
  }
}
