# SparCC in Dafny

A model of the computational core of SparCC. SparCC estimates correlations
between the components of compositional data, such as relative abundances of
taxa across samples. The project models and proves properties of:

- **Variation matrix** (`variation_mat`): for each pair of components, the
  variance of the log-ratio of their fractions across samples.
- **Basis variances** (`basis_var`): the solve of `M · v = t` for the basis
  variances, floored at `V_min = 1e-4`. `t` holds the row sums of the
  variation matrix.
- **Basis correlations** (`C_from_V`): covariances and correlations obtained
  from the basis variances.
- **Iterative refinement** (`run_sparcc`):
  - repeatedly picks the most strongly correlated pair that has not been
    excluded yet (`new_excluded_pair`);
  - removes that pair from `M` and from the working variation matrix;
  - excludes every component that sits in at least `D - 3` excluded pairs;
  - re-solves;
  - blanks the excluded components with NaN.
- **Entry point** (`basic_corr`): parameter checks, case-insensitive method
  dispatch between `clr` and `sparcc`, and the fallback to the clr result when
  a correlation leaves `[-1.001, 1.001]`.
- **Pseudo p-values** (`get_pvalues`): counts how often a permuted correlation
  is at least as extreme as the inferred one, with a two-sided or one-sided
  comparison. It then divides by `nperm` and sets the diagonal to 1.
- **Count normalisation** (`normalize`, `to_fractions`).

Modules, one per file:

| module | file | contents |
|---|---|---|
| `Floats` | `floats.dfy` | numpy doubles: exact reals plus NaN and the signed infinities (comparisons with NaN are false; `0/0` is NaN) |
| `Matrices` | `matrices.dfy` | matrices as sequences of rows, sums, dot products, the view of a 2-D array as a matrix |
| `Wrappers` | `wrappers.dfy` | `Option` and `Result`, which model the exceptions as values |
| `CoreMethods` | `core_methods.dfy` | `normalize` and `to_fractions` |
| `CompositionalMethods` | `compositional_methods.dfy` | `variation_mat` |
| `Basis` | `sparcc_basis.dfy` | `Mesh`, `basis_var`, `C_from_V`, and the closed-form solution of the initial system |
| `Exclusion` | `sparcc_exclusion.dfy` | `new_excluded_pair`, with numpy's `argmax` semantics (the first NaN wins; otherwise the first maximum) |
| `Sparcc` | `sparcc_refinement.dfy` | `run_sparcc` over mutable 2-D arrays, proved against a closed form of its state |
| `BasicCorrelation` | `basic_corr.dfy` | `basic_corr` |
| `PseudoPvals` | `pseudo_pvals.dfy` | `compare2sided`, `compare1sided`, `get_pvalues` |

### Abstract operations

Four operations are abstract and are passed in as function parameters:

| parameter | stands for | specification |
|---|---|---|
| `solve` | the linear solver | `SolverSpec`: a returned vector solves the system exactly; `None` models a singular system |
| `sqrt` | the square root | `SqrtSpec`: a positive root whose square is the argument |
| `pairStat` | the per-pair log-ratio variance | none |
| `draw` | the Dirichlet sampler | `DrawSpec`: keeps the length of its parameter vector |

### How `run_sparcc` is proved

`RunSparcc` works in place on two arrays: the system matrix `M` and the
working variation matrix `Var_mat_temp`.

- After a sequence of excluded pairs, both arrays are described in closed
  form by `SystemEntry` and `WorkEntry`.
- The estimate is `Estimated`.
- The sequence of chosen pairs satisfies `History`: each pair is the one
  `new_excluded_pair` picks on the estimate of the round before.

The first solve, before the loop, can already fail. After it, each round
checks in this order, and the loop stops at the first that applies:

- `new_excluded_pair` finds no pair left above the threshold, and the loop
  breaks (sparcc/SparCC.py:113-114);
- too many components are excluded, and the clr result is returned
  (sparcc/SparCC.py:136-138);
- the re-solve fails (sparcc/SparCC.py:146).

Otherwise the loop ends when its `x_iter` rounds are done.

Once a component is excluded, its row of the correlation matrix is NaN. It
still has a partner it was never paired with, so the next
`new_excluded_pair` returns None (`ExclusionStops`). Pairs are therefore only
ever added while no component is excluded.

### Where the documentation and the code disagree

The model follows the code in each case:

- `to_fractions` documents a `'pseudo'` method, but the code has no branch for it. `'pseudo'` fails with `UnsupportedMethod`.
- `basic_corr` documents `'SparCC'` as the default and also lists pearson, spearman and kendall. The code lower-cases the name and accepts only `'clr'` and `'sparcc'`; every other name fails with `UnsupportedMethod`.
- `new_excluded_pair` says it returns a pair whose correlation is `>=` the threshold. The code compares with a strict `>`.
- `normalize` on a sample whose total is zero gives NaN (or an infinity), not an error.
- The comment in `variation_mat` speaks of an unbiased variance, but `np.var` is called with its default `ddof=0`. The statistic is abstract in this model, so this does not affect any proof.

Once a component is excluded, its row of the SparCC correlations is NaN. `np.max` then returns NaN, and the sparsity check in `basic_corr` can no longer fire (`NaNDisablesRangeCheck`). The model keeps this behaviour as written.

## Model

| member | source | states |
|---|---|---|
| Floats.Abs | sparcc/SparCC.py:43 | np.abs: NaN stays NaN, every other result is non-negative, a finite value keeps or flips its sign |
| Floats.Div | PseudoPvals.py:71 | floating-point division: exact quotient for a non-zero divisor; 0/0 is NaN and any other x/0 is the infinity with the sign of x |
| CoreMethods.Normalize | sparcc/core_methods.py:15-32 | the result has the frame's shape, one entry per count |
| CoreMethods.NormalizeRowSumsToOne | sparcc/core_methods.py:30-32 | with row normalisation, every row whose total is non-zero becomes all numbers summing to exactly 1 |
| CoreMethods.NormalizeColumnSumsToOne | sparcc/core_methods.py:28-29 | with axis 0, every column whose total is non-zero sums to exactly 1 |
| CoreMethods.NormalizeRowFractionsInUnitInterval | sparcc/core_methods.py:30-32 | a non-negative row with positive total normalises to fractions in [0, 1] |
| CoreMethods.NormalizeColumnFractionsInUnitInterval | sparcc/core_methods.py:28-29 | a non-negative column with positive total normalises to fractions in [0, 1] |
| CoreMethods.NormalizeZeroRowIsNaN | sparcc/core_methods.py:30-32 | a row of zeros normalises to NaN everywhere (0/0), not to an error |
| CoreMethods.NormalizeAllOnes | sparcc/core_methods.py:30-32 | a table of ones normalises to 1/cols in every cell |
| CoreMethods.Trunc | sparcc/core_methods.py:68 | int() truncates toward zero: the result is within 1 of x, on the side of zero |
| CoreMethods.DirichletParamsPositive | sparcc/core_methods.py:67-69 | `DirichletParams` (x + int(p_counts), one parameter per count): non-negative counts plus int(p_counts) >= 1 give parameters that are all positive and at least count + 1 |
| CoreMethods.DirichletFractions | sparcc/core_methods.py:67-79 | every row (axis 1/-1) or column (axis 0/-2) is replaced by the draw for counts + int(p_counts); a failure is an empty iteration or a non-positive parameter |
| CoreMethods.DirichletRowsSucceedOnCounts | sparcc/core_methods.py:67-79 | non-negative counts with at least one sample and p_counts >= 1 never fail along rows |
| CoreMethods.ToFractions | sparcc/core_methods.py:34-82 | 'normalize' gives Normalize, 'dirichlet' gives the Dirichlet draw, every other name (including 'pseudo') fails with UnsupportedMethod |
| CompositionalMethods.Variation | sparcc/compositional_methods.py:52-69 | the variation matrix is square, symmetric, zero on the diagonal, and entry (a, b) is the statistic of columns min(a,b), max(a,b) |
| CompositionalMethods.VariationMat | sparcc/compositional_methods.py:58-69 | the array filled by the nested loops equals Variation; every off-diagonal cell is written exactly once and no diagonal cell is written |
| CompositionalMethods.VariationDependsOnPairOnly | sparcc/compositional_methods.py:63-64 | entry (a, b) depends on columns a and b only |
| CompositionalMethods.VariationOfIdenticalColumnsIsZero | sparcc/compositional_methods.py:61-68 | identical columns with a zero self-statistic give an all-zero variation matrix |
| CompositionalMethods.VariationOfOnesIsZero | sparcc/compositional_methods.py:61-68 | a table of ones gives an all-zero variation matrix |
| Basis.Fill | sparcc/SparCC.py:31 | a vector of n copies of x |
| Basis.Transpose | sparcc/SparCC.py:34 | T[i][j] == A[j][i] |
| Basis.ReshapeRepeat | sparcc/SparCC.py:30-32 | `Repeat` (np.repeat) has length \|a\|·n, and `Reshape` of it to (-1, n) has \|a\| rows of n cells with a[i] in every cell of row i |
| Basis.Mesh | sparcc/SparCC.py:25-34 | Mesh(a) returns (A1.T, A1) with A1.T[i][j] == a[j] and A1[i][j] == a[i] |
| Basis.InitialSystem | sparcc/SparCC.py:99 | ones plus diag(D-2): D-1 on the diagonal, 1 elsewhere |
| Basis.BasisVar | sparcc/SparCC.py:56-73 | None exactly when the solve fails; otherwise each entry is the solution where positive and V_min where <= 0, so all entries are positive when V_min is |
| Basis.BasisVarSolvesWhenPositive | sparcc/SparCC.py:70-72 | when every solved variance is positive, basis_var returns an exact solution of M · v = row sums |
| Basis.InitialSystemRow | sparcc/SparCC.py:99 | row i of the initial system applied to x is Sum(x) + (D-2)·x[i] |
| Basis.SumLinearRows | sparcc/SparCC.py:70-71 | helper for the closed form of `basis_var`: summing the linear row equations a·x[i] = b·s[i] - S gives a·Sum(x) = -n·S + b·Sum(s) |
| Basis.RowsSum | sparcc/SparCC.py:70-71 | every solution of the initial system has Sum(t) == (2D-2)·Sum(v) |
| Basis.RowsDetermineSolution | sparcc/SparCC.py:70-71 | the row equations force the closed form (D-2)(2D-2)·v[i] = (2D-2)·t[i] - Sum(t) |
| Basis.InitialSystemSolution | sparcc/SparCC.py:70-71 | v solves the initial system if and only if it is the closed form (both directions) |
| Basis.InitialSystemSolvedByForm | sparcc/SparCC.py:70-71 | the closed form solves the initial system |
| Basis.SumConstant | sparcc/SparCC.py:70 | helper for the closed form of `basis_var`: a constant row sums to its length times the constant |
| Basis.BasisVarOfOnes | sparcc/SparCC.py:70-72 | an all-ones variation matrix gives basis variances D / (2D-2) everywhere |
| Basis.BasisVarOfOnesFifty | sparcc/SparCC.py:70-72 | for 50 components that is 50/98 |
| Basis.BasisVarOfZeros | sparcc/SparCC.py:70-72 | an all-zero variation matrix solves to zero, which is floored to V_min everywhere |
| Basis.Covariance | sparcc/SparCC.py:83 | twice the covariance is v_i + v_j - t_ij |
| Basis.Correlation | sparcc/SparCC.py:84 | the correlation times both roots is the covariance; it is 1 exactly when the covariance equals their product |
| Basis.CFromV | sparcc/SparCC.py:76-85 | both results are square; Cov[i][j] is half of v_j + v_i - V[i][j], and C[i][j] is Cov[i][j] divided by sqrt(v_j) and sqrt(v_i) |
| Basis.CFromVSymmetric | sparcc/SparCC.py:76-85 | a symmetric variation matrix gives symmetric covariances and correlations |
| Basis.CFromVDiagonal | sparcc/SparCC.py:76-85 | a zero diagonal variation gives Cov[i][i] == v_i and C[i][i] == 1 |
| Basis.CFromVIdentity | sparcc/SparCC.py:76-85 | unit variances with an identity variation matrix give 1/2 on the diagonal and 1 elsewhere |
| Basis.CFromVNoVariation | sparcc/SparCC.py:76-85 | equal variances with zero variation give correlation 1 and covariance c everywhere |
| Basis.SqrtOne | sparcc/SparCC.py:84 | helper for the `C_from_V` examples: the positive root of 1 is 1 |
| Exclusion.ArgMax | sparcc/SparCC.py:48 | np.argmax of a vector: the first NaN if there is one, else the first maximum (strictly above every earlier entry) |
| Exclusion.ArgMax2 | sparcc/SparCC.py:48 | np.unravel_index(np.argmax(T)) of a matrix: the first NaN in row-major order if there is one, else the first maximum in row-major order |
| Exclusion.Candidates | sparcc/SparCC.py:43-46 | \|C\| on the strict upper triangle, zero on and below the diagonal and at previously excluded pairs |
| Exclusion.NewExcludedPair | sparcc/SparCC.py:36-54 | a pair is returned if and only if no open cell is NaN and some open \|C\| exceeds th; it is open, above th, maximal among open cells and the first such in row-major order |
| Exclusion.ZeroMatrixExcludesNothing | sparcc/SparCC.py:43-54 | an all-zero correlation matrix excludes nothing |
| Exclusion.NaNComponentStopsExclusion | sparcc/SparCC.py:43-54 | a component whose row and column are NaN, with an open partner, stops the search |
| Exclusion.FirstMaximumWins | sparcc/SparCC.py:48-52 | among equal maxima the first in row-major order is returned |
| Sparcc.FullyExcluded | sparcc/SparCC.py:129-131 | a component is excluded exactly when its `BinCount` (np.bincount: the number of excluded pairs it occurs in, counting both ends) is at least D - 3 |
| Sparcc.SystemMatrix | sparcc/SparCC.py:118-144 | M after the excluded pairs and components, entry by entry |
| Sparcc.WorkMatrix | sparcc/SparCC.py:124-141 | Var_mat_temp after the excluded pairs and components, entry by entry |
| Sparcc.Mask | sparcc/SparCC.py:150-155 | rows and columns of excluded components are NaN, the rest unchanged |
| Sparcc.Estimated | sparcc/SparCC.py:146-155 | the estimate is square, and None exactly when the solve of the current system fails |
| Sparcc.NothingExcludedIsInitial | sparcc/SparCC.py:94-102 | with no excluded pairs the closed form is the initial M and the full variation matrix |
| Sparcc.ClosedFormSymmetric | sparcc/SparCC.py:118-144 | the updates keep M and Var_mat_temp symmetric |
| Sparcc.ExcludedComponentAtFloor | sparcc/SparCC.py:140-146 | an excluded component's basis variance is V_min |
| Sparcc.EstimatedShape | sparcc/SparCC.py:146-155 | a cell is NaN exactly when its row or column is excluded; included components have correlation 1 with themselves |
| Sparcc.PartnersBounded | sparcc/SparCC.py:129 | a component has at most as many partners as excluded pairs it occurs in |
| Sparcc.UntouchedPartner | sparcc/SparCC.py:129-131 | a component in fewer than D - 1 pairs has a partner it was never paired with |
| Sparcc.ExclusionStops | sparcc/SparCC.py:150-153 | once some component is excluded, the next new_excluded_pair returns None |
| Sparcc.ExcludedIsNaN | sparcc/SparCC.py:150-153 | an excluded component's row and column of C are NaN |
| Sparcc.BinCountAppend | sparcc/SparCC.py:129 | helper for the count of excluded pairs: appending a pair adds one to the count of each of its ends |
| Sparcc.DropPair | sparcc/SparCC.py:116-121 | the four decrements take M to the closed form with the pair appended |
| Sparcc.ZeroPairs | sparcc/SparCC.py:124-126 | zeroing the excluded pairs takes Var_mat_temp to the closed form with the new pair |
| Sparcc.ClearWork | sparcc/SparCC.py:140-141 | zeroing row and column x of Var_mat_temp gives its closed form with x added to the excluded components |
| Sparcc.ClearSystem | sparcc/SparCC.py:142-144 | zeroing row and column x of M and setting M[x, x] = 1 gives its closed form with x added to the excluded components |
| Sparcc.ExcludeComponents | sparcc/SparCC.py:139-144 | zeroing the rows and columns of the new components (M[x,x] = 1) gives the closed form with those components excluded |
| Sparcc.MaskComponents | sparcc/SparCC.py:150-155 | the NaN overwrite leaves the array equal to Mask of its old contents |
| Sparcc.Reestimate | sparcc/SparCC.py:146-155 | the re-solve from the arrays equals Estimated for the current pairs |
| Sparcc.ExcludePair | sparcc/SparCC.py:116-144 | appends the pair, recomputes the excluded set, reports too many exactly when more than D - 4 are excluded, and otherwise leaves the arrays in closed form with no entry of M larger than before |
| Sparcc.SystemNeverIncreases | sparcc/SparCC.py:117-144 | excluding one more pair, and the components it pushes over the D - 3 bound, never raises an entry of M |
| Sparcc.Round | sparcc/SparCC.py:111-155 | one loop body: refined, solve failed, or too many excluded, each with the history and closed form it leaves |
| Sparcc.Start | sparcc/SparCC.py:94-103 | the initial variation matrix, arrays in closed form, and the first estimate |
| Sparcc.Iterate | sparcc/SparCC.py:109-155 | at most x_iter pairs, each chosen as new_excluded_pair chooses it; either the clr fallback with more than D - 4 excluded, or the estimate of the final state, stopping early only when no pair is left |
| Sparcc.RunSparcc | sparcc/SparCC.py:88-156 | run_sparcc's result: the clr fallback exactly when too many components were excluded, otherwise the estimate of the chosen pairs; the loop ends after x_iter pairs or when new_excluded_pair returns None |
| Sparcc.HistoryFacts | sparcc/SparCC.py:109-131 | every history is ordered, without repeats, and no component occurs in more than D - 3 pairs |
| Sparcc.ChoiceIsValid | sparcc/SparCC.py:111-117 | a pair chosen on the current estimate is new, on the upper triangle, and extends the history |
| Sparcc.ExtendCounts | sparcc/SparCC.py:129-131 | appending a new pair while nothing is excluded keeps pairs ordered, distinct and within the D - 3 bound |
| BasicCorrelation.LowerChar | sparcc/SparCC.py:191 | str.lower on one character: upper-case ASCII letters shift by 32, everything else is kept |
| BasicCorrelation.Lower | sparcc/SparCC.py:191 | str.lower keeps the length, lowers each character and leaves no upper-case letter |
| BasicCorrelation.LowerIdempotent | sparcc/SparCC.py:191 | lowering twice is lowering once |
| BasicCorrelation.MixedCaseSelectsSparcc | sparcc/SparCC.py:191-200 | the method name "SparCC" selects the sparcc branch |
| BasicCorrelation.Max2 | sparcc/SparCC.py:203 | np.max of two values: NaN exactly when either is NaN, otherwise one of the two that the other does not exceed |
| BasicCorrelation.MaxOf | sparcc/SparCC.py:203 | np.max of a vector is NaN exactly when an entry is NaN, otherwise an entry that no entry exceeds |
| BasicCorrelation.AbsAll | sparcc/SparCC.py:203 | np.abs on every entry |
| BasicCorrelation.MaxAll | sparcc/SparCC.py:203 | np.max of a matrix is NaN exactly when an entry is NaN, otherwise an entry that no entry exceeds |
| BasicCorrelation.RangeViolatedIff | sparcc/SparCC.py:202-203 | the range check `RangeViolated` (np.max(np.abs(C)) > 1 + tol) fires exactly when C holds no NaN and some \|C[i][j]\| exceeds 1 + 1e-3 |
| BasicCorrelation.NaNDisablesRangeCheck | sparcc/SparCC.py:202-205 | a single NaN entry (any excluded component) disables the range check |
| BasicCorrelation.BasicCorr | sparcc/SparCC.py:158-208 | th outside (0, 1) fails first, then fewer than 4 components, then an unsupported method name; 'clr' gives the clr result; 'sparcc' gives run_sparcc's result, or the clr result when the range check fires, and a failed solve surfaces as SingularSystem |
| PseudoPvals.Compare2Sided | PseudoPvals.py:11-12 | false with a NaN operand; for finite values exactly \|p\| >= \|r\|; an infinite r is matched only by an infinite p |
| PseudoPvals.Compare1Sided | PseudoPvals.py:14-17 | implies the two-sided test; for finite values exactly \|p\| >= \|r\| with p and r both positive, both negative or both zero |
| PseudoPvals.Compare | PseudoPvals.py:52-55 | the test `test_type` selects; a pair it counts always passes the two-sided test |
| PseudoPvals.SigCount | PseudoPvals.py:60-69 | the count starts at 0 and each permutation adds at most 1, so it never exceeds nperm |
| PseudoPvals.PValues | PseudoPvals.py:71-72 | the diagonal is 1; for nperm > 0 every p-value is a number in [0, 1]; for nperm = 0 every off-diagonal entry is NaN |
| PseudoPvals.GetPValues | PseudoPvals.py:19-74 | an unknown test type fails before any counting; a non-square cor fails at the diagonal; otherwise the result is PValues for the chosen test |
| PseudoPvals.CountSignificant | PseudoPvals.py:60-69 | after the loop over all permutations every cell of n_sig holds its count |
| PseudoPvals.SigCountAppend | PseudoPvals.py:64-69 | counting two batches of permutations adds their counts |
| PseudoPvals.SigCountPermutation | PseudoPvals.py:64-69 | the counts depend only on the multiset of permuted matrices |
| PseudoPvals.SigCountRemove | PseudoPvals.py:64-69 | taking one permutation out removes exactly its contribution |
| PseudoPvals.PValuesOrderIndependent | PseudoPvals.py:64-72 | reordering the permuted matrices leaves every p-value unchanged |
| PseudoPvals.SigCountAllHits | PseudoPvals.py:64-69 | a cell where every permutation is as extreme counts every permutation |
| PseudoPvals.IdenticalPermutationsGiveOne | PseudoPvals.py:64-72 | when every permuted matrix equals a NaN-free cor and nperm > 0, every two-sided p-value is 1 |
| PseudoPvals.OneSidedCountsFewer | PseudoPvals.py:14-17 | the one-sided count never exceeds the two-sided count |
| PseudoPvals.OneSidedAtMostTwoSided | PseudoPvals.py:64-71 | for nperm > 0, one-sided p-values never exceed two-sided ones |
| PseudoPvals.SigCountSymmetric | PseudoPvals.py:64-69 | with symmetric inputs the counts at (a, b) and (b, a) agree |
| PseudoPvals.PValuesSymmetric | PseudoPvals.py:64-72 | symmetric cor and permuted matrices give symmetric p-values |

## Left out

- `main_alg`, `main`, the command-line parsers, and the reading and writing of files (`read_txt`, `write_txt`) are I/O. In `get_pvalues` the `nperm` permuted matrices read from disk are the parameter `perms`, so `nperm` is `|perms|`.
- `iprint` and the progress printing in `get_pvalues`, and the warnings and logging in `run_sparcc` and `basic_corr`, have no effect on results and are left out.
- `run_clr` and `clr` (log, mean, covariance and correlation through dask) are not part of this model. Their result is the input `clr` of `RunSparcc` and `BasicCorr`.
- The logarithm and variance inside `variation_mat` are the parameter `pairStat`. The linear solver of `basis_var` is `solve`, specified only by `SolverSpec`. The square root is `sqrt`. The Dirichlet sampler is `draw`. Floating-point rounding is not modelled: finite values are exact reals.
- `CompositionalMethods.Variation`: `pairStat` returns a real, so the model's variation matrix has only finite entries. It does not capture the -inf or NaN that `np.var(np.log(...))` gives when a fraction is zero or negative, or how such entries would go on through `basis_var` and `C_from_V`.
- `Basis.BasisVar`: a NaN in `V_base` (the solver producing NaN rather than failing) is not modelled. A failing solve is `None`.
- `Sparcc.RunSparcc`: requires `k >= 4` and `th >= 0`, the conditions `basic_corr` checks before calling it. `run_sparcc` called directly with a negative threshold would exclude a pair from a zero matrix; that path is not modelled.
- `Sparcc.RunSparcc`: `xIter` is a `nat`. In the source a negative `x_iter` gives an empty `range` and behaves like 0, which is the case `xIter = 0`.
- `BasicCorrelation.BasicCorr`: requires the clr result to be `k`×`k`. The `LinAlgError` of a singular system is the value `SingularSystem` rather than an exception.
- `BasicCorrelation.Lower`: covers ASCII letters only; Python's Unicode case mapping is not modelled.
- `PseudoPvals.GetPValues`: requires every permuted matrix to have the shape of `cor`. A mismatched file is a pandas error in the source.
- The parallel execution of `variation_mat` (numba `prange`) and the dask arrays are modelled as sequential loops and plain arrays. The writes are disjoint, so the result is the same.
- `CoreMethods.DirichletFractions`: the sampler `draw` is a function of its parameter vector, so two equal rows (or columns) get the same draw. The source samples each one independently. `DrawSpec` also promises only the length of a draw, not that its entries are non-negative and sum to 1.
- `to_fractions` on a DataFrame first takes `.values`. The model works on the values directly.
