# AlignmentCRF of synjax, modelled in Dafny

This project models `AlignmentCRF`, the simple alignment distribution of synjax
(`synjax/_src/alignment_simple.py`). It covers three parts:

- **Construction.** The constructor checks the alignment type, the optional row and column
  lengths and the shape of the potentials. It picks the default lengths and records the
  delegate that the monotone types build.
- **Non-monotone one-to-one argmax.** Cells outside the valid `len x len` block are set to
  `-INF`. Padded diagonal cells are set to `+INF`. An assignment solver then matches rows to
  columns. Its two index vectors are turned into an indicator grid, and that grid is cut back
  to the valid block. The custom gradient is zero.
- **Queries.** The non-monotone type answers `argmax` and `unnormalized_log_prob` itself.
  It raises `NotImplementedError` for every other query. The monotone types hand every query
  to their delegate.

Modules, from the leaves up:

- `Grids` (`grids.dfy`): dense grids, row and column sums, and the score `einsum("ij,ij->")`,
  with the linearity lemmas the proofs use.
- `Assignments` (`assignments.dfy`): the solver's index vectors, the indicator grid they
  build, that grid restricted to the valid block, and its sums.
- `NonMonotoneAlign` (`non_monotone_align.dfy`): the two masking steps, the argmax of one
  instance, and its gradient.
- `AlignmentCrf` (`alignment_crf.dfy`): the distribution's state, the constructor, the
  shape accessors and the query dispatch over a batch.

Every value here is immutable, as in the source: fields are set once in the constructor and
queries are pure. So the whole model is functions and lemmas.

Potentials are `real`s. The two infinities written by the masking are an explicit datatype
`Ext = NegInf | Finite(value) | PosInf`. Arrays carry a batch shape. Their batch entries are
listed in row-major order.

The lengths are not range-checked by the constructor. The mask treats them as written: a
negative length leaves an empty valid block, and a length above `n` keeps the whole grid.

The assignment solver is a parameter `solve: Grid<Ext> -> Assignment`. Only its signature is
assumed: two index vectors of equal length. The block-permutation theorems take as hypothesis
that the solver returned a bijection using no `-INF` cell. `IdentityIsFeasible` shows that
such an assignment exists for every input.

## Model

| member | source | states |
|---|---|---|
| `Assignments.HitsOfDistinctRows` | synjax/_src/alignment_simple.py:36-38 | with distinct row indices, a cell of the summed outer products counts 1 exactly when some pair names it, else 0 |
| `Assignments.OneHotMarksPairs` | synjax/_src/alignment_simple.py:36-38 | with distinct row indices, the one-hot assembly is 1 at cell `(a, b)` iff some `k` has `i[k] = a` and `j[k] = b`, and 0 otherwise |
| `Assignments.OneHotOfBijection` | synjax/_src/alignment_simple.py:36-38 | when `i` and `j` are both permutations of `0..n-1`, the one-hot assembly is a 0/1 grid whose every row and every column sums to exactly 1 |
| `Assignments.BlockRowSum` | synjax/_src/alignment_simple.py:36-56 | row `a` of `alignments * mask` sums to the number of solver pairs in row `a` whose row and column are both valid |
| `Assignments.BlockColumnSum` | synjax/_src/alignment_simple.py:36-56 | column `b` of `alignments * mask` sums to the number of solver pairs in column `b` whose row and column are both valid |
| `Assignments.BlockScore` | synjax/_src/alignment_simple.py:36-56 | the einsum score of `alignments * mask` equals the sum of the potentials of the solver pairs lying in the valid block |
| `Assignments.BlockPermutation` | synjax/_src/alignment_simple.py:36-56 | for a bijection whose pairs lie inside or outside the block together, `alignments * mask` is 0/1, with one 1 in each valid row and column and none in any padded row or column |
| `NonMonotoneAlign.MaskOutsideBlock` | synjax/_src/alignment_simple.py:46-49 | cell `(i, j)` keeps its potential iff `i < len` and `j < len`; every other cell becomes `-INF` |
| `NonMonotoneAlign.PinPaddedDiagonal` | synjax/_src/alignment_simple.py:50-51 | every diagonal cell `(k, k)` with `k >= len` becomes `+INF`, and no other cell changes |
| `NonMonotoneAlign.SolverInputCells` | synjax/_src/alignment_simple.py:46-51 | the solver's grid is the potential inside the valid block, `+INF` on the padded diagonal and `-INF` elsewhere, so a padded row or column has no usable cell but its own diagonal |
| `NonMonotoneAlign.FeasiblePairsRespectBlock` | synjax/_src/alignment_simple.py:46-51 | an assignment that uses no `-INF` cell matches every padded row with itself, and each pair is valid in both coordinates or in neither |
| `NonMonotoneAlign.IdentityIsFeasible` | synjax/_src/alignment_simple.py:46-51 | for every length, the identity matching is a bijection that uses no `-INF` cell of the masked grid |
| `NonMonotoneAlign.Argmax` | synjax/_src/alignment_simple.py:41-56 | the returned argmax is an `n x n` grid that is zero at every cell outside the `len x len` valid block |
| `NonMonotoneAlign.ArgmaxScore` | synjax/_src/alignment_simple.py:36-56 | the einsum score of the argmax against the potentials equals the sum of the potentials of the solver pairs inside the valid block |
| `NonMonotoneAlign.ArgmaxIsBlockPermutation` | synjax/_src/alignment_simple.py:46-56 | if the solver returns a bijection using no `-INF` cell, the argmax is a permutation matrix of the valid block: 0/1 cells, one 1 per valid row and column, none in padded rows or columns |
| `NonMonotoneAlign.ArgmaxGradient` | synjax/_src/alignment_simple.py:56 | the custom gradient with respect to the potentials is all zeros of the potentials' shape, whatever the incoming cotangent; the lengths' `None` cotangent is not represented |
| `AlignmentCrf.Full` | synjax/_src/alignment_simple.py:93-94 | the default length array has the batch shape and holds the column count in every batch entry |
| `AlignmentCrf.Create` | synjax/_src/alignment_simple.py:74-112 | one iff per error: lengths whose shape is not the batch shape; `monotone_one_to_many` with no lengths and `rows >= cols`; `non_monotone_one_to_one` with `lengths_cols` given, or with a non-square grid; any other type string. Construction succeeds iff none applies. Then the state is valid, the stored lengths are `lengths_rows` or the column count per batch entry, and the delegate receives the raw length arguments |
| `AlignmentCrf.EventShape` | synjax/_src/alignment_simple.py:114-116 | the event shape is the last two dimensions `[rows, cols]`, and the batch shape followed by it is the full shape |
| `AlignmentCrf.BatchShape` | synjax/_src/alignment_simple.py:118-120 | the batch shape is the full shape minus its last two dimensions |
| `AlignmentCrf.SameShapeIsSameDims` | synjax/_src/alignment_simple.py:150-154 | the two formulations of the modelled event-shape condition agree: two arrays have equal shapes iff they agree on batch shape, rows and columns (the source has no explicit check; its einsum forces the dimensions to agree) |
| `AlignmentCrf.ArgmaxBatch` | synjax/_src/alignment_simple.py:183-187 | the batched argmax has the potentials' shape, and entry `b` is the single-instance argmax with that entry's own length |
| `AlignmentCrf.Ask` | synjax/_src/alignment_simple.py:122-231 | monotone types delegate every query. A non-monotone distribution raises `NotImplementedError`, with the source's message, exactly for `sample`, `normalize_log_probs`, `log_prob`, `log_partition`, `marginals_for_template_variables`, `marginals`, `top_k`, `entropy`, `cross_entropy` and `kl_divergence`. Its `argmax` is the batched argmax `ArgmaxBatch`, of the potentials' shape and zero outside each entry's valid block. Its `unnormalized_log_prob` is, per batch entry, `sum_ij event[i][j] * log_potentials[i][j]` |
| `AlignmentCrf.ArgmaxScoredByUnnormalizedLogProb` | synjax/_src/alignment_simple.py:150-189 | `unnormalized_log_prob(argmax())` of a non-monotone distribution equals, per batch entry, the sum of the potentials of the solver pairs inside that entry's valid block |
| `AlignmentCrf.ArgmaxEntryIsBlockPermutation` | synjax/_src/alignment_simple.py:183-187 | if the solver returns a bijection using no `-INF` cell for batch entry `b`, that entry of `argmax()` is a permutation matrix of its valid block |

## Left out

- `scipy.optimize.linear_sum_assignment` (synjax/_src/alignment_simple.py:32-35) is an external solver. It is the parameter `solve`, and its optimality is not modelled or claimed. The block-permutation results take "bijection using no `-INF` cell" as a hypothesis instead of deriving it from optimality.
- `jax.pure_callback`, `jax.custom_gradient`, `np.vectorize` and `eqx.static_field` are host-library plumbing and are not modelled. The model states the values they carry.
- Broadcasting of batch dimensions is not modelled. Every per-instance operation runs on one grid, and the batched queries map it over the batch entries.
- `GeneralMonotoneAlignmentCRF` is not part of this model. The monotone types record the arguments they build it with, and every query on them answers `Delegated`. Errors its constructor may raise are not modelled.
- `INF` is a finite float constant in the source. The model uses true infinities, and the potentials and indicator grids are reals, not float32.
- The runtime type checker behind `@typed` is not part of this model. Its shape check of the length arrays against the batch shape is modelled as `LengthsShapeMismatch`. Its dtype checks, and any check of `alignment_type` against the `Literal` annotation, are not modelled: an unknown type string reaches the source's own "Unknown alignment type" branch.
- Ask: an event whose shape differs from the potentials' shape answers `EventShapeMismatch`. Event batch dimensions that would broadcast against the potentials are not modelled.
- Ask: the extra arguments of delegated queries (`key`, `sample_shape`, `scores`, `k`, `other`, `**kwargs`) are not carried, because the delegate's answers are not modelled.
- `argmax_and_max` (synjax/_src/alignment_simple.py:192-195) is not modelled. Line 194 binds `event` to the tuple `(argmax, self)` and passes that tuple to `unnormalized_log_prob`. `ArgmaxScoredByUnnormalizedLogProb` states what scoring the argmax alone gives.
- `synjax/special.py` is not modelled. It only re-exports `inv`, `safe_log` and `safe_slogdet`, whose implementations are not part of this model.
- `ArgmaxGradient`: returns only the potentials' part of the gradient pair at synjax/_src/alignment_simple.py:56. The lengths' part is always `None` and is not represented.
