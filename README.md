# Second-level stable-set SDP: symbolic model of the relaxation builders

This project models, in Dafny, how `second_level_stable_set.py` assembles the
semidefinite programs of the second-level sum-of-squares relaxation of the
maximum stable-set problem, and proves what the assembled instances contain
and mean. The solver is not part of the model. A build produces a
symbolic instance:

- the size of the PSD variable `X`;
- the length of the slack vectors `lb` and `ub`;
- the maximised objective, as a linear expression in `⟨A, X⟩`, `b`, `lb[i]`
  and `ub[i]`;
- one equality constraint per non-constant monomial, in the order the source
  registers them;
- the constraint of the constant monomial.

A build can also fail, with the exception the source would raise.

Modules:

- `Monomials` (`monomials.dfy`):
  - the objective coefficients `C`: -1 on degree-1 monomials, 0 elsewhere;
  - the constant monomial `tuple_of_constant`;
  - the list of non-constant monomials that the constraint loops walk.
- `Sdp` (`sdp.dfy`):
  - the symbolic instance: atoms, terms, constraints, `Instance`;
  - the build errors;
  - the value of an expression at a candidate point `(X, b, lb, ub)`, with
    `⟨A, X⟩` the Frobenius inner product.
- `SecondLevel` (`second_level.dfy`), modelling
  `second_level_stable_set_problem_sdp`:
  - the builder `Build`, a method with the source's constraint loop, proved
    equal to the reference function `Assemble`;
  - lemmas on when a build succeeds, what it contains and what it means.
- `ProjectedSecondLevel` (`projected.dfy`), modelling
  `projected_second_level_stable_set_problem_sdp`:
  - the matrices are first mapped through the projector;
  - with `slack` on, the j-th constraint gets the slack pair `j + 1`, and the
    objective penalises the slacks with the dual bounds `0 - ε` and `1 + ε`
    (`ε = 0.00001`), weighted by a vector of ones whose entry 0 is 0;
  - with `slack` off, the build is proved to be exactly the unprojected
    build of the projected matrices;
  - the count `linear_variables` is proved to be the number of scalar
    variables the constraints mention.
- `DimensionBound` (`dimension.dfy`): the integer quantity `sum_ranks` of
  `projected_dimension`.

Details of the code the model keeps:

- The objective with slack is `b + (0 - ε)·Σ lb[i] - (1 + ε)·Σ ub[i]`, with
  the sums over `i ≥ 1`, that is `b - ε·Σ lb - (1+ε)·Σ ub`.
- The slack vectors have one entry per listed monomial (`len(distinct_monomials)`).
  The j-th constraint (from 0) uses entry
  `j + 1`, and entry 0 is used by no constraint and weighted 0.
- The code performs no shape check of its own on the matrices. The PSD size
  is the row count of the first listed monomial's matrix.
- The result record reports `no_linear_variables` as the string `"TBC"`.
  The projected builder computes `linear_variables` and then drops it;
  `LinearVariables` models that computed value.
- With slack on and the constant monomial not listed, every listed monomial
  gets a constraint, and the last one asks for slack index
  `len(distinct_monomials)`, past the end. The model reports this as
  `SlackIndexOutOfRange`.

## Model

| member | source | states |
|---|---|---|
| `Monomials.ObjectiveCoefficients` | second_level_stable_set.py:42 | `C` has exactly the listed monomials as keys; `C[m] = -1` exactly when `m` has degree 1, and 0 exactly otherwise |
| `Monomials.ConstantMonomial` | second_level_stable_set.py:58 | the constant tuple has the length of the first monomial and degree 0 |
| `Monomials.ConstantIsOnlyDegreeZero` | second_level_stable_set.py:58 | a monomial equals the zero tuple of its length exactly when its degree is 0 |
| `Monomials.NonConstant` | second_level_stable_set.py:63-65 | a monomial is walked by the loop exactly when it is listed and is not the constant monomial |
| `Monomials.NonConstantMultiset` | second_level_stable_set.py:63-65 | the loop walks every non-constant monomial as often as it is listed and skips every copy of the constant one; its length is the list length minus the number of constant copies |
| `Monomials.NonConstantAppend` | second_level_stable_set.py:64 | the filter keeps list order: it distributes over concatenation |
| `Monomials.NonConstantCount` | second_level_stable_set.py:63-65 | with the constant monomial listed, the loop walks fewer monomials than are listed, and exactly one fewer when it is listed once |
| `Sdp.AllConstraints` | second_level_stable_set.py:129 | the model holds one constraint more than the loop registered, and the last one is the constant monomial's |
| `SecondLevel.Build` | second_level_stable_set.py:38-80 | the builder's loop returns exactly the reference instance or the reference error |
| `SecondLevel.MonomialConstraintsResult` | second_level_stable_set.py:62-73 | the loop succeeds exactly when every monomial has a matrix; the j-th constraint is `⟨A[m_j], X⟩ = C[m_j]`; otherwise it fails with the first monomial without a matrix |
| `SecondLevel.AssembleSucceeds` | second_level_stable_set.py:42-80 | a build succeeds exactly when the list is non-empty, lists the constant monomial and every listed monomial has a matrix |
| `SecondLevel.AssembleShape` | second_level_stable_set.py:49-80 | PSD size = rows of `A[monos[0]]`; no slack; objective `b`; one constraint per non-constant monomial with target -1 on degree 1 and 0 otherwise, none mentioning `b`; constant constraint `⟨A[0], X⟩ + b = 0` |
| `SecondLevel.ConstraintPerMonomial` | second_level_stable_set.py:129 | with the constant monomial listed once, the number of constraints equals the number of listed monomials |
| `SecondLevel.AssembleMeaning` | second_level_stable_set.py:54-80 | a point satisfies constraint j exactly when `⟨A[m_j], X⟩ = C[m_j]`, and the constant constraint exactly when `⟨A[0], X⟩ + b = 0`; the objective is worth `b` |
| `ProjectedSecondLevel.ProjectMatrices` | second_level_stable_set.py:152-153 | the projected dictionary has the same keys as `A`, and each value is the projector applied to the original matrix |
| `ProjectedSecondLevel.Build` | second_level_stable_set.py:146-230 | the builder's loop returns exactly the reference instance or the reference error |
| `ProjectedSecondLevel.MonomialConstraintsOk` | second_level_stable_set.py:201-223 | the loop succeeds exactly when every monomial has a matrix and, with slack, every slack index it uses is inside the slack vectors |
| `ProjectedSecondLevel.MonomialConstraintsRows` | second_level_stable_set.py:201-223 | when every lookup succeeds, the loop emits one constraint per monomial in order, the j-th `⟨A'[m_j], X⟩ (+ lb[next+j] - ub[next+j]) = C[m_j]` |
| `ProjectedSecondLevel.MonomialConstraintsError` | second_level_stable_set.py:202-223 | a failing loop reports the first monomial whose matrix is missing or whose slack index is past the end, with that error |
| `ProjectedSecondLevel.MonomialConstraintsWithoutSlack` | second_level_stable_set.py:208-214 | with slack off the projected loop emits exactly the unprojected loop's constraints |
| `ProjectedSecondLevel.MonomialConstraintAtoms` | second_level_stable_set.py:206-222 | one monomial's constraint never mentions `b`, and mentions `lb[k]` or `ub[k]` exactly when slack is on and `k` is its slack index |
| `ProjectedSecondLevel.WithoutSlackIsUnprojected` | second_level_stable_set.py:194-214 | without slack, the projected build equals the unprojected build of the projected matrices, errors included |
| `ProjectedSecondLevel.IdentityProjectorIsUnprojected` | second_level_stable_set.py:153 | with a projector that returns its input and no slack, the projected build equals the unprojected build |
| `ProjectedSecondLevel.AssembleSucceeds` | second_level_stable_set.py:159-229 | with or without slack, a build succeeds exactly when the list is non-empty, lists the constant monomial and every listed monomial has a matrix |
| `ProjectedSecondLevel.MissingConstantWithSlack` | second_level_stable_set.py:202-212 | with slack and the constant monomial not listed, the build fails with the slack index `len(distinct_monomials)` |
| `ProjectedSecondLevel.SlackOverrun` | second_level_stable_set.py:208-212 | a loop with more monomials than slack indices left fails at the first index past the end |
| `ProjectedSecondLevel.AssembleShape` | second_level_stable_set.py:159-230 | PSD size = rows of the projected `A[monos[0]]`; slack length `len(distinct_monomials)` exactly with slack; the objective; one constraint per non-constant monomial; constant constraint `⟨A'[0], X⟩ + b = 0` |
| `ProjectedSecondLevel.AssembleRows` | second_level_stable_set.py:199-223 | the j-th constraint is `⟨project(A[m_j]), X⟩ (+ lb[j+1] - ub[j+1]) = C[m_j]` for the j-th non-constant monomial |
| `ProjectedSecondLevel.SlackPairs` | second_level_stable_set.py:208-212 | with slack, constraint j mentions `lb[i]` and `ub[i]` exactly for `i = j + 1`, and `j + 1` lies inside the slack vectors |
| `ProjectedSecondLevel.ConstantConstraintWithoutSlack` | second_level_stable_set.py:227-230 | the constant constraint mentions no slack entry |
| `ProjectedSecondLevel.ScaledDotValue` | second_level_stable_set.py:183-190 | `coef · ⟨v, w⟩` is worth `Σ (coef·w[i])·v[i]` over the lower or upper slack vector |
| `ProjectedSecondLevel.NegatedValue` | second_level_stable_set.py:182-191 | subtracting an expression negates its value |
| `ProjectedSecondLevel.OnesScaledSum` | second_level_stable_set.py:172-173 | weighting by the ones vector with entry 0 zeroed sums entries `1 ..` only |
| `ProjectedSecondLevel.OnesPenaltyValue` | second_level_stable_set.py:172-173 | `coef·⟨v, ones_vector⟩` is worth `coef·Σ_{i≥1} v[i]` for either slack vector `v`: entry 0 of the weight vector drops `v[0]` |
| `ProjectedSecondLevel.LowerPenaltyValue` | second_level_stable_set.py:183-186 | the lower-slack term is worth `(0 - ε)·Σ_{i≥1} lb[i]` |
| `ProjectedSecondLevel.UpperPenaltyValue` | second_level_stable_set.py:187-190 | the subtracted upper-slack term is worth `-(1 + ε)·Σ_{i≥1} ub[i]` |
| `ProjectedSecondLevel.SlackObjectiveValue` | second_level_stable_set.py:168-193 | the slack objective is worth `b - ε·Σ_{i≥1} lb[i] - (1+ε)·Σ_{i≥1} ub[i]` |
| `ProjectedSecondLevel.SlackPairZeroIsFree` | second_level_stable_set.py:172-173 | the objective does not depend on `lb[0]` or `ub[0]` |
| `ProjectedSecondLevel.MonomialConstraintValue` | second_level_stable_set.py:206-222 | one constraint's left side is worth `⟨a, X⟩ + lb[i] - ub[i]` with slack and `⟨a, X⟩` without |
| `ProjectedSecondLevel.RowsMeaning` | second_level_stable_set.py:199-223 | a point satisfies constraint j exactly when `⟨project(A[m_j]), X⟩ + lb[j+1] - ub[j+1] = C[m_j]` (no slack terms when slack is off) |
| `ProjectedSecondLevel.ConstantMeaning` | second_level_stable_set.py:225-230 | a point satisfies the constant constraint exactly when `⟨project(A[0]), X⟩ + b = 0` |
| `ProjectedSecondLevel.ObjectiveMeaning` | second_level_stable_set.py:175-195 | the objective is worth `b - ε·Σ lb - (1+ε)·Σ ub` (over `i ≥ 1`) with slack and `b` without |
| `ProjectedSecondLevel.SlackPairSetMembers` | second_level_stable_set.py:164-165 | the slack pairs `1 .. k` are exactly `lb[i]`, `ub[i]` for `1 ≤ i ≤ k` |
| `ProjectedSecondLevel.SlackPairSetExcludes` | second_level_stable_set.py:164-165 | neither `b` nor `lb[j]`, `ub[j]` for any `j > k` is among the slack pairs `1 .. k` |
| `ProjectedSecondLevel.SlackPairSetSize` | second_level_stable_set.py:249 | the slack pairs `1 .. k` are `2k` distinct scalars |
| `ProjectedSecondLevel.MonomialConstraintScalars` | second_level_stable_set.py:208-214 | one monomial's constraint mentions exactly the scalars `lb[i]`, `ub[i]` with slack, and no scalar without |
| `ProjectedSecondLevel.RowsScalars` | second_level_stable_set.py:199-223 | constraint j of a build mentions exactly the scalars `lb[j+1]`, `ub[j+1]` with slack, and none without |
| `ProjectedSecondLevel.ConstantConstraintScalars` | second_level_stable_set.py:227-230 | the constant constraint mentions exactly the scalar `b` |
| `ProjectedSecondLevel.CountScalars` | second_level_stable_set.py:248-251 | rows using the pairs `1 .. n`, followed by a row using `b`, mention `2n + 1` scalars (1 without slack) |
| `ProjectedSecondLevel.LinearVariablesCountsScalars` | second_level_stable_set.py:248-251 | `linear_variables` (`2·len(constraints) + 1` with slack, 1 without) equals the number of scalar variables the instance's constraints mention |
| `DimensionBound.SumNatPermutation` | second_level_stable_set.py:361 | `sum(ranks_Ai)` does not depend on the order of the ranks |
| `DimensionBound.SumRanksOfEqualRanks` | second_level_stable_set.py:361 | `n` matrices of rank `r` give `sum_ranks = 8·rank_solution + n·r` |
| `DimensionBound.SumRanksOfEntryPointCall` | second_level_stable_set.py:376 | the entry point's call (500 ranks of 6, solution rank 66) has `sum_ranks = 3528` |
| `DimensionBound.SumRanksBounds` | second_level_stable_set.py:361 | `sum_ranks` is at least `8·rank_solution` and at least every single rank |

## Left out

- The solve is not modelled: `M.solve()`, the levels of `X` and `b`, `primalObjValue` and the timing are left out because they belong to the external MOSEK solver. The model stops at the assembled instance and at what a candidate point's values mean for it.
- The variable domains are not modelled: `X` in the PSD cone and `lb, ub ≥ 0` are declared to the solver and are not part of the symbolic instance. The model records the sizes only, and the meaning lemmas hold for every point.
- The post-solve diagnostics (matrix norms, ranks, sparsity, the solution's rank and norms, lines 99-128) are left out because they only print, using numpy linear algebra.
- The projector is a parameter, an arbitrary total function on matrices. `random_projections.py` is not part of this model, so how its matrices are drawn is left out.
- The real-valued part of `projected_dimension` (`exp`, `log` and the division by `probability`, lines 363-367) is left out because Dafny's reals have no transcendental functions. Only `sum_ranks` is modelled.
- Graph loading, the monomial enumeration producing `distinct_monomials_L2` and `A_L2`, `single_graph_results`, `verbose` logging and the `__main__` block are left out because they are inputs and drivers.
- The result record is not modelled; its `no_linear_variables` field is the constant `"TBC"`.
- `Expr.add(dot, 0)` without slack is represented without a constant-0 term. The constraint is the same linear equation.
- The exception raised for `lb_variables.index(i + 1)` out of range is MOSEK's. The model names it `SlackIndexOutOfRange` and does not model its message.
- MOSEK's shape errors in `Expr.dot` (lines 67, 78, 206 and 228) are not modelled: the library refuses a matrix whose shape differs from that of `X`, but `SecondLevel.Assemble` and `ProjectedSecondLevel.Assemble` return an instance for matrices of any shape, and `Sdp.Inner` pairs the entries the two matrices have in common. The model therefore builds instances the library would refuse.
- `ProjectedSecondLevel.Epsilon`, `DualLowerBound`, `DualUpperBound`, `OnesVector`, `SlackObjectiveValue` and `ObjectiveMeaning` use exact reals, while the source's `epsilon`, `0 - epsilon`, `1 + epsilon` and `ones_vector` (lines 168-173) are IEEE doubles handed to MOSEK as double coefficients: floating-point rounding is not modelled.
