# Routing-matrix formation for a queueing network, in Dafny

The repository `theta-matrix-nn` builds a routing matrix θ for a queueing
network. Its inputs are a target intensity vector ω and a 0/1 topology
matrix W. It starts from an initial θ₀ allowed by W and repeatedly
corrects θ until ω·θ is within `eps` of ω in every component, or until an
iteration budget `max_it` is spent. This project models that core and
proves properties of the model:

- `matrices.dfy` (`Matrices`): vectors and matrices of reals, sums,
  ω·θ, the residual, the smallest entry, and the link between an
  `array2<real>` and its value as rows (`Snapshot`).
- `steps.dfy` (`Steps`): the building blocks of an iteration, which the
  solvers share.
  - The fixed set: the cells of θ₀ that are exactly 0 or 1.
  - The masked outer product ω ⊗ delta and the in-place subtraction.
  - The negative shift. It re-reads `np.min(theta)` for every cell, as
    the code does.
  - The in-place row normalisation.
- `initial_theta.dfy` (`InitialTheta`): the uniform and the ω-weighted
  ("smart") initial θ, each filling a zero buffer.
- `gradient_descent.dfy` (`GradientDescent`): `gradient_descent`.
- `theta_formation.dfy` (`ThetaFormation`): `find_routing_matrix` and its
  own copy of the uniform initialiser. Its loop normalises, shifts, then
  normalises again.
- `conjugate_gradient.dfy` (`ConjugateGradient`): `find_alpha`, the
  `conjugate` driver, and the update at lines 91-105 as a separate step.
- `generators.dfy` (`Generators`) and `utils.dfy` (`Utils`): the random
  topology generator `get_random_w`, in both copies.

## How the code is modelled

- θ is an `array2<real>`, and the in-place steps are methods with loops.
  Each method is proved against a function on `Matrix = seq<seq<real>>`:
  `Snapshot(theta)` after the call equals that function of the old value.
- Each solver loop is also a recursive function (`DescendFrom`,
  `FormFrom`). The method's loop invariant says the function, applied to
  the current state, gives the final result. The properties are lemmas
  about these functions, proved by induction over the iterations.
- A run ends with a `Status`. It is either `Returned`, or `Failed` with
  the error the original code raises or runs into:
  - `AssertionFailed`: the assertion on ω fails.
  - `TypeError`: line 78 of `conjugate_gradient.py`.
  - `UnboundDelta`: `find_routing_matrix` reads `delta` after a loop
    that never ran.
  - `ZeroRowSum`: a row to be normalised sums to 0, where numpy would
    produce nan or ±inf.
- The function passed as `get_initial_theta` is a `Policy` (`Uniform` or
  `Smart`). The drivers require what the chosen strategy needs.
- The random draws of `get_random_w` are inputs. `bits[i][j]` is the
  `randint(0, 1)` drawn for cell (i, j), and `picks[i]` is the
  `randint(0, n - 1)` drawn at the end of row i.
- `Solve`, `FindRoutingMatrix` and `Conjugate` keep the source's default
  arguments: `eps` is `10 ** (-10)`, and `max_it` is 2 000, 10 000 000 and
  100 000 respectively.
- The solvers take a square W and an ω of the same size. numpy's
  `out_omega - omega` and the per-component loops need this.

Some behaviour of the code differs from what its names and docstrings
suggest; the model follows the code:

- In `conjugate`, the term subtracted at line 92 is `alpha * (p + weight)
  + weight_deltas`, and it is not masked at the fixed cells.
  `TailCanMoveFixedCell` gives a θ whose fixed 0 becomes positive.
- The shift adds `2·|min θ|` with the minimum re-read before every cell,
  so the amount added can differ from cell to cell.
- `conjugate` never finishes an iteration: it fails at line 78. It is not
  a working conjugate-direction method.
- `find_routing_matrix` normalises twice in every iteration, and
  `gradient_descent` normalises once. Each is modelled as written.

## Model

| member | source | states |
|---|---|---|
| InitialTheta.GetUniformInitialTheta | initial_theta.py:5-18 | the result has W's shape; a cell holds `1 / sum(W[i])` where W holds a 1 and 0 elsewhere; its value is `UniformTheta` |
| InitialTheta.BinaryUniformDefined | initial_theta.py:9-16 | for a 0/1 W, a row holding a 1 has a non-zero sum, so the division at line 16 is defined |
| InitialTheta.UniformRowSum | initial_theta.py:13-16 | a 0/1 row with a 1 gives a uniform row summing to exactly 1; a row without a 1 gives an all-zero row |
| InitialTheta.UniformSingleSuccessor | initial_theta.py:15-16 | a W row with a single 1 gives the value 1 there and 0 elsewhere |
| InitialTheta.UniformOnesAlone | initial_theta.py:13-16 | for a 0/1 W, every 1 of the uniform θ sits in a row of 0s and 1s that sums to 1 |
| InitialTheta.GetSmartInitialTheta | initial_theta.py:21-35 | fills `omega[j]` where W holds a 1, then normalises every row in place; the result is `SmartTheta` |
| InitialTheta.SmartFacts | initial_theta.py:25-33 | every smart row sums to 1; cells where W holds no 1 are 0; with non-negative ω every entry lies in [0, 1] |
| InitialTheta.SmartOnesAlone | initial_theta.py:25-33 | with non-negative ω, every 1 of the smart θ sits in a row of 0s and 1s |
| InitialTheta.GetInitialTheta | gradient_descent.py:47 | the chosen initial strategy builds a fresh n×n θ equal to `StartTheta` |
| Steps.ComputeFixed | gradient_descent.py:54-59 | a cell is in the fixed set iff θ₀ holds exactly 0 or 1 there (`theta_formation.py:48-52` and `conjugate_gradient.py:53-58` are the same code) |
| Steps.MaskedOuterProduct | gradient_descent.py:73-78 | `weight_deltas[i][j]` is `omega[i] * delta[j]` off the fixed set and 0 on it |
| Steps.SubtractInPlace | gradient_descent.py:81 | the array becomes the cell-wise difference `theta - weight_deltas` |
| Steps.ShiftOneCell | gradient_descent.py:87-88 | a non-fixed cell grows by twice the absolute minimum of the current matrix; a fixed cell is untouched |
| Steps.ShiftRow | gradient_descent.py:86-88 | the array becomes `ShiftRowFrom` of its old value: the per-cell shift on row i's cells from left to right, every other row unchanged |
| Steps.ShiftRowFrom | gradient_descent.py:86-88 | the shift of one row's cells changes no other row and keeps the matrix n×n |
| Steps.ShiftFromRow | gradient_descent.py:85-88 | the shift over the cells from (i, j) on is the rest of row i followed by the shift of the later rows, so the outer loop is a row-by-row pass |
| Steps.NegativeShift | gradient_descent.py:84-88 | the array becomes `Shifted` of its old value: no change when the minimum is non-negative, otherwise the per-cell shift over every cell in row-major order |
| Steps.ShiftFromFacts | gradient_descent.py:85-88 | the shift from any cell on keeps fixed cells and earlier cells, lowers no cell, and leaves every cell non-negative when the earlier and the fixed cells are |
| Steps.ShiftedFacts | gradient_descent.py:84-88 | the shift keeps every fixed cell and lowers none; it is the identity on a non-negative matrix; with non-negative fixed cells no entry is negative afterwards (`theta_formation.py:83-87` is the same code) |
| Steps.ShiftedFixedRow | gradient_descent.py:84-88 | a row whose cells are all fixed comes out of the shift unchanged |
| Steps.NormalizeRows | gradient_descent.py:90-93 | each row is divided by its sum taken before the row changes; the array becomes `Normalized` of its old value |
| Steps.NormalizedRowsSumToOne | gradient_descent.py:90-93 | after normalisation every row sums to 1 |
| Steps.NormalizedKeeps | gradient_descent.py:90-93 | normalisation keeps 0 cells at 0 and leaves a row that already sums to 1 unchanged |
| Steps.NormalizedUnitRow | gradient_descent.py:90-93 | a single row that sums to 1 is left as it is |
| Steps.NormalizedUnitRows | gradient_descent.py:90-93 | a matrix whose rows all sum to 1 is its own normalisation |
| Steps.NormalizedStochastic | gradient_descent.py:90-93 | a matrix without negative entries becomes row-stochastic |
| Steps.StochasticStable | gradient_descent.py:84-93 | a row-stochastic θ is left unchanged by the shift and by the normalisation |
| Matrices.MatMinIsMin | gradient_descent.py:84 | `np.min` is at most every entry and equal to one of them |
| Matrices.RowMinIsMin | gradient_descent.py:84 | the minimum of a row is at most every entry of it and equal to one of them |
| GradientDescent.StepError | gradient_descent.py:69-71 | the recorded error `sum(delta_i^2) / 2` is non-negative |
| GradientDescent.CorrectedFacts | gradient_descent.py:73-88 | with non-negative fixed cells, subtraction and shift keep every fixed cell and leave no negative entry |
| GradientDescent.StepFacts | gradient_descent.py:73-93 | one iteration yields a row-stochastic θ, keeps fixed cells non-negative and fixed zeros at 0, and leaves a fully fixed row summing to 1 unchanged |
| GradientDescent.SubtractionAtFixedPoint | gradient_descent.py:69-81 | when ω·θ = ω, delta is zero and the subtraction leaves θ unchanged |
| GradientDescent.StepAtFixedPoint | gradient_descent.py:69-93 | one iteration at an exact fixed point with a row-stochastic θ returns θ unchanged |
| GradientDescent.Iteration | gradient_descent.py:69-93 | on the array: out_omega and the error come from θ before the update; the new θ is `Step` of the old one, or on a zero row sum the shifted, unnormalised matrix |
| GradientDescent.DescendCounts | gradient_descent.py:61-100 | the count never exceeds the budget; one error per iteration; the loop is entered only while some residual exceeds eps; a normal return comes with the residual within eps or the budget spent; a zero row sum is the only failure and happens only in an iteration |
| GradientDescent.DescendKeepsPrefix | gradient_descent.py:72 | errors recorded earlier are kept as a prefix of the returned list |
| GradientDescent.DescendFirstError | gradient_descent.py:69-72 | the first error added is that of the θ the loop starts from |
| GradientDescent.DescendTheta | gradient_descent.py:73-93 | on a normal return: fixed zeros are still 0, fully fixed rows summing to 1 are unchanged, and after an iteration θ is row-stochastic |
| GradientDescent.DescendErrorsNonNegative | gradient_descent.py:71-72 | every recorded error is non-negative |
| GradientDescent.DescendLastIteration | gradient_descent.py:65-72 | in the last iteration the returned out_omega is ω·θ of the θ before that update, and that θ's error is the last entry |
| GradientDescent.OneIterationMeansBudgetOne | gradient_descent.py:65-66 | a normal return after exactly one iteration from θ₀ means the budget was 1: the returned out_omega is ω·θ₀, which failed the eps test on entry, so only the budget can have stopped the loop |
| GradientDescent.SolveCounts | gradient_descent.py:46-100 | `len(errors) == it <= max(max_it, 0)`; failure only on a zero row sum; a normal return only with the residual within eps or the budget spent; no iteration exactly when θ₀ meets the eps test or the budget is not positive, and then the result is θ₀, ω·θ₀, `[]`, 0; otherwise the first error is θ₀'s; no error is negative |
| GradientDescent.SolveTheta | gradient_descent.py:46-100 | after at least one iteration a returned θ is row-stochastic; every 0 of θ₀ is still 0; if every 1 of θ₀ sits in a 0/1 row summing to 1, every 1 is still 1 |
| GradientDescent.Descend | gradient_descent.py:61-100 | the loop on the array ends in the state and with the outputs `DescendFrom` gives |
| GradientDescent.Solve | gradient_descent.py:46-100 | the whole solver's θ, out_omega, errors, count and status are `SolveSpec` |
| ThetaFormation.SquaresSum | theta_formation.py:62-66 | the component-wise error has non-negative entries that add up to `sum(delta_i^2)` |
| ThetaFormation.ResidualAndError | theta_formation.py:62-66 | the loop fills `delta[i] = out_omega[i] - omega[i]` and `error[i] = delta[i]^2` |
| ThetaFormation.SubtractedKeepsFixed | theta_formation.py:68-75 | the masked subtraction leaves every fixed cell as it was |
| ThetaFormation.ShiftedRowsAtLeastOne | theta_formation.py:78-93 | after the first normalisation and the shift every row sums to at least 1, so the second normalisation can always divide |
| ThetaFormation.FormStepOnlyFirstFails | theta_formation.py:68-93 | an iteration fails exactly when a row sums to 0 after the subtraction |
| ThetaFormation.RenormalizedRowsSumToOne | theta_formation.py:78-93 | normalise, shift, normalise leaves every row summing to 1 |
| ThetaFormation.RenormalizedKeepsZeros | theta_formation.py:78-93 | normalise, shift, normalise keeps fixed zeros at 0 |
| ThetaFormation.RenormalizedKeepsRows | theta_formation.py:78-93 | normalise, shift, normalise leaves a fully fixed row summing to 1 unchanged |
| ThetaFormation.RenormalizedStochastic | theta_formation.py:78-93 | with non-negative fixed cells and positive row sums, the result is row-stochastic and its fixed cells are non-negative |
| ThetaFormation.FormStepFacts | theta_formation.py:68-93 | one iteration makes every row sum to 1, keeps fixed zeros and fully fixed unit rows, and, given non-negative fixed cells and positive row sums after the subtraction, yields a row-stochastic θ |
| ThetaFormation.FormStepAtFixedPoint | theta_formation.py:61-93 | one iteration at an exact fixed point with a row-stochastic θ returns θ unchanged |
| ThetaFormation.FormCounts | theta_formation.py:57-93 | the count never exceeds `max_it`; the loop is entered only while some residual exceeds eps; it ends with the residual within eps or the budget spent unless a zero row sum stops an iteration; a run without an iteration returns its input |
| ThetaFormation.FormLastDelta | theta_formation.py:61-66 | after an iteration the kept `delta` is `out_omega - omega` for the returned out_omega, and `error` holds its squares |
| ThetaFormation.FormTheta | theta_formation.py:68-93 | on a normal return fixed zeros are 0 and fully fixed unit rows unchanged, and after an iteration every row sums to 1 |
| ThetaFormation.FindRoutingFacts | theta_formation.py:38-109 | the call fails on the unbound `delta` exactly when θ₀ meets the eps test or the budget is not positive; a normal return has `0 < it <= max_it`, the residual within eps or the budget spent, the matching delta and error, rows summing to 1, and every 0 of θ₀ still 0 |
| ThetaFormation.FormIteration | theta_formation.py:61-93 | on the array: out_omega, delta and error come from θ before the update; the new θ is `FormStep` of the old one, or after a zero row sum the subtracted matrix |
| ThetaFormation.Form | theta_formation.py:54-101 | the loop on the array ends in the state and with the outputs `FormFrom` gives |
| ThetaFormation.FindRoutingMatrix | theta_formation.py:38-109 | θ, out_omega and status are `FormSpec`, with the failure on the unbound `delta` when no iteration ran |
| ThetaFormation.GetUniformInitialTheta | theta_formation.py:112-125 | the copy gives the same θ as the uniform strategy: `1 / sum(W[i])` where W holds a 1, 0 elsewhere |
| ConjugateGradient.Objective | conjugate_gradient.py:113-116 | the value `f` of a step size is non-negative |
| ConjugateGradient.FirstArgMinIsFirstMinimum | conjugate_gradient.py:117-119 | the scan that replaces only on a strictly smaller value stops at a minimum with every earlier value strictly larger |
| ConjugateGradient.FirstMinimumUnique | conjugate_gradient.py:117-119 | the first minimum is unique, so the scan's answer depends only on the values |
| ConjugateGradient.FindAlpha | conjugate_gradient.py:110-121 | the result is never the `inf` sentinel; it is one of the 40 candidates `0.05·k`, lies in [0, 2), and is the first candidate whose f is at most every candidate's f |
| ConjugateGradient.ConjugateOutcomes | conjugate_gradient.py:46-107 | the call returns iff Σω = 1 and θ₀ meets the eps test or the budget is not positive, and then gives what `gradient_descent` gives on the same input (θ₀, ω·θ₀, `[]`, 0); it fails on the assertion iff Σω ≠ 1; otherwise it fails with the TypeError after one recorded error |
| ConjugateGradient.ConjugateLoop | conjugate_gradient.py:60-78 | the loop never completes an iteration: it leaves θ untouched and either does not run or records the error of θ₀ and fails at line 78 |
| ConjugateGradient.Conjugate | conjugate_gradient.py:46-107 | the driver's outputs and status are `ConjugateSpec` |
| ConjugateGradient.TailFacts | conjugate_gradient.py:94-105 | the shift in the tail moves only non-fixed cells and lowers none; a tail that can normalise leaves every row summing to 1 |
| ConjugateGradient.TailCanMoveFixedCell | conjugate_gradient.py:91-105 | the unmasked line 92 can move a fixed cell: a concrete θ whose fixed 0 becomes positive |
| ConjugateGradient.TailWeightDeltas | conjugate_gradient.py:91-92 | the new weight_deltas is `alpha * (p[j] + theta[i][j]) + prev[i][j]` in every cell |
| ConjugateGradient.ConjugateTail | conjugate_gradient.py:91-105 | on the array: weight_deltas as above, then θ becomes `Tail` of its old value, or the shifted matrix after a zero row sum |
| Generators.RandomWFacts | generators.py:7-15 | W is n×n and binary; every row holds a 1 at its pick; off-diagonal cells hold their drawn bit unless picked; a diagonal cell is 1 iff the row picked its own column |
| Generators.RandomWInitialDefined | generators.py:13 | a generated W meets the uniform strategy's precondition, and the smart one's whenever every ω is positive |
| Generators.GetRandomW | generators.py:7-15 | the nested loops over a zero buffer give `RandomW` of the draws; row i is written only in pass i |
| Utils.GetRandomW | utils.py:6-14 | with the same draws, the copy gives the same W as `generators.py` |

## Left out

- Printing, `log_step` logging and the progress bar (`theta_formation.py:38,42-43,59,95-108`, `gradient_descent.py:95-98`): output only. The unbound read of `delta` at `theta_formation.py:106` is kept, as the `UnboundDelta` failure.
- Floating point: numbers are `real`, so `== 0` and `== 1` are exact, `np.arange(0, 2, 0.05)` is exactly `0.05·k` for k = 0..39, and nothing overflows or rounds. A row summing to 0 at a normalisation becomes a `ZeroRowSum` failure. numpy would produce nan or ±inf and go on.
- InitialTheta.GetSmartInitialTheta: requires every row's permitted ω sum to be non-zero, where numpy would divide by 0 and produce nan or ±inf in that row.
- Convergence: the code does not promise it. Only the budget and the stopping condition are stated.
- The iterate-by-iterate view of the error list, where error k is that of the k-th θ, is stated step by step (`DescendFirstError`, `DescendKeepsPrefix`, `DescendLastIteration`) rather than as one closed formula.
- The conjugate variant after line 78: `beta`, the direction `p` across iterations, and the `k + 1 > n` branch (lines 79-89) are never reached. `k` is reset to 0 in every iteration, and line 78 always raises. Only the tail at lines 91-105 is modelled, as a step of its own.
- ConjugateGradient.FindAlpha: models only the call the code makes, with a scalar `p`. An array `p` would be broadcast by numpy.
- The random source: the draws are inputs whose values are what `randint` can return. No claim about their distribution is made.
- `get_omegas` (`generators.py:18-28`): relies on float `round(…, 2)` and a float sum correction that reals cannot reproduce.
- `main.py` (an experiment script that prints results) and `file_utils.py` (file I/O) are not part of this model.
