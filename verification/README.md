# Baum-Welch training kernel, modelled in Dafny

This project models the numerical core of a discrete Hidden Markov Model trainer, `old_versions/bw-std-cg.c`:

- `forward` fills the N x T forward table alpha.
- `backward` fills the backward table beta.
- `update` sums the evidence and fills the posteriors gamma (N x T) and xi ((T-1) x N x N). It then overwrites the initial distribution p, the transition matrix a (N x N) and the emission matrix b (N x K) with their Baum-Welch re-estimates.
- `finished` is the convergence test on the likelihood.
- `bw` repeats the three passes until `finished` says to stop.

The model also covers the helpers around the kernel:

- `set_zero`;
- the normalisation done by `makeProbabilities` and `makeMatrix`;
- the selection rule of `chooseOf`.

How the model is built:

- **Arithmetic.** `double` is modelled as exact `real`.
- **Buffers.** The C code keeps every table in a flat row-major buffer (`alpha[s*T+t]`, `a[i*N+j]`, `b[s*K+v]`, `xi[((t-1)*N+s)*N+j]`). The kernel methods work on a two-dimensional array, or a three-dimensional one for xi, indexed by the same pairs or triples.
- **Buffers and the layout.** `Flat.Idx` is the row-major offset, and `Flat.Flatten` is the flat buffer a 2-D array stands for. `Flat.FlattenAt` shows that cell (r, c) sits at `Idx(r, c, cols)`. `Flat.RowEnd` shows that the offset `s*T-1`, which `backward` and `finished` use, is cell (s-1, T-1).
- **Where the specification lives.** The specification is pure ghost functions over the flat buffers:
  - `Recurrences`: the forward and backward recurrences, the likelihood, and forward/backward consistency.
  - `Reestimation`: the evidence, gamma, xi and the new p, a, b. It also proves that the new parameters are probability distributions, and that positivity carries over.
- **How each kernel method is proved.** Each kernel method is proved against those functions through loop invariants.
- **Module layout.** There are four implementation modules:
  - `Kernel`: forward and backward.
  - `ParameterUpdate`: update, one method per loop nest of the C function.
  - `Training`: finished and bw.
  - `Helpers`: the helpers.

In `update`, `evidence` is assigned only inside the loop `t = 1 .. T-1` (old_versions/bw-std-cg.c:181-182) and is read by the gamma loop at old_versions/bw-std-cg.c:197. With T = 1 it would be read uninitialised, so `ParameterUpdate.Update` and `Training.Bw` require T >= 2.

## Model

| member | source | states |
|---|---|---|
| Flat.FlattenAt | old_versions/bw-std-cg.c:131 | the row-major buffer of an R x C table has R*C entries, and cell (r, c) is at offset r*C + c, inside the buffer |
| Flat.IdxIsOffset | old_versions/bw-std-cg.c:16 | the row-by-row offset Idx(r, c, cols) is r*cols + c |
| Flat.RowEnd | old_versions/bw-std-cg.c:158-159 | offset s*T-1 for s >= 1 is the last cell (s-1, T-1) of row s-1 |
| Flat.XiLayout | old_versions/bw-std-cg.c:204 | entry (t-1, s, j) of xi sits at ((t-1)*N+s)*N+j, inside the (T-1)*N*N entries allocated for xi, and distinct entries have distinct offsets |
| Flat.Layout | old_versions/bw-std-cg.c:142 | every cell of an R x C table lies in [0, R*C), and distinct cells have distinct offsets |
| Helpers.SetZero | old_versions/bw-std-cg.c:13-19 | all rows*cols leading entries become 0.0, and every entry past them is unchanged |
| Helpers.ChooseOf | old_versions/bw-std-cg.c:32-49 | returns the least index whose cumulative probability reaches the decider; returns None (the error exit) exactly when no prefix of the `choices` entries reaches it |
| Helpers.MakeProbabilities | old_versions/bw-std-cg.c:67-84 | entry i becomes draw i * 100 over the total of all the scaled draws; the vector sums to 1, and nothing outside it changes |
| Helpers.Normalised | old_versions/bw-std-cg.c:80-83 | a vector of scaled draws, each divided by their positive total, sums to 1 |
| Helpers.MakeMatrix | old_versions/bw-std-cg.c:89-95 | every row r holds the normalised draws of row r and sums to 1 |
| Helpers.RowKept | old_versions/bw-std-cg.c:91-94 | a finished row survives makeProbabilities writing a later row |
| Recurrences.BetaIgnoresPrior | old_versions/bw-std-cg.c:157-170 | the backward table does not depend on p, which backward never reads |
| Recurrences.FlowRow | old_versions/bw-std-cg.c:166 | summing alpha[s][t] * a[s][j] * b[j][y[t+1]] * beta[j][t+1] over j gives alpha[s][t] * beta[s][t] (the backward recurrence) |
| Recurrences.FlowColumn | old_versions/bw-std-cg.c:142-146 | summing the same terms over s gives alpha[j][t+1] * beta[j][t+1] (the forward recurrence) |
| Recurrences.ConsistencyStep | old_versions/bw-std-cg.c:278-289 | the sum over s of alpha[s][t] * beta[s][t] is the same at t and t+1 |
| Recurrences.Consistency | old_versions/bw-std-cg.c:262-264 | at every t, the sum over s of alpha[s][t] * beta[s][t] equals the sum of alpha[s][T-1] |
| Recurrences.AlphaPositive | old_versions/bw-std-cg.c:130-149 | with positive p, a and observed emissions, every forward value is positive |
| Recurrences.BetaPositive | old_versions/bw-std-cg.c:158-170 | with positive a and observed emissions, every backward value is positive |
| Reestimation.ProductsExact | old_versions/bw-std-cg.c:183-187 | on exact tables, the products the evidence loop sums are alpha * beta of the model |
| Reestimation.EvidenceIsLikelihood | old_versions/bw-std-cg.c:181-190 | on exact tables, the evidence update reads off column T-2 is the likelihood P(y given the model) |
| Reestimation.ProductsAreEvidence | old_versions/bw-std-cg.c:181-190 | on exact tables, the products at every t sum to the evidence that update uses |
| Reestimation.GammaColumnSum | old_versions/bw-std-cg.c:194-199 | on exact tables, gamma[.][t] sums to 1 at every t |
| Reestimation.GammaColumnNormalised | old_versions/bw-std-cg.c:194-199 | gamma[.][t] sums to 1 whenever the products at t sum to the evidence |
| Reestimation.BackwardOnTable | old_versions/bw-std-cg.c:164-166 | on exact tables, beta[s][t-1] is the sum over j of beta[j][t] * a[s][j] * b[j][y[t]] read from the table |
| Reestimation.XiRowSum | old_versions/bw-std-cg.c:201-209 | xi[t-1][s][.] summed over j is alpha[s][t-1] / evidence times the backward-step sum |
| Reestimation.XiMarginal | old_versions/bw-std-cg.c:201-209 | when beta satisfies the backward step, xi[t-1][s][.] sums to gamma[s][t-1] |
| Reestimation.XiGridColumns | old_versions/bw-std-cg.c:201-209 | on exact tables, xi[u][s][.] sums to gamma[s][u] at every u < T-1 |
| Reestimation.TransitionRowRatio | old_versions/bw-std-cg.c:230-239 | when xi marginalises to gamma, the new row a[s][.] sums to 1 |
| Reestimation.NewTransitionRowSum | old_versions/bw-std-cg.c:230-239 | on exact tables, every new row of a sums to 1 |
| Reestimation.EmissionGridColumn | old_versions/bw-std-cg.c:245-249 | each time t contributes gamma[s][t] to exactly one symbol bucket, v = y[t] |
| Reestimation.NewEmissionRowSum | old_versions/bw-std-cg.c:241-252 | every new row of b sums to 1, because the buckets y[t] == v partition the times |
| Reestimation.NewPriorSum | old_versions/bw-std-cg.c:228 | on exact tables, the new p sums to 1 |
| Reestimation.ReestimatedStochastic | old_versions/bw-std-cg.c:226-253 | on exact tables, the re-estimated p, every row of a and every row of b are distributions |
| Reestimation.ExactTablesPositive | old_versions/bw-std-cg.c:130-170 | exact tables of a positive model are positive |
| Reestimation.EvidencePositive | old_versions/bw-std-cg.c:181-190 | positive tables with N >= 1 give a positive evidence |
| Reestimation.GammaPositive | old_versions/bw-std-cg.c:197 | on positive tables, every gamma is positive |
| Reestimation.PositiveNonDegenerate | old_versions/bw-std-cg.c:181-251 | on positive tables, the evidence and both gamma sums that update divides by are positive, so none is zero |
| Reestimation.XiPositive | old_versions/bw-std-cg.c:204 | on positive tables of a positive model, every xi is positive |
| Reestimation.NewAPositive | old_versions/bw-std-cg.c:230-239 | every re-estimated transition is positive |
| Reestimation.NewBPositive | old_versions/bw-std-cg.c:241-252 | the re-estimated emission of every observed symbol is positive |
| Reestimation.ReestimatedPositive | old_versions/bw-std-cg.c:226-253 | re-estimation keeps p, a and the observed emissions positive |
| Kernel.ModelCells | old_versions/bw-std-cg.c:131-146 | the model read off the buffers is well formed, and its a[i][j] and b[s][v] are the buffer cells |
| Kernel.ForwardTerms | old_versions/bw-std-cg.c:140-144 | proof step (loop invariant): once column t-1 is filled, the products accumulated into alpha[s][t] are the terms of the forward step |
| Kernel.ForwardStep | old_versions/bw-std-cg.c:139-146 | the accumulated sum scaled by b[s][y[t]] is alpha_s(t) |
| Kernel.ForwardNextColumn | old_versions/bw-std-cg.c:137-138 | proof step (loop invariant): a column filled in every row means the next column is reached with everything before it correct |
| Kernel.ForwardCell | old_versions/bw-std-cg.c:139-146 | alpha[s][t] ends as alpha_s(t), and no other cell changes |
| Kernel.ForwardFirstColumn | old_versions/bw-std-cg.c:130-133 | column 0 of alpha holds p[s] * b[s][y[0]] for every s, the first forward values |
| Kernel.ForwardColumn | old_versions/bw-std-cg.c:138-148 | given every column before t filled, column t is filled with the forward values too |
| Kernel.Forward | old_versions/bw-std-cg.c:98-154 | every alpha[s][t] holds alpha_s(t) of the model in a, p, b (p[s]*b[s][y[0]] in column 0, the forward step after it); only alpha is written |
| Kernel.BackwardTerms | old_versions/bw-std-cg.c:165-168 | proof step (loop invariant): once column t is filled, the products accumulated into beta[s][t-1] are the terms of the backward step |
| Kernel.BackwardStep | old_versions/bw-std-cg.c:164-168 | the accumulated sum is beta_s(t-1) |
| Kernel.BackwardPreviousColumn | old_versions/bw-std-cg.c:162-163 | proof step (loop invariant): a column filled in every row means the previous column is reached with everything after it correct |
| Kernel.BackwardCell | old_versions/bw-std-cg.c:164-168 | beta[s][t-1] ends as beta_s(t-1), and no other cell changes |
| Kernel.BackwardLastColumn | old_versions/bw-std-cg.c:158-160 | column T-1 of beta holds 1 in every row, reached through the offsets s*T-1 |
| Kernel.BackwardColumn | old_versions/bw-std-cg.c:163-169 | given every column from t on filled, column t-1 is filled with the backward values too |
| Kernel.Backward | old_versions/bw-std-cg.c:157-173 | every beta[s][t] holds beta_s(t) of the model (1 in column T-1, the backward step before it); only beta is written |
| ParameterUpdate.StepCells | old_versions/bw-std-cg.c:175 | the step update performs reads its tables and parameters cell by cell from the buffers |
| ParameterUpdate.SumEvidence | old_versions/bw-std-cg.c:181-190 | the evidence left by the t-loop is the sum over s of alpha[s][T-2] * beta[s][T-2] |
| ParameterUpdate.GammaValue | old_versions/bw-std-cg.c:197 | the value stored in gamma[s][t] is the posterior of state s at time t, alpha[s][t] * beta[s][t] / evidence |
| ParameterUpdate.GammaNextColumn | old_versions/bw-std-cg.c:194-195 | proof step (loop invariant): column t of gamma filled in every row means every column up to t is filled |
| ParameterUpdate.FillGamma | old_versions/bw-std-cg.c:193-199 | every gamma[s][t] is alpha[s][t] * beta[s][t] / evidence |
| ParameterUpdate.XiValue | old_versions/bw-std-cg.c:204 | the value stored in xi[t-1][s][j] is the posterior of the transition s -> j at time t |
| ParameterUpdate.XiRowFilled | old_versions/bw-std-cg.c:202-203 | proof step (loop invariant): row s at time t filled for every j extends the filled part of xi by that row |
| ParameterUpdate.FillXiRow | old_versions/bw-std-cg.c:203-207 | row s of xi at time t is filled for every j, extending what was filled before it |
| ParameterUpdate.XiNextTime | old_versions/bw-std-cg.c:201-202 | proof step (loop invariant): every row filled at time t means every time up to t is filled |
| ParameterUpdate.FillXi | old_versions/bw-std-cg.c:201-209 | every xi[t-1][s][j] is alpha[s][t-1] * a[s][j] * beta[j][t] * b[j][y[t]] / evidence |
| ParameterUpdate.TransitionSums | old_versions/bw-std-cg.c:231-236 | the t-loop sums xi[t-1][s][j] over t = 1 .. T-1, and gamma[s][t-1] over the same t |
| ParameterUpdate.TransitionRow | old_versions/bw-std-cg.c:230-239 | row s of a becomes the new transitions; the denominator handed on is the gamma sum over t < T-1; other rows are unchanged |
| ParameterUpdate.EmissionSum | old_versions/bw-std-cg.c:244-249 | the numerator is the sum of gamma[s][t] over the t with y[t] == v |
| ParameterUpdate.EmissionRow | old_versions/bw-std-cg.c:243-252 | row s of b becomes the new emissions; other rows are unchanged |
| ParameterUpdate.AllRowsDone | old_versions/bw-std-cg.c:226-253 | all N rows re-estimated is the re-estimated model |
| ParameterUpdate.ReestimateRow | old_versions/bw-std-cg.c:227-252 | p[s], row s of a and row s of b become the re-estimates, after gamma[s][T-1] is added to the carried denominator |
| ParameterUpdate.Reestimate | old_versions/bw-std-cg.c:226-253 | p, a and b become the re-estimated model |
| ParameterUpdate.Update | old_versions/bw-std-cg.c:175-256 | given non-degenerate tables, p, a and b become the re-estimates of the model they held; gamma and xi hold the posteriors they came from |
| Training.Finished | old_versions/bw-std-cg.c:294-308 | the new likelihood is the sum of alpha[s][T-1] over s, whatever the outcome; done exactly when new - old < EPSILON, so a drop also counts as done |
| Training.ColumnSumIsLikelihood | old_versions/bw-std-cg.c:300-302 | on the forward table of a model, finished's sum is the likelihood of the observations |
| Training.LikelihoodPositive | old_versions/bw-std-cg.c:300-302 | a positive model with N >= 1 has a positive likelihood |
| Training.TraceExtend | old_versions/bw-std-cg.c:314-319 | proof step (loop invariant): a further pass from the model the run has reached extends its trace, and the likelihoods finished reported carry over |
| Training.TrainPass | old_versions/bw-std-cg.c:315-317 | the do-while body: forward, backward and update on a positive model perform one pass, read off the exact tables left in alpha and beta, leave the posteriors of that pass in gamma and xi, and re-estimate the model that a, p, b held into a positive model whose parameters are distributions; the last forward column sums to the positive likelihood of the model the pass started from |
| Training.ClimbingExtend | old_versions/bw-std-cg.c:314-319 | proof step (loop invariant): a further pass keeps the failed tests between the earlier passes, and the run stays one whose every test failed exactly when the new test failed too |
| Training.Round | old_versions/bw-std-cg.c:314-319 | one round of the do-while, body then test: the pass extends the run's trace; the new likelihood is that of the model the round started from; done exactly when it gained less than EPSILON on the likelihood handed in, never in the first round; every test before this one still failed, and if this one fails too the whole run has failed every test; alpha, beta, gamma and xi hold the tables of the pass |
| Training.ExactStep | old_versions/bw-std-cg.c:315-317 | the tables forward and backward leave are the exact tables that update reads |
| Training.Bw | old_versions/bw-std-cg.c:310-323 | `passes` records every pass and satisfies `Trace`: the first pass starts from the model handed in, each later pass starts from the model the one before re-estimated from its exact forward and backward tables, and the last pass re-estimated the model now in a, p, b; the likelihood returned is that of the last pass's model, and `previous` is that of the pass before (-1 after one pass); converged exactly when likelihood - previous < EPSILON, which takes two passes at least; otherwise maxSteps passes ran; every test before the last failed (`Rises`: each pass's model gained at least EPSILON on the one before), so the loop stops at the first test that passes; alpha and beta hold the tables of the last pass's model, and gamma and xi the posteriors of that pass, which the program writes out after bw; the final model is positive and its parameters are distributions |

## Left out

- Floating point is not modelled: the model does not capture rounding, underflow of the unscaled recurrences, or the NaN/Inf that a zero evidence or a zero gamma sum spreads through `update`. A nonzero evidence and nonzero gamma sums are preconditions of update instead.
- ParameterUpdate.Update: requires non-degenerate tables (`NonDegenerate`: the evidence and both gamma sums are nonzero). The C code divides anyway.
- ParameterUpdate.Update: requires T >= 2, because `evidence` is uninitialised when T = 1.
- Training.Bw: requires a positive model (every p[s], every a[i][j], and every emission of an observed symbol above zero), N >= 1 and T >= 2. Positivity is what keeps every pass non-degenerate. The C code requires nothing.
- Training.Bw: takes an iteration cap `maxSteps` because the do-while loop of the C code has none and need not terminate. It does not claim that training converges.
- Training.Bw: does not model the cycle counting (`start_tsc`/`stop_tsc`) or the returned cycles/steps. It returns `steps`, which is at least 1, so that division is well defined.
- Training.Finished: drops the `beta` parameter, which the C function never reads. The in/out argument `likelihood` becomes an input and an output.
- Kernel.Backward: takes a ghost p only to name a complete model. The C function has no such parameter, and `Recurrences.BetaIgnoresPrior` shows the table does not depend on it.
- The randomness is left out: the `rand()` draws of `makeProbabilities` and `chooseOf` are parameters (`draws`, `decider`), and `makeObservations` is not modelled.
- Helpers.ChooseOf: the `printf`/`exit(-1)` error exit is the result `None`.
- Dimensions are `nat`. C `int` overflow of index products such as `((t-1)*N+s)*N+j` is not modelled.
- Helpers.MakeProbabilities: requires a positive total of the draws. With every draw 0, the C code divides by zero.
- `main`, `heatup`, `wikipedia_example`, the file I/O, `similar` (a Frobenius norm with `sqrt`), `evidence_testing`'s printing, `compare_doubles`/`qsort` and `tested_implementation` (tested.h is not part of this model) are not modelled. The consistency `evidence_testing` prints is proved as `Recurrences.Consistency`.
