# BiCGstab(L) in QUDA: control and index logic

This project models the control and index logic of QUDA's BiCGstab(L) solver
(`lib/inv_bicgstabl_quda.cpp`), the method of Sleijpen and Fokkema (1993).
Field vectors, the Dirac operator and the BLAS kernels are opaque. A vector is
known only by the history of kernel calls applied to it (`Vectors.Effect`,
logged in `Vectors.Fields.log`). An inner-product oracle gives `<a, b>` for
any history. The scalar side of the solver (tau, sigma, gamma, gamma',
gamma'', rho, alpha, beta, omega) is computed exactly over complex numbers
made of two `real`s.

The model covers the following parts of the source:

- **The work-hiding worker `BiCGstabLUpdate`** (`Scheduler`, `Slices`).
  - Its mutable fields `j_max` and `update_type` are modelled.
  - The function-local `static int count` is made explicit as a shared
    `StaticCount` object.
  - `apply()` updates one slice `[count*j_max/n_update, (count+1)*j_max/n_update)`
    of `u` or `r`, adds `alpha*u[0]` to `x` at `count == 0` in R mode, and
    advances `count` round-robin.
  - Proved: one full cycle of `n_update` calls performs exactly the
    synchronous update of indices `0..j_max-1`, each vector written once,
    with `x` written once in R mode and never in U mode.
- **The legacy modified Gram-Schmidt** (`GramSchmidt`, `LegacyMR`,
  `Triangular`, and the methods of `Solver.BiCGstabL`). This covers
  `computeTau`, `updateR`, all three branches of `switch (pipeline)`, the
  sigma/gamma' step, the back substitution `gamma = T^-1 gamma'`, the loop
  `gamma'' = T S gamma`, and the final fused updates of `u[0]`, `x` and
  `r[0]`.
  - `tau` is the row-major `(L+1) x (L+1)` array of the source.
  - Proved: the chunks of width `N` plus the remainder chunk cover
    `1..j-1` exactly once and in order.
  - A negative `pipeline` takes the `default` branch with C++'s truncating
    `/` and `%`: no full chunk runs, and `r[j]` is orthogonalised only
    against `r[1..(j-1) mod |N|]`.
  - Proved: each coefficient is the dot product divided by `sigma`, and
    only column `j` of `tau` is written.
  - Proved: the computed gamma solves the unit upper-triangular system, and
    its solution is unique.
- **The default MR part `computeMR`** (`BlockMR`).
  - The fused dot-product buffer is unpacked into `R^H R` and `R^H r0`.
  - The LDLT solve is a parameter.
  - Proved: the zero padding makes `x` combine only with `r[0..L-1]` and
    `r[0]` only with `r[1..L]`, with opposite signs.
  - Proved: a fixed iteration updates `x` alone, with the same coefficients.
- **The BiCG part** of an outer iteration (`BiCG`).
  - Proved: the split between the critical update of `u[j]` / `r[j]` and the
    hidden updates run by the worker during `matSloppy` gives, vector by
    vector, the same sequence of updates as the textbook loops
    `u[i] = r[i] - beta u[i]` and `r[i] -= alpha u[i+1]` for `i = 0..j`
    plus `x += alpha u[0]`.
  - Proved: the coefficients follow the BiCG recurrence, each inner product
    taken at the history of its own step.
- **The outer control of `operator()`** (`Control`, `Solver.BiCGstabL.Solve`
  and its parts).
  - The preamble: `fixed_iteration`, the zero-source branch, and the initial
    `r2` and `stop`.
  - The `while` loop: `rho0 *= -omega`, the BiCG part, the MR part, the
    reliable-update decision and the explicit residual recompute with its
    reset of `rNorm`, `maxrr` and `maxrx`.
  - The iteration counter advancing by `n_krylov`.
  - The final `x += y` and the "Exceeded maximum iterations" condition.

## Model

| member | source | states |
|---|---|---|
| Scheduler.BiCGstabLUpdate.constructor | lib/inv_bicgstabl_quda.cpp:325-330 | the worker is built with the given update type, j_max and n_update, and shares the vectors and the static counter |
| Scheduler.BiCGstabLUpdate.UpdateJMax | lib/inv_bicgstabl_quda.cpp:333 | j_max is set to the new value and nothing else changes |
| Scheduler.BiCGstabLUpdate.UpdateUpdateType | lib/inv_bicgstabl_quda.cpp:334 | update_type is set to the new value and nothing else changes |
| Scheduler.BiCGstabLUpdate.Apply | lib/inv_bicgstabl_quda.cpp:338-362 | one call performs exactly the effects of the slice selected by the current count and update type; count stays in [0, n_update) and wraps to 0 after the n_update-th call |
| Scheduler.BiCGstabLUpdate.SweepU | lib/inv_bicgstabl_quda.cpp:345-347 | the U-mode loop performs u[i] = r[i] - beta u[i] for i in [lo, hi), in ascending order |
| Scheduler.BiCGstabLUpdate.SweepR | lib/inv_bicgstabl_quda.cpp:352-358 | the R-mode loop performs r[i] -= alpha u[i+1] for i in [lo, hi), in ascending order |
| Slices.SliceWithin | lib/inv_bicgstabl_quda.cpp:345 | every slice satisfies begin <= end <= j_max, so the extra i < j_max guard never cuts a slice short |
| Slices.LastSliceEnd | lib/inv_bicgstabl_quda.cpp:354 | the slice of the last call of a cycle ends exactly at j_max |
| Slices.CyclePrefix | lib/inv_bicgstabl_quda.cpp:338-361 | the first k calls of a cycle from count 0 are one contiguous ascending sweep from index 0 up to the end of slice k-1 (after x += alpha u[0] in R mode), so the slices are disjoint and adjacent |
| Slices.CycleIsSynchronous | lib/inv_bicgstabl_quda.cpp:338-361 | n_update calls from count 0 perform exactly the synchronous update of all indices 0..j_max-1 |
| Slices.CountWritesUSweep | lib/inv_bicgstabl_quda.cpp:345-347 | a U sweep over [lo, hi) writes u[i] once for each i in [lo, hi) and writes no other vector |
| Slices.CountWritesRSweep | lib/inv_bicgstabl_quda.cpp:354-357 | an R sweep over [lo, hi) writes r[i] once for each i in [lo, hi) and writes no other vector |
| Slices.CycleWritesEachOnce | lib/inv_bicgstabl_quda.cpp:343-358 | in one cycle, U mode writes each u[i] with i < j_max exactly once and x never; R mode writes x exactly once and each r[i] with i < j_max exactly once; no r is written when j_max == 0 |
| GramSchmidt.IdxInjective | lib/inv_bicgstabl_quda.cpp:151 | the row-major tau index row*(L+1)+col determines its row and column, so writes to different entries never collide |
| GramSchmidt.Width | lib/inv_bicgstabl_quda.cpp:178-218 | the chunk width of the orthogonalisation is at least 1, equals the pipeline depth N when N >= 2 and \|N\| when N < 0 |
| GramSchmidt.Reach | lib/inv_bicgstabl_quda.cpp:178-218 | r[j] is orthogonalised against r[1..k-1] with 1 <= k <= j: all of r[1..j-1] for N >= 0; for N < 0, k-1 = (j-1) mod \|N\|, so N = -1 skips Gram-Schmidt and only N < -(j-1) reaches all of r[1..j-1] |
| Arith.CDivOfNat | lib/inv_bicgstabl_quda.cpp:207-213 | C++ truncating / and % of a non-negative j-1 agree with Euclidean ones for N > 0; for N < 0 the quotient is <= 0 and the remainder is (j-1) mod \|N\| |
| GramSchmidt.ChunkLoopBounds | lib/inv_bicgstabl_quda.cpp:207-217 | in C++ arithmetic the full-chunk loop runs (k-1)/w times (never for N < 0) and the remainder chunk has (k-1)%w indices, for w = Width(N), k = Reach(N, j) |
| GramSchmidt.ChunksCover | lib/inv_bicgstabl_quda.cpp:203-217 | the (j-1)/N full chunks at 1+step*N followed by the (j-1)%N remainder chunk cover 1..j-1 exactly once, in ascending order |
| GramSchmidt.CoveredFull | lib/inv_bicgstabl_quda.cpp:207-210 | m full chunks of width N cover exactly 1..m*N in ascending order |
| GramSchmidt.UnitChunks | lib/inv_bicgstabl_quda.cpp:180-184 | the unfused loop of case 0 visits the same index sequence as chunks of width 1 |
| GramSchmidt.ColumnStore | lib/inv_bicgstabl_quda.cpp:151 | storing tau[row*(L+1)+col] changes column col at that row only and leaves every other column as it was |
| GramSchmidt.GSweepWrites | lib/inv_bicgstabl_quda.cpp:154-163 | the Gram-Schmidt updates of a column write r[j] once per orthogonalised index and write no other vector |
| GramSchmidt.ColumnDoneUnique | lib/inv_bicgstabl_quda.cpp:178-219 | two tau columns that are both Gram-Schmidt-complete for the same history, sigma and chunk width agree entry by entry, so the branches that reach that state at the same width compute the same coefficients |
| Solver.BiCGstabL.constructor | lib/inv_bicgstabl_quda.cpp:370-390 | the coefficient arrays get their sizes: tau has (L+1)^2 entries, and sigma, gamma, gamma' and gamma'' have L+1 entries each |
| Solver.BiCGstabL.SetTau | lib/inv_bicgstabl_quda.cpp:151 | one tau store changes exactly one entry of one column |
| Solver.BiCGstabL.ComputeTau | lib/inv_bicgstabl_quda.cpp:139-152 | tau[i][j] = <r[i], r[j]> / sigma[i] for every i of the chunk; every other entry of column j and every other column are unchanged |
| Solver.BiCGstabL.UpdateR | lib/inv_bicgstabl_quda.cpp:154-163 | r[j] -= tau[i][j] r[i] for each i of the chunk, in order, and nothing else is written |
| Solver.BiCGstabL.OrthogonalizeUnfused | lib/inv_bicgstabl_quda.cpp:179-185 | case 0 orthogonalises r[j] against r[1..j-1] one index at a time, each tau taken from the r[j] of that moment |
| Solver.BiCGstabL.OrthogonalizeFused | lib/inv_bicgstabl_quda.cpp:186-198 | case 1 (caxpyDotzy) leaves column j Gram-Schmidt-complete at width 1 and r[j] swept once with each tau_{i,j}, the state the unfused loop leaves; by ColumnDoneUnique its coefficients equal the unfused ones |
| Solver.BiCGstabL.FusedStep | lib/inv_bicgstabl_quda.cpp:193-196 | one fused step applies the update with tau[i][j] and sets tau[i+1][j] from the updated r[j], changing nothing else |
| Solver.BiCGstabL.SweepChunk | lib/inv_bicgstabl_quda.cpp:207-210 | one computeTau/updateR pair extends the completed part of column j by one chunk |
| Solver.BiCGstabL.OrthogonalizeChunked | lib/inv_bicgstabl_quda.cpp:199-218 | the default branch, for N >= 2 or N < 0 with C++ truncating / and %, orthogonalises r[j] against r[1..Reach(N, j)-1] chunk by chunk, with every tau taken from the r[j] at the start of its chunk; no full chunk runs for N < 0 |
| Solver.BiCGstabL.SweepFullChunks | lib/inv_bicgstabl_quda.cpp:207-210 | the loop runs (k-1)/w full chunks of width N from index 1 (none for N < 0), leaving column j complete and r[j] swept up to the start of the remainder, and no other column changed |
| Solver.BiCGstabL.Orthogonalize | lib/inv_bicgstabl_quda.cpp:178-219 | for every pipeline value the switch orthogonalises r[j] against exactly r[1..Reach(pipeline, j)-1] (all of r[1..j-1] when pipeline >= 0), in chunks that cover those indices once each, in order; the other entries of tau are unchanged |
| Solver.BiCGstabL.NormStep | lib/inv_bicgstabl_quda.cpp:222-226 | sigma[j] = \|r[j]\|^2 and gamma'[j] = <r[j], r[0]> / sigma[j] (Zero when sigma[j] = 0); no other entry changes |
| Solver.BiCGstabL.LegacyStep | lib/inv_bicgstabl_quda.cpp:174-227 | step j extends the Gram-Schmidt log by the sweep of r[j] against r[1..Reach(pipeline, j)-1] and completes column j, sigma[j] and gamma'[j], leaving the other columns and entries alone |
| LegacyMR.StepDoneIntro | lib/inv_bicgstabl_quda.cpp:174-226 | the sweep of r[j] after those of columns 1..j-1, a complete column j, and sigma_j and gamma'_j taken from the new r[j] make step j done and extend the orthogonalisation log by column j |
| Solver.BiCGstabL.LegacyOrthogonalize | lib/inv_bicgstabl_quda.cpp:174-227 | after the j loop, for every j in 1..L, column j of tau holds the Gram-Schmidt coefficients at 1..Reach(pipeline, j)-1, and sigma[j] and gamma'[j] their values after r[j] is orthogonalised |
| LegacyMR.OrthoLogWrites | lib/inv_bicgstabl_quda.cpp:174-219 | the whole orthogonalisation writes r[j] exactly Reach(pipeline, j)-1 times (j-1 for pipeline >= 0) for 1 <= j <= L, and writes no other vector |
| Solver.BiCGstabL.SubtractRow | lib/inv_bicgstabl_quda.cpp:236-237 | the inner loop leaves gamma'[j] minus the sum over i > j of tau[j][i] gamma[i] |
| Solver.BiCGstabL.BackSubstitute | lib/inv_bicgstabl_quda.cpp:229-238 | gamma[L] = gamma'[L], omega = gamma[L], and T gamma = gamma' for the unit upper-triangular T of tau; gamma[0] is untouched |
| Triangular.SolvesTUnique | lib/inv_bicgstabl_quda.cpp:233-238 | two solutions of T gamma = gamma' agree at 1..L, so the back substitution computes T^-1 gamma' |
| Solver.BiCGstabL.AccumulateRow | lib/inv_bicgstabl_quda.cpp:242-245 | the inner loop gives gamma[j+1] plus the sum over i in j+1..L-1 of tau[j][i] gamma[i+1], that is, row j of T S gamma |
| Solver.BiCGstabL.ComputeGammaPrimePrime | lib/inv_bicgstabl_quda.cpp:240-246 | gamma''[j] is row j of T S gamma for j in 1..L-1; gamma''[0] and gamma''[L] are untouched |
| Solver.BiCGstabL.LegacyUpdates | lib/inv_bicgstabl_quda.cpp:251-279 | two fused calls: the batched caxpy into u[0], then the caxpyBxpz into x and r[0] |
| LegacyMR.LegacyUpdateWrites | lib/inv_bicgstabl_quda.cpp:251-279 | the first call writes only u[0]; the second writes only x and r[0] |
| LegacyMR.LegacyUUpdate | lib/inv_bicgstabl_quda.cpp:252-259 | u[0] -= gamma[i] u[i] for i in 1..L, and no other vector contributes |
| LegacyMR.LegacyXUpdate | lib/inv_bicgstabl_quda.cpp:268-278 | x += gamma[1] r[0] + gamma''[i] r[i] for i in 1..L-1; r[L] does not contribute |
| LegacyMR.LegacyRUpdate | lib/inv_bicgstabl_quda.cpp:268-278 | r[0] -= gamma'[i] r[i] for i in 1..L; r[0] itself does not contribute |
| Solver.BiCGstabL.LegacyComputeMR | lib/inv_bicgstabl_quda.cpp:169-280 | the whole legacy MR part: the Gram-Schmidt log then the two updates, with tau/sigma/gamma' complete, T gamma = gamma', omega = gamma[L] = gamma'[L], and gamma'' = T S gamma |
| BlockMR.DotBufferEntry | lib/inv_bicgstabl_quda.cpp:37-45 | the fused buffer holds <r[i+1], r[j]> at i*(L+1)+j |
| BlockMR.Unpack | lib/inv_bicgstabl_quda.cpp:47-53 | the buffer unpacks into the Gram matrix R^H R (entries <r[i+1], r[j+1]>) and the right-hand side R^H r0 (entries <r[i+1], r[0]>) |
| Solver.BiCGstabL.ComputeMR | lib/inv_bicgstabl_quda.cpp:27-116 | gamma is the LDLT solution of the unpacked system, omega = gamma(L-1), and the log gains exactly the MR updates for the fixed or the full case |
| Solver.BiCGstabL.BlockUpdates | lib/inv_bicgstabl_quda.cpp:77-104 | a full iteration logs the batched caxpy of -gamma into u[0] from u[1..L], then the caxpyBxpz with the zero-padded gamma for x and -gamma shifted by one for r[0] |
| Solver.BiCGstabL.FixedUpdate | lib/inv_bicgstabl_quda.cpp:106-115 | a fixed iteration logs only the batched caxpy of gamma into x from r[0..L-1] |
| BlockMR.BlockUpdateWrites | lib/inv_bicgstabl_quda.cpp:77-115 | a full iteration writes u[0] and then x and r[0]; a fixed iteration writes only x |
| BlockMR.BlockUUpdate | lib/inv_bicgstabl_quda.cpp:80-88 | u[0] -= gamma(i-1) u[i] for i in 1..L |
| BlockMR.BlockXUpdate | lib/inv_bicgstabl_quda.cpp:90-104 | x += gamma(i) r[i] for i in 0..L-1; the zero pad keeps r[L] out |
| BlockMR.BlockRUpdate | lib/inv_bicgstabl_quda.cpp:90-104 | r[0] -= gamma(i-1) r[i] for i in 1..L; the zero pad keeps r[0] out, and each coefficient is the negated x coefficient one place down |
| BlockMR.FixedIterationUpdate | lib/inv_bicgstabl_quda.cpp:106-115 | the fixed-iteration update of x has the same coefficients as the x half of the full update |
| Solver.BiCGstabL.Callbacks | lib/inv_bicgstabl_quda.cpp:338-361 | n_update calls of the armed worker from count 0 perform its synchronous update and return count to 0 |
| Solver.BiCGstabL.MatSloppy | lib/inv_bicgstabl_quda.cpp:675 | an operator application first runs the armed worker's complete cycle, if one is armed, and then out = A src |
| Solver.BiCGstabL.UHalf | lib/inv_bicgstabl_quda.cpp:663-675 | the critical u[j] update, the worker armed in U mode for j > 0, then u[j+1] = A u[j] |
| Solver.BiCGstabL.RHalf | lib/inv_bicgstabl_quda.cpp:683-691 | the critical r[j] update, the worker armed in R mode, then r[j+1] = A r[j]; the worker is disarmed afterwards |
| Solver.BiCGstabL.BiCGStep | lib/inv_bicgstabl_quda.cpp:655-692 | rho1 = <r0, r[j]>, beta = alpha rho1 / rho0, rho0 = rho1, alpha = rho0 / <r0, u[j+1]>, and the log gains the U half then the R half |
| BiCG.UHalfAsPaper | lib/inv_bicgstabl_quda.cpp:662-675 | for every vector, the work-hidden U half performs the same updates, in the same order, as the loop u[i] = r[i] - beta u[i] for i = 0..j followed by the matvec |
| BiCG.RHalfAsPaper | lib/inv_bicgstabl_quda.cpp:681-691 | for every vector, the work-hidden R half performs the same updates, in the same order, as x += alpha u[0] and r[i] -= alpha u[i+1] for i = 0..j followed by the matvec |
| BiCG.PaperUHalfUpdates | lib/inv_bicgstabl_quda.cpp:662-675 | the U half updates each u[i] with i <= j+1 exactly once and no other vector |
| BiCG.PaperRHalfUpdates | lib/inv_bicgstabl_quda.cpp:681-691 | the R half updates x and each r[i] with i <= j+1 exactly once and no other vector |
| BiCG.BiCGStepWrites | lib/inv_bicgstabl_quda.cpp:655-692 | BiCG step j writes x and each u[i] and r[i] with i <= j+1 exactly once |
| BiCG.RecurrenceExtend | lib/inv_bicgstabl_quda.cpp:655-692 | coefficients of step m computed from the history of the first m steps (rho_m = <r0, r[m]>, beta_m = alpha_{m-1} rho_m / rho_{m-1}, alpha_m = rho_m / <r0, u[m+1]> after u[m+1] = A u[m]) extend the BiCG recurrence of steps 0..m-1 |
| Solver.BiCGstabL.LoggedStep | lib/inv_bicgstabl_quda.cpp:655-692 | one more BiCG step appends its alpha, beta and rho to those of steps 0..j-1, extends the log of j steps to j+1 steps, and keeps the recurrence between them |
| Solver.BiCGstabL.BiCGPart | lib/inv_bicgstabl_quda.cpp:655-693 | the j loop performs the L BiCG steps in order; rho_j = <r0, r[j]>, beta_j = alpha_{j-1} rho_j / rho_{j-1} and alpha_j = rho_j / <r0, u[j+1]>, each at the history of its step, starting from the incoming alpha and rho0; alpha, beta and rho0 end at the last step's values; the worker ends disarmed |
| BiCG.BiCGLogWrites | lib/inv_bicgstabl_quda.cpp:655-693 | over m steps, x is written m times, u[0] and r[0] m times, and u[i] and r[i] m-i+1 times for 1 <= i <= m |
| Solver.BiCGstabL.MRPart | lib/inv_bicgstabl_quda.cpp:695-703 | the legacy MR part leaves the complete legacyComputeMR state (Gram-Schmidt log and updates, T gamma = gamma', omega = gamma[L] = gamma'[L], gamma'' = T S gamma); the default one leaves gamma = the LDLT solution at the incoming history, omega = gamma(L-1) and the block updates |
| Solver.BiCGstabL.BiCGAndMR | lib/inv_bicgstabl_quda.cpp:652-703 | rho0 *= -omega, then the BiCG recurrence from the incoming alpha and rho0 (-omega), then the MR part starting from the history the BiCG part leaves; the worker ends disarmed with count 0 |
| Solver.BiCGstabL.OuterIteration | lib/inv_bicgstabl_quda.cpp:652-758 | one pass of the loop body breaks only on sloppy convergence when total_iter >= maxiter or r2 < stop, and a fixed iteration that does not recompute keeps r2 |
| Solver.BiCGstabL.ResidualNorm | lib/inv_bicgstabl_quda.cpp:705-708 | sigma[0] = r2 = \|r[0]\|^2 |
| Solver.BiCGstabL.Reliable | lib/inv_bicgstabl_quda.cpp:418-430 | rNorm = sqrt(r2); maxrx and maxrr never decrease and become max(old, rNorm); the trigger holds iff rNorm < delta maxrr |
| Solver.BiCGstabL.RecomputeResidual | lib/inv_bicgstabl_quda.cpp:733-754 | y += x, the worker is disarmed, r[0] = b - A y, sigma[0] = r2 = \|r[0]\|^2, x_sloppy = 0, and rNorm = maxrr = maxrx = sqrt(r2) |
| BiCG.RecomputeUpdates | lib/inv_bicgstabl_quda.cpp:733-749 | the recompute writes y once, r[0] twice (A y, then b - A y) and x once (cleared), and no other vector |
| Solver.BiCGstabL.Checkpoint | lib/inv_bicgstabl_quda.cpp:728-758 | the loop breaks iff (maxiter reached or r2 < stop) and sloppy_converge; otherwise it recomputes iff one of those holds or reliable() fires; a recompute appends exactly the four recompute effects, sets sigma[0] = r2 = \|b - A y\|^2 and rNorm = maxrr = maxrx = sqrt(r2) and disarms the worker; without one the log, sigma, r2 and the worker are unchanged; reliable() sets rNorm = sqrt(r2) and raises the maxima to it, and when it is not called they are unchanged |
| Solver.BiCGstabL.Iterate | lib/inv_bicgstabl_quda.cpp:649-762 | total_iter = L times the completed iterations (a breaking iteration adds nothing); rUpdate is the number of iterations, listed in ascending order, whose check recomputed the residual; the loop ends converged or at maxiter, or breaks sloppily below stop; it overshoots maxiter by less than L; a fixed iteration runs at most once and never breaks |
| Control.Preamble | lib/inv_bicgstabl_quda.cpp:479-618 | the early return on a zero source happens iff b2 == 0, the iteration is not fixed, and no null vector is computed from a guess; it is x = b without a null vector request and an error with one; a fixed iteration starts with r2 = 1 and stop = 0; otherwise r2 is the guess residual or b2, and stop = stopping(b2), where b2 becomes the guess residual for a zero source |
| Solver.BiCGstabL.Setup | lib/inv_bicgstabl_quda.cpp:605-632 | sigma[0] = \|r[0]\|^2, rho0 = 1, alpha = 0, omega = 1, pipeline copied, and a fresh worker in U mode with j_max = 0 and n_update = stencil steps |
| Solver.BiCGstabL.Solve | lib/inv_bicgstabl_quda.cpp:432-782 | an early return is exactly the preamble's outcome (x = b on a zero source, nothing on the error); otherwise the solve finishes converged or exceeded, or breaks below stop; rUpdate counts the recomputing iterations; the exceeded warning fires iff total_iter >= maxiter; the last effect is x += y |

## Left out

- The Eigen LDLT solve (lines 62-64) is a parameter `ldltSolve` of `ComputeMR`. The model requires only that its result has the length of the right-hand side.
- Floating point. All arithmetic is exact over `real`, so rounding, and the rounding difference between the fused and unfused Gram-Schmidt paths, are not modelled.
- `sqrt`, `norm2(b)`, the residual norm of the initial guess, `stopping()` and `convergence()` are passed in as parameters. `convergence(r2, 0, stop, 0)` is an arbitrary predicate of `r2` and `stop`.
- The BLAS kernels and the operator are recorded only as effects in the log. Their numerical result is visible only through the inner-product oracle.
- The vector operations of the preamble are outside the log: the initial residual, the copies into `y`, zeroing `u[0]` and `r[1..L]`, and the precision copies. The zero-source return records its `x = b` copy.
- Deflation and the eigensolver (lines 489-548), the heavy-quark residual, profiling, flop counting and all printing or warning output are left out. The warning appears only as the `exceeded` flag of the outcome.
- The true-residual epilogue after line 783, `param.true_res`, `param.secs`, `param.gflops`, and the accumulation into `param.iter` are left out. `Outcome.Finished.totalIter` is the value added to `param.iter`.
- Mixed precision and field aliasing: `r[0]` and `r_full`, `x` and `x_sloppy`, and the copies between precisions are one vector each.
- `errorQuda` ends the program; it is modelled as the outcome `NullVectorError`, with the log unchanged.
- Cx.Div and Cx.DivReal: a breakdown divides by zero (a zero `sigma`, `rho` or `<r0, u>`), where the floating-point code produces inf or NaN and carries it on. The model gives `Zero` there, so the values after a breakdown differ from the source's; nothing excludes a breakdown.
- BlockMR.DotBuffer: the layout of the fused buffer (entry `i*(L+1)+j` holds `<r[i+1], r[j]>`) is inferred from its unpacking at lines 47-53; the kernel that fills it, `blas::cDotProduct` on vector sets, is not part of this model.
- The `dslash::aux_worker` hook and its overlap with communication are left out. `MatSloppy` assumes that every operator application calls the armed worker's `apply()` exactly `n_update` times (the stencil steps), synchronously, before the matvec result is produced.
- The stream parameter of `apply()` is ignored, as in the source.
- Scheduler.BiCGstabLUpdate.constructor: requires the shared counter to be in `[0, n_update)`. In the source this holds because `count` is only ever advanced by `apply()` with the same `n_update`.
- Scheduler.BiCGstabLUpdate.Apply: integers are unbounded, so an overflow of `count * j_max` in `int` is not modelled; it cannot occur for `j_max <= n_krylov`.
- Solver.BiCGstabL.UpdateR: the batched `caxpy` of one chunk is logged as one `Caxpy` per source vector, in order. In exact arithmetic this gives the same `r[j]`, because `r[j]` is never one of its own sources.
- Solver.BiCGstabL.OuterIteration: states only what the loop needs of one pass. What the pass does is stated by `BiCGAndMR`, `ResidualNorm` and `Checkpoint`, which it calls in that order.
- Solver.BiCGstabL.Iterate: the list of recomputing iterations is ghost bookkeeping kept by the loop itself; the loop does not state the history each iteration appends.
- Solver.BiCGstabL.Solve: does not state the final solution vector, which depends on the opaque numerics. It states the outcome, the counters and the final `x += y`.
