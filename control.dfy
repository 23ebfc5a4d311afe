/**
 * The parameters the outer loop of the solver reads and what a solve
 * reports back.
 */
module Control {

  /** The fields of QudaInvertParam that the control skeleton of operator() reads. */
  datatype SolverParam = SolverParam(
    maxiter: int,
    sloppyConverge: bool,
    computeTrueRes: bool,
    /** compute_null_vector != QUDA_COMPUTE_NULL_VECTOR_NO */
    computeNullVector: bool,
    /** use_init_guess == QUDA_USE_INIT_GUESS_YES */
    useInitGuess: bool,
    /** delta, the reliable-update threshold */
    delta: real,
    pipeline: int)

  /** How a call of operator() ends. */
  datatype Outcome =
      /** A zero source with no null vector requested: x = b is returned at once. */
    | ZeroSource
      /** A zero source with a null vector requested but no initial guess: errorQuda. */
    | NullVectorError
      /**
       * The iteration ran: total_iter (what is added to param.iter), the
       * number of reliable updates, the last r2, and whether the
       * "Exceeded maximum iterations" warning is issued.
       */
    | Finished(totalIter: int, rUpdate: nat, r2: real, exceeded: bool)

  /**
   * A fixed iteration: one outer iteration of exactly n_krylov steps, with
   * no residual norms computed, as an inner solver that converges sloppily.
   */
  predicate FixedIteration(param: SolverParam, nKrylov: nat)
  {
    param.sloppyConverge && nKrylov == param.maxiter && !param.computeTrueRes
  }

  /** What the preamble leaves: an early return, or the initial r2 and stop of the iteration. */
  datatype Start = Early(outcome: Outcome) | Run(r2: real, stop: real)

  /**
   * The preamble of operator(): b2 = |b|^2 (1 on a fixed iteration, where
   * no norm is taken), r2 = |b - A x|^2 with an initial guess (b2 as a dummy
   * on a fixed iteration) and b2 without one; on a zero source x = b is
   * returned unless a null vector is requested, in which case b2 = r2 with
   * an initial guess and an error without one; stop = stopping(b2), 0 on a
   * fixed iteration. The norms and stopping() are parameters.
   */
  function Preamble(param: SolverParam, nKrylov: nat, bNorm2: real, guessResidual2: real,
                    stopping: real -> real): (s: Start)
    ensures s.Early? <==> !FixedIteration(param, nKrylov) && bNorm2 == 0.0
                          && !(param.computeNullVector && param.useInitGuess)
    ensures s.Early? ==> (s.outcome == ZeroSource <==> !param.computeNullVector)
                         && (s.outcome == NullVectorError <==> param.computeNullVector)
    ensures FixedIteration(param, nKrylov) ==> s == Run(1.0, 0.0)
    ensures s.Run? && !FixedIteration(param, nKrylov) ==>
              s.r2 == (if param.useInitGuess then guessResidual2 else bNorm2)
              && s.stop == stopping(if bNorm2 == 0.0 then guessResidual2 else bNorm2)
  {
    var fixed := FixedIteration(param, nKrylov);
    var b2 := if !fixed then bNorm2 else 1.0;
    var r2 := if param.useInitGuess && !fixed then guessResidual2 else b2;
    if b2 == 0.0 && !param.computeNullVector then Early(ZeroSource)
    else if b2 == 0.0 && !param.useInitGuess then Early(NullVectorError)
    else
      var b2' := if b2 == 0.0 then r2 else b2;
      Run(r2, if !fixed then stopping(b2') else 0.0)
  }
}
