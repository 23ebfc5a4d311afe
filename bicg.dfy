/**
 * The BiCG part of one outer iteration, on values: the kernels step j of the
 * j loop issues, with the updates of lower indices handed to the
 * work-hiding worker, and the order in which each vector receives them.
 */
module BiCG {
  import opened Cx
  import opened Vectors
  import opened Slices

  /**
   * The first half of step j: u[j] = r[j] - beta*u[j] at once, the worker's
   * u[i] = r[i] - beta*u[i] for i < j during the operator, then u[j+1] = A u[j].
   */
  function BiCGUHalf(j: nat, beta: Complex): seq<Effect>
  {
    [Caxpby(One, R(j), Neg(beta), U(j))] + USweep(0, j, beta) + [MatVec(U(j + 1), U(j))]
  }

  /**
   * The second half of step j: r[j] -= alpha*u[j+1] at once, the worker's
   * x += alpha*u[0] and r[i] -= alpha*u[i+1] for i < j during the operator,
   * then r[j+1] = A r[j].
   */
  function BiCGRHalf(j: nat, alpha: Complex): seq<Effect>
  {
    [Caxpy(Neg(alpha), U(j + 1), R(j))] + Synchronous(UpdateR, j, alpha, Zero) + [MatVec(R(j + 1), R(j))]
  }

  /** Step j of the BiCG part as the paper writes it: for i = 0..j, u[i] = r[i] - beta*u[i]; u[j+1] = A u[j]. */
  function PaperUHalf(j: nat, beta: Complex): seq<Effect>
  {
    USweep(0, j + 1, beta) + [MatVec(U(j + 1), U(j))]
  }

  /** ... then x += alpha*u[0]; for i = 0..j, r[i] -= alpha*u[i+1]; r[j+1] = A r[j]. */
  function PaperRHalf(j: nat, alpha: Complex): seq<Effect>
  {
    [XUpdate(alpha)] + RSweep(0, j + 1, alpha) + [MatVec(R(j + 1), R(j))]
  }

  lemma {:induction false} UpdatesUSweep(lo: nat, hi: nat, beta: Complex, v: Vector)
    requires lo <= hi
    ensures Updates(USweep(lo, hi, beta), v)
            == if v.U? && lo <= v.i < hi then [Caxpby(One, R(v.i), Neg(beta), U(v.i))] else []
    decreases hi - lo
  {
    var es := USweep(lo, hi, beta);
    if lo < hi {
      assert es[..|es| - 1] == USweep(lo, hi - 1, beta);
      UpdatesUSweep(lo, hi - 1, beta, v);
    }
  }

  lemma {:induction false} UpdatesRSweep(lo: nat, hi: nat, alpha: Complex, v: Vector)
    requires lo <= hi
    ensures Updates(RSweep(lo, hi, alpha), v)
            == if v.R? && lo <= v.i < hi then [Caxpy(Neg(alpha), U(v.i + 1), R(v.i))] else []
    decreases hi - lo
  {
    var es := RSweep(lo, hi, alpha);
    if lo < hi {
      assert es[..|es| - 1] == RSweep(lo, hi - 1, alpha);
      UpdatesRSweep(lo, hi - 1, alpha, v);
    }
  }

  lemma UpdatesSingle(e: Effect, v: Vector)
    ensures Updates([e], v) == if v in Writes(e) then [e] else []
  {
    assert [e][..0] == [];
  }

  /**
   * Hiding the updates of u[0..j-1] in the operator changes no vector's
   * history: every vector receives the same updates, in the same order, as
   * in the paper's loop (only u[j]'s update moves ahead of the others,
   * which neither read nor write u[j]).
   */
  lemma UHalfAsPaper(j: nat, beta: Complex, v: Vector)
    ensures Updates(BiCGUHalf(j, beta), v) == Updates(PaperUHalf(j, beta), v)
  {
    var uj := Caxpby(One, R(j), Neg(beta), U(j));
    var mv := MatVec(U(j + 1), U(j));
    var sweep := USweep(0, j, beta);
    UpdatesAppend([uj] + sweep, [mv], v);
    UpdatesAppend([uj], sweep, v);
    USweepSnoc(j, beta);
    UpdatesAppend(sweep + [uj], [mv], v);
    UpdatesAppend(sweep, [uj], v);
    UHalfDisjoint(j, beta, v);
    SwapDisjoint(Updates([uj], v), Updates(sweep, v), Updates([mv], v));
  }

  lemma SwapDisjoint(a: seq<Effect>, b: seq<Effect>, c: seq<Effect>)
    requires a == [] || b == []
    ensures a + b + c == b + a + c
  {
  }

  /** The paper's sweep over u[0..j] is the worker's sweep over u[0..j-1] followed by u[j]'s update. */
  lemma USweepSnoc(j: nat, beta: Complex)
    ensures USweep(0, j + 1, beta) == USweep(0, j, beta) + [Caxpby(One, R(j), Neg(beta), U(j))]
  {
    USweepSplit(0, j, j + 1, beta);
    assert USweep(j, j + 1, beta) == [Caxpby(One, R(j), Neg(beta), U(j))];
  }

  /** Only u[j] receives u[j]'s update, and the worker's sweep does not touch u[j]. */
  lemma UHalfDisjoint(j: nat, beta: Complex, v: Vector)
    ensures Updates([Caxpby(One, R(j), Neg(beta), U(j))], v) == [] || Updates(USweep(0, j, beta), v) == []
  {
    UpdatesSingle(Caxpby(One, R(j), Neg(beta), U(j)), v);
    UpdatesUSweep(0, j, beta, v);
  }

  /** Each vector's updates in the second half, piece by piece. */
  lemma RHalfPieces(j: nat, alpha: Complex, v: Vector)
    ensures Updates(BiCGRHalf(j, alpha), v)
            == Updates([Caxpy(Neg(alpha), U(j + 1), R(j))], v) + Updates([XUpdate(alpha)] + RSweep(0, j, alpha), v)
               + Updates([MatVec(R(j + 1), R(j))], v)
    ensures Updates(PaperRHalf(j, alpha), v)
            == Updates([XUpdate(alpha)] + RSweep(0, j, alpha), v) + Updates([Caxpy(Neg(alpha), U(j + 1), R(j))], v)
               + Updates([MatVec(R(j + 1), R(j))], v)
  {
    var rj := Caxpy(Neg(alpha), U(j + 1), R(j));
    var xu := XUpdate(alpha);
    var mv := MatVec(R(j + 1), R(j));
    var early := [xu] + RSweep(0, j, alpha);
    assert Synchronous(UpdateR, j, alpha, Zero) == early;
    UpdatesAppend([rj] + early, [mv], v);
    UpdatesAppend([rj], early, v);
    RSweepSplit(0, j, j + 1, alpha);
    assert RSweep(j, j + 1, alpha) == [rj];
    assert [xu] + RSweep(0, j + 1, alpha) == early + [rj];
    UpdatesAppend(early + [rj], [mv], v);
    UpdatesAppend(early, [rj], v);
  }

  /**
   * The same for the second half: r[j]'s update moves ahead of x's and of
   * r[0..j-1]'s, which neither read nor write r[j]; each vector's own
   * history is that of the paper.
   */
  lemma RHalfAsPaper(j: nat, alpha: Complex, v: Vector)
    ensures Updates(BiCGRHalf(j, alpha), v) == Updates(PaperRHalf(j, alpha), v)
  {
    RHalfPieces(j, alpha, v);
    RHalfDisjoint(j, alpha, v);
  }

  /** Only r[j] receives r[j]'s update, and neither x's update nor the worker's sweep touches r[j]. */
  lemma RHalfDisjoint(j: nat, alpha: Complex, v: Vector)
    ensures Updates([Caxpy(Neg(alpha), U(j + 1), R(j))], v) == []
            || Updates([XUpdate(alpha)] + RSweep(0, j, alpha), v) == []
  {
    UpdatesSingle(Caxpy(Neg(alpha), U(j + 1), R(j)), v);
    UpdatesAppend([XUpdate(alpha)], RSweep(0, j, alpha), v);
    UpdatesSingle(XUpdate(alpha), v);
    UpdatesRSweep(0, j, alpha, v);
  }

  /** The paper's first half, vector by vector. */
  lemma PaperUHalfUpdates(j: nat, beta: Complex, v: Vector)
    ensures |Updates(PaperUHalf(j, beta), v)| == if v.U? && v.i <= j + 1 then 1 else 0
  {
    UpdatesAppend(USweep(0, j + 1, beta), [MatVec(U(j + 1), U(j))], v);
    UpdatesUSweep(0, j + 1, beta, v);
    UpdatesSingle(MatVec(U(j + 1), U(j)), v);
  }

  /** The paper's second half, vector by vector. */
  lemma PaperRHalfUpdates(j: nat, alpha: Complex, v: Vector)
    ensures |Updates(PaperRHalf(j, alpha), v)| == if v == X || (v.R? && v.i <= j + 1) then 1 else 0
  {
    UpdatesAppend([XUpdate(alpha)] + RSweep(0, j + 1, alpha), [MatVec(R(j + 1), R(j))], v);
    XAndRSweepUpdates(j + 1, alpha, v);
    UpdatesSingle(MatVec(R(j + 1), R(j)), v);
  }

  /** x += alpha*u[0] followed by the sweep over r[0..hi-1] updates each of x and r[0..hi-1] once. */
  lemma XAndRSweepUpdates(hi: nat, alpha: Complex, v: Vector)
    ensures |Updates([XUpdate(alpha)] + RSweep(0, hi, alpha), v)| == if v == X || (v.R? && v.i < hi) then 1 else 0
  {
    UpdatesAppend([XUpdate(alpha)], RSweep(0, hi, alpha), v);
    UpdatesRSweep(0, hi, alpha, v);
    UpdatesSingle(XUpdate(alpha), v);
  }

  /**
   * Step j of the BiCG part writes x once, each of u[0..j+1] and r[0..j+1]
   * exactly once, and nothing else: the worker neither skips nor repeats an
   * index.
   */
  lemma BiCGStepWrites(j: nat, alpha: Complex, beta: Complex, v: Vector)
    ensures CountWrites(BiCGUHalf(j, beta) + BiCGRHalf(j, alpha), v)
            == if v == X || ((v.U? || v.R?) && v.i <= j + 1) then 1 else 0
  {
    CountWritesAppend(BiCGUHalf(j, beta), BiCGRHalf(j, alpha), v);
    UHalfAsPaper(j, beta, v);
    RHalfAsPaper(j, alpha, v);
    PaperUHalfUpdates(j, beta, v);
    PaperRHalfUpdates(j, alpha, v);
  }

  /**
   * The effects of steps 0..m-1 of the BiCG part, step j with the
   * coefficients alphas[j] and betas[j] it computed.
   */
  function BiCGLog(m: nat, alphas: seq<Complex>, betas: seq<Complex>): seq<Effect>
    requires m <= |alphas| && m <= |betas|
  {
    if m == 0 then []
    else BiCGLog(m - 1, alphas, betas) + BiCGUHalf(m - 1, betas[m - 1]) + BiCGRHalf(m - 1, alphas[m - 1])
  }

  /** The log of steps 0..m-1 reads the coefficients of those steps only. */
  lemma {:induction false} BiCGLogFrame(m: nat, a1: seq<Complex>, b1: seq<Complex>, a2: seq<Complex>, b2: seq<Complex>)
    requires m <= |a1| && m <= |b1| && m <= |a2| && m <= |b2|
    requires a1[..m] == a2[..m] && b1[..m] == b2[..m]
    ensures BiCGLog(m, a1, b1) == BiCGLog(m, a2, b2)
  {
    if m > 0 {
      assert a1[..m - 1] == a1[..m][..m - 1] && a2[..m - 1] == a2[..m][..m - 1];
      assert b1[..m - 1] == b1[..m][..m - 1] && b2[..m - 1] == b2[..m][..m - 1];
      assert a1[m - 1] == a1[..m][m - 1] && a2[m - 1] == a2[..m][m - 1];
      assert b1[m - 1] == b1[..m][m - 1] && b2[m - 1] == b2[..m][m - 1];
      BiCGLogFrame(m - 1, a1, b1, a2, b2);
    }
  }

  /** One more step appended to the log. */
  lemma BiCGLogSnoc(m: nat, alphas: seq<Complex>, betas: seq<Complex>, a: Complex, b: Complex)
    requires |alphas| == |betas| == m
    ensures BiCGLog(m + 1, alphas + [a], betas + [b]) == BiCGLog(m, alphas, betas) + BiCGUHalf(m, b) + BiCGRHalf(m, a)
  {
    assert (alphas + [a])[..m] == alphas[..m] && (betas + [b])[..m] == betas[..m];
    BiCGLogFrame(m, alphas + [a], betas + [b], alphas, betas);
  }

  /** The same, after a history h0 that precedes the BiCG part. */
  lemma BiCGLogExtend(h0: seq<Effect>, m: nat, alphas: seq<Complex>, betas: seq<Complex>, a: Complex, b: Complex)
    requires |alphas| == |betas| == m
    ensures h0 + BiCGLog(m + 1, alphas + [a], betas + [b])
            == ((h0 + BiCGLog(m, alphas, betas)) + BiCGUHalf(m, b)) + BiCGRHalf(m, a)
  {
    BiCGLogSnoc(m, alphas, betas, a, b);
  }

  /**
   * Step j of the BiCG recurrence, with h the history before the step:
   * rho_j = <r0, r[j]>, beta_j = alpha_{j-1} rho_j / rho_{j-1} and
   * alpha_j = rho_j / <r0, u[j+1]>, the last taken once u[j+1] = A u[j];
   * for j = 0, alpha_{-1} and rho_{-1} are alpha0 and rho00, the values
   * the BiCG part starts from.
   */
  ghost predicate StepRecurrence(h0: seq<Effect>, dot: InnerProduct, alpha0: Complex, rho00: Complex,
                                 alphas: seq<Complex>, betas: seq<Complex>, rhos: seq<Complex>, j: nat)
    requires j < |alphas| && |alphas| == |betas| == |rhos|
  {
    var h := h0 + BiCGLog(j, alphas, betas);
    rhos[j] == dot(h, Shadow, R(j))
    && betas[j] == Div(Mul(if j == 0 then alpha0 else alphas[j - 1], rhos[j]), if j == 0 then rho00 else rhos[j - 1])
    && alphas[j] == Div(rhos[j], dot(h + BiCGUHalf(j, betas[j]), Shadow, U(j + 1)))
  }

  /** Every step so far follows the recurrence. */
  ghost predicate Recurrence(h0: seq<Effect>, dot: InnerProduct, alpha0: Complex, rho00: Complex,
                             alphas: seq<Complex>, betas: seq<Complex>, rhos: seq<Complex>)
    requires |alphas| == |betas| == |rhos|
  {
    forall j :: 0 <= j < |rhos| ==> StepRecurrence(h0, dot, alpha0, rho00, alphas, betas, rhos, j)
  }

  /**
   * The coefficients of step m, computed from the history the first m steps
   * leave behind and from alpha_{m-1}, rho_{m-1}, extend the recurrence.
   */
  lemma RecurrenceExtend(h0: seq<Effect>, dot: InnerProduct, alpha0: Complex, rho00: Complex,
                         alphas: seq<Complex>, betas: seq<Complex>, rhos: seq<Complex>, a: Complex, b: Complex, r: Complex)
    requires |alphas| == |betas| == |rhos|
    requires Recurrence(h0, dot, alpha0, rho00, alphas, betas, rhos)
    requires var m, h := |rhos|, h0 + BiCGLog(|rhos|, alphas, betas);
      r == dot(h, Shadow, R(m))
      && b == Div(Mul(if m == 0 then alpha0 else alphas[m - 1], r), if m == 0 then rho00 else rhos[m - 1])
      && a == Div(r, dot(h + BiCGUHalf(m, b), Shadow, U(m + 1)))
    ensures Recurrence(h0, dot, alpha0, rho00, alphas + [a], betas + [b], rhos + [r])
  {
    var m := |rhos|;
    var a', b', r' := alphas + [a], betas + [b], rhos + [r];
    forall j | 0 <= j <= m
      ensures StepRecurrence(h0, dot, alpha0, rho00, a', b', r', j)
    {
      assert a'[..j] == alphas[..j] && b'[..j] == betas[..j];
      BiCGLogFrame(j, a', b', alphas, betas);
      if j < m {
        assert StepRecurrence(h0, dot, alpha0, rho00, alphas, betas, rhos, j);
      }
    }
  }

  /**
   * Over the L steps of one BiCG part x is updated L times, u[i] and r[i]
   * once in each step j >= i (for i <= L - 1), plus once more from the operator
   * when i >= 1: in all L - i + 1 times for 1 <= i <= L and L times for i = 0.
   */
  lemma {:induction false} BiCGLogWrites(m: nat, alphas: seq<Complex>, betas: seq<Complex>, v: Vector)
    requires m <= |alphas| && m <= |betas|
    ensures CountWrites(BiCGLog(m, alphas, betas), v)
            == if v == X then m
               else if (v.U? || v.R?) && v.i <= m then (if v.i == 0 then m else m - v.i + 1)
               else 0
  {
    if m > 0 {
      BiCGLogWrites(m - 1, alphas, betas, v);
      BiCGLogStepWrites(m, alphas, betas, v);
    }
  }

  /** Step m - 1 adds one write to x and to each of u[0..m] and r[0..m]. */
  lemma BiCGLogStepWrites(m: nat, alphas: seq<Complex>, betas: seq<Complex>, v: Vector)
    requires 1 <= m <= |alphas| && m <= |betas|
    ensures CountWrites(BiCGLog(m, alphas, betas), v)
            == CountWrites(BiCGLog(m - 1, alphas, betas), v)
               + if v == X || ((v.U? || v.R?) && v.i <= m) then 1 else 0
  {
    var step := BiCGUHalf(m - 1, betas[m - 1]) + BiCGRHalf(m - 1, alphas[m - 1]);
    assert BiCGLog(m, alphas, betas) == BiCGLog(m - 1, alphas, betas) + step;
    CountWritesAppend(BiCGLog(m - 1, alphas, betas), step, v);
    BiCGStepWrites(m - 1, alphas[m - 1], betas[m - 1], v);
  }

  /**
   * The explicit residual recomputation of a reliable update: y += x_sloppy,
   * r = A y, r = b - r, x_sloppy = 0.
   */
  function RecomputeEffects(): seq<Effect>
  {
    [Caxpy(One, X, Y), MatVec(R(0), Y), Caxpby(One, B, Neg(One), R(0)), Clear(X)]
  }

  /**
   * A reliable update moves the sloppy solution into y once and then clears
   * it, and leaves r[0] = b - A y; no other vector is touched.
   */
  lemma RecomputeUpdates(v: Vector)
    ensures Updates(RecomputeEffects(), v)
            == if v == Y then [Caxpy(One, X, Y)]
               else if v == R(0) then [MatVec(R(0), Y), Caxpby(One, B, Neg(One), R(0))]
               else if v == X then [Clear(X)]
               else []
  {
    var a, b, c, d := Caxpy(One, X, Y), MatVec(R(0), Y), Caxpby(One, B, Neg(One), R(0)), Clear(X);
    assert RecomputeEffects() == [a, b] + [c] + [d];
    assert [a, b] == [a] + [b];
    UpdatesAppend([a, b] + [c], [d], v);
    UpdatesAppend([a, b], [c], v);
    UpdatesAppend([a], [b], v);
    var ua, ub, uc, ud := Updates([a], v), Updates([b], v), Updates([c], v), Updates([d], v);
    assert Updates(RecomputeEffects(), v) == ua + ub + uc + ud;
    UpdatesSingle(a, v);
    UpdatesSingle(b, v);
    UpdatesSingle(c, v);
    UpdatesSingle(d, v);
    if v == Y {
      assert ua == [a] && ub == [] && uc == [] && ud == [];
    } else if v == R(0) {
      assert ua == [] && ub == [b] && uc == [c] && ud == [];
    } else if v == X {
      assert ua == [] && ub == [] && uc == [] && ud == [d];
    } else {
      assert ua == [] && ub == [] && uc == [] && ud == [];
    }
  }
}
