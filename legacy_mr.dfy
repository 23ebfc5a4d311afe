/**
 * The legacy MR part (legacyComputeMR), on values: the history its
 * Gram-Schmidt loop leaves behind, what each of its L steps establishes,
 * and the three vector updates that close it.
 */
module LegacyMR {
  import opened Cx
  import opened Vectors
  import opened GramSchmidt

  /**
   * The sweeps of the j loop, columns 1..m in turn: r[j] -= tau_{i,j} r[i]
   * for i = 1..k-1 with k = Reach(pipeline, j), for j = 1..m.
   */
  function OrthoLog(tau: seq<Complex>, L: nat, m: nat, pipeline: int): seq<Effect>
    requires |tau| == (L + 1) * (L + 1) && m <= L
  {
    if m == 0 then []
    else OrthoLog(tau, L, m - 1, pipeline) + GSweep(Column(tau, L, m), m, 1, Reach(pipeline, m))
  }

  /** The history reads columns 1..m of tau only. */
  lemma {:induction false} OrthoLogFrame(t1: seq<Complex>, t2: seq<Complex>, L: nat, m: nat, pipeline: int)
    requires |t1| == |t2| == (L + 1) * (L + 1) && m <= L
    requires forall c :: 1 <= c <= m ==> Column(t1, L, c) == Column(t2, L, c)
    ensures OrthoLog(t1, L, m, pipeline) == OrthoLog(t2, L, m, pipeline)
  {
    if m > 0 {
      OrthoLogFrame(t1, t2, L, m - 1, pipeline);
    }
  }

  /**
   * The Gram-Schmidt loop writes r[j] exactly Reach(pipeline, j) - 1 times
   * (j-1 times when pipeline >= 0), for j = 1..m, and writes no other
   * vector (x, u and r[0] are untouched).
   */
  lemma {:induction false} OrthoLogWrites(tau: seq<Complex>, L: nat, m: nat, pipeline: int, v: Vector)
    requires |tau| == (L + 1) * (L + 1) && m <= L
    ensures CountWrites(OrthoLog(tau, L, m, pipeline), v)
            == if v.R? && 1 <= v.i <= m then Reach(pipeline, v.i) - 1 else 0
  {
    if m > 0 {
      var k := Reach(pipeline, m);
      OrthoLogWrites(tau, L, m - 1, pipeline, v);
      GSweepWrites(Column(tau, L, m), m, 1, k, v);
      CountWritesAppend(OrthoLog(tau, L, m - 1, pipeline), GSweep(Column(tau, L, m), m, 1, k), v);
    }
  }

  /**
   * Step j of the j loop is done: entries 1..k-1 of column j of tau, for
   * k = Reach(pipeline, j), hold the Gram-Schmidt coefficients of r[j]
   * (taken after the sweeps of columns 1..j-1, with chunks of width
   * Width(pipeline)), sigma_j = |r[j]|^2 and gamma'_j = <r[j], r[0]> / sigma_j,
   * both once r[j] is orthogonalised.
   */
  ghost predicate StepDone(tau: seq<Complex>, sigma: seq<real>, gammaPrime: seq<Complex>, L: nat, j: nat, pipeline: int,
                           h0: seq<Effect>, dot: InnerProduct)
    requires |tau| == (L + 1) * (L + 1) && |sigma| == |gammaPrime| == L + 1 && 1 <= j <= L
  {
    ColumnDone(Column(tau, L, j), sigma, j, Reach(pipeline, j), Width(pipeline), h0 + OrthoLog(tau, L, j - 1, pipeline), dot)
    && sigma[j] == dot(h0 + OrthoLog(tau, L, j, pipeline), R(j), R(j)).re
    && gammaPrime[j] == DivReal(dot(h0 + OrthoLog(tau, L, j, pipeline), R(j), R(0)), sigma[j])
  }

  /**
   * Step j completes: after the sweeps of columns 1..j-1 (read from the
   * earlier tau t0, whose columns 1..j-1 are still those of t1), r[j] is
   * swept with column j of t1 up to Reach(pipeline, j), that column is
   * complete, and sigma_j and gamma'_j are then taken from the new r[j].
   */
  lemma StepDoneIntro(t0: seq<Complex>, t1: seq<Complex>, s0: seq<real>, s1: seq<real>, g: seq<Complex>,
                      L: nat, j: nat, pipeline: int, h0: seq<Effect>, log: seq<Effect>, dot: InnerProduct)
    requires |t0| == |t1| == (L + 1) * (L + 1) && |s0| == |s1| == |g| == L + 1 && 1 <= j <= L
    requires forall c :: 1 <= c < j ==> Column(t1, L, c) == Column(t0, L, c)
    requires log == h0 + OrthoLog(t0, L, j - 1, pipeline) + GSweep(Column(t1, L, j), j, 1, Reach(pipeline, j))
    requires ColumnDone(Column(t1, L, j), s0, j, Reach(pipeline, j), Width(pipeline), h0 + OrthoLog(t0, L, j - 1, pipeline), dot)
    requires s1 == s0[j := dot(log, R(j), R(j)).re]
    requires g[j] == DivReal(dot(log, R(j), R(0)), s1[j])
    ensures log == h0 + OrthoLog(t1, L, j, pipeline)
    ensures StepDone(t1, s1, g, L, j, pipeline, h0, dot)
  {
    var k := Reach(pipeline, j);
    OrthoLogFrame(t0, t1, L, j - 1, pipeline);
    assert s0[1..k] == s1[1..k];
    ColumnDoneFrame(Column(t1, L, j), Column(t1, L, j), s0, s1, j, k, Width(pipeline),
                    h0 + OrthoLog(t1, L, j - 1, pipeline), dot);
  }

  /** Step j stays done while columns 1..j of tau, sigma_1..sigma_j and gamma'_j stay as they are. */
  lemma StepDoneFrame(t1: seq<Complex>, t2: seq<Complex>, s1: seq<real>, s2: seq<real>,
                      g1: seq<Complex>, g2: seq<Complex>, L: nat, j: nat, pipeline: int, h0: seq<Effect>, dot: InnerProduct)
    requires |t1| == |t2| == (L + 1) * (L + 1) && |s1| == |s2| == |g1| == |g2| == L + 1 && 1 <= j <= L
    requires forall c :: 1 <= c <= j ==> Column(t1, L, c) == Column(t2, L, c)
    requires s1[1..j + 1] == s2[1..j + 1] && g1[j] == g2[j]
    requires StepDone(t1, s1, g1, L, j, pipeline, h0, dot)
    ensures StepDone(t2, s2, g2, L, j, pipeline, h0, dot)
  {
    var k := Reach(pipeline, j);
    OrthoLogFrame(t1, t2, L, j - 1, pipeline);
    OrthoLogFrame(t1, t2, L, j, pipeline);
    assert s1[j] == s1[1..j + 1][j - 1];
    assert s2[j] == s2[1..j + 1][j - 1];
    assert s1[1..k] == s1[1..j + 1][..k - 1];
    assert s2[1..k] == s2[1..j + 1][..k - 1];
    ColumnDoneFrame(Column(t1, L, j), Column(t2, L, j), s1, s2, j, k, Width(pipeline),
                    h0 + OrthoLog(t1, L, j - 1, pipeline), dot);
  }

  /** Steps 1..m of the j loop are done. */
  ghost predicate StepsDone(tau: seq<Complex>, sigma: seq<real>, gammaPrime: seq<Complex>, L: nat, m: nat, pipeline: int,
                            h0: seq<Effect>, dot: InnerProduct)
    requires |tau| == (L + 1) * (L + 1) && |sigma| == |gammaPrime| == L + 1 && m <= L
  {
    forall j :: 1 <= j <= m ==> StepDone(tau, sigma, gammaPrime, L, j, pipeline, h0, dot)
  }

  /**
   * Steps 1..m stay done while columns 1..m of tau, sigma_1..sigma_m and
   * gamma'_1..gamma'_m stay as they are, and step m+1 adds itself.
   */
  lemma StepsDoneExtend(t1: seq<Complex>, t2: seq<Complex>, s1: seq<real>, s2: seq<real>,
                        g1: seq<Complex>, g2: seq<Complex>, L: nat, m: nat, pipeline: int, h0: seq<Effect>, dot: InnerProduct)
    requires |t1| == |t2| == (L + 1) * (L + 1) && |s1| == |s2| == |g1| == |g2| == L + 1 && m < L
    requires forall c :: 1 <= c <= m ==> Column(t1, L, c) == Column(t2, L, c)
    requires forall i :: 1 <= i <= m ==> s1[i] == s2[i] && g1[i] == g2[i]
    requires StepsDone(t1, s1, g1, L, m, pipeline, h0, dot)
    requires StepDone(t2, s2, g2, L, m + 1, pipeline, h0, dot)
    ensures StepsDone(t2, s2, g2, L, m + 1, pipeline, h0, dot)
  {
    forall k | 1 <= k <= m
      ensures StepDone(t2, s2, g2, L, k, pipeline, h0, dot)
    {
      assert s1[1..k + 1] == s2[1..k + 1];
      StepDoneFrame(t1, t2, s1, s2, g1, g2, L, k, pipeline, h0, dot);
    }
  }

  /** The coefficients of the u update: u[0] -= gamma_i u[i] for i = 1..L. */
  function LegacyUCoeffs(gamma: seq<Complex>, L: nat): (c: seq<Complex>)
    requires |gamma| == L + 1
    ensures |c| == L
  {
    seq(L, i requires 0 <= i < L => Neg(gamma[i + 1]))
  }

  /**
   * The coefficients with which x is updated from r[0..L]: gamma_1 for r[0],
   * gamma''_i for r[i] (1 <= i < L) and a padding zero for r[L].
   */
  function LegacyXCoeffs(gamma: seq<Complex>, gammaPrimePrime: seq<Complex>, L: nat): (c: seq<Complex>)
    requires |gamma| == |gammaPrimePrime| == L + 1 && L >= 1
    ensures |c| == L + 1
  {
    seq(L + 1, i requires 0 <= i < L + 1 => if i == 0 then gamma[1] else if i == L then Zero else gammaPrimePrime[i])
  }

  /** The coefficients with which r[0] is updated from r[0..L]: a padding zero, then -gamma'_i. */
  function LegacyRCoeffs(gammaPrime: seq<Complex>, L: nat): (c: seq<Complex>)
    requires |gammaPrime| == L + 1
    ensures |c| == L + 1
  {
    seq(L + 1, i requires 0 <= i < L + 1 => if i == 0 then Zero else Neg(gammaPrime[i]))
  }

  /** The two kernels that close legacyComputeMR: the batched caxpy into u[0], then caxpyBxpz. */
  function LegacyUpdateEffects(gamma: seq<Complex>, gammaPrime: seq<Complex>, gammaPrimePrime: seq<Complex>,
                               L: nat): seq<Effect>
    requires |gamma| == |gammaPrime| == |gammaPrimePrime| == L + 1 && L >= 1
  {
    [ MultiCaxpy(LegacyUCoeffs(gamma, L), URange(1, L + 1), U(0)),
      CaxpyBxpz(LegacyXCoeffs(gamma, gammaPrimePrime, L), RRange(0, L + 1), X, LegacyRCoeffs(gammaPrime, L), R(0)) ]
  }

  /** Entry i-1 of the u coefficients goes with u[i]. */
  lemma LegacyUCoeffsAt(gamma: seq<Complex>, L: nat, src: Vector)
    requires |gamma| == L + 1
    ensures CoefOf(LegacyUCoeffs(gamma, L), URange(1, L + 1), src)
            == if src.U? && 1 <= src.i <= L then Neg(gamma[src.i]) else Zero
  {
    CoefOfURange(LegacyUCoeffs(gamma, L), 1, L + 1, src);
  }

  /** The closing kernels write u[0], then x and r[0], and nothing else. */
  lemma LegacyUpdateWrites(gamma: seq<Complex>, gammaPrime: seq<Complex>, gammaPrimePrime: seq<Complex>, L: nat)
    requires |gamma| == |gammaPrime| == |gammaPrimePrime| == L + 1 && L >= 1
    ensures var es := LegacyUpdateEffects(gamma, gammaPrime, gammaPrimePrime, L);
      |es| == 2 && Writes(es[0]) == {U(0)} && Writes(es[1]) == {X, R(0)}
  {
  }

  /** The u update: u[0] -= sum_{i=1..L} gamma_i u[i]. */
  lemma LegacyUUpdate(gamma: seq<Complex>, gammaPrime: seq<Complex>, gammaPrimePrime: seq<Complex>, L: nat, src: Vector)
    requires |gamma| == |gammaPrime| == |gammaPrimePrime| == L + 1 && L >= 1
    ensures var e := LegacyUpdateEffects(gamma, gammaPrime, gammaPrimePrime, L)[0];
      Contribution(e, U(0), src) == if src.U? && 1 <= src.i <= L then Neg(gamma[src.i]) else Zero
  {
    LegacyUCoeffsAt(gamma, L, src);
    MultiCaxpyContribution(LegacyUCoeffs(gamma, L), URange(1, L + 1), U(0), src);
  }

  /** Entry i of the x coefficients goes with r[i]. */
  lemma LegacyXCoeffsAt(gamma: seq<Complex>, gammaPrimePrime: seq<Complex>, L: nat, src: Vector)
    requires |gamma| == |gammaPrimePrime| == L + 1 && L >= 1
    ensures CoefOf(LegacyXCoeffs(gamma, gammaPrimePrime, L), RRange(0, L + 1), src)
            == if src == R(0) then gamma[1] else if src.R? && 1 <= src.i < L then gammaPrimePrime[src.i] else Zero
  {
    CoefOfRRange(LegacyXCoeffs(gamma, gammaPrimePrime, L), 0, L + 1, src);
  }

  /** The x update: x += gamma_1 r[0] + sum_{i=1..L-1} gamma''_i r[i]; r[L] is not used. */
  lemma LegacyXUpdate(gamma: seq<Complex>, gammaPrime: seq<Complex>, gammaPrimePrime: seq<Complex>, L: nat, src: Vector)
    requires |gamma| == |gammaPrime| == |gammaPrimePrime| == L + 1 && L >= 1
    ensures var e := LegacyUpdateEffects(gamma, gammaPrime, gammaPrimePrime, L)[1];
      Contribution(e, X, src)
         == if src == R(0) then gamma[1] else if src.R? && 1 <= src.i < L then gammaPrimePrime[src.i] else Zero
  {
    var c := LegacyXCoeffs(gamma, gammaPrimePrime, L);
    LegacyXCoeffsAt(gamma, gammaPrimePrime, L, src);
    CaxpyBxpzContribution(c, RRange(0, L + 1), X, LegacyRCoeffs(gammaPrime, L), R(0), src);
  }

  /** The r update: r[0] -= sum_{i=1..L} gamma'_i r[i]; r[0] itself is not used. */
  lemma LegacyRUpdate(gamma: seq<Complex>, gammaPrime: seq<Complex>, gammaPrimePrime: seq<Complex>, L: nat, src: Vector)
    requires |gamma| == |gammaPrime| == |gammaPrimePrime| == L + 1 && L >= 1
    ensures var e := LegacyUpdateEffects(gamma, gammaPrime, gammaPrimePrime, L)[1];
      Contribution(e, R(0), src) == if src.R? && 1 <= src.i <= L then Neg(gammaPrime[src.i]) else Zero
  {
    var c := LegacyRCoeffs(gammaPrime, L);
    CoefOfRRange(c, 0, L + 1, src);
    CaxpyBxpzContribution(LegacyXCoeffs(gamma, gammaPrimePrime, L), RRange(0, L + 1), X, c, R(0), src);
  }
}
