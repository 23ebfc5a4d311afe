/**
 * The default MR part (computeMR), on values: the normal equations of the
 * least-squares problem min || r[0] - sum_i gamma_i r[i+1] ||, as one fused
 * block dot product delivers them, and the vector updates that use the
 * solution gamma.
 */
module BlockMR {
  import opened Cx
  import opened Vectors
  import opened Arith
  import opened GramSchmidt

  /**
   * The result of the fused block dot product of r[1..L] against r[0..L],
   * row-major with one row per left vector: entry i*(L+1)+j is <r[i+1], r[j]>.
   */
  function DotBuffer(h: seq<Effect>, dot: InnerProduct, L: nat): (buf: seq<Complex>)
    requires L >= 1
    ensures |buf| == L * (L + 1)
  {
    seq(L * (L + 1), k requires 0 <= k < L * (L + 1) => dot(h, R(k / (L + 1) + 1), R(k % (L + 1))))
  }

  /** Where <r[i+1], r[j]> sits in the buffer. */
  lemma DotBufferEntry(h: seq<Effect>, dot: InnerProduct, L: nat, i: nat, j: nat)
    requires L >= 1 && i < L && j <= L
    ensures Idx(L, i, j) < L * (L + 1)
    ensures DotBuffer(h, dot, L)[Idx(L, i, j)] == dot(h, R(i + 1), R(j))
  {
    MulMonotone(i + 1, L, L + 1);
    assert Idx(L, i, j) < (i + 1) * (L + 1) <= L * (L + 1);
    DivUnique(i, j, L + 1);
  }

  /** R^dagger R: the L x L Gram matrix of r[1..L], entry (i, j) = <r[i+1], r[j+1]>. */
  function Gram(h: seq<Effect>, dot: InnerProduct, L: nat): (g: seq<seq<Complex>>)
    ensures |g| == L && forall i :: 0 <= i < L ==> |g[i]| == L
  {
    seq(L, i requires 0 <= i < L => seq(L, j requires 0 <= j < L => dot(h, R(i + 1), R(j + 1))))
  }

  /** R^dagger r[0]: entry i = <r[i+1], r[0]>. */
  function Rhs(h: seq<Effect>, dot: InnerProduct, L: nat): (b: seq<Complex>)
    ensures |b| == L
  {
    seq(L, i requires 0 <= i < L => dot(h, R(i + 1), R(0)))
  }

  /**
   * The unpacking loops of computeMR: R_dag_R(i, j) = buf[i*(L+1) + j+1] and
   * R_dag_r0(i) = buf[i*(L+1)], which are the Gram matrix and the right-hand
   * side of the normal equations.
   */
  method Unpack(buf: seq<Complex>, L: nat, ghost h: seq<Effect>, ghost dot: InnerProduct)
    returns (gram: seq<seq<Complex>>, rhs: seq<Complex>)
    requires L >= 1 && buf == DotBuffer(h, dot, L)
    ensures gram == Gram(h, dot, L) && rhs == Rhs(h, dot, L)
  {
    gram, rhs := [], [];
    var i := 0;
    while i < L
      invariant 0 <= i <= L && |gram| == |rhs| == i
      invariant forall k :: 0 <= k < i ==> gram[k] == Gram(h, dot, L)[k] && rhs[k] == Rhs(h, dot, L)[k]
    {
      var row: seq<Complex> := [];
      var j := 0;
      while j < L
        invariant 0 <= j <= L && |row| == j
        invariant forall k :: 0 <= k < j ==> row[k] == dot(h, R(i + 1), R(k + 1))
      {
        DotBufferEntry(h, dot, L, i, j + 1);
        row := row + [buf[Idx(L, i, j + 1)]];
        j := j + 1;
      }
      DotBufferEntry(h, dot, L, i, 0);
      gram := gram + [row];
      rhs := rhs + [buf[Idx(L, i, 0)]];
      i := i + 1;
    }
  }

  /** gamma_for_x: gamma_0..gamma_{L-1}, then a padding zero for r[L]. */
  function GammaForX(gamma: seq<Complex>): (c: seq<Complex>)
    ensures |c| == |gamma| + 1
  {
    seq(|gamma| + 1, i requires 0 <= i < |gamma| + 1 => if i < |gamma| then gamma[i] else Zero)
  }

  /** gamma_for_r: a padding zero for r[0], then -gamma_0..-gamma_{L-1}. */
  function GammaForR(gamma: seq<Complex>): (c: seq<Complex>)
    ensures |c| == |gamma| + 1
  {
    seq(|gamma| + 1, i requires 0 <= i < |gamma| + 1 => if i == 0 then Zero else Neg(gamma[i - 1]))
  }

  /** -gamma_0..-gamma_{L-1}, the coefficients of the u update. */
  function NegAll(gamma: seq<Complex>): (c: seq<Complex>)
    ensures |c| == |gamma|
  {
    seq(|gamma|, i requires 0 <= i < |gamma| => Neg(gamma[i]))
  }

  /**
   * The kernels computeMR issues with the solution gamma (|gamma| = L):
   * u[0] -= sum gamma_{i-1} u[i] and one caxpyBxpz over r[0..L] that updates
   * x and r[0]; or, on a fixed iteration, one batched caxpy into x alone.
   */
  function BlockUpdateEffects(gamma: seq<Complex>, fixedIteration: bool): seq<Effect>
  {
    var L := |gamma|;
    if !fixedIteration then
      [ MultiCaxpy(NegAll(gamma), URange(1, L + 1), U(0)),
        CaxpyBxpz(GammaForX(gamma), RRange(0, L + 1), X, GammaForR(gamma), R(0)) ]
    else
      [ MultiCaxpy(gamma, RRange(0, L), X) ]
  }

  lemma NegAllAt(gamma: seq<Complex>, src: Vector)
    ensures CoefOf(NegAll(gamma), URange(1, |gamma| + 1), src)
            == if src.U? && 1 <= src.i <= |gamma| then Neg(gamma[src.i - 1]) else Zero
  {
    CoefOfURange(NegAll(gamma), 1, |gamma| + 1, src);
  }

  /**
   * The vectors the MR update writes: u[0], then x and r[0]; on a fixed
   * iteration x alone.
   */
  lemma BlockUpdateWrites(gamma: seq<Complex>, fixedIteration: bool)
    ensures var es := BlockUpdateEffects(gamma, fixedIteration);
      if fixedIteration then |es| == 1 && Writes(es[0]) == {X}
      else |es| == 2 && Writes(es[0]) == {U(0)} && Writes(es[1]) == {X, R(0)}
  {
  }

  /** The u update: u[0] -= sum_{i=1..L} gamma_{i-1} u[i]. */
  lemma BlockUUpdate(gamma: seq<Complex>, src: Vector)
    ensures Contribution(BlockUpdateEffects(gamma, false)[0], U(0), src)
            == if src.U? && 1 <= src.i <= |gamma| then Neg(gamma[src.i - 1]) else Zero
  {
    NegAllAt(gamma, src);
    MultiCaxpyContribution(NegAll(gamma), URange(1, |gamma| + 1), U(0), src);
  }

  /** The x update: x += sum_{i=0..L-1} gamma_i r[i]; r[L] is padded out. */
  lemma BlockXUpdate(gamma: seq<Complex>, src: Vector)
    ensures Contribution(BlockUpdateEffects(gamma, false)[1], X, src)
            == if src.R? && src.i < |gamma| then gamma[src.i] else Zero
  {
    var L := |gamma|;
    CoefOfRRange(GammaForX(gamma), 0, L + 1, src);
    CaxpyBxpzContribution(GammaForX(gamma), RRange(0, L + 1), X, GammaForR(gamma), R(0), src);
  }

  /** The r update: r[0] -= sum_{i=1..L} gamma_{i-1} r[i]; r[0] is padded out. */
  lemma BlockRUpdate(gamma: seq<Complex>, src: Vector)
    ensures var e := BlockUpdateEffects(gamma, false)[1];
      Contribution(e, R(0), src) == if src.R? && 1 <= src.i <= |gamma| then Neg(gamma[src.i - 1]) else Zero
  {
    var L := |gamma|;
    CoefOfRRange(GammaForR(gamma), 0, L + 1, src);
    CaxpyBxpzContribution(GammaForX(gamma), RRange(0, L + 1), X, GammaForR(gamma), R(0), src);
  }

  lemma FixedXAt(gamma: seq<Complex>, src: Vector)
    ensures Contribution(BlockUpdateEffects(gamma, true)[0], X, src)
            == if src.R? && src.i < |gamma| then gamma[src.i] else Zero
  {
    CoefOfRRange(gamma, 0, |gamma|, src);
    MultiCaxpyContribution(gamma, RRange(0, |gamma|), X, src);
  }

  /**
   * On a fixed iteration x receives from each r[i] exactly what the full
   * update gives it: both paths move x to the same place.
   */
  lemma FixedIterationUpdate(gamma: seq<Complex>, src: Vector)
    ensures Contribution(BlockUpdateEffects(gamma, true)[0], X, src)
            == Contribution(BlockUpdateEffects(gamma, false)[1], X, src)
  {
    FixedXAt(gamma, src);
    BlockXUpdate(gamma, src);
  }
}
