/**
 * class BiCGstabL: the state of the solver between and during iterations,
 * and the operations of one outer iteration on it: the BiCG part with its
 * work-hiding worker, and the two MR parts (the default one, which solves
 * the normal equations of the least-squares problem, and the legacy one,
 * which follows the paper of Sleijpen and Fokkema with an explicit modified
 * Gram-Schmidt).
 */
module Solver {
  import opened Cx
  import opened Vectors
  import opened Arith
  import opened Slices
  import opened Scheduler
  import opened GramSchmidt
  import opened Triangular
  import opened LegacyMR
  import opened BlockMR
  import opened BiCG
  import opened Control

  /** The LDLT solver returns a vector of the right-hand side's length. */
  ghost predicate LdltSolver(ldltSolve: (seq<seq<Complex>>, seq<Complex>) -> seq<Complex>)
  {
    forall m: seq<seq<Complex>>, v: seq<Complex> :: |ldltSolve(m, v)| == |v|
  }

  class BiCGstabL {
    /** n_krylov, the L of BiCGstab(L). */
    const nKrylov: nat
    /** The vectors x_sloppy, r[0..L], u[0..L] and the shadow residual r0. */
    const fields: Fields
    /** tau, row-major (L+1) x (L+1): the Gram-Schmidt coefficients of the legacy MR part. */
    const tau: array<Complex>
    const sigma: array<real>
    const gamma: array<Complex>
    const gammaPrime: array<Complex>
    const gammaPrimePrime: array<Complex>
    /** Chunk width of the legacy orthogonalisation, copied from param.pipeline at the start of a solve. */
    var pipeline: int
    var alpha: Complex
    var beta: Complex
    var rho0: Complex
    var rho1: Complex
    var omega: Complex
    /** dslash::aux_worker: the worker the operator calls back while it communicates, or none. */
    var auxWorker: BiCGstabLUpdate?

    ghost predicate Valid()
      reads this
    {
      nKrylov >= 1
      && tau.Length == (nKrylov + 1) * (nKrylov + 1)
      && sigma.Length == nKrylov + 1
      && gamma.Length == nKrylov + 1
      && gammaPrime.Length == nKrylov + 1
      && gammaPrimePrime.Length == nKrylov + 1
      && gamma != gammaPrime && gamma != gammaPrimePrime && gammaPrime != gammaPrimePrime
      && tau != gamma && tau != gammaPrime && tau != gammaPrimePrime
    }

    /** The constructor sizes the coefficient arrays for n_krylov = L. */
    constructor (nKrylov: nat, fields: Fields)
      requires nKrylov >= 1
      ensures Valid()
      ensures this.nKrylov == nKrylov && this.fields == fields && auxWorker == null
      ensures fresh(tau) && fresh(sigma) && fresh(gamma) && fresh(gammaPrime) && fresh(gammaPrimePrime)
    {
      this.nKrylov := nKrylov;
      this.fields := fields;
      tau := new Complex[(nKrylov + 1) * (nKrylov + 1)](_ => Zero);
      sigma := new real[nKrylov + 1](_ => 0.0);
      gamma := new Complex[nKrylov + 1](_ => Zero);
      gammaPrime := new Complex[nKrylov + 1](_ => Zero);
      gammaPrimePrime := new Complex[nKrylov + 1](_ => Zero);
      auxWorker := null;
    }

    /** Column j of tau, as a sequence. */
    ghost function Col(j: nat): seq<Complex>
      requires Valid() && j <= nKrylov
      reads this, tau
    {
      Column(tau[..], nKrylov, j)
    }

    /**
     * The result of orthogonalising r[j] against r[1..k-1], as each branch of
     * the switch achieves it with chunks of width w, starting from the
     * history h0 and the array contents t0: r[j] has been swept once with
     * each tau_{i,j}, i < k, entries 1..k-1 of column j hold the Gram-Schmidt
     * coefficients, and no other entry of tau has changed.
     */
    ghost predicate Orthogonalized(j: nat, k: nat, w: nat, h0: seq<Effect>, t0: seq<Complex>)
      requires Valid() && 1 <= k <= j <= nKrylov && w >= 1 && |t0| == tau.Length
      reads this, tau, sigma, fields
    {
      fields.log == h0 + GSweep(Col(j), j, 1, k)
      && ColumnDone(Col(j), sigma[..], j, k, w, h0, fields.dot)
      && (forall i :: 0 <= i <= nKrylov && !(1 <= i < k) ==> Col(j)[i] == Column(t0, nKrylov, j)[i])
      && (forall c :: 0 <= c <= nKrylov && c != j ==> Col(c) == Column(t0, nKrylov, c))
    }

    /** tau[row*(L+1)+col] = v: changes Col(col)[row] and nothing else. */
    method SetTau(row: nat, col: nat, v: Complex)
      requires Valid() && row <= nKrylov && col <= nKrylov
      modifies tau
      ensures Idx(nKrylov, row, col) < tau.Length
      ensures tau[..] == old(tau[..])[Idx(nKrylov, row, col) := v]
      ensures Col(col) == old(Col(col))[row := v]
      ensures forall c :: 0 <= c <= nKrylov && c != col ==> Col(c) == old(Col(c))
    {
      IdxInRange(nKrylov, row, col);
      ghost var ts := tau[..];
      tau[Idx(nKrylov, row, col)] := v;
      assert tau[..] == ts[Idx(nKrylov, row, col) := v];
      forall c | 0 <= c <= nKrylov
        ensures Col(c) == if c == col then Column(ts, nKrylov, c)[row := v] else Column(ts, nKrylov, c)
      {
        ColumnStore(ts, nKrylov, row, col, v, c);
      }
    }

    /**
     * computeTau(begin, size, j): one batched dot product of r[begin..begin+size)
     * against r[j], each result divided by its sigma, stored in column j of
     * tau, rows begin..begin+size-1; nothing else changes.
     */
    method ComputeTau(begin: nat, size: nat, j: nat)
      requires Valid() && 1 <= begin && begin + size <= j <= nKrylov
      modifies tau
      ensures forall i :: begin <= i < begin + size ==>
        Col(j)[i] == DivReal(fields.dot(fields.log, R(i), R(j)), sigma[i])
      ensures forall i :: 0 <= i <= nKrylov && !(begin <= i < begin + size) ==> Col(j)[i] == old(Col(j))[i]
      ensures forall c :: 0 <= c <= nKrylov && c != j ==> Col(c) == old(Col(c))
    {
      var h, dot := fields.log, fields.dot;
      // Tau[k] = <r[begin+k], r[j]>, all in one kernel
      var dots := seq(size, k requires 0 <= k < size => dot(h, R(begin + k), R(j)));
      var k := 0;
      while k < size
        invariant 0 <= k <= size
        invariant forall i :: begin <= i < begin + k ==> Col(j)[i] == DivReal(dots[i - begin], sigma[i])
        invariant forall i :: 0 <= i <= nKrylov && !(begin <= i < begin + k) ==> Col(j)[i] == old(Col(j))[i]
        invariant forall c :: 0 <= c <= nKrylov && c != j ==> Col(c) == old(Col(c))
      {
        SetTau(begin + k, j, DivReal(dots[k], sigma[begin + k]));
        k := k + 1;
      }
    }

    /**
     * updateR(begin, size, j): r[j] -= tau_{i,j} r[i] for the rows i of the
     * chunk, with the negated entries of column j; only r[j] is written.
     */
    method UpdateR(begin: nat, size: nat, j: nat)
      requires Valid() && 1 <= begin && begin + size <= j <= nKrylov
      modifies fields`log
      ensures fields.log == old(fields.log) + GSweep(Col(j), j, begin, begin + size)
    {
      var coeffs: seq<Complex> := [];
      var i := 0;
      while i < size
        invariant 0 <= i <= size && |coeffs| == i
        invariant forall k :: 0 <= k < i ==> coeffs[k] == Neg(Col(j)[begin + k])
        invariant fields.log == old(fields.log)
      {
        ColumnEntry(tau[..], nKrylov, begin + i, j);
        coeffs := coeffs + [Neg(tau[Idx(nKrylov, begin + i, j)])];
        i := i + 1;
      }
      // the batched caxpy of the chunk into r[j], one source after the other
      var sweep := seq(size, k requires 0 <= k < size => Caxpy(coeffs[k], R(begin + k), R(j)));
      assert sweep == GSweep(Col(j), j, begin, begin + size);
      fields.log := fields.log + sweep;
    }

    /** case 0 of the switch: one index at a time, a dot product then a caxpy. */
    method OrthogonalizeUnfused(j: nat) returns (ghost chunks: seq<(nat, nat)>)
      requires Valid() && 1 <= j <= nKrylov
      modifies tau, fields`log
      ensures Orthogonalized(j, j, 1, old(fields.log), old(tau[..]))
      ensures chunks == Chunks(j, 1)
    {
      ghost var h0 := fields.log;
      chunks := [];
      var i := 1;
      while i < j
        invariant 1 <= i <= j
        invariant chunks == FullChunks(i - 1, 1)
        invariant fields.log == h0 + GSweep(Col(j), j, 1, i)
        invariant ColumnDone(Col(j), sigma[..], j, i, 1, h0, fields.dot)
        invariant forall k :: 0 <= k <= nKrylov && !(1 <= k < i) ==> Col(j)[k] == old(Col(j))[k]
        invariant forall c :: 0 <= c <= nKrylov && c != j ==> Col(c) == old(Col(c))
      {
        ghost var c1 := Col(j);
        SetTau(i, j, DivReal(fields.dot(fields.log, R(i), R(j)), sigma[i]));
        ColumnDoneEntry(c1, Col(j), sigma[..], j, i, h0, fields.log, fields.dot);
        SweepEntry(Col(j), j, i, h0, fields.log);
        fields.log := fields.log + [Caxpy(Neg(tau[Idx(nKrylov, i, j)]), R(i), R(j))];
        FullChunksSnoc(i - 1, 1, i);
        chunks := chunks + [(i, 1)];
        i := i + 1;
      }
      UnitChunks(j);
    }

    /**
     * case 1 of the switch: the caxpy of one index is fused with the dot
     * product of the next (caxpyDotzy), so each tau_{i+1,j} is computed right
     * after r[i] has been swept out of r[j].
     */
    method OrthogonalizeFused(j: nat) returns (ghost chunks: seq<(nat, nat)>)
      requires Valid() && 1 <= j <= nKrylov
      modifies tau, fields`log
      ensures Orthogonalized(j, j, 1, old(fields.log), old(tau[..]))
      ensures chunks == Chunks(j, 1)
    {
      UnitChunks(j);
      chunks := [];
      if j == 1 {
        return;
      }
      ghost var h0 := fields.log;
      ghost var c0 := Col(j);
      SetTau(1, j, DivReal(fields.dot(fields.log, R(1), R(j)), sigma[1]));
      ColumnDoneEntry(c0, Col(j), sigma[..], j, 1, h0, fields.log, fields.dot);
      var i := 1;
      while i < j - 1
        invariant 1 <= i <= j - 1
        invariant chunks == FullChunks(i - 1, 1)
        invariant fields.log == h0 + GSweep(Col(j), j, 1, i)
        invariant ColumnDone(Col(j), sigma[..], j, i + 1, 1, h0, fields.dot)
        invariant forall k :: 0 <= k <= nKrylov && !(1 <= k < i + 1) ==> Col(j)[k] == old(Col(j))[k]
        invariant forall c :: 0 <= c <= nKrylov && c != j ==> Col(c) == old(Col(c))
      {
        FusedStep(j, i, h0);
        FullChunksSnoc(i - 1, 1, i);
        chunks := chunks + [(i, 1)];
        i := i + 1;
      }
      ColumnEntry(tau[..], nKrylov, j - 1, j);
      SweepEntry(Col(j), j, j - 1, h0, fields.log);
      fields.log := fields.log + [Caxpy(Neg(tau[Idx(nKrylov, j - 1, j)]), R(j - 1), R(j))];
      FullChunksSnoc(j - 2, 1, j - 1);
      chunks := chunks + [(j - 1, 1)];
    }

    /**
     * One iteration of the fused branch: r[j] -= tau_{i,j} r[i], returning
     * <r[i+1], r[j]> (caxpyDotzy), and tau_{i+1,j} = that / sigma_{i+1}.
     */
    method FusedStep(j: nat, i: nat, ghost h0: seq<Effect>)
      requires Valid() && 1 <= i && i + 1 < j <= nKrylov
      requires fields.log == h0 + GSweep(Col(j), j, 1, i)
      requires ColumnDone(Col(j), sigma[..], j, i + 1, 1, h0, fields.dot)
      modifies tau, fields`log
      ensures fields.log == h0 + GSweep(Col(j), j, 1, i + 1)
      ensures ColumnDone(Col(j), sigma[..], j, i + 2, 1, h0, fields.dot)
      ensures forall k :: 0 <= k <= nKrylov && k != i + 1 ==> Col(j)[k] == old(Col(j))[k]
      ensures forall c :: 0 <= c <= nKrylov && c != j ==> Col(c) == old(Col(c))
    {
      // caxpyDotzy: r[j] -= tau_{i,j} r[i], returning <r[i+1], r[j]>
      ColumnEntry(tau[..], nKrylov, i, j);
      SweepEntry(Col(j), j, i, h0, fields.log);
      fields.log := fields.log + [Caxpy(Neg(tau[Idx(nKrylov, i, j)]), R(i), R(j))];
      ghost var c1 := Col(j);
      SetTau(i + 1, j, DivReal(fields.dot(fields.log, R(i + 1), R(j)), sigma[i + 1]));
      ColumnDoneEntry(c1, Col(j), sigma[..], j, i + 1, h0, fields.log, fields.dot);
    }

    /**
     * One chunk of the default branch: computeTau on r[b..b+size-1] against
     * r[j], then updateR with the same indices; b is 1 + step*n.
     */
    method SweepChunk(j: nat, b: nat, size: nat, ghost step: nat, ghost n: nat, ghost h0: seq<Effect>)
      requires Valid() && 1 <= n && size <= n && b == 1 + step * n && b + size <= j <= nKrylov
      requires fields.log == h0 + GSweep(Col(j), j, 1, b)
      requires ColumnDone(Col(j), sigma[..], j, b, n, h0, fields.dot)
      modifies tau, fields`log
      ensures fields.log == h0 + GSweep(Col(j), j, 1, b + size)
      ensures ColumnDone(Col(j), sigma[..], j, b + size, n, h0, fields.dot)
      ensures forall k :: 0 <= k <= nKrylov && !(b <= k < b + size) ==> Col(j)[k] == old(Col(j))[k]
      ensures forall c :: 0 <= c <= nKrylov && c != j ==> Col(c) == old(Col(c))
    {
      ghost var c1 := Col(j);
      ComputeTau(b, size, j);
      ColumnDoneChunk(c1, Col(j), sigma[..], j, step, size, n, h0, fields.log, fields.dot);
      UpdateR(b, size, j);
      GSweepSplit(Col(j), j, 1, b, b + size);
    }

    /**
     * The default branch, pipeline = N with N >= 2 or N < 0: (j-1)/N chunks
     * of width N from index 1, then one remainder chunk of width (j-1)%N when
     * that is not 0, with C++'s truncating / and %; each chunk is one
     * computeTau followed by one updateR. For a negative N no full chunk
     * runs and r[j] is orthogonalised against r[1..Reach(N, j)-1] only.
     */
    method OrthogonalizeChunked(j: nat) returns (ghost chunks: seq<(nat, nat)>)
      requires Valid() && 1 <= j <= nKrylov && (pipeline >= 2 || pipeline < 0)
      modifies tau, fields`log
      ensures Orthogonalized(j, Reach(pipeline, j), Width(pipeline), old(fields.log), old(tau[..]))
      ensures chunks == Chunks(Reach(pipeline, j), Width(pipeline))
    {
      var n := pipeline;
      ghost var w, k := Width(n), Reach(n, j);
      ghost var h0 := fields.log;
      var step, b;
      step, b, chunks := SweepFullChunks(j);
      ChunkLoopBounds(j, n);
      RemainderFits(w, k);
      if CRem(j - 1, n) != 0 {
        SweepChunk(j, b, CRem(j - 1, n), step, w, h0);
        chunks := chunks + [(b, CRem(j - 1, n))];
      }
    }

    /** The loop of the default branch: its (j-1)/N full chunks, in C++ arithmetic. */
    method SweepFullChunks(j: nat) returns (step: nat, b: nat, ghost chunks: seq<(nat, nat)>)
      requires Valid() && 1 <= j <= nKrylov && (pipeline >= 2 || pipeline < 0)
      modifies tau, fields`log
      ensures var w, k := Width(pipeline), Reach(pipeline, j);
        step == (k - 1) / w && b == 1 + step * w <= k && chunks == FullChunks(step, w)
        && fields.log == old(fields.log) + GSweep(Col(j), j, 1, b)
        && ColumnDone(Col(j), sigma[..], j, b, w, old(fields.log), fields.dot)
        && (forall i :: 0 <= i <= nKrylov && !(1 <= i < b) ==> Col(j)[i] == old(Col(j))[i])
      ensures forall c :: 0 <= c <= nKrylov && c != j ==> Col(c) == old(Col(c))
    {
      var n := pipeline;
      ghost var w, k := Width(n), Reach(n, j);
      ChunkLoopBounds(j, n);
      ghost var h0 := fields.log;
      assert h0 + GSweep(Col(j), j, 1, 1) == h0;
      chunks := [];
      step, b := 0, 1;
      while step < CDiv(j - 1, n)
        invariant 0 <= step <= (k - 1) / w
        invariant b == 1 + step * w <= k
        invariant chunks == FullChunks(step, w)
        invariant fields.log == h0 + GSweep(Col(j), j, 1, b)
        invariant ColumnDone(Col(j), sigma[..], j, b, w, h0, fields.dot)
        invariant forall i :: 0 <= i <= nKrylov && !(1 <= i < b) ==> Col(j)[i] == old(Col(j))[i]
        invariant forall c :: 0 <= c <= nKrylov && c != j ==> Col(c) == old(Col(c))
      {
        assert n == w;
        FullChunkFits(step, w, k);
        SweepChunk(j, b, n, step, w, h0);
        FullChunksSnoc(step, w, b);
        chunks := chunks + [(b, n)];
        step, b := step + 1, b + n;
      }
    }

    /**
     * The switch (pipeline) of legacyComputeMR: whatever the branch, r[j] ends
     * up orthogonalised against r[1..k-1], k = Reach(pipeline, j) (all of
     * r[1..j-1] unless pipeline is negative), with the chunks of width
     * Width(pipeline), and these chunks cover 1..k-1 once each, in order.
     */
    method Orthogonalize(j: nat) returns (ghost chunks: seq<(nat, nat)>)
      requires Valid() && 1 <= j <= nKrylov
      modifies tau, fields`log
      ensures Orthogonalized(j, Reach(pipeline, j), Width(pipeline), old(fields.log), old(tau[..]))
      ensures chunks == Chunks(Reach(pipeline, j), Width(pipeline))
      ensures Covered(chunks) == Span(1, Reach(pipeline, j) - 1)
    {
      if pipeline == 0 {
        chunks := OrthogonalizeUnfused(j);
      } else if pipeline == 1 {
        chunks := OrthogonalizeFused(j);
      } else {
        chunks := OrthogonalizeChunked(j);
      }
      ChunksCover(Reach(pipeline, j), Width(pipeline));
    }

    /**
     * One pass of the j loop of legacyComputeMR: orthogonalise r[j] against
     * r[1..Reach(pipeline, j)-1] (the switch on pipeline), then sigma_j = |r[j]|^2 and
     * gamma'_j = <r[j], r[0]> / sigma_j from one cDotProductNormA.
     */
    method LegacyStep(j: nat, ghost h0: seq<Effect>)
      requires Valid() && 1 <= j <= nKrylov
      requires fields.log == h0 + OrthoLog(tau[..], nKrylov, j - 1, pipeline)
      modifies tau, sigma, gammaPrime, fields`log
      ensures fields.log == h0 + OrthoLog(tau[..], nKrylov, j, pipeline)
      ensures StepDone(tau[..], sigma[..], gammaPrime[..], nKrylov, j, pipeline, h0, fields.dot)
      ensures forall c :: 0 <= c <= nKrylov && c != j ==> Col(c) == old(Col(c))
      ensures forall i :: 0 <= i <= nKrylov && i != j ==> sigma[i] == old(sigma[i]) && gammaPrime[i] == old(gammaPrime[i])
    {
      ghost var t0, s0 := tau[..], sigma[..];
      ghost var chunks := Orthogonalize(j);
      NormStep(j);
      StepDoneIntro(t0, tau[..], s0, sigma[..], gammaPrime[..], nKrylov, j, pipeline, h0, fields.log, fields.dot);
    }

    /** sigma_j = |r[j]|^2 and gamma'_j = <r[j], r[0]> / sigma_j. */
    method NormStep(j: nat)
      requires Valid() && 1 <= j <= nKrylov
      modifies sigma, gammaPrime
      ensures sigma[..] == old(sigma[..])[j := fields.dot(fields.log, R(j), R(j)).re]
      ensures gammaPrime[..] == old(gammaPrime[..])[j := DivReal(fields.dot(fields.log, R(j), R(0)), sigma[j])]
    {
      // cDotProductNormA(r[j], r[0]): <r[j], r[0]> and |r[j]|^2 in one kernel
      var rjr, norm := fields.dot(fields.log, R(j), R(0)), fields.dot(fields.log, R(j), R(j)).re;
      sigma[j] := norm;
      gammaPrime[j] := DivReal(rjr, sigma[j]);
    }

    /** The j loop of legacyComputeMR, for j = 1..L. */
    method LegacyOrthogonalize()
      requires Valid()
      modifies tau, sigma, gammaPrime, fields`log
      ensures fields.log == old(fields.log) + OrthoLog(tau[..], nKrylov, nKrylov, pipeline)
      ensures StepsDone(tau[..], sigma[..], gammaPrime[..], nKrylov, nKrylov, pipeline, old(fields.log), fields.dot)
    {
      ghost var h0 := fields.log;
      var j := 1;
      while j <= nKrylov
        invariant 1 <= j <= nKrylov + 1
        invariant fields.log == h0 + OrthoLog(tau[..], nKrylov, j - 1, pipeline)
        invariant StepsDone(tau[..], sigma[..], gammaPrime[..], nKrylov, j - 1, pipeline, h0, fields.dot)
      {
        ghost var t0, s0, g0 := tau[..], sigma[..], gammaPrime[..];
        LegacyStep(j, h0);
        assert forall c :: 1 <= c < j ==> Column(t0, nKrylov, c) == Col(c);
        StepsDoneExtend(t0, tau[..], s0, sigma[..], g0, gammaPrime[..], nKrylov, j - 1, pipeline, h0, fields.dot);
        j := j + 1;
      }
    }

    /**
     * The inner loop of the back-substitution for row j:
     * gamma'_j - tau_{j,j+1} gamma_{j+1} - ... - tau_{j,L} gamma_L.
     */
    method SubtractRow(j: nat) returns (g: Complex)
      requires Valid() && 1 <= j < nKrylov
      ensures Add(g, RowSum(Matrix(tau[..], nKrylov)[j], gamma[..], j + 1, nKrylov + 1)) == gammaPrime[j]
    {
      var L := nKrylov;
      ghost var row := Matrix(tau[..], L)[j];
      g := gammaPrime[j];
      var i := j + 1;
      while i <= L
        invariant j + 1 <= i <= L + 1
        invariant Add(g, RowSum(row, gamma[..], j + 1, i)) == gammaPrime[j]
      {
        MatrixEntry(tau[..], L, j, i);
        RowSumSubStep(row, gamma[..], j + 1, i, g, gammaPrime[j]);
        g := Sub(g, Mul(tau[Idx(L, j, i)], gamma[i]));
        i := i + 1;
      }
    }

    /**
     * gamma = T^-1 gamma': gamma_L = gamma'_L, then for j = L-1 down to 1,
     * gamma_j = gamma'_j - sum_{i=j+1..L} tau_{j,i} gamma_i; omega = gamma_L.
     */
    method BackSubstitute()
      requires Valid()
      modifies gamma, this`omega
      ensures SolvesT(Matrix(tau[..], nKrylov), nKrylov, gamma[..], gammaPrime[..])
      ensures gamma[nKrylov] == gammaPrime[nKrylov] && omega == gamma[nKrylov]
      ensures gamma[0] == old(gamma[0])
    {
      var L := nKrylov;
      gamma[L] := gammaPrime[L];
      omega := gamma[L];
      var j := L - 1;
      while j > 0
        invariant 0 <= j < L
        invariant gamma[L] == gammaPrime[L] && omega == gamma[L] && gamma[0] == old(gamma[0])
        invariant SolvesFrom(Matrix(tau[..], L), L, gamma[..], gammaPrime[..], j + 1)
      {
        var g := SubtractRow(j);
        SolvesFromStep(Matrix(tau[..], L), L, gamma[..], gammaPrime[..], j, g);
        gamma[j] := g;
        j := j - 1;
      }
    }

    /**
     * The inner loop of gamma'' for row j:
     * gamma_{j+1} + tau_{j,j+1} gamma_{j+2} + ... + tau_{j,L-1} gamma_L.
     */
    method AccumulateRow(j: nat) returns (g: Complex)
      requires Valid() && 1 <= j < nKrylov
      ensures g == UnitUpperRow(Matrix(tau[..], nKrylov)[j], Shift(gamma[..]), j, nKrylov - 1)
    {
      var L := nKrylov;
      ghost var row := Matrix(tau[..], L)[j];
      g := gamma[j + 1];
      var i := j + 1;
      while i < L
        invariant j + 1 <= i <= L
        invariant g == Add(gamma[j + 1], RowSum(row, Shift(gamma[..]), j + 1, i))
      {
        MatrixEntry(tau[..], L, j, i);
        RowSumAddStep(row, Shift(gamma[..]), j + 1, i, g, gamma[j + 1]);
        g := Add(g, Mul(tau[Idx(L, j, i)], gamma[i + 1]));
        i := i + 1;
      }
    }

    /**
     * gamma'' = T S gamma on rows 1..L-1:
     * gamma''_j = gamma_{j+1} + sum_{i=j+1..L-1} tau_{j,i} gamma_{i+1}.
     */
    method ComputeGammaPrimePrime()
      requires Valid()
      modifies gammaPrimePrime
      ensures forall j :: 1 <= j < nKrylov ==>
        gammaPrimePrime[j] == UnitUpperRow(Matrix(tau[..], nKrylov)[j], Shift(gamma[..]), j, nKrylov - 1)
      ensures gammaPrimePrime[0] == old(gammaPrimePrime[0]) && gammaPrimePrime[nKrylov] == old(gammaPrimePrime[nKrylov])
    {
      var L := nKrylov;
      var j := 1;
      while j < L
        invariant 1 <= j <= L
        invariant forall k :: 1 <= k < j ==>
          gammaPrimePrime[k] == UnitUpperRow(Matrix(tau[..], L)[k], Shift(gamma[..]), k, L - 1)
        invariant gammaPrimePrime[0] == old(gammaPrimePrime[0]) && gammaPrimePrime[L] == old(gammaPrimePrime[L])
      {
        gammaPrimePrime[j] := AccumulateRow(j);
        j := j + 1;
      }
    }

    /**
     * The closing updates of legacyComputeMR: u[0] -= sum gamma_i u[i], then
     * one caxpyBxpz over r[0..L] that updates x (coefficients gamma_1,
     * gamma''_1..gamma''_{L-1}, 0) and r[0] (coefficients 0, -gamma'_1..-gamma'_L).
     */
    method LegacyUpdates()
      requires Valid()
      modifies fields`log
      ensures fields.log == old(fields.log) + LegacyUpdateEffects(gamma[..], gammaPrime[..], gammaPrimePrime[..], nKrylov)
    {
      var L := nKrylov;
      var uCoeffs: seq<Complex> := [];
      var i := 0;
      while i < L
        invariant 0 <= i <= L && |uCoeffs| == i
        invariant forall k :: 0 <= k < i ==> uCoeffs[k] == Neg(gamma[k + 1])
        invariant fields.log == old(fields.log)
      {
        uCoeffs := uCoeffs + [Neg(gamma[i + 1])];
        i := i + 1;
      }
      assert uCoeffs == LegacyUCoeffs(gamma[..], L);
      fields.log := fields.log + [MultiCaxpy(uCoeffs, URange(1, L + 1), U(0))];
      ghost var h1 := fields.log;
      // the padding entries first, then rows 1..L-1
      var xCoeffs := seq(L + 1, k => Zero)[0 := gamma[1]];
      var rCoeffs := seq(L + 1, k => Zero)[L := Neg(gammaPrime[L])];
      i := 1;
      while i < L
        invariant 1 <= i <= L && |xCoeffs| == |rCoeffs| == L + 1
        invariant xCoeffs[0] == gamma[1] && xCoeffs[L] == Zero && rCoeffs[0] == Zero && rCoeffs[L] == Neg(gammaPrime[L])
        invariant forall k :: 1 <= k < i ==> xCoeffs[k] == gammaPrimePrime[k] && rCoeffs[k] == Neg(gammaPrime[k])
        invariant fields.log == h1
      {
        xCoeffs := xCoeffs[i := gammaPrimePrime[i]];
        rCoeffs := rCoeffs[i := Neg(gammaPrime[i])];
        i := i + 1;
      }
      assert xCoeffs == LegacyXCoeffs(gamma[..], gammaPrimePrime[..], L);
      assert rCoeffs == LegacyRCoeffs(gammaPrime[..], L);
      fields.log := fields.log + [CaxpyBxpz(xCoeffs, RRange(0, L + 1), X, rCoeffs, R(0))];
    }

    /**
     * legacyComputeMR: the Gram-Schmidt loop, then gamma = T^-1 gamma'
     * (with omega = gamma_L), gamma'' = T S gamma and the closing updates.
     */
    method LegacyComputeMR()
      requires Valid()
      modifies tau, sigma, gamma, gammaPrime, gammaPrimePrime, this`omega, fields`log
      ensures fields.log == old(fields.log) + OrthoLog(tau[..], nKrylov, nKrylov, pipeline)
                            + LegacyUpdateEffects(gamma[..], gammaPrime[..], gammaPrimePrime[..], nKrylov)
      ensures StepsDone(tau[..], sigma[..], gammaPrime[..], nKrylov, nKrylov, pipeline, old(fields.log), fields.dot)
      ensures SolvesT(Matrix(tau[..], nKrylov), nKrylov, gamma[..], gammaPrime[..])
      ensures omega == gamma[nKrylov] == gammaPrime[nKrylov]
      ensures forall j :: 1 <= j < nKrylov ==>
        gammaPrimePrime[j] == UnitUpperRow(Matrix(tau[..], nKrylov)[j], Shift(gamma[..]), j, nKrylov - 1)
    {
      LegacyOrthogonalize();
      BackSubstitute();
      ComputeGammaPrimePrime();
      LegacyUpdates();
    }

    /**
     * computeMR: one fused block dot product of r[1..L] against r[0..L]
     * gives the normal equations R^dagger R gamma = R^dagger r[0] of the
     * least-squares problem, which the LDLT solver (a parameter here)
     * solves; omega = gamma_{L-1}; then either the full update of u[0], x
     * and r[0] or, on a fixed iteration, the update of x alone.
     */
    method ComputeMR(fixedIteration: bool, ldltSolve: (seq<seq<Complex>>, seq<Complex>) -> seq<Complex>)
      requires Valid()
      requires LdltSolver(ldltSolve)
      modifies this`omega, fields`log
      ensures var gamma := ldltSolve(Gram(old(fields.log), fields.dot, nKrylov), Rhs(old(fields.log), fields.dot, nKrylov));
        |gamma| == nKrylov && omega == gamma[nKrylov - 1]
        && fields.log == old(fields.log) + BlockUpdateEffects(gamma, fixedIteration)
    {
      var L := nKrylov;
      // blas::cDotProduct(r_dagger_dot_r, r_dagger_vec, r_vec)
      var buf := DotBuffer(fields.log, fields.dot, L);
      var gram, rhs := Unpack(buf, L, fields.log, fields.dot);
      var gamma := ldltSolve(gram, rhs);
      omega := gamma[L - 1];
      if !fixedIteration {
        BlockUpdates(gamma);
      } else {
        FixedUpdate(gamma);
      }
    }

    /**
     * The updates of a full iteration: u[0] -= gamma_{i-1} u[i] for i = 1..L,
     * then one caxpyBxpz that adds gamma to x over r[0..L-1] and subtracts
     * it from r[0] over r[1..L], the unused ends padded with zero.
     */
    method BlockUpdates(gamma: seq<Complex>)
      requires |gamma| == nKrylov
      modifies fields`log
      ensures fields.log == old(fields.log) + BlockUpdateEffects(gamma, false)
    {
      var L := nKrylov;
      var gammaU: seq<Complex> := [];
      var i := 0;
      while i < L
        invariant 0 <= i <= L && |gammaU| == i
        invariant forall k :: 0 <= k < i ==> gammaU[k] == Neg(gamma[k])
      {
        gammaU := gammaU + [Neg(gamma[i])];
        i := i + 1;
      }
      assert gammaU == NegAll(gamma);
      fields.log := fields.log + [MultiCaxpy(gammaU, URange(1, L + 1), U(0))];
      var gammaForX := seq(L + 1, k => Zero);
      var gammaForR := seq(L + 1, k => Zero);
      i := 0;
      while i < L
        invariant 0 <= i <= L && |gammaForX| == |gammaForR| == L + 1
        invariant forall k :: 0 <= k < i ==> gammaForX[k] == gamma[k] && gammaForR[k + 1] == Neg(gamma[k])
        invariant forall k :: i <= k <= L ==> gammaForX[k] == Zero
        invariant gammaForR[0] == Zero
      {
        gammaForX := gammaForX[i := gamma[i]];
        gammaForR := gammaForR[i + 1 := Neg(gamma[i])];
        i := i + 1;
      }
      assert gammaForX == GammaForX(gamma);
      assert gammaForR == GammaForR(gamma);
      fields.log := fields.log + [CaxpyBxpz(gammaForX, RRange(0, L + 1), X, gammaForR, R(0))];
    }

    /** The update of a fixed iteration: x += gamma_i r[i] for i = 0..L-1, and nothing else. */
    method FixedUpdate(gamma: seq<Complex>)
      requires |gamma| == nKrylov
      modifies fields`log
      ensures fields.log == old(fields.log) + BlockUpdateEffects(gamma, true)
    {
      var L := nKrylov;
      var gammaX: seq<Complex> := [];
      var i := 0;
      while i < L
        invariant 0 <= i <= L && |gammaX| == i
        invariant forall k :: 0 <= k < i ==> gammaX[k] == gamma[k]
      {
        gammaX := gammaX + [gamma[i]];
        i := i + 1;
      }
      assert gammaX == gamma;
      fields.log := fields.log + [MultiCaxpy(gammaX, RRange(0, L), X)];
    }

    /**
     * The callbacks of one operator application to an armed worker: apply()
     * once per stencil step, n_update times in all, from a zero counter. Together
     * they do the worker's updates synchronously, and the counter is back at 0.
     */
    method Callbacks(w: BiCGstabLUpdate)
      requires w.fields == fields && w.Valid() && w.counter.count == 0
      modifies fields`log, w.counter
      ensures w.counter.count == 0
      ensures fields.log == old(fields.log) + Synchronous(w.updateType, w.jMax, alpha, beta)
    {
      var k := 0;
      while k < w.nUpdate
        invariant 0 <= k <= w.nUpdate
        invariant w.counter.count == if k == w.nUpdate then 0 else k
        invariant fields.log == old(fields.log) + Cycle(w.updateType, k, w.jMax, w.nUpdate, alpha, beta)
      {
        w.Apply(alpha, beta);
        k := k + 1;
      }
      CycleIsSynchronous(w.updateType, w.jMax, w.nUpdate, alpha, beta);
    }

    /**
     * matSloppy(out, src): the armed worker, if any, does its updates while
     * the operator communicates; then out = A src.
     */
    method MatSloppy(out: Vector, src: Vector)
      requires auxWorker != null ==> auxWorker.fields == fields && auxWorker.Valid() && auxWorker.counter.count == 0
      modifies fields`log, if auxWorker == null then {} else {auxWorker.counter}
      ensures auxWorker != null ==> auxWorker.counter.count == 0
      ensures fields.log == old(fields.log)
        + (if auxWorker == null then [] else Synchronous(auxWorker.updateType, auxWorker.jMax, alpha, beta))
        + [MatVec(out, src)]
    {
      if auxWorker != null {
        Callbacks(auxWorker);
      }
      fields.log := fields.log + [MatVec(out, src)];
    }

    /**
     * Step j of the BiCG part: rho1 = <r0, r[j]>, beta = alpha rho1 / rho0,
     * rho0 = rho1; u[0..j] = r[0..j] - beta u[0..j] (all but u[j] by the
     * worker when j > 0) and u[j+1] = A u[j]; alpha = rho0 / <r0, u[j+1]>;
     * r[0..j] -= alpha u[1..j+1] and x += alpha u[0] (all but r[j] by the
     * worker) and r[j+1] = A r[j]. The worker is disarmed at the end.
     */
    method BiCGStep(j: nat, w: BiCGstabLUpdate)
      requires Valid() && j < nKrylov
      requires w.fields == fields && w.nUpdate > 0 && w.jMax >= 0 && w.counter.count == 0
      modifies this`rho0, this`rho1, this`beta, this`alpha, this`auxWorker, w`jMax, w`updateType, fields`log, w.counter
      ensures auxWorker == null && w.counter.count == 0 && w.jMax == j
      ensures rho1 == fields.dot(old(fields.log), Shadow, R(j)) && rho0 == rho1
      ensures beta == Div(Mul(old(alpha), rho1), old(rho0))
      ensures var h1 := old(fields.log) + BiCGUHalf(j, beta);
        alpha == Div(rho1, fields.dot(h1, Shadow, U(j + 1))) && fields.log == h1 + BiCGRHalf(j, alpha)
    {
      rho1 := fields.dot(fields.log, Shadow, R(j));
      beta := Div(Mul(alpha, rho1), rho0);
      rho0 := rho1;
      UHalf(j, w);
      alpha := Div(rho0, fields.dot(fields.log, Shadow, U(j + 1)));
      RHalf(j, w);
    }

    /** u[j] = r[j] - beta u[j], then u[j+1] = A u[j] with the worker doing u[0..j-1] when j > 0. */
    method UHalf(j: nat, w: BiCGstabLUpdate)
      requires w.fields == fields && w.nUpdate > 0 && w.jMax >= 0 && w.counter.count == 0
      modifies this`auxWorker, w`jMax, w`updateType, fields`log, w.counter
      ensures w.counter.count == 0 && w.jMax >= 0
      ensures fields.log == old(fields.log) + BiCGUHalf(j, beta)
    {
      fields.log := fields.log + [Caxpby(One, R(j), Neg(beta), U(j))];
      if j > 0 {
        auxWorker := w;
        w.UpdateJMax(j);
        w.UpdateUpdateType(Slices.UpdateU);
      } else {
        auxWorker := null;
      }
      MatSloppy(U(j + 1), U(j));
    }

    /** r[j] -= alpha u[j+1], then r[j+1] = A r[j] with the worker doing x and r[0..j-1]; the worker is disarmed. */
    method RHalf(j: nat, w: BiCGstabLUpdate)
      requires w.fields == fields && w.nUpdate > 0 && w.jMax >= 0 && w.counter.count == 0
      modifies this`auxWorker, w`jMax, w`updateType, fields`log, w.counter
      ensures auxWorker == null && w.counter.count == 0 && w.jMax == j
      ensures fields.log == old(fields.log) + BiCGRHalf(j, alpha)
    {
      fields.log := fields.log + [Caxpy(Neg(alpha), U(j + 1), R(j))];
      auxWorker := w;
      w.UpdateJMax(j);
      w.UpdateUpdateType(Slices.UpdateR);
      ghost var h := fields.log;
      MatSloppy(R(j + 1), R(j));
      // the r sweep does not read beta
      assert Synchronous(Slices.UpdateR, j, alpha, beta) == Synchronous(Slices.UpdateR, j, alpha, Zero);
      assert fields.log == h + Synchronous(Slices.UpdateR, j, alpha, Zero) + [MatVec(R(j + 1), R(j))];
      auxWorker := null;
    }

    /**
     * The BiCG part of an outer iteration, the j loop for j = 0..L-1: the
     * history grows by the L steps, step j with the alpha and beta it
     * computed, the coefficients follow the BiCG recurrence from the alpha
     * and rho0 the part starts with, and the worker is left disarmed with
     * its counter at 0.
     */
    method BiCGPart(w: BiCGstabLUpdate) returns (ghost alphas: seq<Complex>, ghost betas: seq<Complex>, ghost rhos: seq<Complex>)
      requires Valid()
      requires w.fields == fields && w.nUpdate > 0 && w.jMax >= 0 && w.counter.count == 0
      modifies this`rho0, this`rho1, this`beta, this`alpha, this`auxWorker, w`jMax, w`updateType, fields`log, w.counter
      ensures |alphas| == |betas| == |rhos| == nKrylov
      ensures fields.log == old(fields.log) + BiCGLog(nKrylov, alphas, betas)
      ensures Recurrence(old(fields.log), fields.dot, old(alpha), old(rho0), alphas, betas, rhos)
      ensures alpha == alphas[nKrylov - 1] && beta == betas[nKrylov - 1] && rho0 == rho1 == rhos[nKrylov - 1]
      ensures auxWorker == null && w.counter.count == 0 && w.jMax >= 0
    {
      alphas, betas, rhos := [], [], [];
      var j := 0;
      while j < nKrylov
        invariant 0 <= j <= nKrylov && |alphas| == |betas| == |rhos| == j
        invariant fields.log == old(fields.log) + BiCGLog(j, alphas, betas)
        invariant Recurrence(old(fields.log), fields.dot, old(alpha), old(rho0), alphas, betas, rhos)
        invariant j == 0 ==> alpha == old(alpha) && rho0 == old(rho0)
        invariant j > 0 ==> alpha == alphas[j - 1] && beta == betas[j - 1] && rho0 == rho1 == rhos[j - 1] && auxWorker == null
        invariant w.counter.count == 0 && w.jMax >= 0
      {
        alphas, betas, rhos := LoggedStep(j, w, old(fields.log), old(alpha), old(rho0), alphas, betas, rhos);
        j := j + 1;
      }
    }

    /** Step j, with its coefficients appended to those of steps 0..j-1, which it extends the recurrence of. */
    method LoggedStep(j: nat, w: BiCGstabLUpdate, ghost h0: seq<Effect>, ghost alpha0: Complex, ghost rho00: Complex,
                      ghost alphas: seq<Complex>, ghost betas: seq<Complex>, ghost rhos: seq<Complex>)
      returns (ghost alphas': seq<Complex>, ghost betas': seq<Complex>, ghost rhos': seq<Complex>)
      requires Valid() && j < nKrylov
      requires w.fields == fields && w.nUpdate > 0 && w.jMax >= 0 && w.counter.count == 0
      requires |alphas| == |betas| == |rhos| == j && fields.log == h0 + BiCGLog(j, alphas, betas)
      requires Recurrence(h0, fields.dot, alpha0, rho00, alphas, betas, rhos)
      requires alpha == (if j == 0 then alpha0 else alphas[j - 1]) && rho0 == (if j == 0 then rho00 else rhos[j - 1])
      modifies this`rho0, this`rho1, this`beta, this`alpha, this`auxWorker, w`jMax, w`updateType, fields`log, w.counter
      ensures alphas' == alphas + [alpha] && betas' == betas + [beta] && rhos' == rhos + [rho0] && rho1 == rho0
      ensures fields.log == h0 + BiCGLog(j + 1, alphas', betas')
      ensures Recurrence(h0, fields.dot, alpha0, rho00, alphas', betas', rhos')
      ensures auxWorker == null && w.counter.count == 0 && w.jMax >= 0
    {
      BiCGStep(j, w);
      BiCGLogExtend(h0, j, alphas, betas, alpha, beta);
      RecurrenceExtend(h0, fields.dot, alpha0, rho00, alphas, betas, rhos, alpha, beta, rho0);
      alphas', betas', rhos' := alphas + [alpha], betas + [beta], rhos + [rho0];
    }

    /**
     * reliable(): rNorm = sqrt(r2); maxrx and maxrr are raised to rNorm if it
     * exceeds them; a reliable update of r is due when rNorm < delta maxrr.
     */
    method Reliable(r2: real, delta: real, maxrx: real, maxrr: real, sqrt: real -> real)
      returns (updateR: bool, rNorm: real, newMaxrx: real, newMaxrr: real)
      ensures rNorm == sqrt(r2)
      ensures newMaxrx >= maxrx && newMaxrx >= rNorm && (newMaxrx == maxrx || newMaxrx == rNorm)
      ensures newMaxrr >= maxrr && newMaxrr >= rNorm && (newMaxrr == maxrr || newMaxrr == rNorm)
      ensures updateR <==> rNorm < delta * newMaxrr
    {
      rNorm := sqrt(r2);
      newMaxrx, newMaxrr := maxrx, maxrr;
      if rNorm > newMaxrx { newMaxrx := rNorm; }
      if rNorm > newMaxrr { newMaxrr := rNorm; }
      updateR := rNorm < delta * newMaxrr;
    }

    /**
     * The reliable update: with the worker disarmed, y += x_sloppy,
     * r = b - A y (r2 = |r|^2 = sigma_0), x_sloppy = 0, and the running
     * maxima restart from the new rNorm = sqrt(r2).
     */
    method RecomputeResidual(sqrt: real -> real) returns (r2: real, rNorm: real, maxrr: real, maxrx: real)
      requires Valid()
      modifies this`auxWorker, fields`log, sigma
      ensures auxWorker == null
      ensures fields.log == old(fields.log) + RecomputeEffects()
      ensures r2 == fields.dot(old(fields.log) + RecomputeEffects()[..3], R(0), R(0)).re
      ensures sigma[..] == old(sigma[..])[0 := r2]
      ensures rNorm == maxrr == maxrx == sqrt(r2)
    {
      fields.log := fields.log + [Caxpy(One, X, Y)];
      auxWorker := null;
      fields.log := fields.log + [MatVec(R(0), Y)];
      fields.log := fields.log + [Caxpby(One, B, Neg(One), R(0))];
      r2 := fields.dot(fields.log, R(0), R(0)).re;
      sigma[0] := r2;
      assert fields.log == old(fields.log) + RecomputeEffects()[..3];
      fields.log := fields.log + [Clear(X)];
      rNorm := sqrt(r2);
      maxrr := rNorm;
      maxrx := rNorm;
    }

    /**
     * What legacyComputeMR leaves behind, from the history h0: the
     * Gram-Schmidt loop's sweeps and then the closing updates in the log,
     * every step of the loop done, gamma = T^-1 gamma', omega = gamma_L =
     * gamma'_L and gamma'' = T S gamma on rows 1..L-1.
     */
    ghost predicate LegacyMRDone(h0: seq<Effect>)
      requires Valid()
      reads this, tau, sigma, gamma, gammaPrime, gammaPrimePrime, fields
    {
      fields.log == h0 + OrthoLog(tau[..], nKrylov, nKrylov, pipeline)
                    + LegacyUpdateEffects(gamma[..], gammaPrime[..], gammaPrimePrime[..], nKrylov)
      && StepsDone(tau[..], sigma[..], gammaPrime[..], nKrylov, nKrylov, pipeline, h0, fields.dot)
      && SolvesT(Matrix(tau[..], nKrylov), nKrylov, gamma[..], gammaPrime[..])
      && omega == gamma[nKrylov] == gammaPrime[nKrylov]
      && forall j :: 1 <= j < nKrylov ==>
           gammaPrimePrime[j] == UnitUpperRow(Matrix(tau[..], nKrylov)[j], Shift(gamma[..]), j, nKrylov - 1)
    }

    /**
     * What computeMR leaves behind, from the history h0: gamma is the LDLT
     * solution of the normal equations taken at h0, omega = gamma_{L-1},
     * and the log holds the updates for a fixed or a normal iteration.
     */
    ghost predicate BlockMRDone(h0: seq<Effect>, fixedIteration: bool,
                                ldltSolve: (seq<seq<Complex>>, seq<Complex>) -> seq<Complex>)
      requires Valid()
      reads this, fields
    {
      var gamma := ldltSolve(Gram(h0, fields.dot, nKrylov), Rhs(h0, fields.dot, nKrylov));
      |gamma| == nKrylov && omega == gamma[nKrylov - 1]
      && fields.log == h0 + BlockUpdateEffects(gamma, fixedIteration)
    }

    /** The MR part of an outer iteration: legacyComputeMR when the legacy version is compiled in, computeMR otherwise. */
    method MRPart(legacyMR: bool, fixedIteration: bool, ldltSolve: (seq<seq<Complex>>, seq<Complex>) -> seq<Complex>)
      requires Valid() && LdltSolver(ldltSolve)
      modifies tau, sigma, gamma, gammaPrime, gammaPrimePrime, this`omega, fields`log
      ensures legacyMR ==> LegacyMRDone(old(fields.log))
      ensures !legacyMR ==> BlockMRDone(old(fields.log), fixedIteration, ldltSolve)
    {
      if legacyMR {
        LegacyComputeMR();
      } else {
        ComputeMR(fixedIteration, ldltSolve);
      }
    }

    /**
     * One outer iteration before its convergence check: rho0 *= -omega, the
     * BiCG part and the MR part. The BiCG coefficients follow the recurrence
     * from the incoming alpha and the negated rho0; the MR part starts from
     * the history the BiCG part leaves; the worker ends disarmed.
     */
    method BiCGAndMR(w: BiCGstabLUpdate, legacyMR: bool, fixedIteration: bool,
                     ldltSolve: (seq<seq<Complex>>, seq<Complex>) -> seq<Complex>)
      returns (ghost alphas: seq<Complex>, ghost betas: seq<Complex>, ghost rhos: seq<Complex>)
      requires Valid() && LdltSolver(ldltSolve)
      requires w.fields == fields && w.nUpdate > 0 && w.jMax >= 0 && w.counter.count == 0
      modifies this`rho0, this`rho1, this`beta, this`alpha, this`auxWorker, this`omega, w`jMax, w`updateType, w.counter
      modifies fields`log, tau, sigma, gamma, gammaPrime, gammaPrimePrime
      ensures |alphas| == |betas| == |rhos| == nKrylov
      ensures Recurrence(old(fields.log), fields.dot, old(alpha), Mul(old(rho0), Neg(old(omega))), alphas, betas, rhos)
      ensures alpha == alphas[nKrylov - 1] && beta == betas[nKrylov - 1] && rho0 == rhos[nKrylov - 1]
      ensures var hB := old(fields.log) + BiCGLog(nKrylov, alphas, betas);
        (legacyMR ==> LegacyMRDone(hB)) && (!legacyMR ==> BlockMRDone(hB, fixedIteration, ldltSolve))
      ensures auxWorker == null && w.counter.count == 0 && w.jMax >= 0
    {
      rho0 := Mul(rho0, Neg(omega));
      alphas, betas, rhos := BiCGPart(w);
      MRPart(legacyMR, fixedIteration, ldltSolve);
    }

    /**
     * The check at the end of an outer iteration: when total_iter >= maxiter,
     * r2 < stop or reliable() asks for it, either the solve breaks out (on
     * sloppy convergence, only for the first two reasons) or the true
     * residual is recomputed; reliable() is not called when one of the first
     * two reasons holds, and then rNorm and the maxima are left alone.
     */
    method Checkpoint(totalIter: int, maxiter: int, sloppyConverge: bool, r2: real, stop: real,
                      delta: real, rNorm: real, maxrx: real, maxrr: real, sqrt: real -> real)
      returns (brk: bool, recomputed: bool, r2': real, rNorm': real, maxrx': real, maxrr': real)
      requires Valid()
      modifies this`auxWorker, fields`log, sigma
      ensures var due := totalIter >= maxiter || r2 < stop;
        (brk <==> due && sloppyConverge)
        && (recomputed <==> !brk && (due || sqrt(r2) < delta * (if maxrr < sqrt(r2) then sqrt(r2) else maxrr)))
        && (due && !recomputed ==> rNorm' == rNorm && maxrx' == maxrx && maxrr' == maxrr)
        && (!due && !recomputed ==>
              rNorm' == sqrt(r2)
              && maxrx' == (if maxrx < sqrt(r2) then sqrt(r2) else maxrx)
              && maxrr' == (if maxrr < sqrt(r2) then sqrt(r2) else maxrr))
      ensures fields.log == old(fields.log) + (if recomputed then RecomputeEffects() else [])
      ensures sigma[..] == if recomputed then old(sigma[..])[0 := r2'] else old(sigma[..])
      ensures recomputed ==>
        r2' == fields.dot(old(fields.log) + RecomputeEffects()[..3], R(0), R(0)).re
        && maxrx' == maxrr' == rNorm' == sqrt(r2') && auxWorker == null
      ensures !recomputed ==> r2' == r2 && auxWorker == old(auxWorker)
    {
      r2', rNorm', maxrx', maxrr' := r2, rNorm, maxrx, maxrr;
      brk, recomputed := false, false;
      var update := totalIter >= maxiter || r2 < stop;
      if !update {
        update, rNorm', maxrx', maxrr' := Reliable(r2, delta, maxrx, maxrr, sqrt);
      }
      if update {
        if (r2 < stop || totalIter >= maxiter) && sloppyConverge {
          brk := true;
          return;
        }
        r2', rNorm', maxrr', maxrx' := RecomputeResidual(sqrt);
        recomputed := true;
      }
    }

    /** sigma[0] = |r[0]|^2, which is the new r2. */
    method ResidualNorm() returns (r2: real)
      requires Valid()
      modifies sigma
      ensures r2 == fields.dot(fields.log, R(0), R(0)).re
      ensures sigma[..] == old(sigma[..])[0 := r2]
    {
      sigma[0] := fields.dot(fields.log, R(0), R(0)).re;
      r2 := sigma[0];
    }

    /**
     * The body of the outer loop: rho0 *= -omega, the BiCG and MR parts,
     * r2 = sigma_0 = |r[0]|^2 unless the iteration is fixed, then the
     * checkpoint. It breaks only on sloppy convergence, when total_iter >=
     * maxiter or the new r2 < stop, and then r2 is that of the iteration; a
     * fixed iteration that does not recompute the residual leaves r2 alone.
     */
    method OuterIteration(param: SolverParam, legacyMR: bool, fixed: bool, totalIter: int, r2: real, stop: real,
                          rNorm: real, maxrx: real, maxrr: real, sqrt: real -> real, w: BiCGstabLUpdate,
                          ldltSolve: (seq<seq<Complex>>, seq<Complex>) -> seq<Complex>)
      returns (brk: bool, recomputed: bool, r2': real, rNorm': real, maxrx': real, maxrr': real)
      requires Valid() && LdltSolver(ldltSolve)
      requires w.fields == fields && w.nUpdate > 0 && w.jMax >= 0 && w.counter.count == 0
      modifies this`rho0, this`rho1, this`beta, this`alpha, this`auxWorker, this`omega, w`jMax, w`updateType, w.counter
      modifies fields`log, tau, sigma, gamma, gammaPrime, gammaPrimePrime
      ensures brk ==> !recomputed && param.sloppyConverge && (totalIter >= param.maxiter || r2' < stop)
      ensures fixed && !recomputed ==> r2' == r2
      ensures auxWorker == null && w.counter.count == 0 && w.jMax >= 0
    {
      ghost var alphas, betas, rhos := BiCGAndMR(w, legacyMR, fixed, ldltSolve);
      r2' := r2;
      if !fixed {
        r2' := ResidualNorm();
      }
      brk, recomputed, r2', rNorm', maxrx', maxrr' :=
        Checkpoint(totalIter, param.maxiter, param.sloppyConverge, r2', stop, param.delta, rNorm, maxrx, maxrr, sqrt);
    }

    /**
     * The outer loop of operator(), from the state the preamble leaves: it
     * runs while r2 has not converged and total_iter < maxiter, each
     * completed outer iteration adding L to total_iter; rUpdate counts the
     * iterations, listed in recomputedAt, whose check recomputed the residual.
     */
    method Iterate(param: SolverParam, legacyMR: bool, fixed: bool, r2: real, stop: real,
                   converged: (real, real) -> bool, sqrt: real -> real, w: BiCGstabLUpdate,
                   ldltSolve: (seq<seq<Complex>>, seq<Complex>) -> seq<Complex>)
      returns (totalIter: int, rUpdate: nat, r2': real, ghost iterations: nat, ghost broke: bool,
               ghost recomputedAt: seq<nat>)
      requires Valid() && LdltSolver(ldltSolve)
      requires fixed == FixedIteration(param, nKrylov) && (fixed ==> r2 == 1.0 && stop == 0.0)
      requires auxWorker == null
      requires w.fields == fields && w.nUpdate > 0 && w.jMax >= 0 && w.counter.count == 0
      modifies this`rho0, this`rho1, this`beta, this`alpha, this`auxWorker, this`omega, w`jMax, w`updateType, w.counter
      modifies fields`log, tau, sigma, gamma, gammaPrime, gammaPrimePrime
      ensures totalIter == nKrylov * iterations && rUpdate == |recomputedAt| <= iterations
      ensures forall k :: 0 <= k < |recomputedAt| ==> recomputedAt[k] < iterations
      ensures forall k, l :: 0 <= k < l < |recomputedAt| ==> recomputedAt[k] < recomputedAt[l]
      ensures iterations > 0 ==> totalIter < param.maxiter + nKrylov
      ensures broke ==> param.sloppyConverge && r2' < stop && totalIter < param.maxiter
      ensures !broke ==> converged(r2', stop) || totalIter >= param.maxiter
      ensures fixed ==> iterations <= 1 && !broke
      ensures auxWorker == null && w.counter.count == 0
    {
      iterations, broke, recomputedAt := 0, false, [];
      totalIter, rUpdate, r2' := 0, 0, r2;
      var rNorm := sqrt(r2);
      var maxrr, maxrx := rNorm, rNorm;
      while !converged(r2', stop) && totalIter < param.maxiter
        invariant Valid()
        invariant totalIter == nKrylov * iterations && rUpdate == |recomputedAt| <= iterations
        invariant forall k :: 0 <= k < |recomputedAt| ==> recomputedAt[k] < iterations
        invariant forall k, l :: 0 <= k < l < |recomputedAt| ==> recomputedAt[k] < recomputedAt[l]
        invariant iterations > 0 ==> totalIter < param.maxiter + nKrylov
        invariant fixed ==> iterations <= 1 && (iterations == 0 ==> r2' == 1.0)
        invariant auxWorker == null && w.counter.count == 0 && w.jMax >= 0
        decreases param.maxiter - totalIter
      {
        var brk, recomputed;
        brk, recomputed, r2', rNorm, maxrx, maxrr :=
          OuterIteration(param, legacyMR, fixed, totalIter, r2', stop, rNorm, maxrx, maxrr, sqrt, w, ldltSolve);
        if brk {
          broke := true;
          break;
        }
        if recomputed {
          rUpdate := rUpdate + 1;
          recomputedAt := recomputedAt + [iterations];
        }
        assert nKrylov * (iterations + 1) == totalIter + nKrylov;
        totalIter := totalIter + nKrylov;
        iterations := iterations + 1;
      }
    }

    /**
     * operator(): the preamble decides between an early return and the
     * iteration (see Control.Preamble); before iterating, sigma_0 = |r|^2,
     * rho0 = 1, alpha = 0, omega = 1, the chunk width is copied from
     * param.pipeline and the worker is created for u updates with j_max = 0
     * and one cycle cut into as many calls as the operator has stencil
     * steps; after the iteration x += y, param.iter grows by total_iter and
     * the warning is issued when total_iter >= maxiter. The norms of b and
     * of the initial guess's residual, stopping(), convergence() and sqrt
     * are parameters.
     */
    method Solve(param: SolverParam, legacyMR: bool, bNorm2: real, guessResidual2: real,
                 stopping: real -> real, converged: (real, real) -> bool, sqrt: real -> real,
                 stencilSteps: int, counter: StaticCount,
                 ldltSolve: (seq<seq<Complex>>, seq<Complex>) -> seq<Complex>)
      returns (outcome: Outcome, ghost iterations: nat, ghost broke: bool, ghost recomputedAt: seq<nat>)
      requires Valid() && LdltSolver(ldltSolve)
      requires stencilSteps > 0 && counter.count == 0
      modifies this, tau, sigma, gamma, gammaPrime, gammaPrimePrime, fields`log, counter
      ensures var st := Preamble(param, nKrylov, bNorm2, guessResidual2, stopping);
        (st.Early? ==> outcome == st.outcome)
        && (st.Run? ==>
              outcome.Finished?
              && (broke ==> param.sloppyConverge && outcome.r2 < st.stop)
              && (!broke ==> converged(outcome.r2, st.stop) || outcome.exceeded))
      ensures outcome == ZeroSource ==> fields.log == old(fields.log) + [Copy(B, X)]
      ensures outcome == NullVectorError ==> fields.log == old(fields.log)
      ensures outcome.Finished? ==>
        outcome.totalIter == nKrylov * iterations
        && outcome.rUpdate == |recomputedAt| <= iterations
        && (forall k :: 0 <= k < |recomputedAt| ==> recomputedAt[k] < iterations)
        && (forall k, l :: 0 <= k < l < |recomputedAt| ==> recomputedAt[k] < recomputedAt[l])
        && (outcome.exceeded <==> outcome.totalIter >= param.maxiter)
        && (iterations > 0 ==> outcome.totalIter < param.maxiter + nKrylov)
        && (broke ==> !outcome.exceeded)
        && (FixedIteration(param, nKrylov) ==> iterations <= 1 && !broke)
        && |fields.log| > 0 && fields.log[|fields.log| - 1] == Caxpy(One, Y, X)
        && auxWorker == null && counter.count == 0
    {
      iterations, broke, recomputedAt := 0, false, [];
      var st := Preamble(param, nKrylov, bNorm2, guessResidual2, stopping);
      if st.Early? {
        if st.outcome == ZeroSource {
          // inverting on a zero-field source: x = b
          fields.log := fields.log + [Copy(B, X)];
        }
        return st.outcome, 0, false, [];
      }
      var w := Setup(param.pipeline, stencilSteps, counter);
      var fixed := FixedIteration(param, nKrylov);
      var totalIter, rUpdate, r2;
      totalIter, rUpdate, r2, iterations, broke, recomputedAt := Iterate(param, legacyMR, fixed, st.r2, st.stop, converged, sqrt, w, ldltSolve);
      // x += y
      fields.log := fields.log + [Caxpy(One, Y, X)];
      outcome := Finished(totalIter, rUpdate, r2, totalIter >= param.maxiter);
    }

    /** The initial values of the iteration, and the worker. */
    method Setup(pipeline: int, stencilSteps: int, counter: StaticCount) returns (w: BiCGstabLUpdate)
      requires Valid() && stencilSteps > 0 && counter.count == 0
      modifies this`rho0, this`alpha, this`omega, this`pipeline, this`auxWorker, sigma
      ensures fresh(w) && w.fields == fields && w.counter == counter && w.nUpdate == stencilSteps
      ensures w.jMax == 0 && w.updateType == Slices.UpdateU
      ensures sigma[..] == old(sigma[..])[0 := fields.dot(fields.log, R(0), R(0)).re]
      ensures rho0 == One && alpha == Zero && omega == One && this.pipeline == pipeline && auxWorker == null
    {
      sigma[0] := fields.dot(fields.log, R(0), R(0)).re;
      rho0, alpha, omega := One, Zero, One;
      this.pipeline := pipeline;
      w := new BiCGstabLUpdate(fields, counter, Slices.UpdateU, 0, stencilSteps);
      auxWorker := null;
    }
  }
}
