/**
 * Index arithmetic of the legacy (pipelined) modified Gram-Schmidt step:
 * where tau_{i,j} sits in the row-major array `tau`, how the orthogonalisation
 * of r[j] against r[1..j-1] is cut into chunks, and which updates of r[j]
 * the step issues.
 */
module GramSchmidt {
  import opened Cx
  import opened Vectors
  import opened Arith

  /** Position of tau_{row,col} in the row-major (L+1) x (L+1) array `tau`. */
  function Idx(L: nat, row: nat, col: nat): nat
  {
    row * (L + 1) + col
  }

  lemma IdxInRange(L: nat, row: nat, col: nat)
    requires row <= L && col <= L
    ensures Idx(L, row, col) < (L + 1) * (L + 1)
  {
    MulMonotone(row, L, L + 1);
    assert (L + 1) * (L + 1) == L * (L + 1) + L + 1;
  }

  /** Distinct entries of the matrix sit at distinct positions of `tau`. */
  lemma IdxInjective(L: nat, r1: nat, c1: nat, r2: nat, c2: nat)
    requires c1 <= L && c2 <= L && Idx(L, r1, c1) == Idx(L, r2, c2)
    ensures r1 == r2 && c1 == c2
  {
    DivUnique(r1, c1, L + 1);
    DivUnique(r2, c2, L + 1);
  }

  /**
   * Chunk width of the orthogonalisation for a `pipeline` setting: cases 0
   * and 1 of the switch work one index at a time, the default branch with
   * N = pipeline in chunks of N, or of |N| when N is negative.
   */
  function Width(pipeline: int): (w: nat)
    ensures w >= 1
    ensures pipeline >= 2 ==> w == pipeline
    ensures pipeline < 0 ==> w == -pipeline
  {
    if pipeline < 0 then -pipeline else if pipeline <= 1 then 1 else pipeline
  }

  /**
   * The switch orthogonalises r[j] against r[1..k-1] for k = Reach(pipeline, j):
   * all of r[1..j-1] when pipeline >= 0. For a negative N the default
   * branch, with C++'s truncating division, runs no full chunk and one
   * chunk of (j-1) mod |N| indices from 1: N = -1 leaves r[j] alone, and
   * only N < -(j-1) reaches all of r[1..j-1].
   */
  function Reach(pipeline: int, j: nat): (k: nat)
    requires 1 <= j
    ensures 1 <= k <= j
    ensures pipeline >= 0 ==> k == j
    ensures pipeline < 0 ==> k - 1 < -pipeline
    ensures pipeline == -1 ==> k == 1
    ensures pipeline < 0 && j - 1 < -pipeline ==> k == j
  {
    if pipeline >= 0 then j else 1 + (j - 1) % -pipeline
  }

  /**
   * First index of the chunk of width `w` that holds index `i` (the chunks
   * start at 1, 1+w, 1+2w, ...).
   */
  function ChunkStart(i: nat, w: nat): int
    requires 1 <= w
  {
    i - (i - 1) % w
  }

  lemma ChunkStartBounds(i: nat, w: nat)
    requires 1 <= i && 1 <= w
    ensures 1 <= ChunkStart(i, w) <= i < ChunkStart(i, w) + w
    ensures (ChunkStart(i, w) - 1) % w == 0
  {
    DivBounds(i - 1, w);
    DivUnique((i - 1) / w, 0, w);
  }

  /** Every index of a chunk that starts at 1 + step*w has that chunk start. */
  lemma ChunkStartOf(step: nat, k: nat, w: nat)
    requires k < w
    ensures ChunkStart(1 + step * w + k, w) == 1 + step * w
  {
    DivUnique(step, k, w);
    assert 1 + step * w + k - 1 == step * w + k;
  }

  /** The indices begin, begin+1, ..., begin+size-1. */
  function Span(begin: nat, size: nat): (s: seq<nat>)
    ensures |s| == size
    ensures forall k :: 0 <= k < size ==> s[k] == begin + k
  {
    seq(size, k requires 0 <= k < size => begin + k)
  }

  /**
   * The (begin, size) pairs for which the default branch of the switch calls
   * computeTau and updateR, in the order it calls them: (j-1)/n chunks of
   * width n from 1, then one remainder chunk when (j-1) % n is not zero.
   */
  function Chunks(j: nat, n: nat): seq<(nat, nat)>
    requires 1 <= j && 1 <= n
  {
    FullChunks((j - 1) / n, n)
    + (if (j - 1) % n != 0 then [(1 + (j - 1) / n * n, (j - 1) % n)] else [])
  }

  /** The first `count` chunks of width n, from index 1. */
  function FullChunks(count: nat, n: nat): seq<(nat, nat)>
  {
    seq(count, s requires 0 <= s < count => (1 + s * n, n))
  }

  /** The indices a list of chunks covers, chunk after chunk. */
  function Covered(cs: seq<(nat, nat)>): seq<nat>
  {
    if cs == [] then [] else Covered(cs[..|cs| - 1]) + Span(cs[|cs| - 1].0, cs[|cs| - 1].1)
  }

  lemma SpanSplit(begin: nat, a: nat, b: nat)
    ensures Span(begin, a) + Span(begin + a, b) == Span(begin, a + b)
  {
  }

  lemma {:induction false} CoveredFull(m: nat, n: nat)
    requires 1 <= n
    ensures Covered(FullChunks(m, n)) == Span(1, m * n)
  {
    if m > 0 {
      var before := (m - 1) * n;
      FullChunksSnoc(m - 1, n, 1 + before);
      CoveredAppend(FullChunks(m - 1, n), (1 + before, n));
      CoveredFull(m - 1, n);
      SpanSplit(1, before, n);
      assert before + n == m * n;
    }
  }

  lemma CoveredAppend(cs: seq<(nat, nat)>, c: (nat, nat))
    ensures Covered(cs + [c]) == Covered(cs) + Span(c.0, c.1)
  {
    assert (cs + [c])[..|cs|] == cs;
  }

  /**
   * The chunks of the default branch cover 1, 2, ..., j-1 each exactly once
   * and in ascending order: the same indices, in the same order, as the
   * one-at-a-time loop of case 0.
   */
  lemma ChunksCover(j: nat, n: nat)
    requires 1 <= j && 1 <= n
    ensures Covered(Chunks(j, n)) == Span(1, j - 1)
  {
    var q, r := (j - 1) / n, (j - 1) % n;
    assert q * n + r == j - 1;
    var full := seq(q, s requires 0 <= s < q => (1 + s * n, n));
    CoveredFull(q, n);
    if r != 0 {
      assert Chunks(j, n) == full + [(1 + q * n, r)];
      CoveredAppend(full, (1 + q * n, r));
      SpanSplit(1, q * n, r);
    } else {
      assert Chunks(j, n) == full;
    }
  }

  /** Column `col` of the matrix stored in `tau`: tau_{0,col}, ..., tau_{L,col}. */
  function Column(tau: seq<Complex>, L: nat, col: nat): (c: seq<Complex>)
    requires |tau| == (L + 1) * (L + 1) && col <= L
    ensures |c| == L + 1
  {
    seq(L + 1, i requires 0 <= i < L + 1 => IdxInRange(L, i, col); tau[Idx(L, i, col)])
  }

  lemma ColumnEntry(tau: seq<Complex>, L: nat, row: nat, col: nat)
    requires |tau| == (L + 1) * (L + 1) && row <= L && col <= L
    ensures Idx(L, row, col) < |tau| && Column(tau, L, col)[row] == tau[Idx(L, row, col)]
  {
    IdxInRange(L, row, col);
  }

  /**
   * Storing tau_{row,col} changes entry `row` of column `col` and no other
   * entry of any column.
   */
  lemma ColumnStore(tau: seq<Complex>, L: nat, row: nat, col: nat, v: Complex, c: nat)
    requires |tau| == (L + 1) * (L + 1) && row <= L && col <= L && c <= L
    ensures Idx(L, row, col) < |tau|
    ensures Column(tau[Idx(L, row, col) := v], L, c)
            == if c == col then Column(tau, L, c)[row := v] else Column(tau, L, c)
  {
    IdxInRange(L, row, col);
    var t := tau[Idx(L, row, col) := v];
    forall i | 0 <= i <= L
      ensures Column(t, L, c)[i] == (if c == col then Column(tau, L, c)[row := v] else Column(tau, L, c))[i]
    {
      ColumnEntry(t, L, i, c);
      ColumnEntry(tau, L, i, c);
      if Idx(L, i, c) == Idx(L, row, col) {
        IdxInjective(L, i, c, row, col);
      }
    }
  }

  /** r[j] -= tau_{i,j} r[i] for i = lo, ..., hi-1, in ascending order; `col` is column j of tau. */
  function GSweep(col: seq<Complex>, j: nat, lo: nat, hi: nat): (es: seq<Effect>)
    requires lo <= hi <= |col|
    ensures |es| == hi - lo
  {
    seq(hi - lo, k requires 0 <= k < hi - lo => Caxpy(Neg(col[lo + k]), R(lo + k), R(j)))
  }

  lemma GSweepSplit(col: seq<Complex>, j: nat, lo: nat, mid: nat, hi: nat)
    requires lo <= mid <= hi <= |col|
    ensures GSweep(col, j, lo, mid) + GSweep(col, j, mid, hi) == GSweep(col, j, lo, hi)
  {
  }

  /** The sweep reads entries lo..hi-1 of the column only. */
  lemma GSweepFrame(c1: seq<Complex>, c2: seq<Complex>, j: nat, lo: nat, hi: nat)
    requires lo <= hi <= |c1| && hi <= |c2|
    requires c1[lo..hi] == c2[lo..hi]
    ensures GSweep(c1, j, lo, hi) == GSweep(c2, j, lo, hi)
  {
    assert forall k :: 0 <= k < hi - lo ==> c1[lo + k] == c1[lo..hi][k];
    assert forall k :: 0 <= k < hi - lo ==> c2[lo + k] == c2[lo..hi][k];
  }

  /** A sweep writes r[j], once per index, and nothing else. */
  lemma {:induction false} GSweepWrites(col: seq<Complex>, j: nat, lo: nat, hi: nat, v: Vector)
    requires lo <= hi <= |col|
    ensures CountWrites(GSweep(col, j, lo, hi), v) == if v == R(j) then hi - lo else 0
    decreases hi - lo
  {
    if lo < hi {
      var es := GSweep(col, j, lo, hi);
      assert es[..|es| - 1] == GSweep(col, j, lo, hi - 1);
      GSweepWrites(col, j, lo, hi - 1, v);
    }
  }

  /**
   * Entry i of column j (`col`) holds the Gram-Schmidt coefficient of r[j]
   * against r[i]: tau_{i,j} = <r[i], r[j]> / sigma_i, with r[j] taken as it
   * stands after the history h0 and the subtractions of all chunks (of
   * width w) before the one of i.
   */
  ghost predicate EntryDone(col: seq<Complex>, sigma: seq<real>, j: nat, i: nat, w: nat,
                            h0: seq<Effect>, dot: InnerProduct)
    requires 1 <= i < j < |col| && j < |sigma| && w >= 1
  {
    1 <= ChunkStart(i, w) <= i
    && col[i] == DivReal(dot(h0 + GSweep(col, j, 1, ChunkStart(i, w)), R(i), R(j)), sigma[i])
  }

  /** Entries 1..upto-1 of column j are done. */
  ghost predicate ColumnDone(col: seq<Complex>, sigma: seq<real>, j: nat, upto: nat, w: nat,
                             h0: seq<Effect>, dot: InnerProduct)
    requires upto <= j < |col| && j < |sigma| && w >= 1
  {
    forall i :: 1 <= i < upto ==> EntryDone(col, sigma, j, i, w, h0, dot)
  }

  /** ColumnDone depends on entries 1..upto-1 of the column and of sigma only. */
  lemma ColumnDoneFrame(c1: seq<Complex>, c2: seq<Complex>, s1: seq<real>, s2: seq<real>, j: nat, upto: nat, w: nat,
                        h0: seq<Effect>, dot: InnerProduct)
    requires upto <= j < |c1| && |c1| == |c2| && j < |s1| && |s1| == |s2| && w >= 1
    requires 1 <= upto ==> c1[1..upto] == c2[1..upto] && s1[1..upto] == s2[1..upto]
    requires ColumnDone(c1, s1, j, upto, w, h0, dot)
    ensures ColumnDone(c2, s2, j, upto, w, h0, dot)
  {
    forall i | 1 <= i < upto
      ensures EntryDone(c2, s2, j, i, w, h0, dot)
    {
      assert EntryDone(c1, s1, j, i, w, h0, dot);
      assert c1[i] == c1[1..upto][i - 1];
      assert c2[i] == c2[1..upto][i - 1];
      assert s1[i] == s1[1..upto][i - 1];
      assert s2[i] == s2[1..upto][i - 1];
      assert c1[1..ChunkStart(i, w)] == c1[1..upto][..ChunkStart(i, w) - 1];
      assert c2[1..ChunkStart(i, w)] == c2[1..upto][..ChunkStart(i, w) - 1];
      GSweepFrame(c1, c2, j, 1, ChunkStart(i, w));
    }
  }

  /**
   * ColumnDone determines the column: two columns that are both done up to
   * `upto`, for the same history, sigma and chunk width, agree on 1..upto-1.
   * So every way of reaching ColumnDone (the unfused, fused and chunked
   * loops at the same width) computes the same coefficients.
   */
  lemma {:induction false} ColumnDoneUnique(c1: seq<Complex>, c2: seq<Complex>, sigma: seq<real>, j: nat, upto: nat,
                                            w: nat, h0: seq<Effect>, dot: InnerProduct)
    requires upto <= j < |c1| && |c1| == |c2| && j < |sigma| && w >= 1
    requires ColumnDone(c1, sigma, j, upto, w, h0, dot) && ColumnDone(c2, sigma, j, upto, w, h0, dot)
    ensures forall i :: 1 <= i < upto ==> c1[i] == c2[i]
    decreases upto
  {
    if upto > 1 {
      var i := upto - 1;
      ColumnDoneUnique(c1, c2, sigma, j, i, w, h0, dot);
      assert EntryDone(c1, sigma, j, i, w, h0, dot) && EntryDone(c2, sigma, j, i, w, h0, dot);
      var b := ChunkStart(i, w);
      assert c1[1..b] == c2[1..b];
      GSweepFrame(c1, c2, j, 1, b);
    }
  }

  /**
   * Filling one chunk [b, b+size) of the column (b = 1 + step*w), every entry
   * from the dot product taken when r[j] has been swept up to b, extends
   * ColumnDone from b to b+size; the entries before b are left alone.
   */
  lemma ColumnDoneChunk(c1: seq<Complex>, c2: seq<Complex>, sigma: seq<real>, j: nat, step: nat, size: nat, w: nat,
                        h0: seq<Effect>, log: seq<Effect>, dot: InnerProduct)
    requires 1 <= w && size <= w && 1 + step * w + size <= j < |c1| && |c1| == |c2| && j < |sigma|
    requires ColumnDone(c1, sigma, j, 1 + step * w, w, h0, dot)
    requires log == h0 + GSweep(c1, j, 1, 1 + step * w)
    requires forall i :: 0 <= i < |c1| && !(1 + step * w <= i < 1 + step * w + size) ==> c2[i] == c1[i]
    requires forall i :: 1 + step * w <= i < 1 + step * w + size ==>
      c2[i] == DivReal(dot(log, R(i), R(j)), sigma[i])
    ensures ColumnDone(c2, sigma, j, 1 + step * w + size, w, h0, dot)
    ensures log == h0 + GSweep(c2, j, 1, 1 + step * w)
  {
    var b := 1 + step * w;
    assert c1[1..b] == c2[1..b];
    ColumnDoneFrame(c1, c2, sigma, sigma, j, b, w, h0, dot);
    GSweepFrame(c1, c2, j, 1, b);
    forall i | 1 <= i < b + size
      ensures EntryDone(c2, sigma, j, i, w, h0, dot)
    {
      if i >= b {
        ChunkStartOf(step, i - b, w);
      }
    }
  }

  /** The same for the single entry i, with chunks of width 1. */
  lemma ColumnDoneEntry(c1: seq<Complex>, c2: seq<Complex>, sigma: seq<real>, j: nat, i: nat,
                        h0: seq<Effect>, log: seq<Effect>, dot: InnerProduct)
    requires 1 <= i < j < |c1| && j < |sigma|
    requires ColumnDone(c1, sigma, j, i, 1, h0, dot)
    requires log == h0 + GSweep(c1, j, 1, i)
    requires c2 == c1[i := DivReal(dot(log, R(i), R(j)), sigma[i])]
    ensures ColumnDone(c2, sigma, j, i + 1, 1, h0, dot)
    ensures log == h0 + GSweep(c2, j, 1, i)
  {
    ColumnDoneChunk(c1, c2, sigma, j, i - 1, 1, 1, h0, log, dot);
  }

  /** Sweeping r[i] out of r[j] with the entry just computed extends the sweep by one. */
  lemma SweepEntry(c: seq<Complex>, j: nat, i: nat, h0: seq<Effect>, log: seq<Effect>)
    requires 1 <= i < |c|
    requires log == h0 + GSweep(c, j, 1, i)
    ensures log + [Caxpy(Neg(c[i]), R(i), R(j))] == h0 + GSweep(c, j, 1, i + 1)
  {
    GSweepSplit(c, j, 1, i, i + 1);
  }

  /** A full chunk issued at step < (j-1)/n ends at or before j. */
  lemma FullChunkFits(step: nat, n: nat, j: nat)
    requires 1 <= n && 1 <= j && step < (j - 1) / n
    ensures (step + 1) * n == step * n + n
    ensures 1 + step * n + n <= j
  {
    DivBounds(j - 1, n);
    MulMonotone(step + 1, (j - 1) / n, n);
  }

  /** One more full chunk starts where the previous ones end. */
  lemma FullChunksSnoc(count: nat, n: nat, b: nat)
    requires b == 1 + count * n
    ensures FullChunks(count + 1, n) == FullChunks(count, n) + [(b, n)]
  {
  }

  /** The remainder chunk ends exactly at j. */
  lemma RemainderFits(n: nat, j: nat)
    requires 1 <= n && 1 <= j
    ensures 1 + (j - 1) / n * n + (j - 1) % n == j
  {
  }

  /**
   * The loop bounds of the default branch, in C++'s truncating arithmetic,
   * for pipeline = n with n >= 2 or n < 0: the full chunks number
   * (k-1)/w (none when n < 0) and the remainder is (k-1)%w, with
   * w = Width(n) and k = Reach(n, j).
   */
  lemma ChunkLoopBounds(j: nat, n: int)
    requires 1 <= j && (n >= 2 || n < 0)
    ensures var w, k := Width(n), Reach(n, j);
      (k - 1) / w == (if CDiv(j - 1, n) > 0 then CDiv(j - 1, n) else 0)
      && (CDiv(j - 1, n) > 0 ==> n == w)
      && CRem(j - 1, n) == (k - 1) % w
  {
    CDivOfNat(j - 1, n);
    if n < 0 {
      var w, k := Width(n), Reach(n, j);
      DivUnique(0, k - 1, w);
    }
  }

  /** With chunks of width 1 there are j-1 of them, one per index. */
  lemma UnitChunks(j: nat)
    requires 1 <= j
    ensures Chunks(j, 1) == FullChunks(j - 1, 1)
  {
  }
}
