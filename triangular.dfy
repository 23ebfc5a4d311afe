/**
 * The unit upper-triangular matrix T of the legacy MR step: T has ones on
 * the diagonal and the Gram-Schmidt coefficients tau_{j,i} (i > j) above it.
 * The matrix is read out of the row-major array `tau` once, as a sequence of
 * rows, and everything else is stated on those rows.
 */
module Triangular {
  import opened Cx
  import opened GramSchmidt

  /** T has rows 0..L, each with entries 0..L. */
  ghost predicate Square(T: seq<seq<Complex>>, L: nat)
  {
    |T| == L + 1 && forall j :: 0 <= j < |T| ==> |T[j]| == L + 1
  }

  /** The (L+1) x (L+1) matrix stored row-major in `tau`. */
  function Matrix(tau: seq<Complex>, L: nat): (T: seq<seq<Complex>>)
    requires |tau| == (L + 1) * (L + 1)
    ensures Square(T, L)
  {
    seq(L + 1, row requires 0 <= row < L + 1 =>
      seq(L + 1, col requires 0 <= col < L + 1 => IdxInRange(L, row, col); tau[Idx(L, row, col)]))
  }

  lemma MatrixEntry(tau: seq<Complex>, L: nat, row: nat, col: nat)
    requires |tau| == (L + 1) * (L + 1) && row <= L && col <= L
    ensures Idx(L, row, col) < |tau| && Matrix(tau, L)[row][col] == tau[Idx(L, row, col)]
  {
    IdxInRange(L, row, col);
  }

  /** sum over i = lo, ..., hi-1 of row[i] * v[i]. */
  function RowSum(row: seq<Complex>, v: seq<Complex>, lo: nat, hi: nat): Complex
    requires lo <= hi <= |row| && hi <= |v|
    decreases hi - lo
  {
    if lo == hi then Zero else Add(RowSum(row, v, lo, hi - 1), Mul(row[hi - 1], v[hi - 1]))
  }

  /**
   * Entry j of T v, where T is cut to its leading (n+1) x (n+1) block:
   * v[j] + sum over i = j+1, ..., n of tau_{j,i} v[i].
   */
  function UnitUpperRow(row: seq<Complex>, v: seq<Complex>, j: nat, n: nat): Complex
    requires j <= n < |row| && n < |v|
  {
    Add(v[j], RowSum(row, v, j + 1, n + 1))
  }

  /** The sum reads v[lo..hi) only. */
  lemma {:induction false} RowSumFrame(row: seq<Complex>, v1: seq<Complex>, v2: seq<Complex>, lo: nat, hi: nat)
    requires lo <= hi <= |row| && hi <= |v1| && hi <= |v2|
    requires forall i :: lo <= i < hi ==> v1[i] == v2[i]
    ensures RowSum(row, v1, lo, hi) == RowSum(row, v2, lo, hi)
    decreases hi - lo
  {
    if lo < hi {
      RowSumFrame(row, v1, v2, lo, hi - 1);
    }
  }

  /** Entry j of T v reads v[j..n] only. */
  lemma UnitUpperRowFrame(row: seq<Complex>, v1: seq<Complex>, v2: seq<Complex>, j: nat, n: nat)
    requires j <= n < |row| && n < |v1| && n < |v2|
    requires forall i :: j <= i <= n ==> v1[i] == v2[i]
    ensures UnitUpperRow(row, v1, j, n) == UnitUpperRow(row, v2, j, n)
  {
    RowSumFrame(row, v1, v2, j + 1, n + 1);
  }

  /** One more term of the subtraction loop: g - row_i v_i, with the sum extended by row_i v_i. */
  lemma RowSumSubStep(row: seq<Complex>, v: seq<Complex>, lo: nat, i: nat, g: Complex, rhs: Complex)
    requires lo <= i < |row| && i < |v|
    requires Add(g, RowSum(row, v, lo, i)) == rhs
    ensures Add(Sub(g, Mul(row[i], v[i])), RowSum(row, v, lo, i + 1)) == rhs
  {
  }

  /** One more term of the accumulation loop: g + row_i v_i. */
  lemma RowSumAddStep(row: seq<Complex>, v: seq<Complex>, lo: nat, i: nat, g: Complex, head: Complex)
    requires lo <= i < |row| && i < |v|
    requires g == Add(head, RowSum(row, v, lo, i))
    ensures Add(g, Mul(row[i], v[i])) == Add(head, RowSum(row, v, lo, i + 1))
  {
  }

  /** Rows m..L of T v equal rhs. */
  ghost predicate SolvesFrom(T: seq<seq<Complex>>, L: nat, v: seq<Complex>, rhs: seq<Complex>, m: nat)
    requires Square(T, L) && |v| == |rhs| == L + 1
  {
    forall j :: m <= j <= L ==> UnitUpperRow(T[j], v, j, L) == rhs[j]
  }

  /** Rows 1..L of T v equal rhs: v solves the triangular system (row 0 is not part of it). */
  ghost predicate SolvesT(T: seq<seq<Complex>>, L: nat, v: seq<Complex>, rhs: seq<Complex>)
    requires Square(T, L) && |v| == |rhs| == L + 1
  {
    SolvesFrom(T, L, v, rhs, 1)
  }

  /** Setting v_j to g gives entry j of T v the value g + sum_{i>j} tau_{j,i} v_i. */
  lemma UnitUpperRowSet(row: seq<Complex>, v: seq<Complex>, L: nat, j: nat, g: Complex, r: Complex)
    requires j <= L && |row| == L + 1 && |v| == L + 1
    requires Add(g, RowSum(row, v, j + 1, L + 1)) == r
    ensures UnitUpperRow(row, v[j := g], j, L) == r
  {
    RowSumFrame(row, v, v[j := g], j + 1, L + 1);
  }

  /** Setting v_j leaves the entries of T v below row j alone. */
  lemma UnitUpperRowSetAbove(row: seq<Complex>, v: seq<Complex>, L: nat, j: nat, k: nat, g: Complex, r: Complex)
    requires j < k <= L && |row| == L + 1 && |v| == L + 1
    requires UnitUpperRow(row, v, k, L) == r
    ensures UnitUpperRow(row, v[j := g], k, L) == r
  {
    UnitUpperRowFrame(row, v, v[j := g], k, L);
  }

  /**
   * One step of back-substitution: once rows j+1..L hold, setting v_j to
   * g with g + sum_{i>j} tau_{j,i} v_i = rhs_j makes rows j..L hold.
   */
  lemma SolvesFromStep(T: seq<seq<Complex>>, L: nat, v: seq<Complex>, rhs: seq<Complex>, j: nat, g: Complex)
    requires Square(T, L) && |v| == |rhs| == L + 1 && j <= L
    requires SolvesFrom(T, L, v, rhs, j + 1)
    requires Add(g, RowSum(T[j], v, j + 1, L + 1)) == rhs[j]
    ensures SolvesFrom(T, L, v[j := g], rhs, j)
  {
    forall k | j <= k <= L
      ensures UnitUpperRow(T[k], v[j := g], k, L) == rhs[k]
    {
      if k == j {
        UnitUpperRowSet(T[j], v, L, j, g, rhs[j]);
      } else {
        UnitUpperRowSetAbove(T[k], v, L, j, k, g, rhs[k]);
      }
    }
  }

  lemma {:induction false} SolvesFromUnique(T: seq<seq<Complex>>, L: nat, g1: seq<Complex>, g2: seq<Complex>,
                                           rhs: seq<Complex>, m: nat)
    requires Square(T, L) && |g1| == |g2| == |rhs| == L + 1 && 1 <= m <= L + 1
    requires SolvesFrom(T, L, g1, rhs, m) && SolvesFrom(T, L, g2, rhs, m)
    ensures forall i :: m <= i <= L ==> g1[i] == g2[i]
    decreases L + 1 - m
  {
    if m <= L {
      SolvesFromUnique(T, L, g1, g2, rhs, m + 1);
      RowSumFrame(T[m], g1, g2, m + 1, L + 1);
      assert UnitUpperRow(T[m], g1, m, L) == rhs[m] == UnitUpperRow(T[m], g2, m, L);
    }
  }

  /**
   * T is invertible: at most one gamma (on indices 1..L) has T gamma = gamma',
   * so the back-substitution result is THE solution of the triangular system.
   */
  lemma SolvesTUnique(T: seq<seq<Complex>>, L: nat, g1: seq<Complex>, g2: seq<Complex>, rhs: seq<Complex>)
    requires Square(T, L) && |g1| == |g2| == |rhs| == L + 1
    requires SolvesT(T, L, g1, rhs) && SolvesT(T, L, g2, rhs)
    ensures g1[1..] == g2[1..]
  {
    SolvesFromUnique(T, L, g1, g2, rhs, 1);
  }

  /** S v: v shifted down by one, S v[i] = v[i+1] (the last entry is dropped). */
  function Shift(v: seq<Complex>): (s: seq<Complex>)
    requires |v| >= 1
    ensures |s| == |v| - 1
    ensures forall i :: 0 <= i < |s| ==> s[i] == v[i + 1]
  {
    v[1..]
  }
}
