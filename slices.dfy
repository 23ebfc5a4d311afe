/**
 * The integer scheduling behind the work-hiding worker (class BiCGstabLUpdate):
 * which indices one call of apply() updates, and what a whole cycle of
 * n_update calls adds up to.
 */
module Slices {
  import opened Cx
  import opened Vectors
  import opened Arith

  /** BICGSTABL_UPDATE_U or BICGSTABL_UPDATE_R. */
  datatype UpdateType = UpdateU | UpdateR

  /** First index of the slice apply() handles when the counter reads `count`. */
  function SliceBegin(count: nat, jMax: nat, nUpdate: nat): nat
    requires nUpdate > 0
  {
    count * jMax / nUpdate
  }

  /** One past the last index of that slice. */
  function SliceEnd(count: nat, jMax: nat, nUpdate: nat): nat
    requires nUpdate > 0
  {
    (count + 1) * jMax / nUpdate
  }

  /**
   * A slice never runs past j_max, so the extra `i < j_max` test in apply()'s
   * loop never decides anything, and slices are well-formed ranges.
   */
  lemma SliceWithin(count: nat, jMax: nat, nUpdate: nat)
    requires count < nUpdate
    ensures SliceBegin(count, jMax, nUpdate) <= SliceEnd(count, jMax, nUpdate) <= jMax
  {
    MulMonotone(count, count + 1, jMax);
    assert count * jMax <= (count + 1) * jMax;
    DivMonotone(count * jMax, (count + 1) * jMax, nUpdate);
    MulMonotone(count + 1, nUpdate, jMax);
    assert (count + 1) * jMax <= nUpdate * jMax;
    DivMonotone((count + 1) * jMax, nUpdate * jMax, nUpdate);
    DivMulCancel(jMax, nUpdate);
  }

  /** The last slice of a cycle ends exactly at j_max. */
  lemma LastSliceEnd(jMax: nat, nUpdate: nat)
    requires nUpdate > 0
    ensures SliceEnd(nUpdate - 1, jMax, nUpdate) == jMax
  {
    assert (nUpdate - 1 + 1) * jMax == nUpdate * jMax;
    DivMulCancel(jMax, nUpdate);
  }

  /** u[i] = r[i] - beta*u[i] for lo <= i < hi, in ascending order. */
  function USweep(lo: nat, hi: nat, beta: Complex): (es: seq<Effect>)
    requires lo <= hi
    ensures |es| == hi - lo
  {
    seq(hi - lo, k requires 0 <= k < hi - lo => Caxpby(One, R(lo + k), Neg(beta), U(lo + k)))
  }

  /** r[i] -= alpha*u[i+1] for lo <= i < hi, in ascending order. */
  function RSweep(lo: nat, hi: nat, alpha: Complex): (es: seq<Effect>)
    requires lo <= hi
    ensures |es| == hi - lo
  {
    seq(hi - lo, k requires 0 <= k < hi - lo => Caxpy(Neg(alpha), U(lo + k + 1), R(lo + k)))
  }

  /** x += alpha*u[0]. */
  function XUpdate(alpha: Complex): Effect
  {
    Caxpy(alpha, U(0), X)
  }

  lemma USweepSplit(lo: nat, mid: nat, hi: nat, beta: Complex)
    requires lo <= mid <= hi
    ensures USweep(lo, mid, beta) + USweep(mid, hi, beta) == USweep(lo, hi, beta)
  {
  }

  lemma RSweepSplit(lo: nat, mid: nat, hi: nat, alpha: Complex)
    requires lo <= mid <= hi
    ensures RSweep(lo, mid, alpha) + RSweep(mid, hi, alpha) == RSweep(lo, hi, alpha)
  {
  }

  /** The effects of one apply() when the shared counter reads `count`. */
  function SliceEffects(t: UpdateType, count: nat, jMax: nat, nUpdate: nat,
                        alpha: Complex, beta: Complex): seq<Effect>
    requires count < nUpdate
  {
    SliceWithin(count, jMax, nUpdate);
    var lo, hi := SliceBegin(count, jMax, nUpdate), SliceEnd(count, jMax, nUpdate);
    match t
    case UpdateU => USweep(lo, hi, beta)
    case UpdateR => (if count == 0 then [XUpdate(alpha)] else []) + RSweep(lo, hi, alpha)
  }

  /** The effects of `k` consecutive apply() calls starting from a zero counter. */
  function Cycle(t: UpdateType, k: nat, jMax: nat, nUpdate: nat, alpha: Complex, beta: Complex): seq<Effect>
    requires k <= nUpdate
  {
    if k == 0 then [] else Cycle(t, k - 1, jMax, nUpdate, alpha, beta) + SliceEffects(t, k - 1, jMax, nUpdate, alpha, beta)
  }

  /** The hideable updates as they would be done without the worker, in one pass. */
  function Synchronous(t: UpdateType, jMax: nat, alpha: Complex, beta: Complex): seq<Effect>
  {
    match t
    case UpdateU => USweep(0, jMax, beta)
    case UpdateR => [XUpdate(alpha)] + RSweep(0, jMax, alpha)
  }

  /** After k calls the slices visited so far are exactly [0, SliceEnd(k-1)), in order. */
  lemma {:induction false} CyclePrefix(t: UpdateType, k: nat, jMax: nat, nUpdate: nat, alpha: Complex, beta: Complex)
    requires 1 <= k <= nUpdate
    ensures SliceEnd(k - 1, jMax, nUpdate) <= jMax
    ensures Cycle(t, k, jMax, nUpdate, alpha, beta)
            == match t
               case UpdateU => USweep(0, SliceEnd(k - 1, jMax, nUpdate), beta)
               case UpdateR => [XUpdate(alpha)] + RSweep(0, SliceEnd(k - 1, jMax, nUpdate), alpha)
  {
    SliceWithin(k - 1, jMax, nUpdate);
    var lo, hi := SliceBegin(k - 1, jMax, nUpdate), SliceEnd(k - 1, jMax, nUpdate);
    if k == 1 {
      assert lo == 0;
      assert Cycle(t, 0, jMax, nUpdate, alpha, beta) == [];
    } else {
      CyclePrefix(t, k - 1, jMax, nUpdate, alpha, beta);
      assert SliceEnd(k - 2, jMax, nUpdate) == lo;
      match t
      case UpdateU => USweepSplit(0, lo, hi, beta);
      case UpdateR =>
        RSweepSplit(0, lo, hi, alpha);
        assert [XUpdate(alpha)] + RSweep(0, lo, alpha) + RSweep(lo, hi, alpha)
            == [XUpdate(alpha)] + (RSweep(0, lo, alpha) + RSweep(lo, hi, alpha));
    }
  }

  /**
   * Work-hiding is transparent: n_update calls of apply() from a zero counter
   * do exactly the synchronous updates, each index once and in ascending
   * order, with x updated once at the head of an R cycle.
   */
  lemma CycleIsSynchronous(t: UpdateType, jMax: nat, nUpdate: nat, alpha: Complex, beta: Complex)
    requires nUpdate > 0
    ensures Cycle(t, nUpdate, jMax, nUpdate, alpha, beta) == Synchronous(t, jMax, alpha, beta)
  {
    CyclePrefix(t, nUpdate, jMax, nUpdate, alpha, beta);
    LastSliceEnd(jMax, nUpdate);
  }

  lemma {:induction false} CountWritesUSweep(lo: nat, hi: nat, beta: Complex, v: Vector)
    requires lo <= hi
    ensures CountWrites(USweep(lo, hi, beta), v) == if v.U? && lo <= v.i < hi then 1 else 0
    decreases hi - lo
  {
    var es := USweep(lo, hi, beta);
    if lo < hi {
      assert es[..|es| - 1] == USweep(lo, hi - 1, beta);
      CountWritesUSweep(lo, hi - 1, beta, v);
    }
  }

  lemma {:induction false} CountWritesRSweep(lo: nat, hi: nat, alpha: Complex, v: Vector)
    requires lo <= hi
    ensures CountWrites(RSweep(lo, hi, alpha), v) == if v.R? && lo <= v.i < hi then 1 else 0
    decreases hi - lo
  {
    var es := RSweep(lo, hi, alpha);
    if lo < hi {
      assert es[..|es| - 1] == RSweep(lo, hi - 1, alpha);
      CountWritesRSweep(lo, hi - 1, alpha, v);
    }
  }

  /**
   * A full cycle writes every pending index below j_max exactly once and
   * nothing else: in U mode only u[0..j_max), never x; in R mode x once and
   * r[0..j_max), so nothing but x when j_max == 0.
   */
  lemma CycleWritesEachOnce(t: UpdateType, jMax: nat, nUpdate: nat, alpha: Complex, beta: Complex, v: Vector)
    requires nUpdate > 0
    ensures CountWrites(Cycle(t, nUpdate, jMax, nUpdate, alpha, beta), v)
            == match t
               case UpdateU => if v.U? && v.i < jMax then 1 else 0
               case UpdateR => if v == X || (v.R? && v.i < jMax) then 1 else 0
  {
    CycleIsSynchronous(t, jMax, nUpdate, alpha, beta);
    match t
    case UpdateU => CountWritesUSweep(0, jMax, beta, v);
    case UpdateR =>
      CountWritesAppend([XUpdate(alpha)], RSweep(0, jMax, alpha), v);
      CountWritesRSweep(0, jMax, alpha, v);
      assert [XUpdate(alpha)][..0] == [];
  }
}
