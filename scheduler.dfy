/**
 * The work-hiding worker: an object that the operator calls back while it
 * waits for communication, and that each time performs one slice of the
 * pending vector updates of a BiCG step.
 */
module Scheduler {
  import opened Cx
  import opened Vectors
  import opened Slices

  /**
   * The `static int count` of apply(): a single counter shared by every
   * worker object, which survives from one worker (and one solve) to the next.
   */
  class StaticCount {
    var count: int

    constructor ()
      ensures count == 0
    {
      count := 0;
    }
  }

  /** class BiCGstabLUpdate: the worker of a BiCG step. */
  class BiCGstabLUpdate {
    /** The vectors x, r and u, shared by reference with the solver. */
    const fields: Fields
    const counter: StaticCount
    var updateType: UpdateType
    var jMax: int
    /** Into how many calls one cycle of updates is cut. */
    const nUpdate: int

    ghost predicate Valid()
      reads this, counter
    {
      nUpdate > 0 && jMax >= 0 && 0 <= counter.count < nUpdate
    }

    constructor (fields: Fields, counter: StaticCount, updateType: UpdateType, jMax: int, nUpdate: int)
      requires nUpdate > 0 && jMax >= 0 && 0 <= counter.count < nUpdate
      ensures Valid()
      ensures this.fields == fields && this.counter == counter
      ensures this.updateType == updateType && this.jMax == jMax && this.nUpdate == nUpdate
    {
      this.fields := fields;
      this.counter := counter;
      this.updateType := updateType;
      this.jMax := jMax;
      this.nUpdate := nUpdate;
    }

    /** update_j_max */
    method UpdateJMax(newJMax: int)
      requires newJMax >= 0
      modifies this`jMax
      ensures jMax == newJMax
    {
      jMax := newJMax;
    }

    /** update_update_type */
    method UpdateUpdateType(newUpdateType: UpdateType)
      modifies this`updateType
      ensures updateType == newUpdateType
    {
      updateType := newUpdateType;
    }

    /**
     * apply(): the slice of updates that belongs to the current value of the
     * shared counter, after which the counter advances and wraps to 0 once
     * it reaches n_update.
     */
    method Apply(alpha: Complex, beta: Complex)
      requires Valid()
      modifies fields`log, counter`count
      ensures Valid()
      ensures fields.log == old(fields.log) + SliceEffects(updateType, old(counter.count), jMax, nUpdate, alpha, beta)
      ensures counter.count == if old(counter.count) + 1 == nUpdate then 0 else old(counter.count) + 1
    {
      var count := counter.count;
      var lo, hi := count * jMax / nUpdate, (count + 1) * jMax / nUpdate;
      SliceWithin(count, jMax, nUpdate);
      if updateType == UpdateU {
        SweepU(lo, hi, beta);
      } else {
        if count == 0 {
          fields.log := fields.log + [XUpdate(alpha)];
        }
        if jMax > 0 {
          SweepR(lo, hi, alpha);
        } else {
          assert RSweep(lo, hi, alpha) == [];
        }
      }
      counter.count := counter.count + 1;
      if counter.count == nUpdate {
        counter.count := 0;
      }
    }

    /** The loop of apply() for u: u[i] = r[i] - beta u[i] for lo <= i < hi (and i < j_max). */
    method SweepU(lo: nat, hi: nat, beta: Complex)
      requires lo <= hi <= jMax
      modifies fields`log
      ensures fields.log == old(fields.log) + USweep(lo, hi, beta)
    {
      var i := lo;
      while i < hi && i < jMax
        invariant lo <= i <= hi
        invariant fields.log == old(fields.log) + USweep(lo, i, beta)
      {
        fields.log := fields.log + [Caxpby(One, R(i), Neg(beta), U(i))];
        i := i + 1;
      }
    }

    /** The loop of apply() for r: r[i] -= alpha u[i+1] for lo <= i < hi (and i < j_max). */
    method SweepR(lo: nat, hi: nat, alpha: Complex)
      requires lo <= hi <= jMax
      modifies fields`log
      ensures fields.log == old(fields.log) + RSweep(lo, hi, alpha)
    {
      var i := lo;
      while i < hi && i < jMax
        invariant lo <= i <= hi
        invariant fields.log == old(fields.log) + RSweep(lo, i, alpha)
      {
        fields.log := fields.log + [Caxpy(Neg(alpha), U(i + 1), R(i))];
        i := i + 1;
      }
    }
  }
}
