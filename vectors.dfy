/**
 * The field vectors of the solver, seen from outside.
 *
 * A field vector (ColorSpinorField) is opaque: its contents live on the device
 * and are only reached through BLAS kernels and the operator. The model
 * therefore records WHAT is done to the vectors, as a history of effects, and
 * reads inner products through an oracle that maps a history and two vectors
 * to the inner product those vectors have once that history has been applied.
 */
module Vectors {
  import opened Cx

  /**
   * The vectors the solver's updates name: the sloppy solution x_sloppy,
   * the residual basis r[i], the search directions u[i] and the shadow
   * residual r0 (the fixed left vector of the BiCG inner products), the
   * full-precision accumulator y of the solution and the source b.
   */
  datatype Vector = X | R(i: nat) | U(i: nat) | Shadow | Y | B

  /** One call of a BLAS kernel or of the operator, as it acts on the vectors. */
  datatype Effect =
      /** caxpy(a, x, y): y += a*x */
    | Caxpy(a: Complex, x: Vector, y: Vector)
      /** caxpby(a, x, b, y): y = a*x + b*y */
    | Caxpby(a: Complex, x: Vector, b: Complex, y: Vector)
      /** batched caxpy(a, xs, y): y += sum_k a[k]*xs[k] */
    | MultiCaxpy(coeffs: seq<Complex>, xs: seq<Vector>, y: Vector)
      /** caxpyBxpz(a, xs, y, b, z): y += sum_k a[k]*xs[k] and z += sum_k b[k]*xs[k], both from the old xs */
    | CaxpyBxpz(ay: seq<Complex>, xs: seq<Vector>, y: Vector, bz: seq<Complex>, z: Vector)
      /** matSloppy(out, src) or mat(out, src): out = A src */
    | MatVec(out: Vector, src: Vector)
      /** copy(y, x): y = x */
    | Copy(x: Vector, y: Vector)
      /** zero(y): y = 0 */
    | Clear(y: Vector)

  /** The inner product <a, b> after the given history of effects. */
  type InnerProduct = (seq<Effect>, Vector, Vector) -> Complex

  /** The vectors an effect writes. */
  function Writes(e: Effect): set<Vector>
  {
    match e
    case Caxpy(_, _, y) => {y}
    case Caxpby(_, _, _, y) => {y}
    case MultiCaxpy(_, _, y) => {y}
    case CaxpyBxpz(_, _, y, _, z) => {y, z}
    case MatVec(out, _) => {out}
    case Copy(_, y) => {y}
    case Clear(y) => {y}
  }

  /** Number of effects in `es` that write `v`. */
  function CountWrites(es: seq<Effect>, v: Vector): nat
  {
    if es == [] then 0
    else CountWrites(es[..|es| - 1], v) + (if v in Writes(es[|es| - 1]) then 1 else 0)
  }

  lemma {:induction false} CountWritesAppend(a: seq<Effect>, b: seq<Effect>, v: Vector)
    ensures CountWrites(a + b, v) == CountWrites(a, v) + CountWrites(b, v)
    decreases |b|
  {
    if b == [] {
      assert a + b == a;
    } else {
      assert (a + b)[..|a + b| - 1] == a + b[..|b| - 1];
      CountWritesAppend(a, b[..|b| - 1], v);
    }
  }

  /** The effects of `es` that write `v`, in the order they happen. */
  function Updates(es: seq<Effect>, v: Vector): (us: seq<Effect>)
    ensures |us| == CountWrites(es, v)
    ensures forall k :: 0 <= k < |us| ==> v in Writes(us[k])
  {
    if es == [] then []
    else Updates(es[..|es| - 1], v) + (if v in Writes(es[|es| - 1]) then [es[|es| - 1]] else [])
  }

  lemma {:induction false} UpdatesAppend(a: seq<Effect>, b: seq<Effect>, v: Vector)
    ensures Updates(a + b, v) == Updates(a, v) + Updates(b, v)
    decreases |b|
  {
    if b == [] {
      assert a + b == a;
    } else {
      assert (a + b)[..|a + b| - 1] == a + b[..|b| - 1];
      UpdatesAppend(a, b[..|b| - 1], v);
    }
  }

  /** The coefficient with which a batched kernel adds the old `src` into its target. */
  function CoefOf(coeffs: seq<Complex>, xs: seq<Vector>, src: Vector): Complex
    requires |coeffs| == |xs|
  {
    if xs == [] then Zero
    else Add(CoefOf(coeffs[..|xs| - 1], xs[..|xs| - 1], src),
             if xs[|xs| - 1] == src then coeffs[|xs| - 1] else Zero)
  }

  /**
   * The coefficient with which effect `e` adds the old value of `src` into
   * `dst` (the identity part of a target's own old value is not counted).
   */
  function Contribution(e: Effect, dst: Vector, src: Vector): Complex
  {
    match e
    case Caxpy(a, x, y) => if y == dst && x == src then a else Zero
    case Caxpby(a, x, _, y) => if y == dst && x == src then a else Zero
    case MultiCaxpy(c, xs, y) =>
      if y == dst && |c| == |xs| then CoefOf(c, xs, src) else Zero
    case CaxpyBxpz(a, xs, y, b, z) =>
      Add(if y == dst && |a| == |xs| then CoefOf(a, xs, src) else Zero,
          if z == dst && |b| == |xs| then CoefOf(b, xs, src) else Zero)
    case MatVec(_, _) => Zero
    case Copy(x, y) => if y == dst && x == src then One else Zero
    case Clear(_) => Zero
  }

  /** A batched caxpy adds into its target the coefficient of each source. */
  lemma MultiCaxpyContribution(coeffs: seq<Complex>, xs: seq<Vector>, y: Vector, src: Vector)
    requires |coeffs| == |xs|
    ensures Contribution(MultiCaxpy(coeffs, xs, y), y, src) == CoefOf(coeffs, xs, src)
  {
  }

  /** caxpyBxpz adds sum a[k] xs[k] into y and sum b[k] xs[k] into z. */
  lemma CaxpyBxpzContribution(ay: seq<Complex>, xs: seq<Vector>, y: Vector, bz: seq<Complex>, z: Vector, src: Vector)
    requires |ay| == |xs| == |bz| && y != z
    ensures Contribution(CaxpyBxpz(ay, xs, y, bz, z), y, src) == Add(CoefOf(ay, xs, src), Zero)
    ensures Contribution(CaxpyBxpz(ay, xs, y, bz, z), z, src) == Add(Zero, CoefOf(bz, xs, src))
  {
  }

  /** The vectors r[lo], ..., r[hi-1], as the solver lists them for a batched kernel. */
  function RRange(lo: nat, hi: nat): (vs: seq<Vector>)
    requires lo <= hi
    ensures |vs| == hi - lo
    ensures forall k :: 0 <= k < |vs| ==> vs[k] == R(lo + k)
  {
    seq(hi - lo, k requires 0 <= k < hi - lo => R(lo + k))
  }

  /** The vectors u[lo], ..., u[hi-1]. */
  function URange(lo: nat, hi: nat): (vs: seq<Vector>)
    requires lo <= hi
    ensures |vs| == hi - lo
    ensures forall k :: 0 <= k < |vs| ==> vs[k] == U(lo + k)
  {
    seq(hi - lo, k requires 0 <= k < hi - lo => U(lo + k))
  }

  /**
   * In a batched kernel over r[lo..hi), the coefficient picked up by r[i]
   * is the one at its position, and a vector outside the range picks up none.
   */
  lemma {:induction false} CoefOfRRange(coeffs: seq<Complex>, lo: nat, hi: nat, src: Vector)
    requires lo <= hi && |coeffs| == hi - lo
    ensures CoefOf(coeffs, RRange(lo, hi), src)
            == if src.R? && lo <= src.i < hi then coeffs[src.i - lo] else Zero
    decreases hi - lo
  {
    if lo < hi {
      var xs := RRange(lo, hi);
      assert xs[..|xs| - 1] == RRange(lo, hi - 1);
      CoefOfRRange(coeffs[..|xs| - 1], lo, hi - 1, src);
    }
  }

  /** The same for a batched kernel over u[lo..hi). */
  lemma {:induction false} CoefOfURange(coeffs: seq<Complex>, lo: nat, hi: nat, src: Vector)
    requires lo <= hi && |coeffs| == hi - lo
    ensures CoefOf(coeffs, URange(lo, hi), src)
            == if src.U? && lo <= src.i < hi then coeffs[src.i - lo] else Zero
    decreases hi - lo
  {
    if lo < hi {
      var xs := URange(lo, hi);
      assert xs[..|xs| - 1] == URange(lo, hi - 1);
      CoefOfURange(coeffs[..|xs| - 1], lo, hi - 1, src);
    }
  }

  /**
   * The vectors as the solver and its work-hiding worker share them: both hold
   * references to the same x, r and u, so one object carries the history.
   */
  class Fields {
    var log: seq<Effect>
    const dot: InnerProduct

    constructor (dot: InnerProduct)
      ensures log == [] && this.dot == dot
    {
      log := [];
      this.dot := dot;
    }
  }
}
