/** Facts about non-negative integer multiplication and (truncating) division. */
module Arith {

  lemma MulMonotone(c: int, d: int, m: nat)
    requires c <= d
    ensures m * c <= m * d
  {
    assert m * d == m * c + m * (d - c);
  }

  lemma MulCancel(n: nat, x: int, y: int)
    requires n > 0 && n * x < n * y
    ensures x < y
  {
    if x >= y { MulMonotone(y, x, n); }
  }

  lemma DivBounds(x: nat, n: nat)
    requires n > 0
    ensures n * (x / n) <= x < n * (x / n) + n
  {
  }

  lemma DivMonotone(a: nat, b: nat, n: nat)
    requires a <= b && n > 0
    ensures a / n <= b / n
  {
    DivBounds(a, n);
    DivBounds(b, n);
    assert n * (a / n) < n * (b / n + 1);
    MulCancel(n, a / n, b / n + 1);
  }

  lemma DivMulCancel(j: nat, n: nat)
    requires n > 0
    ensures n * j / n == j
  {
    DivBounds(n * j, n);
    var q := n * j / n;
    assert n * q <= n * j < n * q + n;
    MulCancel(n, q, j + 1);
    assert n * j < n * (q + 1);
    MulCancel(n, j, q + 1);
  }

  /** Division by n undoes q*n + r when 0 <= r < n. */
  lemma DivUnique(q: nat, r: nat, n: nat)
    requires r < n
    ensures (q * n + r) / n == q && (q * n + r) % n == r
  {
    var x := q * n + r;
    DivBounds(x, n);
    var d := x / n;
    assert n * d <= n * q + r < n * q + n;
    MulCancel(n, d, q + 1);
    assert n * q < n * (d + 1);
    MulCancel(n, q, d + 1);
  }

  /** C++ integer division: the quotient truncated toward zero. */
  function CDiv(a: int, b: int): int
    requires b != 0
  {
    var q := (if a < 0 then -a else a) / (if b < 0 then -b else b);
    if (a < 0) == (b < 0) then q else -q
  }

  /** C++ remainder, a - b * (a / b), which takes the sign of a. */
  function CRem(a: int, b: int): int
    requires b != 0
  {
    a - b * CDiv(a, b)
  }

  /**
   * For a non-negative dividend, C++ division by a positive b agrees with
   * Euclidean division; by a negative b the quotient is at most 0 and the
   * remainder is a mod |b|.
   */
  lemma CDivOfNat(a: nat, b: int)
    requires b != 0
    ensures b > 0 ==> CDiv(a, b) == a / b && CRem(a, b) == a % b
    ensures b < 0 ==> CDiv(a, b) <= 0 && CRem(a, b) == a % -b
  {
    var m := if b < 0 then -b else b;
    var q, r := a / m, a % m;
    assert a == m * q + r;
    if b < 0 {
      assert CDiv(a, b) == -q;
      assert b * -q == m * q;
    } else {
      assert CDiv(a, b) == q;
    }
  }
}
