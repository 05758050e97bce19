/** Small facts about multiplication and Euclidean division by a positive
    divisor, stated over plain naturals so that each proof stays linear. */
module Arith {

  lemma MulLe(a: nat, b: nat, m: nat)
    requires a <= b
    ensures a * m <= b * m
  {
    var k := b - a;
    assert b * m == a * m + k * m;
  }

  lemma MulSucc(a: nat, m: nat)
    ensures (a + 1) * m == a * m + m
  {
  }

  lemma DivBounds(x: nat, q: nat, m: nat)
    requires m >= 1
    ensures x / m == q <==> q * m <= x < q * m + m
  {
    var d, r := x / m, x % m;
    assert x == d * m + r && 0 <= r < m;
    MulSucc(d, m);
    MulSucc(q, m);
    if d < q {
      MulLe(d + 1, q, m);
    } else if d > q {
      MulLe(q + 1, d, m);
    }
  }

  lemma ModOfMultiple(q: nat, m: nat, r: nat)
    requires r < m
    ensures (q * m + r) % m == r
  {
    DivBounds(q * m + r, q, m);
  }

  lemma DivStep(k: nat, n: nat)
    requires n >= 1
    ensures (k + n) / n == k / n + 1
  {
    DivBounds(k, k / n, n);
    MulSucc(k / n, n);
    DivBounds(k + n, k / n + 1, n);
  }

  /** `x` rounded down to a multiple of `m`. */
  function RoundDown(x: nat, m: nat): (n: nat)
    requires m >= 1
    ensures n <= x && n % m == 0 && n / m == x / m
    ensures x < n + m
  {
    var q := x / m;
    DivBounds(x, q, m);
    DivBounds(q * m, q, m);
    ModOfMultiple(q, m, 0);
    q * m
  }

  /** `x` shares `a`'s block of `m` exactly when it lies between the block's
      first element and the next block's. */
  lemma RoundDownBlock(x: nat, a: nat, m: nat)
    requires m >= 1
    ensures x / m == a / m <==> RoundDown(a, m) <= x < RoundDown(a, m) + m
  {
    DivBounds(x, a / m, m);
  }

  /** The last element of `x`'s block of `m`: below `top * m` when `x` is,
      with remainder `m - 1` and the same quotient as `x`. */
  lemma RoundDownLast(x: nat, m: nat, top: nat)
    requires m >= 1 && x < top * m
    ensures RoundDown(x, m) + m - 1 < top * m
    ensures (RoundDown(x, m) + m - 1) % m == m - 1
    ensures (RoundDown(x, m) + m - 1) / m == x / m
  {
    var q := x / m;
    assert RoundDown(x, m) == q * m;
    DivBounds(x, q, m);
    if q >= top {
      MulLe(top, q, m);
    }
    MulLe(q + 1, top, m);
    MulSucc(q, m);
    DivBounds(q * m + m - 1, q, m);
    ModOfMultiple(q, m, m - 1);
  }
}
