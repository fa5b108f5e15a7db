/** Facts about products, quotients and remainders of integers that the solver does not find alone, for
    positive divisors. */
module Arith {
  function Abs(x: int): (n: int)
    ensures n >= 0 && (n == x || n == -x)
  {
    if x < 0 then -x else x
  }

  lemma MulAtLeast(n: int, a: int)
    requires n >= 0 && a >= 1
    ensures n * a >= n
  {
    assert n * a == n * (a - 1) + n;
    MulNonNegative(n, a - 1);
  }

  lemma MulNonNegative(n: int, a: int)
    requires n >= 0 && a >= 0
    ensures n * a >= 0
  {
  }

  lemma Distribute(n: int, a: int, b: int)
    ensures n * (a - b) == n * a - n * b
    ensures n * (a + b) == n * a + n * b
  {
  }

  lemma DivModUnique(x: int, n: int, q: int, r: int)
    requires 0 < n && x == n * q + r && 0 <= r < n
    ensures x / n == q && x % n == r
  {
    var q', r' := x / n, x % n;
    assert x == n * q' + r' && 0 <= r' < n by { DivModIdentity(x, n); }
    Distribute(n, q, q');
    Distribute(n, q', q);
    if q > q' { MulAtLeast(n, q - q'); }
    if q < q' { MulAtLeast(n, q' - q); }
  }

  lemma DivModIdentity(x: int, n: int)
    requires n > 0
    ensures x == n * (x / n) + x % n
    ensures 0 <= x % n < n
  {
  }

  lemma ModShift(i: int, n: int)
    requires 0 < n
    ensures (i - n) % n == i % n
  {
    DivModIdentity(i, n);
    Distribute(n, i / n, 1);
    DivModUnique(i - n, n, i / n - 1, i % n);
  }

  lemma ModSmall(i: int, n: int)
    requires 0 <= i < n
    ensures i % n == i && i / n == 0
  {
    DivModUnique(i, n, 0, i);
  }
}
