/** Facts about truncating integer division on non-negative operands, which
    the progress and size computations rely on. */
module Arithmetic {

  lemma MulMonotone(n: nat, x: int, y: int)
    requires x <= y
    ensures n * x <= n * y
  {
    assert n * y - n * x == n * (y - x);
  }

  lemma DivAtMost(a: nat, b: nat, c: nat)
    requires b > 0 && a <= b * c
    ensures a / b <= c
  {
  }

  lemma DivMonotone(a: nat, b: nat, n: nat)
    requires n > 0 && a <= b
    ensures a / n <= b / n
  {
    var q, p := a / n, b / n;
    assert a == n * q + a % n;
    assert b == n * p + b % n;
    if q > p {
      MulMonotone(n, p + 1, q);
    }
  }

  lemma MulDivCancel(c: nat, n: nat)
    requires n > 0
    ensures (c * n) / n == c
  {
    var q, r := (c * n) / n, (c * n) % n;
    assert c * n == n * q + r;
    if q > c {
      assert n * (c + 1) == n * c + n;
      MulMonotone(n, c + 1, q);
    } else if q < c {
      assert n * (q + 1) == n * q + n;
      MulMonotone(n, q + 1, c);
    }
  }
}
