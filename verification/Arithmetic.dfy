/** Multiplication and division facts the solver does not find by itself. */
module Arithmetic {
  lemma MulLe(a: int, b: int, d: int)
    requires a <= b && 0 <= d
    ensures a * d <= b * d
  {
    assert (b - a) * d >= 0;
  }

  /** A quotient and remainder are determined by their equation. */
  lemma DivModIs(y: int, d: int, k: int, rest: int)
    requires 0 <= rest < d && y == k * d + rest
    ensures y / d == k && y % d == rest
  {
    var j := y / d - k;
    assert j * d == rest - y % d;
    if j >= 1 { MulLe(1, j, d); }
    if j <= -1 { MulLe(1, -j, d); }
  }

  lemma DivAtLeast(x: int, d: int, q: int)
    requires d > 0 && x >= q * d
    ensures x / d >= q
  {
    var j := q - x / d;
    assert j * d <= x % d;
    if j >= 1 { MulLe(1, j, d); }
  }

  lemma DivMonotone(x: int, y: int, d: int)
    requires d > 0 && x <= y
    ensures x / d <= y / d
  {
    DivAtLeast(y, d, x / d);
  }
}
