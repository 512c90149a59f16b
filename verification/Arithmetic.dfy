/** Facts about multiplication and division by a variable that the other modules share. */
module Arithmetic {

  function Max(a: int, b: int): int { if a > b then a else b }

  lemma Grows(a: int, b: int, c: int, d: int)
    requires 0 <= a <= c && 0 <= b <= d
    ensures a * b <= c * d
  {
  }

  lemma OnlyZeroMultiple(d: int, m: int)
    requires -d < d * m < d
    ensures m == 0
  {
  }

  /** Quotient and remainder are determined by n == d * q + r with 0 <= r < d. */
  lemma DivisionIsUnique(n: int, d: int, q: int, r: int)
    requires 0 <= r < d && n == d * q + r
    ensures n / d == q && n % d == r
  {
    var q', r' := n / d, n % d;
    assert n == d * q' + r';
    assert d * (q - q') == d * q - d * q';
    OnlyZeroMultiple(d, q - q');
  }
}
