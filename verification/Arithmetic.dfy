/** The arithmetic that several modules need, with facts about products and quotients that the solver
    does not find by itself. */
module Arithmetic {

  /** The numbers of 32 bits end here. */
  const TWO_32 := 0x1_0000_0000

  function Abs(a: int): int { if a < 0 then -a else a }

  function Min(a: int, b: int): int { if a < b then a else b }

  function Max(a: int, b: int): int { if a < b then b else a }

  lemma TimesOrder(a: int, b: int, n: int)
    requires a <= b && 0 <= n
    ensures a * n <= b * n
  {
    assert (b - a) * n >= 0;
  }

  lemma FactorOrder(a: int, b: int, n: int)
    requires a * n < b * n && 0 <= n
    ensures a < b
  {
    if b <= a { TimesOrder(b, a, n); }
  }

  lemma NextMultiple(r: int, n: int)
    ensures (r + 1) * n == r * n + n
  {
  }

  /** Quotient and rest are what they are. */
  lemma QuotientAndRest(n: int, q: int, r: int, d: int)
    requires 0 <= r < d && n == q * d + r
    ensures n / d == q && n % d == r
  {
    var p := n / d;
    assert n == p * d + n % d;
    if p < q {
      TimesOrder(p + 1, q, d);
      NextMultiple(p, d);
    }
    if q < p {
      TimesOrder(q + 1, p, d);
      NextMultiple(q, d);
    }
  }
}
