/** Division by a variable, step by step. */
module Division {
  lemma Multiple(k: int, d: nat)
    ensures k >= 1 ==> k * d >= d
    ensures k <= -1 ==> k * d <= -1 * d
  {
  }

  lemma Quotient(a: nat, d: nat)
    requires 0 < d
    ensures a == (a / d) * d + a % d && 0 <= a % d < d && 0 <= a / d
  {
    Multiple(a / d, d);
  }

  lemma UniqueQuotient(q: int, r: int, p: int, s: int, d: nat)
    requires q * d + r == p * d + s && 0 <= r < d && 0 <= s < d
    ensures q == p && r == s
  {
    assert (q - p) * d == s - r;
    Multiple(q - p, d);
  }

  lemma QuotientIs(a: nat, d: nat, q: nat, r: nat)
    requires r < d && a == q * d + r
    ensures a / d == q && a % d == r
  {
    Quotient(a, d);
    UniqueQuotient(a / d, a % d, q, r, d);
  }

  /** Taking d away takes 1 off the quotient. */
  lemma QuotientStep(a: nat, d: nat)
    requires 0 < d
    ensures a / d > 0 <==> d <= a
    ensures d <= a ==> (a - d) / d == a / d - 1
  {
    Quotient(a, d);
    if d <= a {
      Quotient(a - d, d);
      assert (a / d - 1) * d == (a / d) * d - d;
      UniqueQuotient(a / d - 1, a % d, (a - d) / d, (a - d) % d, d);
    } else {
      UniqueQuotient(a / d, a % d, 0, a, d);
    }
  }
}
