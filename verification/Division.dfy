/**
 Truncated division by a positive divisor.
 */
module Division {

  lemma DivisionBounds(x: int, d: int)
    requires 0 < d
    ensures x / d * d <= x < (x / d + 1) * d
  {
    assert x == x / d * d + x % d;
  }

  lemma CancelFactor(a: int, b: int, d: int)
    requires 0 < d && a * d < b * d
    ensures a < b
  {
  }

  /** q is the truncated quotient when it is the last whole number of steps below x. */
  lemma QuotientAtLeast(q: int, x: int, d: int)
    requires 0 < d && q * d <= x
    ensures q <= x / d
  {
    DivisionBounds(x, d);
    CancelFactor(q, x / d + 1, d);
  }

  lemma QuotientBelow(q: int, x: int, d: int)
    requires 0 < d && x < (q + 1) * d
    ensures x / d <= q
  {
    DivisionBounds(x, d);
    CancelFactor(x / d, q + 1, d);
  }

  lemma ScaleOver(q: int, x: int, d: int, y: int, e: int)
    requires 0 < d && 0 < e && q * d <= x && x * e <= y * d
    ensures q * e <= y
  {
    assert q * d * e <= x * e;
    assert q * e * d == q * d * e && (y + 1) * d == y * d + d;
    CancelFactor(q * e, y + 1, d);
  }

  lemma DivisionMonotone(x: int, y: int, d: int)
    requires x <= y && 0 < d
    ensures x / d <= y / d
  {
    DivisionBounds(x, d);
    QuotientAtLeast(x / d, y, d);
  }

  lemma UniqueQuotient(x: int, d: int, q: int, r: int)
    requires 0 < d && x == q * d + r && 0 <= r < d
    ensures x / d == q
  {
    QuotientAtLeast(q, x, d);
    OneMore(q, d);
    QuotientBelow(q, x, d);
  }

  lemma OneMore(k: int, d: int)
    ensures (k + 1) * d == k * d + d
  {
  }

  lemma TimesMonotone(d: nat, n: int, k: int)
    requires n <= k
    ensures n * d <= k * d
  {
  }

  lemma BackToSize(k: int, x: int, d: nat)
    requires 0 < d && k <= x / d
    ensures k * d <= x
  {
    DivisionBounds(x, d);
    TimesMonotone(d, k, x / d);
  }

  /** One whole step less. */
  lemma DivideLess(x: int, d: nat, k: int)
    requires 0 < d
    ensures (x - k * d) / d == x / d - k
  {
    var q, r := x / d, x % d;
    assert x == q * d + r;
    assert (q - k) * d == q * d - k * d;
    UniqueQuotient(x - k * d, d, q - k, r);
  }

  lemma DivideSmall(x: int, d: nat)
    requires 0 < d && 0 <= x
    ensures 0 <= x / d && (x < d ==> x / d == 0)
  {
    QuotientAtLeast(0, x, d);
    if x < d {
      UniqueQuotient(x, d, 0, x);
    }
  }

  lemma NoMultiple(x: int, d: nat, k: int)
    requires 0 < d && x % d != 0
    ensures k * d != x
  {
    if k * d == x {
      UniqueQuotient(x, d, k, 0);
      assert false;
    }
  }
}
