/** Facts about multiples and remainders. */
module Multiples {

  lemma SmallMultiple(n: int, d: int)
    requires -n < n * d < n
    ensures d == 0
  {
  }

  lemma QuotientIsUnique(n: int, p: int, q: int, r: nat, s: nat)
    requires 0 < n && r < n && s < n && n * p + r == n * q + s
    ensures p == q && r == s
  {
    assert n * (p - q) == n * p - n * q;
    SmallMultiple(n, p - q);
  }

  /** Two numbers closer than `n` with the same remainder are equal. */
  lemma SameOffset(n: int, a: int, b: int)
    requires n > 0 && -n < a - b < n && a % n == b % n
    ensures a == b
  {
    assert n * (a / n) - n * (b / n) == a - b;
    assert n * (a / n - b / n) == n * (a / n) - n * (b / n);
    SmallMultiple(n, a / n - b / n);
  }

  /** Some number among any `n` consecutive ones has the remainder `k`. */
  lemma NumberWithRemainder(first: nat, n: nat, k: nat) returns (m: nat)
    requires k < n
    ensures first <= m < first + n && m % n == k
  {
    var base := first % n;
    if k >= base {
      m := first + (k - base);
      assert m == n * (first / n) + k;
      QuotientIsUnique(n, m / n, first / n, m % n, k);
    } else {
      m := first + (n - base) + k;
      assert n * (first / n + 1) == n * (first / n) + n;
      QuotientIsUnique(n, m / n, first / n + 1, m % n, k);
    }
  }
}
