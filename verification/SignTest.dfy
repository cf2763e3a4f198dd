/** Exact arithmetic of the one-sided sign test: scripts/benchmark-ponytail.ts. */
module SignTest {
  import opened Multiples
  import opened Ordering

  /** Pascal's triangle. */
  function Binomial(n: nat, k: nat): nat {
    if k == 0 then 1
    else if n == 0 then 0
    else Binomial(n - 1, k - 1) + Binomial(n - 1, k)
  }

  function Pow2(n: nat): nat {
    if n == 0 then 1 else 2 * Pow2(n - 1)
  }

  lemma {:induction false} BinomialBeyond(n: nat, k: nat)
    requires k > n
    ensures Binomial(n, k) == 0
  {
    if n > 0 {
      BinomialBeyond(n - 1, k - 1);
      BinomialBeyond(n - 1, k);
    }
  }

  lemma {:induction false} BinomialPositive(n: nat, k: nat)
    requires k <= n
    ensures Binomial(n, k) > 0
  {
    if k > 0 { BinomialPositive(n - 1, k - 1); }
  }

  lemma {:induction false} Symmetric(n: nat, k: nat)
    requires k <= n
    ensures Binomial(n, k) == Binomial(n, n - k)
  {
    if n > 0 {
      if k == 0 {
        Symmetric(n - 1, 0);
        BinomialBeyond(n - 1, n);
      } else if k == n {
        Symmetric(n - 1, n - 1);
        BinomialBeyond(n - 1, n);
      } else {
        Symmetric(n - 1, k - 1);
        Symmetric(n - 1, k);
      }
    }
  }

  /** k * C(n, k) == n * C(n - 1, k - 1). */
  lemma {:induction false} Absorption(n: nat, k: nat)
    requires n > 0 && k > 0
    ensures k * Binomial(n, k) == n * Binomial(n - 1, k - 1)
  {
    if n == 1 {
      if k > 1 { BinomialBeyond(0, k - 1); }
      BinomialBeyond(0, k);
    } else {
      Absorption(n - 1, k);
      if k == 1 {
        assert Binomial(n, 1) == Binomial(n - 1, 0) + Binomial(n - 1, 1);
      } else {
        Absorption(n - 1, k - 1);
        AbsorptionStep(n, k, Binomial(n - 1, k - 1), Binomial(n - 1, k),
                       Binomial(n - 2, k - 2), Binomial(n - 2, k - 1));
      }
    }
  }

  lemma AbsorptionStep(n: int, k: int, left: int, right: int, below: int, beside: int)
    requires (k - 1) * left == (n - 1) * below && k * right == (n - 1) * beside
    requires left == below + beside
    ensures k * (left + right) == n * left
  {
    assert k * (left + right) == left + (k - 1) * left + k * right;
    assert (n - 1) * below + (n - 1) * beside == (n - 1) * left;
  }

  /** Every quotient on the way is an integer, and the result is the binomial coefficient. */
  method Choose(total: nat, selected: nat) returns (result: nat)
    requires selected <= total
    ensures result == Binomial(total, selected)
  {
    result := 1;
    for index := 1 to selected + 1
      invariant result == Binomial(total - selected + index - 1, index - 1)
    {
      var m := total - selected + index;
      Absorption(m, index);
      var product := result * m;
      assert product == index * Binomial(m, index);
      QuotientIsUnique(index, product / index, Binomial(m, index), product % index, 0);
      assert product % index == 0;
      result := product / index;
    }
  }

  /** C(n, w) + C(n, w + 1) + ... + C(n, n). */
  function Tail(n: nat, w: nat): nat
    decreases n + 1 - w
  {
    if w > n then 0 else Binomial(n, w) + Tail(n, w + 1)
  }

  /** C(n, 0) + ... + C(n, w - 1). */
  function Head(n: nat, w: nat): nat {
    if w == 0 then 0 else Head(n, w - 1) + Binomial(n, w - 1)
  }

  /** Of all sequences of `n` wins and losses, how many have at least `w` wins. */
  function AtLeast(n: nat, w: int): nat {
    if n == 0 then (if w <= 0 then 1 else 0) else AtLeast(n - 1, w - 1) + AtLeast(n - 1, w)
  }

  lemma {:induction false} TailPascal(n: nat, w: nat)
    requires n > 0 && w > 0
    ensures Tail(n, w) == Tail(n - 1, w - 1) + Tail(n - 1, w)
    decreases n + 1 - w
  {
    if w < n {
      TailPascal(n, w + 1);
    } else if w == n {
      BinomialBeyond(n - 1, n);
    }
  }

  lemma {:induction false} TailIsAtLeast(n: nat, w: nat)
    ensures Tail(n, w) == AtLeast(n, w) && AtLeast(n, 0) == AtLeast(n, -1) == Pow2(n) == Tail(n, 0)
  {
    if n > 0 {
      AtLeastEverything(n, -1);
      AtLeastEverything(n, 0);
      TailIsAtLeast(n - 1, w);
      TailIsAtLeast(n - 1, 0);
      if w > 0 {
        TailIsAtLeast(n - 1, w - 1);
        TailPascal(n, w);
      }
      WholeTail(n);
    }
  }

  lemma {:induction false} AtLeastEverything(n: nat, w: int)
    requires w <= 0
    ensures AtLeast(n, w) == Pow2(n)
  {
    if n > 0 {
      AtLeastEverything(n - 1, w - 1);
      AtLeastEverything(n - 1, w);
    }
  }

  lemma {:induction false} WholeTail(n: nat)
    ensures Tail(n, 0) == Pow2(n)
  {
    if n > 0 {
      WholeTail(n - 1);
      TailPascal(n, 1);
    }
  }

  lemma {:induction false} HeadAndTail(n: nat, w: nat)
    requires w <= n + 1
    ensures Head(n, w) + Tail(n, w) == Pow2(n)
  {
    if w == 0 { WholeTail(n); } else { HeadAndTail(n, w - 1); }
  }

  /** Counting losses from below is counting wins from above. */
  lemma {:induction false} HeadIsTail(n: nat, w: nat)
    requires w <= n + 1
    ensures Head(n, w) == Tail(n, n + 1 - w)
  {
    if w > 0 {
      HeadIsTail(n, w - 1);
      Symmetric(n, w - 1);
    }
  }

  // ---------- the p value ----------

  function PValue(wins: nat, nonTies: nat): real {
    Tail(nonTies, wins) as real / PowerOfTwo(nonTies)
  }

  function PowerOfTwo(n: nat): (p: real)
    ensures p > 0.0
  {
    PowerPositive(n);
    Pow2(n) as real
  }

  lemma {:induction false} PowerPositive(n: nat)
    ensures Pow2(n) > 0
  {
    if n > 0 { PowerPositive(n - 1); }
  }

  method OneSidedSignTestPValue(wins: int, nonTies: int) returns (r: Result<real, string>)
    ensures r.Ok? <==> 0 <= wins <= nonTies
    ensures r.Ok? ==> r.value == PValue(wins, nonTies)
  {
    if wins < 0 || wins > nonTies {
      return Err("invalid sign-test counts");
    }
    var combinations := 0;
    for count := wins to nonTies + 1
      invariant combinations + Tail(nonTies, count) == Tail(nonTies, wins)
    {
      var ways := Choose(nonTies, count);
      combinations := combinations + ways;
    }
    r := Ok(combinations as real / PowerOfTwo(nonTies));
  }

  /** The p value is the fraction of all outcomes of fair coin tosses with at least that many wins. */
  lemma PValueIsFraction(wins: nat, nonTies: nat)
    ensures PValue(wins, nonTies) == AtLeast(nonTies, wins) as real / PowerOfTwo(nonTies)
    ensures PValue(0, nonTies) == 1.0
  {
    TailIsAtLeast(nonTies, wins);
    WholeTail(nonTies);
    WholeFraction(PowerOfTwo(nonTies));
  }

  lemma WholeFraction(c: real)
    requires c > 0.0
    ensures c / c == 1.0
  {
  }

  lemma SumOfFractions(a: real, b: real, c: real)
    requires c > 0.0 && a + b == c
    ensures a / c + b / c == 1.0
  {
    assert a / c + b / c == (a + b) / c;
  }

  /** Winning at least `w` and losing at least as many complement each other. */
  lemma PValuesComplement(w: nat, n: nat)
    requires 1 <= w <= n
    ensures PValue(w, n) + PValue(n - w + 1, n) == 1.0
  {
    HeadAndTail(n, w);
    HeadIsTail(n, w);
    SumOfFractions(Tail(n, w) as real, Tail(n, n - w + 1) as real, PowerOfTwo(n));
  }

  lemma DivideLess(a: real, b: real, c: real)
    requires c > 0.0 && a < b
    ensures a / c < b / c
  {
    assert b / c - a / c == (b - a) / c;
  }

  lemma {:induction false} PValueDecreases(w: nat, v: nat, n: nat)
    requires w < v <= n + 1
    ensures PValue(v, n) < PValue(w, n)
    decreases v - w
  {
    BinomialPositive(n, w);
    DivideLess(Tail(n, w + 1) as real, Tail(n, w) as real, PowerOfTwo(n));
    if w + 1 < v { PValueDecreases(w + 1, v, n); }
  }

  /** The verdict of the benchmark: enough correct pairs, and a small enough p value. */
  predicate StrongEffect(allCorrect: bool, pairs: nat, wins: nat, losses: nat) {
    allCorrect && pairs == 9 && wins + losses >= 6 && PValue(wins, wins + losses) <= 0.05
  }

  /** One more win in place of a loss never takes a strong effect away. */
  lemma MoreWinsKeepEffect(pairs: nat, wins: nat, losses: nat)
    requires losses > 0 && StrongEffect(true, pairs, wins, losses)
    ensures StrongEffect(true, pairs, wins + 1, losses - 1)
  {
    PValueDecreases(wins, wins + 1, wins + losses);
  }
}
