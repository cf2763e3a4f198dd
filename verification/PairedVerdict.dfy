/** Pairing benchmark cases and deciding on them: evaluatePonytailBenchmark in scripts/benchmark-ponytail.ts. */
module PairedVerdict {
  import opened Ordering
  import opened SignTest

  /** One run of a scenario; `lines` is missing where the run left nothing to measure. */
  datatype Case = Case(scenario: string, repetition: nat, ultra: bool, lines: Option<int>, valid: bool)

  datatype Outcome = UltraLower | UltraHigher | Tie

  datatype Pair = Pair(scenario: string, repetition: nat, offLines: int, ultraLines: int)
  {
    function Outcome(): Outcome {
      if ultraLines - offLines < 0 then UltraLower else if ultraLines - offLines > 0 then UltraHigher else Tie
    }
  }

  const REPETITIONS: nat := 3

  predicate Matches(c: Case, scenario: string, repetition: nat, ultra: bool) {
    c.scenario == scenario && c.repetition == repetition && c.ultra == ultra
  }

  /** The first case that matches. */
  function Find(cases: seq<Case>, scenario: string, repetition: nat, ultra: bool): (c: Option<Case>)
    ensures c.Some? ==> c.value in cases && Matches(c.value, scenario, repetition, ultra)
    ensures c.None? ==> forall other | other in cases :: !Matches(other, scenario, repetition, ultra)
  {
    if cases == [] then None
    else if Matches(cases[0], scenario, repetition, ultra) then Some(cases[0])
    else Find(cases[1..], scenario, repetition, ultra)
  }

  /** The pair of one scenario and repetition, if both of its cases were measured. */
  function PairFor(cases: seq<Case>, scenario: string, repetition: nat): Option<Pair> {
    match (Find(cases, scenario, repetition, false), Find(cases, scenario, repetition, true))
    case (Some(off), Some(ultra)) =>
      if off.lines.Some? && ultra.lines.Some? then Some(Pair(scenario, repetition, off.lines.value, ultra.lines.value))
      else None
    case _ => None
  }

  function Listed(pair: Option<Pair>): seq<Pair> {
    if pair.Some? then [pair.value] else []
  }

  /** The pairs of repetitions 1 to `k` of a scenario. */
  function Repeated(cases: seq<Case>, scenario: string, k: nat): seq<Pair> {
    if k == 0 then [] else Repeated(cases, scenario, k - 1) + Listed(PairFor(cases, scenario, k))
  }

  function PairsOf(cases: seq<Case>, scenarios: seq<string>): seq<Pair> {
    if scenarios == [] then []
    else PairsOf(cases, scenarios[..|scenarios|-1]) + Repeated(cases, scenarios[|scenarios|-1], REPETITIONS)
  }

  function Count(pairs: seq<Pair>, outcome: Outcome): nat {
    if pairs == [] then 0
    else Count(pairs[..|pairs|-1], outcome) + (if pairs[|pairs|-1].Outcome() == outcome then 1 else 0)
  }

  // ---------- what is paired ----------

  ghost predicate Same(c: Case, scenario: string, repetition: nat, ultra: bool) {
    c.scenario == scenario && c.repetition == repetition && c.ultra == ultra
  }

  /** The case at `i` is the first of its scenario, repetition and mode. */
  ghost predicate FirstAt(cases: seq<Case>, scenario: string, repetition: nat, ultra: bool, i: nat) {
    && i < |cases| && Same(cases[i], scenario, repetition, ultra)
    && forall j | 0 <= j < i :: !Same(cases[j], scenario, repetition, ultra)
  }

  ghost predicate FirstCase(cases: seq<Case>, scenario: string, repetition: nat, ultra: bool, c: Case) {
    exists i: nat :: FirstAt(cases, scenario, repetition, ultra, i) && cases[i] == c
  }

  /** Both first cases of a scenario and repetition were measured, and the pair holds their lines. */
  ghost predicate Paired(cases: seq<Case>, p: Pair) {
    exists off, ultra ::
      && FirstCase(cases, p.scenario, p.repetition, false, off)
      && FirstCase(cases, p.scenario, p.repetition, true, ultra)
      && off.lines == Some(p.offLines) && ultra.lines == Some(p.ultraLines)
  }

  lemma {:induction false} FirstIsFound(cases: seq<Case>, scenario: string, repetition: nat, ultra: bool, i: nat)
    requires FirstAt(cases, scenario, repetition, ultra, i)
    ensures Find(cases, scenario, repetition, ultra) == Some(cases[i])
  {
    if i > 0 {
      assert !Same(cases[0], scenario, repetition, ultra);
      forall j | 0 <= j < i - 1 ensures !Same(cases[1..][j], scenario, repetition, ultra) {
        assert !Same(cases[j + 1], scenario, repetition, ultra);
      }
      FirstIsFound(cases[1..], scenario, repetition, ultra, i - 1);
    }
  }

  lemma {:induction false} FoundAt(cases: seq<Case>, scenario: string, repetition: nat, ultra: bool) returns (i: nat)
    requires Find(cases, scenario, repetition, ultra).Some?
    ensures FirstAt(cases, scenario, repetition, ultra, i)
    ensures Find(cases, scenario, repetition, ultra) == Some(cases[i])
  {
    if Matches(cases[0], scenario, repetition, ultra) {
      i := 0;
    } else {
      var k := FoundAt(cases[1..], scenario, repetition, ultra);
      i := k + 1;
      forall j | 0 <= j < i ensures !Same(cases[j], scenario, repetition, ultra) {
        if j > 0 { assert !Same(cases[1..][j - 1], scenario, repetition, ultra); }
      }
    }
  }

  lemma FoundIsFirst(cases: seq<Case>, scenario: string, repetition: nat, ultra: bool, c: Case)
    ensures Find(cases, scenario, repetition, ultra) == Some(c) <==> FirstCase(cases, scenario, repetition, ultra, c)
  {
    if Find(cases, scenario, repetition, ultra).Some? {
      var i := FoundAt(cases, scenario, repetition, ultra);
    }
    if FirstCase(cases, scenario, repetition, ultra, c) {
      var i: nat :| FirstAt(cases, scenario, repetition, ultra, i) && cases[i] == c;
      FirstIsFound(cases, scenario, repetition, ultra, i);
    }
  }

  lemma PairForMeaning(cases: seq<Case>, scenario: string, repetition: nat, p: Pair)
    ensures PairFor(cases, scenario, repetition) == Some(p) <==>
              p.scenario == scenario && p.repetition == repetition && Paired(cases, p)
  {
    var off, ultra := Find(cases, scenario, repetition, false), Find(cases, scenario, repetition, true);
    if off.Some? { FoundIsFirst(cases, scenario, repetition, false, off.value); }
    if ultra.Some? { FoundIsFirst(cases, scenario, repetition, true, ultra.value); }
    if p.scenario == scenario && p.repetition == repetition && Paired(cases, p) {
      var a, b :| && FirstCase(cases, scenario, repetition, false, a) && FirstCase(cases, scenario, repetition, true, b)
                  && a.lines == Some(p.offLines) && b.lines == Some(p.ultraLines);
      FoundIsFirst(cases, scenario, repetition, false, a);
      FoundIsFirst(cases, scenario, repetition, true, b);
    }
  }

  lemma ListedMeaning(cases: seq<Case>, scenario: string, k: nat, p: Pair)
    ensures p in Listed(PairFor(cases, scenario, k)) <==>
              p.scenario == scenario && p.repetition == k && Paired(cases, p)
  {
    PairForMeaning(cases, scenario, k, p);
  }

  lemma RepeatedStep(cases: seq<Case>, scenario: string, k: nat, p: Pair)
    requires k > 0
    ensures p in Repeated(cases, scenario, k) <==>
              p in Repeated(cases, scenario, k - 1) || p in Listed(PairFor(cases, scenario, k))
  {
  }

  lemma {:induction false} RepeatedMembers(cases: seq<Case>, scenario: string, k: nat, p: Pair)
    ensures p in Repeated(cases, scenario, k) <==>
              p.scenario == scenario && 1 <= p.repetition <= k && Paired(cases, p)
  {
    if k > 0 {
      RepeatedMembers(cases, scenario, k - 1, p);
      RepeatedStep(cases, scenario, k, p);
      ListedMeaning(cases, scenario, k, p);
    }
  }

  /** Exactly the repetitions of the scenarios that were measured in both modes are paired. */
  lemma {:induction false} PairsMembers(cases: seq<Case>, scenarios: seq<string>, p: Pair)
    ensures p in PairsOf(cases, scenarios) <==>
              p.scenario in scenarios && 1 <= p.repetition <= 3 && Paired(cases, p)
  {
    if scenarios != [] {
      var n := |scenarios| - 1;
      assert scenarios == scenarios[..n] + [scenarios[n]];
      PairsMembers(cases, scenarios[..n], p);
      RepeatedMembers(cases, scenarios[n], REPETITIONS, p);
    }
  }

  /** `p` comes before `q`: an earlier scenario, or an earlier repetition of the same one. */
  ghost predicate Precedes(scenarios: seq<string>, p: Pair, q: Pair) {
    exists a, b ::
      && 0 <= a <= b < |scenarios| && p.scenario == scenarios[a] && q.scenario == scenarios[b]
      && (a == b ==> p.repetition < q.repetition)
  }

  lemma {:induction false} RepeatedInOrder(cases: seq<Case>, scenario: string, k: nat)
    ensures
      var pairs := Repeated(cases, scenario, k);
      && (forall p | p in pairs :: p.scenario == scenario && p.repetition <= k)
      && forall i, j | 0 <= i < j < |pairs| :: pairs[i].repetition < pairs[j].repetition
  {
    if k > 0 { RepeatedInOrder(cases, scenario, k - 1); }
  }

  lemma PrecedesLater(scenarios: seq<string>, more: seq<string>, p: Pair, q: Pair)
    requires Precedes(scenarios, p, q)
    ensures Precedes(scenarios + more, p, q)
  {
    var a, b :| && 0 <= a <= b < |scenarios| && p.scenario == scenarios[a] && q.scenario == scenarios[b]
                && (a == b ==> p.repetition < q.repetition);
    assert (scenarios + more)[a] == scenarios[a] && (scenarios + more)[b] == scenarios[b];
  }

  lemma PrecedesLast(init: seq<string>, last: string, p: Pair, q: Pair)
    requires q.scenario == last && (p.scenario in init || (p.scenario == last && p.repetition < q.repetition))
    ensures Precedes(init + [last], p, q)
  {
    var n := |init|;
    assert (init + [last])[n] == q.scenario;
    if p.scenario in init {
      var a :| 0 <= a < n && init[a] == p.scenario;
      assert (init + [last])[a] == p.scenario;
    }
  }

  ghost predicate Ordered(scenarios: seq<string>, pairs: seq<Pair>) {
    forall i, j | 0 <= i < j < |pairs| :: Precedes(scenarios, pairs[i], pairs[j])
  }

  lemma OrderedAppend(init: seq<string>, last: string, before: seq<Pair>, more: seq<Pair>)
    requires Ordered(init, before) && forall p | p in before :: p.scenario in init
    requires forall p | p in more :: p.scenario == last
    requires forall i, j | 0 <= i < j < |more| :: more[i].repetition < more[j].repetition
    ensures Ordered(init + [last], before + more)
  {
    var pairs := before + more;
    forall i, j | 0 <= i < j < |pairs| ensures Precedes(init + [last], pairs[i], pairs[j]) {
      if j < |before| {
        PrecedesLater(init, [last], before[i], before[j]);
      } else {
        assert pairs[j] == more[j - |before|] && pairs[j] in more;
        if i < |before| {
          assert pairs[i] in before;
        } else {
          assert pairs[i] == more[i - |before|] && pairs[i] in more;
        }
        PrecedesLast(init, last, pairs[i], pairs[j]);
      }
    }
  }

  /** The pairs follow the scenarios, and the repetitions within a scenario. */
  lemma {:induction false} PairsInOrder(cases: seq<Case>, scenarios: seq<string>)
    ensures Ordered(scenarios, PairsOf(cases, scenarios))
  {
    if scenarios != [] {
      var n := |scenarios| - 1;
      var init, last := scenarios[..n], scenarios[n];
      assert scenarios == init + [last];
      PairsInOrder(cases, init);
      RepeatedInOrder(cases, last, REPETITIONS);
      forall p | p in PairsOf(cases, init) ensures p.scenario in init { PairsMembers(cases, init, p); }
      OrderedAppend(init, last, PairsOf(cases, init), Repeated(cases, last, REPETITIONS));
    }
  }

  lemma {:induction false} RepeatedLength(cases: seq<Case>, scenario: string, k: nat)
    ensures |Repeated(cases, scenario, k)| <= k
    ensures |Repeated(cases, scenario, k)| == k ==>
              forall r | 1 <= r <= k :: PairFor(cases, scenario, r).Some?
  {
    if k > 0 { RepeatedLength(cases, scenario, k - 1); }
  }

  ghost predicate SomePair(cases: seq<Case>, scenario: string, repetition: nat) {
    exists p: Pair :: p.scenario == scenario && p.repetition == repetition && Paired(cases, p)
  }

  lemma SomePairMeaning(cases: seq<Case>, scenario: string, repetition: nat)
    requires PairFor(cases, scenario, repetition).Some?
    ensures SomePair(cases, scenario, repetition)
  {
    PairForMeaning(cases, scenario, repetition, PairFor(cases, scenario, repetition).value);
  }

  /** All pairs are there only if every repetition of every scenario was measured in both modes. */
  lemma {:induction false} FullCountMeansAll(cases: seq<Case>, scenarios: seq<string>)
    ensures |PairsOf(cases, scenarios)| <= 3 * |scenarios|
    ensures |PairsOf(cases, scenarios)| == 3 * |scenarios| ==>
              forall s, r | s in scenarios && 1 <= r <= 3 :: SomePair(cases, s, r)
  {
    if scenarios != [] {
      var n := |scenarios| - 1;
      assert scenarios == scenarios[..n] + [scenarios[n]];
      FullCountMeansAll(cases, scenarios[..n]);
      RepeatedLength(cases, scenarios[n], REPETITIONS);
      if |PairsOf(cases, scenarios)| == 3 * |scenarios| {
        forall r | 1 <= r <= 3 ensures SomePair(cases, scenarios[n], r) { SomePairMeaning(cases, scenarios[n], r); }
      }
    }
  }

  ghost function Lower(pairs: seq<Pair>): set<nat> {
    set i: nat | i < |pairs| && pairs[i].ultraLines < pairs[i].offLines
  }

  ghost function Higher(pairs: seq<Pair>): set<nat> {
    set i: nat | i < |pairs| && pairs[i].ultraLines > pairs[i].offLines
  }

  lemma {:induction false} LowerCount(pairs: seq<Pair>)
    ensures Count(pairs, UltraLower) == |Lower(pairs)|
  {
    if pairs != [] {
      var n := |pairs| - 1;
      LowerCount(pairs[..n]);
      assert Lower(pairs) == Lower(pairs[..n]) + if pairs[n].ultraLines < pairs[n].offLines then {n} else {};
    }
  }

  lemma {:induction false} HigherCount(pairs: seq<Pair>)
    ensures Count(pairs, UltraHigher) == |Higher(pairs)|
  {
    if pairs != [] {
      var n := |pairs| - 1;
      HigherCount(pairs[..n]);
      assert Higher(pairs) == Higher(pairs[..n]) + if pairs[n].ultraLines > pairs[n].offLines then {n} else {};
    }
  }

  /** The counts are the numbers of pairs in which the second mode took fewer, or more, lines. */
  lemma CountsCompareLines(pairs: seq<Pair>)
    ensures Count(pairs, UltraLower) == |Lower(pairs)| && Count(pairs, UltraHigher) == |Higher(pairs)|
  {
    LowerCount(pairs);
    HigherCount(pairs);
  }

  lemma {:induction false} CountsPartition(pairs: seq<Pair>)
    ensures Count(pairs, UltraLower) + Count(pairs, UltraHigher) + Count(pairs, Tie) == |pairs|
  {
    if pairs != [] { CountsPartition(pairs[..|pairs|-1]); }
  }

  // ---------- the order of the cases ----------

  /** No scenario, repetition and mode was run twice. */
  ghost predicate OneCaseEach(cases: seq<Case>) {
    forall a, b | a in cases && b in cases
                  && Same(a, b.scenario, b.repetition, b.ultra) :: a == b
  }

  lemma FindIgnoresOrder(a: seq<Case>, b: seq<Case>, scenario: string, repetition: nat, ultra: bool)
    requires OneCaseEach(a) && forall c :: c in a <==> c in b
    ensures Find(a, scenario, repetition, ultra) == Find(b, scenario, repetition, ultra)
  {
    var x, y := Find(a, scenario, repetition, ultra), Find(b, scenario, repetition, ultra);
    if x.Some? && y.Some? { assert Same(x.value, y.value.scenario, y.value.repetition, y.value.ultra); }
  }

  lemma PairIgnoresOrder(a: seq<Case>, b: seq<Case>, scenario: string, repetition: nat)
    requires OneCaseEach(a) && forall c :: c in a <==> c in b
    ensures PairFor(a, scenario, repetition) == PairFor(b, scenario, repetition)
  {
    FindIgnoresOrder(a, b, scenario, repetition, false);
    FindIgnoresOrder(a, b, scenario, repetition, true);
  }

  lemma {:induction false} RepeatedIgnoresOrder(a: seq<Case>, b: seq<Case>, scenario: string, k: nat)
    requires OneCaseEach(a) && forall c :: c in a <==> c in b
    ensures Repeated(a, scenario, k) == Repeated(b, scenario, k)
  {
    if k > 0 {
      RepeatedIgnoresOrder(a, b, scenario, k - 1);
      PairIgnoresOrder(a, b, scenario, k);
    }
  }

  /** The runs may be recorded in any order. */
  lemma {:induction false} PairsIgnoreOrder(a: seq<Case>, b: seq<Case>, scenarios: seq<string>)
    requires OneCaseEach(a) && forall c :: c in a <==> c in b
    ensures PairsOf(a, scenarios) == PairsOf(b, scenarios)
  {
    if scenarios != [] {
      PairsIgnoreOrder(a, b, scenarios[..|scenarios|-1]);
      RepeatedIgnoresOrder(a, b, scenarios[|scenarios|-1], REPETITIONS);
    }
  }

  // ---------- the verdict ----------

  datatype Verdict = Verdict(allCorrect: bool, pairedCases: nat, ultraLower: nat, ultraHigher: nat, ties: nat,
                             nonTies: nat, signTestPValue: real, strongEffect: bool)

  method AddRepetitions(cases: seq<Case>, scenario: string, before: seq<Pair>) returns (pairs: seq<Pair>)
    ensures pairs == before + Repeated(cases, scenario, REPETITIONS)
  {
    pairs := before;
    for repetition := 1 to REPETITIONS + 1
      invariant pairs == before + Repeated(cases, scenario, repetition - 1)
    {
      var pair := PairFor(cases, scenario, repetition);
      if pair.Some? {
        pairs := pairs + [pair.value];
      }
    }
  }

  method CollectPairs(cases: seq<Case>, scenarios: seq<string>) returns (pairs: seq<Pair>)
    ensures pairs == PairsOf(cases, scenarios)
  {
    pairs := [];
    for i := 0 to |scenarios|
      invariant pairs == PairsOf(cases, scenarios[..i])
    {
      pairs := AddRepetitions(cases, scenarios[i], pairs);
      assert scenarios[..i + 1][..i] == scenarios[..i];
    }
    assert scenarios[..|scenarios|] == scenarios;
  }

  predicate AllCorrect(cases: seq<Case>, runs: nat) {
    |cases| == runs && forall c | c in cases :: c.valid
  }

  method Decide(allCorrect: bool, pairs: nat, lower: nat, higher: nat) returns (p: real, strong: bool)
    ensures p == PValue(lower, lower + higher)
    ensures strong <==> StrongEffect(allCorrect, pairs, lower, higher)
  {
    var outcome := OneSidedSignTestPValue(lower, lower + higher);
    p := outcome.value;
    strong := allCorrect && pairs == 9 && lower + higher >= 6 && p <= 0.05;
  }

  method EvaluatePonytailBenchmark(cases: seq<Case>, scenarios: seq<string>, runs: nat)
    returns (pairs: seq<Pair>, v: Verdict)
    ensures pairs == PairsOf(cases, scenarios)
    ensures v.allCorrect <==> |cases| == runs && forall c | c in cases :: c.valid
    ensures v.pairedCases == |pairs| == v.ultraLower + v.ultraHigher + v.ties
    ensures v.ultraLower == |Lower(pairs)| && v.ultraHigher == |Higher(pairs)|
    ensures v.nonTies == v.ultraLower + v.ultraHigher && v.signTestPValue == PValue(v.ultraLower, v.nonTies)
    ensures v.strongEffect <==> StrongEffect(v.allCorrect, |pairs|, v.ultraLower, v.ultraHigher)
  {
    pairs := CollectPairs(cases, scenarios);
    CountsPartition(pairs);
    CountsCompareLines(pairs);
    var lower, higher := Count(pairs, UltraLower), Count(pairs, UltraHigher);
    var p, strong := Decide(AllCorrect(cases, runs), |pairs|, lower, higher);
    v := Verdict(AllCorrect(cases, runs), |pairs|, lower, higher, Count(pairs, Tie), lower + higher, p, strong);
  }

  // ---------- the table behind the p value ----------

  lemma {:induction false} SecondBinomial(n: nat)
    ensures n >= 1 ==> Binomial(n, n - 1) == n
    ensures Binomial(n, n) == 1
  {
    if n > 0 {
      SecondBinomial(n - 1);
      BinomialBeyond(n - 1, n);
    }
  }

  lemma TopTails(n: nat)
    requires n >= 2
    ensures Tail(n, n) == 1 && Tail(n, n - 1) == n + 1 && Tail(n, n - 2) == n + 1 + Binomial(n, n - 2)
  {
    SecondBinomial(n);
  }

  lemma {:induction false} OneOutOf(n: nat)
    ensures Binomial(n, 1) == n
  {
    if n > 0 { OneOutOf(n - 1); }
  }

  lemma {:induction false} PairsOutOf(n: nat)
    ensures 2 * Binomial(n, 2) == n * n - n
  {
    if n > 0 {
      PairsOutOf(n - 1);
      OneOutOf(n - 1);
      assert (n - 1) * (n - 1) - (n - 1) + 2 * (n - 1) == n * n - n;
    }
  }

  lemma ThirdTail(n: nat)
    requires n >= 2
    ensures 2 * Tail(n, n - 2) == 2 * (n + 1) + n * n - n
  {
    TopTails(n);
    Symmetric(n, 2);
    PairsOutOf(n);
  }

  lemma PowersOfTwo(n: nat)
    requires 6 <= n <= 9
    ensures Pow2(n) == if n == 6 then 64 else if n == 7 then 128 else if n == 8 then 256 else 512
  {
    assert Pow2(3) == 8;
    assert Pow2(6) == 64;
  }

  lemma SmallQuotient(q: real, a: real, b: real)
    requires b > 0.0 && q == a / b
    ensures q <= 0.05 <==> 20.0 * a <= b
  {
    assert q * b == a;
    if q <= 0.05 { Scaled(q, 0.05, b); } else { ScaledStrictly(0.05, q, b); }
  }

  lemma Scaled(p: real, q: real, b: real)
    requires b > 0.0 && p <= q
    ensures p * b <= q * b
  {
  }

  lemma ScaledStrictly(p: real, q: real, b: real)
    requires b > 0.0 && p < q
    ensures p * b < q * b
  {
  }

  lemma SmallPValue(wins: nat, n: nat)
    ensures PValue(wins, n) <= 0.05 <==> 20 * Tail(n, wins) <= Pow2(n)
  {
    PowerPositive(n);
    SmallQuotient(PValue(wins, n), Tail(n, wins) as real, PowerOfTwo(n));
  }

  /** How many losses among that many decided pairs still leave a small p value. */
  function Tolerated(nonTies: nat): nat {
    if nonTies >= 8 then 1 else 0
  }

  lemma Threshold(n: nat, least: nat, wins: nat)
    requires 1 <= least <= n && wins <= n && PValue(least, n) <= 0.05 < PValue(least - 1, n)
    ensures PValue(wins, n) <= 0.05 <==> wins >= least
  {
    if wins > least { PValueDecreases(least, wins, n); }
    if wins < least - 1 { PValueDecreases(wins, least - 1, n); }
  }

  lemma TailsWithoutLoss(n: nat)
    requires 6 <= n <= 7
    ensures 20 * Tail(n, n) <= Pow2(n) < 20 * Tail(n, n - 1)
  {
    PowersOfTwo(n);
    TopTails(n);
  }

  lemma OneLossArithmetic(n: nat, second: nat, third: nat, power: nat)
    requires 8 <= n <= 9 && power == (if n == 8 then 256 else 512)
    requires second == n + 1 && 2 * third == 2 * (n + 1) + n * n - n
    ensures 20 * second <= power < 20 * third
  {
  }

  lemma TailsWithOneLoss(n: nat)
    requires 8 <= n <= 9
    ensures 20 * Tail(n, n - 1) <= Pow2(n) < 20 * Tail(n, n - 2)
  {
    PowersOfTwo(n);
    OneLossArithmetic(n, Tail(n, n - 1), Tail(n, n - 2), Pow2(n)) by {
      TopTails(n);
      ThirdTail(n);
    }
  }

  lemma BoundaryTails(n: nat)
    requires 6 <= n <= 9
    ensures 20 * Tail(n, n - Tolerated(n)) <= Pow2(n) < 20 * Tail(n, n - Tolerated(n) - 1)
  {
    if n <= 7 { TailsWithoutLoss(n); } else { TailsWithOneLoss(n); }
  }

  lemma Boundary(n: nat)
    requires 6 <= n <= 9
    ensures PValue(n - Tolerated(n), n) <= 0.05 < PValue(n - Tolerated(n) - 1, n)
  {
    BoundaryTails(n);
    SmallPValue(n - Tolerated(n), n);
    SmallPValue(n - Tolerated(n) - 1, n);
  }

  lemma ThresholdTable(n: nat, wins: nat)
    requires 6 <= n <= 9 && wins <= n
    ensures PValue(wins, n) <= 0.05 <==> n - wins <= Tolerated(n)
  {
    Boundary(n);
    Threshold(n, n - Tolerated(n), wins);
  }

  lemma StrongEffectMeaning(wins: nat, losses: nat, n: nat, small: bool)
    requires n == wins + losses && (small <==> PValue(wins, n) <= 0.05)
    ensures StrongEffect(true, 9, wins, losses) <==> n >= 6 && small
  {
  }

  /** With nine pairs the effect is strong exactly when six or more are decided and at most one, of eight or nine, is
      lost. */
  lemma StrongEffectTable(wins: nat, losses: nat)
    requires wins + losses <= 9
    ensures StrongEffect(true, 9, wins, losses) <==> wins + losses >= 6 && losses <= Tolerated(wins + losses)
  {
    var n := wins + losses;
    if n >= 6 {
      ThresholdTable(n, wins);
      StrongEffectMeaning(wins, losses, n, losses <= Tolerated(n));
    }
  }
}
