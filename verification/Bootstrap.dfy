/** The paired comparison by bootstrap: scripts/benchmark-statistics.ts. */
module Bootstrap {
  import opened Multiples
  import opened Ordering

  // ---------- the generator ----------

  function Left13(x: bv32): bv32 { x ^ (x << 13) }

  function Right17(x: bv32): bv32 { x ^ (x >> 17) }

  function Left5(x: bv32): bv32 { x ^ (x << 5) }

  function NextRandom(state: bv32): bv32 {
    Left5(Right17(Left13(state)))
  }

  function UndoLeft13(x: bv32): bv32 { x ^ (x << 13) ^ (x << 26) }

  function UndoLeft5(x: bv32): bv32 {
    x ^ (x << 5) ^ (x << 10) ^ (x << 15) ^ (x << 20) ^ (x << 25) ^ (x << 30)
  }

  /** Undoes the three shift steps, last one first. */
  function PreviousRandom(state: bv32): bv32 {
    UndoLeft13(Right17(UndoLeft5(state)))
  }

  lemma Left13Inverse(x: bv32)
    ensures UndoLeft13(Left13(x)) == x && Left13(UndoLeft13(x)) == x
  {
  }

  lemma Right17Word(x: bv32)
    ensures Right17(x ^ (x >> 17)) == x
  {
  }

  lemma Right17Inverse(x: bv32)
    ensures Right17(Right17(x)) == x
  {
    Right17Word(x);
  }

  lemma Left5Word(x: bv32)
    ensures UndoLeft5(x ^ (x << 5)) == x
  {
  }

  lemma Left5UndoWord(x: bv32)
    ensures Left5(x ^ (x << 5) ^ (x << 10) ^ (x << 15) ^ (x << 20) ^ (x << 25) ^ (x << 30)) == x
  {
  }

  lemma Left5Inverse(x: bv32)
    ensures UndoLeft5(Left5(x)) == x
  {
    Left5Word(x);
  }

  lemma Left5UndoInverse(x: bv32)
    ensures Left5(UndoLeft5(x)) == x
  {
    Left5UndoWord(x);
  }

  /** The step is a bijection on 32-bit words. */
  lemma NextRandomInvertible(x: bv32)
    ensures PreviousRandom(NextRandom(x)) == x
  {
    Left13Inverse(x);
    Right17Inverse(Left13(x));
    Left5Inverse(Right17(Left13(x)));
  }

  lemma NextRandomSurjective(y: bv32)
    ensures NextRandom(PreviousRandom(y)) == y
  {
    Left5UndoInverse(y);
    Right17Inverse(UndoLeft5(y));
    Left13Inverse(Right17(UndoLeft5(y)));
  }

  lemma OnlyZeroMapsToZero(x: bv32)
    ensures NextRandom(x) == 0 <==> x == 0
  {
    NextRandomInvertible(x);
  }

  // ---------- percentiles ----------

  predicate AtMost(a: real, b: real) { a <= b }

  function SortReals(values: seq<real>): (r: seq<real>)
    ensures multiset(r) == multiset(values) && |r| == |values|
  {
    SortBy(values, AtMost)
  }

  function Ceil(x: real): int {
    -((-x).Floor)
  }

  /** The nearest-rank index of a fraction between 0 and 1. */
  function RankIndex(n: nat, fraction: real): (i: nat)
    requires n > 0 && 0.0 <= fraction <= 1.0
    ensures i < n
  {
    var rank := Ceil(fraction * n as real);
    assert fraction * n as real <= n as real;
    if rank >= 1 then rank - 1 else 0
  }

  function Percentile(values: seq<real>, fraction: real): real
    requires values != [] && 0.0 <= fraction <= 1.0
  {
    SortReals(values)[RankIndex(|values|, fraction)]
  }

  function CountBelow(values: seq<real>, x: real): nat {
    if values == [] then 0
    else CountBelow(values[..|values|-1], x) + (if values[|values|-1] < x then 1 else 0)
  }

  function CountUpTo(values: seq<real>, x: real): nat {
    if values == [] then 0
    else CountUpTo(values[..|values|-1], x) + (if values[|values|-1] <= x then 1 else 0)
  }

  lemma SortRealsOrders(values: seq<real>)
    ensures forall i, j | 0 <= i < j < |values| :: SortReals(values)[i] <= SortReals(values)[j]
  {
    SortByOrders(values, AtMost);
  }

  /** Counts depend on the values, not on their order. */
  lemma CountsPermute(a: seq<real>, b: seq<real>, x: real)
    requires multiset(a) == multiset(b)
    ensures CountBelow(a, x) == CountBelow(b, x) && CountUpTo(a, x) == CountUpTo(b, x)
  {
    var below := (v: real) => if v < x then 1.0 else 0.0;
    var upTo := (v: real) => if v <= x then 1.0 else 0.0;
    CountsAreSums(a, x, below, upTo);
    CountsAreSums(b, x, below, upTo);
    SumPermutation(a, b, below);
    SumPermutation(a, b, upTo);
  }

  lemma {:induction false} CountsAreSums(values: seq<real>, x: real, below: real -> real, upTo: real -> real)
    requires forall v :: below(v) == if v < x then 1.0 else 0.0
    requires forall v :: upTo(v) == if v <= x then 1.0 else 0.0
    ensures CountBelow(values, x) as real == Sum(values, below) && CountUpTo(values, x) as real == Sum(values, upTo)
  {
    if values != [] { CountsAreSums(values[..|values|-1], x, below, upTo); }
  }

  ghost predicate Ascending(s: seq<real>) {
    forall i, j | 0 <= i < j < |s| :: s[i] <= s[j]
  }

  lemma {:induction false} SortedCounts(s: seq<real>, k: nat, n: nat)
    requires Ascending(s) && k < |s| && n <= |s|
    ensures n <= k ==> CountUpTo(s[..n], s[k]) == n
    ensures n > k ==> CountUpTo(s[..n], s[k]) >= k + 1
    ensures CountBelow(s[..n], s[k]) <= k
  {
    if n > 0 {
      assert s[..n][..n-1] == s[..n-1];
      SortedCounts(s, k, n - 1);
      if n - 1 <= k { BelowAtMost(s[..n-1], s[k]); }
    }
  }

  lemma {:induction false} BelowAtMost(s: seq<real>, x: real)
    ensures CountBelow(s, x) <= |s|
  {
    if s != [] { BelowAtMost(s[..|s|-1], x); }
  }

  lemma IndexHasRank(values: seq<real>, fraction: real)
    requires values != [] && 0.0 <= fraction <= 1.0
    ensures
      var p, k := Percentile(values, fraction), RankIndex(|values|, fraction);
      p in values && CountBelow(values, p) <= k < CountUpTo(values, p)
  {
    var s := SortReals(values);
    var k := RankIndex(|values|, fraction);
    SortRealsOrders(values);
    SortedCounts(s, k, |s|);
    assert s[..|s|] == s;
    CountsPermute(s, values, s[k]);
    assert s[k] in multiset(values);
  }

  lemma RankReaches(n: nat, fraction: real)
    requires n > 0 && 0.0 < fraction <= 1.0
    ensures RankIndex(n, fraction) as real < fraction * n as real <= (RankIndex(n, fraction) + 1) as real
  {
    assert fraction * n as real > 0.0;
  }

  /** The samples below `p` are fewer than `rank`, those up to it are not. */
  ghost predicate HasRank(values: seq<real>, p: real, rank: real) {
    CountBelow(values, p) as real < rank <= CountUpTo(values, p) as real
  }

  lemma IndexGivesRank(values: seq<real>, p: real, index: nat, rank: real)
    requires CountBelow(values, p) <= index < CountUpTo(values, p)
    requires index as real < rank <= (index + 1) as real
    ensures HasRank(values, p, rank)
  {
  }

  /** The percentile is the sample whose rank is that fraction of their number. */
  lemma PercentileHasRank(values: seq<real>, fraction: real)
    requires values != [] && 0.0 < fraction <= 1.0
    ensures Percentile(values, fraction) in values
    ensures HasRank(values, Percentile(values, fraction), fraction * |values| as real)
  {
    IndexHasRank(values, fraction);
    RankReaches(|values|, fraction);
    IndexGivesRank(values, Percentile(values, fraction), RankIndex(|values|, fraction), fraction * |values| as real);
  }

  /** The percentile of zero is the smallest sample. */
  lemma ZeroIsSmallest(values: seq<real>)
    requires values != []
    ensures Percentile(values, 0.0) in values && CountBelow(values, Percentile(values, 0.0)) == 0
  {
    IndexHasRank(values, 0.0);
    assert RankIndex(|values|, 0.0) == 0;
  }

  lemma {:induction false} CountsGrow(values: seq<real>, x: real, y: real)
    requires x < y
    ensures CountUpTo(values, x) <= CountBelow(values, y)
  {
    if values != [] { CountsGrow(values[..|values|-1], x, y); }
  }

  /** No other value has that rank. */
  lemma RankIsUnique(values: seq<real>, rank: real, p: real, q: real)
    requires HasRank(values, p, rank) && HasRank(values, q, rank)
    ensures p == q
  {
    if p < q { CountsGrow(values, p, q); }
    if q < p { CountsGrow(values, q, p); }
  }

  lemma RankIsMonotone(n: nat, low: real, high: real)
    requires n > 0 && 0.0 <= low <= high <= 1.0
    ensures RankIndex(n, low) <= RankIndex(n, high)
  {
  }

  lemma PercentileIsMonotone(values: seq<real>, low: real, high: real)
    requires values != [] && 0.0 <= low <= high <= 1.0
    ensures Percentile(values, low) <= Percentile(values, high)
  {
    SortRealsOrders(values);
    RankIsMonotone(|values|, low, high);
  }

  // ---------- the bootstrap ----------

  const REPLICATES: nat := 20_000
  const SEED: bv32 := 20_260_901
  const IMPROVEMENT_RATIO := 0.95
  const NON_INFERIORITY_RATIO := 1.1

  function StateAfter(state: bv32, steps: nat): bv32 {
    if steps == 0 then state else NextRandom(StateAfter(state, steps - 1))
  }

  function Draw(ratios: seq<real>, state: bv32): (r: real)
    requires ratios != []
    ensures r in ratios
  {
    ratios[(state as int) % |ratios|]
  }

  /** The sample of size `n` drawn `start` generator steps after the seed. */
  function Resample(ratios: seq<real>, seed: bv32, start: nat, n: nat): (sample: seq<real>)
    requires ratios != []
    ensures |sample| == n && forall x | x in sample :: x in ratios
  {
    if n == 0 then []
    else Resample(ratios, seed, start, n - 1) + [Draw(ratios, StateAfter(seed, start + n))]
  }

  /** Every draw takes the ratio at the generator's next state, counted round the list. */
  lemma {:induction false} DrawnByState(ratios: seq<real>, seed: bv32, start: nat, n: nat, i: nat)
    requires ratios != [] && i < n
    ensures Resample(ratios, seed, start, n)[i] == ratios[(StateAfter(seed, start + i + 1) as int) % |ratios|]
  {
    if i < n - 1 { DrawnByState(ratios, seed, start, n - 1, i); }
  }

  /** The generator steps taken by `k` samples of size `n`. */
  function Drawn(n: nat, k: nat): nat {
    if k == 0 then 0 else Drawn(n, k - 1) + n
  }

  /** The median of resample `k`. */
  function Median(ratios: seq<real>, seed: bv32, k: nat): (m: real)
    requires ratios != []
  {
    Percentile(Resample(ratios, seed, Drawn(|ratios|, k), |ratios|), 0.5)
  }

  /** The medians of the first `k` resamples. */
  function Medians(ratios: seq<real>, seed: bv32, k: nat): (medians: seq<real>)
    requires ratios != []
    ensures |medians| == k
  {
    if k == 0 then []
    else Medians(ratios, seed, k - 1) + [Median(ratios, seed, k - 1)]
  }

  method ResampleOnce(ratios: seq<real>, ghost seed: bv32, ghost start: nat, state: bv32)
    returns (sample: seq<real>, next: bv32)
    requires ratios != [] && state == StateAfter(seed, start)
    ensures sample == Resample(ratios, seed, start, |ratios|) && next == StateAfter(seed, start + |ratios|)
  {
    sample, next := [], state;
    for i := 0 to |ratios|
      invariant sample == Resample(ratios, seed, start, i) && next == StateAfter(seed, start + i)
    {
      next := NextRandom(next);
      sample := sample + [Draw(ratios, next)];
    }
  }

  method ResampleMedian(ratios: seq<real>, ghost seed: bv32, ghost k: nat, state: bv32)
    returns (median: real, next: bv32)
    requires ratios != [] && state == StateAfter(seed, Drawn(|ratios|, k))
    ensures median == Median(ratios, seed, k) && next == StateAfter(seed, Drawn(|ratios|, k + 1))
  {
    var sample;
    sample, next := ResampleOnce(ratios, seed, Drawn(|ratios|, k), state);
    median := Percentile(sample, 0.5);
  }

  method ResampleMedians(ratios: seq<real>, seed: bv32, replicates: nat) returns (medians: seq<real>)
    requires ratios != []
    ensures medians == Medians(ratios, seed, replicates)
  {
    medians := [];
    var state := seed;
    for replicate := 0 to replicates
      invariant medians == Medians(ratios, seed, replicate)
      invariant state == StateAfter(seed, Drawn(|ratios|, replicate))
    {
      var median;
      median, state := ResampleMedian(ratios, seed, replicate, state);
      medians := medians + [median];
    }
  }

  function Confidence(ratios: seq<real>, fraction: real): (end: real)
    requires ratios != [] && 0.0 <= fraction <= 1.0
  {
    Percentile(Medians(ratios, 20_260_901, 20_000), fraction)
  }

  method BootstrapMedianConfidence95(ratios: seq<real>) returns (low: real, high: real)
    requires ratios != []
    ensures low == Confidence(ratios, 0.025) && high == Confidence(ratios, 0.975)
  {
    var medians := ResampleMedians(ratios, SEED, REPLICATES);
    low, high := Percentile(medians, 0.025), Percentile(medians, 0.975);
  }

  lemma MedianIsRatio(ratios: seq<real>, seed: bv32, k: nat)
    requires ratios != []
    ensures Median(ratios, seed, k) in ratios
  {
    PercentileHasRank(Resample(ratios, seed, Drawn(|ratios|, k), |ratios|), 0.5);
  }

  lemma {:induction false} MediansAreRatios(ratios: seq<real>, seed: bv32, k: nat)
    requires ratios != []
    ensures forall m | m in Medians(ratios, seed, k) :: m in ratios
  {
    if k > 0 {
      MediansAreRatios(ratios, seed, k - 1);
      MedianIsRatio(ratios, seed, k - 1);
    }
  }

  /** Both ends of the interval are observed ratios, in order. */
  lemma IntervalIsObserved(ratios: seq<real>)
    requires ratios != []
    ensures
      var low, high := Confidence(ratios, 0.025), Confidence(ratios, 0.975);
      low in ratios && high in ratios && low <= high
  {
    var medians := Medians(ratios, SEED, REPLICATES);
    MediansAreRatios(ratios, SEED, REPLICATES);
    PercentileHasRank(medians, 0.025);
    PercentileHasRank(medians, 0.975);
    PercentileIsMonotone(medians, 0.025, 0.975);
  }

  // ---------- classification ----------

  datatype PairedSample = PairedSample(baseline: real, candidate: real)

  datatype Classification = Improved | NonInferior | Regressed | Inconclusive

  datatype Comparison = Comparison(classification: Classification, low: real, high: real, medianRatio: real,
                                   samples: nat)

  datatype Fault = TooFewSamples | InvalidMeasurement

  predicate Measured(pair: PairedSample) {
    pair.baseline > 0.0 && pair.candidate > 0.0
  }

  function Ratio(pair: PairedSample): real {
    if pair.baseline > 0.0 then pair.candidate / pair.baseline else 0.0
  }

  function RatiosOf(pairs: seq<PairedSample>): (r: seq<real>)
    ensures |r| == |pairs| && forall i | 0 <= i < |pairs| :: r[i] == Ratio(pairs[i])
  {
    seq(|pairs|, i requires 0 <= i < |pairs| => Ratio(pairs[i]))
  }

  function Classify(low: real, high: real): Classification {
    if high <= IMPROVEMENT_RATIO then Improved
    else if high <= NON_INFERIORITY_RATIO then NonInferior
    else if low > NON_INFERIORITY_RATIO then Regressed
    else Inconclusive
  }

  /** The candidate's measurement relative to the baseline's, for each pair. */
  ghost predicate AreRatios(pairs: seq<PairedSample>, ratios: seq<real>) {
    && |ratios| == |pairs|
    && forall i | 0 <= i < |pairs| ::
         pairs[i].baseline > 0.0 && pairs[i].candidate > 0.0 && ratios[i] == pairs[i].candidate / pairs[i].baseline
  }

  method ComparePairedSamples(pairs: seq<PairedSample>) returns (r: Result<Comparison, Fault>)
    ensures r.Ok? <==> |pairs| >= 3 && forall p | p in pairs :: p.baseline > 0.0 && p.candidate > 0.0
    ensures r.Err? ==> r.error == if |pairs| < 3 then TooFewSamples else InvalidMeasurement
    ensures r.Ok? ==>
              exists ratios | AreRatios(pairs, ratios) && ratios != [] ::
              && r.value.samples == |pairs| && r.value.medianRatio == Percentile(ratios, 0.5)
              && (r.value.classification == Improved <==> r.value.high <= 0.95)
              && (r.value.classification == NonInferior <==> 0.95 < r.value.high <= 1.1)
              && (r.value.classification == Regressed <==> r.value.low > 1.1)
              && r.value.low == Confidence(ratios, 0.025) && r.value.high == Confidence(ratios, 0.975)
              && r.value.low in ratios && r.value.high in ratios && r.value.low <= r.value.high
  {
    if |pairs| < 3 {
      return Err(TooFewSamples);
    }
    if exists p | p in pairs :: !Measured(p) {
      return Err(InvalidMeasurement);
    }
    var ratios := RatiosOf(pairs);
    var low, high := BootstrapMedianConfidence95(ratios);
    IntervalIsObserved(ratios);
    assert forall i | 0 <= i < |pairs| :: Measured(pairs[i]) by {
      assert forall i | 0 <= i < |pairs| :: pairs[i] in pairs;
    }
    assert AreRatios(pairs, ratios);
    r := Ok(Comparison(Classify(low, high), low, high, Percentile(ratios, 0.5), |pairs|));
  }

  /** Ratios that all agree force the classification, whatever the generator draws. */
  lemma UnanimousRatiosDecide(ratios: seq<real>, low: real, high: real)
    requires low in ratios && high in ratios && low <= high
    ensures (forall x | x in ratios :: x <= 0.95) ==> Classify(low, high) == Improved
    ensures (forall x | x in ratios :: x <= 1.1) ==> Classify(low, high) in {Improved, NonInferior}
    ensures (forall x | x in ratios :: x > 1.1) ==> Classify(low, high) == Regressed
    ensures Classify(low, high) == Improved ==> exists x | x in ratios :: x <= 0.95
    ensures Classify(low, high) == Regressed ==> exists x | x in ratios :: x > 1.1
  {
  }

  // ---------- the order of the arms ----------

  datatype OrderFault = NoArms | NegativeRun

  function BalancedArmOrder<Arm>(arms: seq<Arm>, run: int): (r: Result<seq<Arm>, OrderFault>)
    ensures r.Ok? <==> arms != [] && run >= 0
    ensures r == Err(NoArms) <==> arms == []
  {
    if arms == [] then Err(NoArms)
    else if run < 0 then Err(NegativeRun)
    else Ok(arms[run % |arms|..] + arms[..run % |arms|])
  }

  function Around(k: nat, n: nat): (r: nat)
    requires 0 < n && k < 2 * n
    ensures r < n
  {
    if k < n then k else k - n
  }

  /** Every run uses every arm; its place `p` is taken by the arm `p` places after the run's offset. */
  lemma ArmAtPlace<Arm>(arms: seq<Arm>, run: nat, p: nat)
    requires p < |arms|
    ensures BalancedArmOrder(arms, run).Ok? && |BalancedArmOrder(arms, run).value| == |arms|
    ensures BalancedArmOrder(arms, run).value[p] == arms[Around(run % |arms| + p, |arms|)]
    ensures multiset(BalancedArmOrder(arms, run).value) == multiset(arms)
  {
    var k := run % |arms|;
    assert arms == arms[..k] + arms[k..];
  }

  /** Among as many consecutive runs as there are arms, each arm takes each place exactly once. */
  lemma EveryArmTakesEveryPlaceOnce<Arm>(arms: seq<Arm>, first: nat, p: nat, a: nat) returns (run: nat)
    requires p < |arms| && a < |arms|
    ensures first <= run < first + |arms|
    ensures Around(run % |arms| + p, |arms|) == a
    ensures BalancedArmOrder(arms, run).Ok? && BalancedArmOrder(arms, run).value[p] == arms[a]
    ensures forall other: nat | first <= other < first + |arms| ::
              Around(other % |arms| + p, |arms|) == a ==> other == run
  {
    var n := |arms|;
    var wanted := Around(a + n - p, n);
    run := NumberWithRemainder(first, n, wanted);
    forall other: nat | first <= other < first + n && Around(other % n + p, n) == a
      ensures other == run
    {
      SameOffset(n, run, other);
    }
    ArmAtPlace(arms, run, p);
  }
}
