/** The approximation guarantee of longest-first greedy assignment. */
module Graham {
  import opened Ordering
  import opened ListScheduling

  ghost predicate LongestFirst(files: seq<string>, timing: Timing) {
    forall i, j | 0 <= i < j < |files| :: Cost(files[i], timing) >= Cost(files[j], timing)
  }

  /** `other` distributes exactly `files` over its groups and none of them exceeds `cap`. */
  ghost predicate FitsWithin(other: seq<seq<string>>, files: seq<string>, cap: real, timing: Timing) {
    && multiset(Flatten(other)) == multiset(files)
    && forall g | g in other :: Load(g, timing) <= cap
  }

  /** Slots a file takes when a group of capacity `cap` has room for two files of cost `q` or more. */
  ghost function Slots(q: real, cap: real, timing: Timing): string -> real {
    file => if Cost(file, timing) < q then 0.0 else if Cost(file, timing) + q > cap then 2.0 else 1.0
  }

  /** A group within `cap` offers two slots to files longer than a third of it. */
  lemma {:induction false} TwoSlots(group: seq<string>, q: real, cap: real, timing: Timing)
    requires 0.0 < q && cap < 3.0 * q && Load(group, timing) <= cap
    ensures
      var slots := Sum(group, Slots(q, cap, timing));
      || slots == 0.0
      || (slots == 1.0 && Load(group, timing) >= q)
      || (slots == 2.0 && (Load(group, timing) >= 2.0 * q || Load(group, timing) + q > cap))
  {
    if group != [] {
      var n := |group| - 1;
      LoadNonNegative(group[..n], timing);
      TwoSlots(group[..n], q, cap, timing);
    }
  }

  lemma LongFilesTakeSlots(group: seq<string>, q: real, cap: real, timing: Timing)
    requires group != [] && forall f | f in group :: Cost(f, timing) >= q
    ensures Sum(group, Slots(q, cap, timing)) >= 1.0
  {
    var n := |group| - 1;
    assert group[n] in group;
    SumNonNegative(group[..n], Slots(q, cap, timing));
  }

  lemma OneFileTakesBoth(file: string, q: real, cap: real, timing: Timing)
    requires Cost(file, timing) >= q && Load([file], timing) + q > cap
    ensures Sum([file], Slots(q, cap, timing)) == 2.0
  {
    SumOne(file, CostOf(timing));
    SumOne(file, Slots(q, cap, timing));
  }

  /** A group that cannot take one more file of cost `q` has both slots taken. */
  lemma BothSlotsTaken(group: seq<string>, q: real, cap: real, timing: Timing)
    requires 0.0 < q <= cap < Load(group, timing) + q
    requires forall f | f in group :: Cost(f, timing) >= q
    ensures Sum(group, Slots(q, cap, timing)) >= 2.0
  {
    var n := |group| - 1;
    assert group != [];
    assert group[n] in group;
    if n == 0 {
      assert group == [group[0]];
      OneFileTakesBoth(group[0], q, cap, timing);
    } else {
      assert forall f | f in group[..n] :: f in group;
      LongFilesTakeSlots(group[..n], q, cap, timing);
    }
  }

  lemma FileWithinCap(files: seq<string>, j: nat, other: seq<seq<string>>, cap: real, timing: Timing)
    requires j < |files| && FitsWithin(other, files, cap, timing)
    ensures Cost(files[j], timing) <= cap
  {
    assert files[j] in multiset(Flatten(other));
    var g := FlattenOrigin(other, files[j]);
    CostBelowLoad(g, files[j], timing);
  }

  lemma SlotsOffered(files: seq<string>, other: seq<seq<string>>, q: real, cap: real, timing: Timing)
    requires FitsWithin(other, files, cap, timing) && 0.0 < q && cap < 3.0 * q
    ensures Sum(files, Slots(q, cap, timing)) <= Times(|other|, 2.0)
  {
    var w := Slots(q, cap, timing);
    forall g | g in other ensures Sum(g, w) <= 2.0 { TwoSlots(g, q, cap, timing); }
    TotalAtMost(other, w, 2.0);
    SumPermutation(Flatten(other), files, w);
  }

  lemma PrefixAndNext(files: seq<string>, j: nat, w: string -> real)
    requires j < |files| && forall f | f in files :: w(f) >= 0.0
    ensures Sum(files, w) >= Sum(files[..j], w) + w(files[j])
  {
    assert files == (files[..j] + [files[j]]) + files[j+1..];
    SumAppend(files[..j] + [files[j]], files[j+1..], w);
    SumAppend(files[..j], [files[j]], w);
    SumOne(files[j], w);
    SumNonNegative(files[j+1..], w);
  }

  lemma PlacedSlots(groups: seq<seq<string>>, placed: seq<string>, q: real, cap: real, timing: Timing)
    requires 0.0 < q <= cap && multiset(Flatten(groups)) == multiset(placed)
    requires forall g | g in groups :: Load(g, timing) + q > cap
    requires forall f | f in placed :: Cost(f, timing) >= q
    ensures Sum(placed, Slots(q, cap, timing)) >= Times(|groups|, 2.0)
  {
    var w := Slots(q, cap, timing);
    forall g | g in groups ensures Sum(g, w) >= 2.0 {
      forall f | f in g ensures Cost(f, timing) >= q {
        FlattenContains(groups, g, f);
        assert f in multiset(Flatten(groups));
        assert f in multiset(placed);
      }
      BothSlotsTaken(g, q, cap, timing);
    }
    TotalAtLeast(groups, w, 2.0);
    SumPermutation(Flatten(groups), placed, w);
  }

  /** Placing a file longer than a third of a feasible capacity never exceeds that capacity. */
  lemma LongFileFits(files: seq<string>, j: nat, groups: seq<seq<string>>, other: seq<seq<string>>, cap: real,
                     timing: Timing)
    requires j < |files| && other != [] && LongestFirst(files, timing) && FitsWithin(other, files, cap, timing)
    requires |groups| == |other| && multiset(Flatten(groups)) == multiset(files[..j])
    requires 3.0 * Cost(files[j], timing) > cap
    ensures Load(groups[Least(groups, timing)], timing) + Cost(files[j], timing) <= cap
  {
    FileWithinCap(files, j, other, cap, timing);
    SlotsOffered(files, other, Cost(files[j], timing), cap, timing);
    if Load(groups[Least(groups, timing)], timing) + Cost(files[j], timing) > cap {
      LeastMeaning(groups, timing);
      PlacedSlots(groups, files[..j], Cost(files[j], timing), cap, timing);
      PrefixAndNext(files, j, Slots(Cost(files[j], timing), cap, timing));
    }
  }

  /** 3m * limit >= (4m - 1) * cap, for m groups. */
  ghost predicate AllowsGraham(count: nat, cap: real, limit: real)
    requires count > 0
  {
    Times(3 * count, limit) >= Times(4 * count - 1, cap)
  }

  lemma ProductNonNegative(a: real, b: real)
    requires a >= 0.0 && b >= 0.0
    ensures a * b >= 0.0
  {
  }

  lemma CancelScale(m: real, a: real, b: real)
    requires m > 0.0 && m * a <= m * b
    ensures a <= b
  {
    assert a > b ==> m * (a - b) > 0.0;
    assert m * (a - b) == m * a - m * b;
  }

  lemma AllowsScaled(count: nat, cap: real, limit: real)
    requires count > 0 && AllowsGraham(count, cap, limit)
    ensures 3.0 * count as real * limit >= (4.0 * count as real - 1.0) * cap
  {
    TimesIsProduct(3 * count, limit);
    TimesIsProduct(4 * count - 1, cap);
    assert (3 * count) as real == 3.0 * count as real;
    assert (4 * count - 1) as real == 4.0 * count as real - 1.0;
  }

  lemma CapBelowLimit(count: nat, cap: real, limit: real)
    requires count > 0 && cap >= 0.0 && AllowsGraham(count, cap, limit)
    ensures cap <= limit
  {
    var m := count as real;
    AllowsScaled(count, cap, limit);
    ProductNonNegative(m - 1.0, cap);
    assert (4.0 * m - 1.0) * cap == 3.0 * m * cap + (m - 1.0) * cap;
    CancelScale(3.0 * m, cap, limit);
  }

  lemma GrahamArithmetic(count: nat, low: real, q: real, cap: real, limit: real)
    requires count > 0 && q >= 0.0 && 3.0 * q <= cap
    requires Times(count, low) + q <= Times(count, cap)
    requires AllowsGraham(count, cap, limit)
    ensures low + q <= limit
  {
    TimesIsProduct(count, low);
    TimesIsProduct(count, cap);
    AllowsScaled(count, cap, limit);
    ScaledBound(count as real, low, q, cap, limit);
  }

  lemma ScaledBound(m: real, low: real, q: real, cap: real, limit: real)
    requires m >= 1.0 && 3.0 * q <= cap
    requires m * low + q <= m * cap && 3.0 * m * limit >= (4.0 * m - 1.0) * cap
    ensures low + q <= limit
  {
    ProductNonNegative(m - 1.0, cap - 3.0 * q);
    assert (m - 1.0) * (cap - 3.0 * q) == m * cap - cap - 3.0 * (m * q) + 3.0 * q;
    assert (4.0 * m - 1.0) * cap == 4.0 * (m * cap) - cap;
    assert 3.0 * m * (low + q) == 3.0 * (m * low) + 3.0 * (m * q);
    CancelScale(3.0 * m, low + q, limit);
  }

  lemma TotalWithin(files: seq<string>, other: seq<seq<string>>, count: nat, cap: real, timing: Timing)
    requires FitsWithin(other, files, cap, timing) && |other| == count
    ensures Load(files, timing) <= Times(count, cap)
  {
    TotalAtMost(other, CostOf(timing), cap);
    SumPermutation(Flatten(other), files, CostOf(timing));
  }

  /** Placing a file no longer than a third of the capacity: the least loaded group is below average. */
  lemma ShortFileFits(files: seq<string>, j: nat, groups: seq<seq<string>>, other: seq<seq<string>>, cap: real,
                      limit: real, low: real, timing: Timing)
    requires j < |files| && other != [] && FitsWithin(other, files, cap, timing)
    requires |groups| == |other| && multiset(Flatten(groups)) == multiset(files[..j])
    requires forall g | g in groups :: Load(g, timing) >= low
    requires 3.0 * Cost(files[j], timing) <= cap && AllowsGraham(|other|, cap, limit)
    ensures low + Cost(files[j], timing) <= limit
  {
    TotalAtLeast(groups, CostOf(timing), low);
    SumPermutation(Flatten(groups), files[..j], CostOf(timing));
    PrefixAndNext(files, j, CostOf(timing));
    TotalWithin(files, other, |other|, cap, timing);
    GrahamArithmetic(|other|, low, Cost(files[j], timing), cap, limit);
  }

  /** One placement: every group stays within the limit, and within `cap` while files are long. */
  lemma GrahamStep(files: seq<string>, i: nat, groups: seq<seq<string>>, other: seq<seq<string>>, cap: real,
                   limit: real, timing: Timing)
    requires i < |files| && other != [] && LongestFirst(files, timing) && FitsWithin(other, files, cap, timing)
    requires cap <= limit && AllowsGraham(|other|, cap, limit)
    requires |groups| == |other| && multiset(Flatten(groups)) == multiset(files[..i])
    requires forall g | g in groups :: Load(g, timing) <= limit
    requires 3.0 * Cost(files[i], timing) > cap ==> forall g | g in groups :: Load(g, timing) <= cap
    ensures forall g | g in Place(groups, files[i], timing) :: Load(g, timing) <= limit
    ensures 3.0 * Cost(files[i], timing) > cap ==>
              forall g | g in Place(groups, files[i], timing) :: Load(g, timing) <= cap
  {
    if 3.0 * Cost(files[i], timing) > cap {
      LongFileFits(files, i, groups, other, cap, timing);
    } else {
      LeastMeaning(groups, timing);
      ShortFileFits(files, i, groups, other, cap, limit, Load(groups[Least(groups, timing)], timing), timing);
    }
  }

  lemma {:induction false} GrahamPrefix(files: seq<string>, j: nat, other: seq<seq<string>>, cap: real, limit: real,
                                        timing: Timing)
    requires j <= |files| && other != [] && LongestFirst(files, timing) && FitsWithin(other, files, cap, timing)
    requires 0.0 <= cap <= limit && AllowsGraham(|other|, cap, limit)
    ensures forall g | g in Assign(files[..j], |other|, timing) :: Load(g, timing) <= limit
    ensures j > 0 && 3.0 * Cost(files[j-1], timing) > cap ==>
              forall g | g in Assign(files[..j], |other|, timing) :: Load(g, timing) <= cap
  {
    if j > 0 {
      var i := j - 1;
      GrahamPrefix(files, i, other, cap, limit, timing);
      assert files[..j][..i] == files[..i];
      AssignConserves(files[..i], |other|, timing);
      GrahamStep(files, i, Assign(files[..i], |other|, timing), other, cap, limit, timing);
    }
  }

  /** (4/3 - 1/(3m)) * cap, for m groups. */
  ghost function GrahamLimit(count: nat, cap: real): real
    requires count > 0
  {
    (4.0 / 3.0 - 1.0 / (3.0 * count as real)) * cap
  }

  lemma LimitAllows(count: nat, cap: real)
    requires count > 0
    ensures AllowsGraham(count, cap, GrahamLimit(count, cap))
  {
    TimesIsProduct(3 * count, GrahamLimit(count, cap));
    TimesIsProduct(4 * count - 1, cap);
  }

  /** Graham's bound: no group exceeds (4/3 - 1/(3m)) times the heaviest group of any other distribution. */
  lemma LongestFirstBound(files: seq<string>, other: seq<seq<string>>, timing: Timing)
    requires other != [] && LongestFirst(files, timing) && multiset(Flatten(other)) == multiset(files)
    ensures Heaviest(Assign(files, |other|, timing), timing) <= GrahamLimit(|other|, Heaviest(other, timing))
  {
    var cap := Heaviest(other, timing);
    var limit := GrahamLimit(|other|, cap);
    LimitAllows(|other|, cap);
    HeaviestMeaning(other, timing);
    CapBelowLimit(|other|, cap, limit);
    assert files[..|files|] == files;
    GrahamPrefix(files, |files|, other, cap, limit, timing);
    HeaviestWithin(Assign(files, |other|, timing), limit, timing);
  }
}
