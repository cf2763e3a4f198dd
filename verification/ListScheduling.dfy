/** Greedy assignment of files to the least loaded of a fixed number of groups. */
module ListScheduling {
  import opened Ordering

  /** Recorded durations; the timing schema accepts only positive numbers. */
  type Timing = m: map<string, real> | forall f | f in m :: m[f] > 0.0 witness map[]

  const UNRECORDED_COST := 1000.0

  function Cost(file: string, timing: Timing): (c: real)
    ensures c > 0.0
  {
    if file in timing then timing[file] else UNRECORDED_COST
  }

  function CostOf(timing: Timing): string -> real {
    file => Cost(file, timing)
  }

  function Load(group: seq<string>, timing: Timing): real {
    Sum(group, CostOf(timing))
  }

  /** The first group of least load. */
  function Least(groups: seq<seq<string>>, timing: Timing): (k: nat)
    requires groups != []
    ensures k < |groups|
  {
    var n := |groups| - 1;
    if n == 0 then 0
    else
      var best := Least(groups[..n], timing);
      if Load(groups[n], timing) < Load(groups[best], timing) then n else best
  }

  lemma {:induction false} LeastMeaning(groups: seq<seq<string>>, timing: Timing)
    requires groups != []
    ensures
      var k := Least(groups, timing);
      && (forall j | 0 <= j < |groups| :: Load(groups[k], timing) <= Load(groups[j], timing))
      && (forall j | 0 <= j < k :: Load(groups[k], timing) < Load(groups[j], timing))
  {
    var n := |groups| - 1;
    if n > 0 {
      LeastMeaning(groups[..n], timing);
      assert forall j | 0 <= j < n :: groups[..n][j] == groups[j];
    }
  }

  function Place(groups: seq<seq<string>>, file: string, timing: Timing): (r: seq<seq<string>>)
    requires groups != []
    ensures |r| == |groups|
  {
    var k := Least(groups, timing);
    groups[k := groups[k] + [file]]
  }

  /** The groups after the files have been placed one by one, in list order. */
  function Assign(files: seq<string>, count: nat, timing: Timing): (groups: seq<seq<string>>)
    requires count > 0
    ensures |groups| == count
  {
    if files == [] then seq(count, _ => [])
    else Place(Assign(files[..|files|-1], count, timing), files[|files|-1], timing)
  }

  /** The load of the heaviest group, at least zero. */
  function Heaviest(groups: seq<seq<string>>, timing: Timing): real {
    if groups == [] then 0.0
    else
      var n := |groups| - 1;
      var h := Heaviest(groups[..n], timing);
      if h < Load(groups[n], timing) then Load(groups[n], timing) else h
  }

  lemma {:induction false} HeaviestMeaning(groups: seq<seq<string>>, timing: Timing)
    ensures
      var h := Heaviest(groups, timing);
      && h >= 0.0
      && (forall j | 0 <= j < |groups| :: Load(groups[j], timing) <= h)
      && (h == 0.0 || exists j :: 0 <= j < |groups| && Load(groups[j], timing) == h)
  {
    if groups != [] {
      var n := |groups| - 1;
      HeaviestMeaning(groups[..n], timing);
      assert forall j | 0 <= j < n :: groups[..n][j] == groups[j];
    }
  }

  lemma LoadAppend(group: seq<string>, file: string, timing: Timing)
    ensures Load(group + [file], timing) == Load(group, timing) + Cost(file, timing)
  {
    SumAppend(group, [file], CostOf(timing));
    SumOne(file, CostOf(timing));
  }

  lemma LoadNonNegative(group: seq<string>, timing: Timing)
    ensures Load(group, timing) >= 0.0
    ensures group != [] ==> Load(group, timing) > 0.0
  {
    if group != [] { SumNonNegative(group[..|group|-1], CostOf(timing)); }
  }

  lemma CostBelowLoad(group: seq<string>, file: string, timing: Timing)
    requires file in group
    ensures Cost(file, timing) <= Load(group, timing)
  {
    var k :| 0 <= k < |group| && group[k] == file;
    SumWithout(group, k, CostOf(timing));
    LoadNonNegative(group[..k] + group[k+1..], timing);
  }

  // ---------- conservation ----------

  lemma {:induction false} EmptyGroups(count: nat)
    ensures Flatten<string>(seq(count, _ => [])) == []
  {
    if count > 0 {
      var groups: seq<seq<string>> := seq(count, _ => []);
      assert groups[..count-1] == seq(count - 1, _ => []);
      EmptyGroups(count - 1);
    }
  }

  lemma PlaceConserves(groups: seq<seq<string>>, file: string, timing: Timing)
    requires groups != []
    ensures multiset(Flatten(Place(groups, file, timing))) == multiset(Flatten(groups)) + multiset{file}
  {
    FlattenUpdate(groups, Least(groups, timing), file);
  }

  /** Nothing is lost and nothing is copied: the groups hold exactly the files placed. */
  lemma {:induction false} AssignConserves(files: seq<string>, count: nat, timing: Timing)
    requires count > 0
    ensures multiset(Flatten(Assign(files, count, timing))) == multiset(files)
  {
    if files == [] {
      EmptyGroups(count);
    } else {
      var n := |files| - 1;
      AssignConserves(files[..n], count, timing);
      PlaceConserves(Assign(files[..n], count, timing), files[n], timing);
      MultisetWithoutLast(files);
    }
  }

  lemma {:induction false} TotalAtLeast(groups: seq<seq<string>>, w: string -> real, low: real)
    requires forall g | g in groups :: Sum(g, w) >= low
    ensures Sum(Flatten(groups), w) >= Times(|groups|, low)
  {
    if groups != [] {
      var n := |groups| - 1;
      TotalAtLeast(groups[..n], w, low);
      SumAppend(Flatten(groups[..n]), groups[n], w);
      assert groups[n] in groups;
    }
  }

  lemma {:induction false} TotalAtMost(groups: seq<seq<string>>, w: string -> real, high: real)
    requires forall g | g in groups :: Sum(g, w) <= high
    ensures Sum(Flatten(groups), w) <= Times(|groups|, high)
  {
    if groups != [] {
      var n := |groups| - 1;
      TotalAtMost(groups[..n], w, high);
      SumAppend(Flatten(groups[..n]), groups[n], w);
      assert groups[n] in groups;
    }
  }

  // ---------- more groups never hurt ----------

  /** How many groups carry more than `t`. */
  function Above(groups: seq<seq<string>>, t: real, timing: Timing): nat {
    if groups == [] then 0
    else
      var n := |groups| - 1;
      Above(groups[..n], t, timing) + One(Load(groups[n], timing) > t)
  }

  lemma {:induction false} AboveMeaning(groups: seq<seq<string>>, t: real, timing: Timing)
    ensures Above(groups, t, timing) <= |groups|
    ensures Above(groups, t, timing) == |groups| <==>
              forall j | 0 <= j < |groups| :: Load(groups[j], timing) > t
    ensures Above(groups, t, timing) == 0 <==>
              forall j | 0 <= j < |groups| :: Load(groups[j], timing) <= t
  {
    if groups != [] {
      var n := |groups| - 1;
      AboveMeaning(groups[..n], t, timing);
      assert forall j | 0 <= j < n :: groups[..n][j] == groups[j];
    }
  }

  function One(b: bool): nat { if b then 1 else 0 }

  lemma {:induction false} AboveUpdate(groups: seq<seq<string>>, k: nat, g: seq<string>, t: real, timing: Timing)
    requires k < |groups|
    ensures Above(groups[k := g], t, timing) + One(Load(groups[k], timing) > t)
         == Above(groups, t, timing) + One(Load(g, timing) > t)
  {
    var n := |groups| - 1;
    if k == n {
      assert groups[k := g][..n] == groups[..n];
    } else {
      assert groups[k := g][..n] == groups[..n][k := g];
      AboveUpdate(groups[..n], k, g, t, timing);
    }
  }

  lemma AbovePlace(groups: seq<seq<string>>, file: string, t: real, timing: Timing)
    requires groups != []
    ensures
      var low := Load(groups[Least(groups, timing)], timing);
      Above(Place(groups, file, timing), t, timing)
      == Above(groups, t, timing) + One(low <= t < low + Cost(file, timing))
  {
    var k := Least(groups, timing);
    AboveUpdate(groups, k, groups[k] + [file], t, timing);
    LoadAppend(groups[k], file, timing);
  }

  /** `more` is no worse than `fewer` in the order of sorted loads, heaviest first. */
  ghost predicate Dominates(more: seq<seq<string>>, fewer: seq<seq<string>>, timing: Timing) {
    forall t: real :: Above(more, t, timing) <= Above(fewer, t, timing) || Above(fewer, t, timing) == |fewer|
  }

  lemma PlaceKeepsDominance(more: seq<seq<string>>, fewer: seq<seq<string>>, file: string, timing: Timing)
    requires 0 < |fewer| <= |more| && Dominates(more, fewer, timing)
    ensures Dominates(Place(more, file, timing), Place(fewer, file, timing), timing)
  {
    var lowMore := Load(more[Least(more, timing)], timing);
    var lowFewer := Load(fewer[Least(fewer, timing)], timing);
    LeastMeaning(fewer, timing);
    assert lowMore <= lowFewer by {
      LeastMeaning(more, timing);
      AboveMeaning(fewer, lowFewer, timing);
      AboveMeaning(more, lowFewer, timing);
      assert Above(more, lowFewer, timing) < |more|;
    }
    forall t: real
      ensures Above(Place(more, file, timing), t, timing) <= Above(Place(fewer, file, timing), t, timing)
           || Above(Place(fewer, file, timing), t, timing) == |fewer|
    {
      AbovePlace(more, file, t, timing);
      AbovePlace(fewer, file, t, timing);
      AboveMeaning(fewer, t, timing);
      AboveMeaning(Place(fewer, file, timing), t, timing);
      assert Above(more, t, timing) <= Above(fewer, t, timing) || Above(fewer, t, timing) == |fewer|;
    }
  }

  lemma {:induction false} AssignDominates(files: seq<string>, fewer: nat, more: nat, timing: Timing)
    requires 0 < fewer <= more
    ensures Dominates(Assign(files, more, timing), Assign(files, fewer, timing), timing)
  {
    if files == [] {
      forall t: real
        ensures Above(Assign(files, more, timing), t, timing) <= Above(Assign(files, fewer, timing), t, timing)
             || Above(Assign(files, fewer, timing), t, timing) == fewer
      {
        AboveMeaning(Assign(files, fewer, timing), t, timing);
        AboveMeaning(Assign(files, more, timing), t, timing);
        if t < 0.0 {
          assert Above(Assign(files, fewer, timing), t, timing) == fewer;
        } else {
          assert Above(Assign(files, more, timing), t, timing) == 0;
        }
      }
    } else {
      var n := |files| - 1;
      AssignDominates(files[..n], fewer, more, timing);
      PlaceKeepsDominance(Assign(files[..n], more, timing), Assign(files[..n], fewer, timing), files[n], timing);
    }
  }

  /** Adding groups never makes the heaviest one heavier, whatever the list and its order. */
  lemma MoreGroupsNeverHeavier(files: seq<string>, fewer: nat, more: nat, timing: Timing)
    requires 0 < fewer <= more
    ensures Heaviest(Assign(files, more, timing), timing) <= Heaviest(Assign(files, fewer, timing), timing)
  {
    AssignDominates(files, fewer, more, timing);
    HeaviestMeaning(Assign(files, fewer, timing), timing);
    var t := Heaviest(Assign(files, fewer, timing), timing);
    AboveMeaning(Assign(files, fewer, timing), t, timing);
    AboveMeaning(Assign(files, more, timing), t, timing);
    assert Above(Assign(files, more, timing), t, timing) == 0;
    HeaviestMeaning(Assign(files, more, timing), timing);
  }

  // ---------- filling ----------

  lemma {:induction false} AssignFills(files: seq<string>, count: nat, timing: Timing)
    requires count > 0
    ensures Above(Assign(files, count, timing), 0.0, timing) == if |files| <= count then |files| else count
  {
    var groups := Assign(files, count, timing);
    AboveMeaning(groups, 0.0, timing);
    if files != [] {
      var n := |files| - 1;
      AssignFills(files[..n], count, timing);
      var before := Assign(files[..n], count, timing);
      AboveMeaning(before, 0.0, timing);
      AbovePlace(before, files[n], 0.0, timing);
      LeastMeaning(before, timing);
      LoadNonNegative(before[Least(before, timing)], timing);
    }
  }

  /** With at least as many files as groups, no group stays empty. */
  lemma NoGroupEmpty(files: seq<string>, count: nat, timing: Timing)
    requires 0 < count <= |files|
    ensures forall g | g in Assign(files, count, timing) :: g != []
  {
    AssignFills(files, count, timing);
    AboveMeaning(Assign(files, count, timing), 0.0, timing);
  }

  lemma {:induction false} OneFileEach(files: seq<string>, count: nat, cap: real, timing: Timing)
    requires count > 0 && |files| <= count && cap >= 0.0
    requires forall f | f in files :: Cost(f, timing) <= cap
    ensures forall g | g in Assign(files, count, timing) :: Load(g, timing) <= cap
  {
    if files != [] {
      var n := |files| - 1;
      OneFileEach(files[..n], count, cap, timing);
      AssignFills(files[..n], count, timing);
      var before := Assign(files[..n], count, timing);
      AboveMeaning(before, 0.0, timing);
      LeastMeaning(before, timing);
      LoadNonNegative(before[Least(before, timing)], timing);
      LoadAppend(before[Least(before, timing)], files[n], timing);
      assert files[n] in files;
    }
  }

  lemma CostBelowHeaviest(files: seq<string>, count: nat, f: string, timing: Timing)
    requires f in files && count > 0
    ensures Cost(f, timing) <= Heaviest(Assign(files, count, timing), timing)
  {
    var groups := Assign(files, count, timing);
    AssignConserves(files, count, timing);
    assert f in multiset(Flatten(groups));
    var g := FlattenOrigin(groups, f);
    CostBelowLoad(g, f, timing);
    HeaviestMeaning(groups, timing);
  }

  lemma HeaviestWithin(groups: seq<seq<string>>, limit: real, timing: Timing)
    requires limit >= 0.0 && forall g | g in groups :: Load(g, timing) <= limit
    ensures Heaviest(groups, timing) <= limit
  {
    HeaviestMeaning(groups, timing);
    var h := Heaviest(groups, timing);
    if h != 0.0 {
      var k :| 0 <= k < |groups| && Load(groups[k], timing) == h;
      assert groups[k] in groups;
    }
  }

  /** One group a file is as good as any number of groups. */
  lemma FileCountSuffices(files: seq<string>, count: nat, timing: Timing)
    requires files != [] && count > 0
    ensures Heaviest(Assign(files, |files|, timing), timing) <= Heaviest(Assign(files, count, timing), timing)
  {
    HeaviestMeaning(Assign(files, count, timing), timing);
    var cap := Heaviest(Assign(files, count, timing), timing);
    forall f | f in files ensures Cost(f, timing) <= cap { CostBelowHeaviest(files, count, f, timing); }
    OneFileEach(files, |files|, cap, timing);
    HeaviestWithin(Assign(files, |files|, timing), cap, timing);
  }
}
