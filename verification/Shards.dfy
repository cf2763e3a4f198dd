/** Splitting a test plan into shards: scripts/verification-shards.ts. */
module Shards {
  import opened Ordering
  import opened ListScheduling
  import opened Graham

  const MAX_SHARDS: nat := 16

  datatype Bucket = Bucket(files: seq<string>, durationMs: real)

  /** The locale order that breaks ties between files of equal cost. */
  type Collation = (string, string) -> bool

  function LongestThenName(timing: Timing, collate: Collation): (string, string) -> bool {
    (a, b) => Cost(a, timing) > Cost(b, timing) || (Cost(a, timing) == Cost(b, timing) && collate(a, b))
  }

  function SchedulingOrder(files: seq<string>, timing: Timing, collate: Collation): (order: seq<string>)
    ensures multiset(order) == multiset(files) && |order| == |files|
  {
    SortBy(files, LongestThenName(timing, collate))
  }

  /** Drops empty groups and sorts the others. */
  function Publish(groups: seq<seq<string>>): seq<seq<string>> {
    if groups == [] then []
    else
      var n := |groups| - 1;
      if groups[n] == [] then Publish(groups[..n]) else Publish(groups[..n]) + [Sorted(groups[n])]
  }

  function Partition(files: seq<string>, timing: Timing, collate: Collation, count: nat): seq<seq<string>>
    requires count > 0
  {
    Publish(Assign(SchedulingOrder(files, timing, collate), count, timing))
  }

  function Estimate(files: seq<string>, timing: Timing, collate: Collation, count: nat): real
    requires count > 0
  {
    Heaviest(Partition(files, timing, collate, count), timing)
  }

  // ---------- the in-place partition ----------

  function GroupsOf(buckets: seq<Bucket>): (groups: seq<seq<string>>)
    ensures |groups| == |buckets|
    ensures forall i | 0 <= i < |buckets| :: groups[i] == buckets[i].files
  {
    seq(|buckets|, i requires 0 <= i < |buckets| => buckets[i].files)
  }

  /** The running durations are the loads of the files gathered so far. */
  ghost predicate DurationsTrack(buckets: seq<Bucket>, timing: Timing) {
    forall i | 0 <= i < |buckets| :: buckets[i].durationMs == Load(buckets[i].files, timing)
  }

  lemma LeastIsUnique(groups: seq<seq<string>>, k: nat, timing: Timing)
    requires k < |groups|
    requires forall j | 0 <= j < |groups| :: Load(groups[k], timing) <= Load(groups[j], timing)
    requires forall j | 0 <= j < k :: Load(groups[k], timing) < Load(groups[j], timing)
    ensures k == Least(groups, timing)
  {
    LeastMeaning(groups, timing);
  }

  method LeastLoaded(buckets: array<Bucket>, ghost timing: Timing) returns (best: nat)
    requires buckets.Length > 0 && DurationsTrack(buckets[..], timing)
    ensures best < buckets.Length && best == Least(GroupsOf(buckets[..]), timing)
  {
    best := 0;
    for i := 0 to buckets.Length
      invariant best < buckets.Length && (i == 0 ==> best == 0)
      invariant forall j | 0 <= j < i :: buckets[best].durationMs <= buckets[j].durationMs
      invariant forall j | 0 <= j < best :: buckets[best].durationMs < buckets[j].durationMs
    {
      if buckets[i].durationMs < buckets[best].durationMs {
        best := i;
      }
    }
    LeastIsUnique(GroupsOf(buckets[..]), best, timing);
  }

  method AddToLeast(buckets: array<Bucket>, file: string, timing: Timing)
    requires buckets.Length > 0 && DurationsTrack(buckets[..], timing)
    modifies buckets
    ensures DurationsTrack(buckets[..], timing)
    ensures GroupsOf(buckets[..]) == Place(old(GroupsOf(buckets[..])), file, timing)
  {
    var best := LeastLoaded(buckets, timing);
    var bucket := buckets[best];
    var grown := Bucket(bucket.files + [file], bucket.durationMs + Cost(file, timing));
    BucketGrows(buckets[..], best, file, timing);
    buckets[best] := grown;
    assert buckets[..] == old(buckets[..])[best := grown];
  }

  lemma BucketGrows(buckets: seq<Bucket>, best: nat, file: string, timing: Timing)
    requires best < |buckets| && DurationsTrack(buckets, timing) && best == Least(GroupsOf(buckets), timing)
    ensures
      var grown := Bucket(buckets[best].files + [file], buckets[best].durationMs + Cost(file, timing));
      && DurationsTrack(buckets[best := grown], timing)
      && GroupsOf(buckets[best := grown]) == Place(GroupsOf(buckets), file, timing)
  {
    LoadAppend(buckets[best].files, file, timing);
  }

  method FillBuckets(buckets: array<Bucket>, order: seq<string>, timing: Timing)
    requires buckets.Length > 0 && DurationsTrack(buckets[..], timing)
    requires GroupsOf(buckets[..]) == Assign([], buckets.Length, timing)
    modifies buckets
    ensures GroupsOf(buckets[..]) == Assign(order, buckets.Length, timing)
  {
    for i := 0 to |order|
      invariant DurationsTrack(buckets[..], timing)
      invariant GroupsOf(buckets[..]) == Assign(order[..i], buckets.Length, timing)
    {
      AddToLeast(buckets, order[i], timing);
      assert order[..i+1][..i] == order[..i];
    }
    assert order[..|order|] == order;
  }

  method PartitionFiles(files: seq<string>, timing: Timing, collate: Collation, count: int)
    returns (r: Result<seq<seq<string>>, string>)
    ensures r.Ok? <==> 1 <= count <= 16
    ensures r.Ok? ==> r.value == Partition(files, timing, collate, count)
    ensures r.Err? ==> r.error == "Invalid shard count"
  {
    if count < 1 || count > MAX_SHARDS {
      return Err("Invalid shard count");
    }
    var buckets := new Bucket[count](_ => Bucket([], 0.0));
    var order := SchedulingOrder(files, timing, collate);
    assert GroupsOf(buckets[..]) == Assign([], count, timing);
    FillBuckets(buckets, order, timing);
    r := Ok(Publish(GroupsOf(buckets[..])));
  }

  // ---------- what the partition guarantees ----------

  lemma SchedulingOrderLongestFirst(files: seq<string>, timing: Timing, collate: Collation)
    requires TotalPreorder(collate)
    ensures LongestFirst(SchedulingOrder(files, timing, collate), timing)
  {
    SortByOrders(files, LongestThenName(timing, collate));
  }

  /** The recorded duration of a file, a thousand where none was recorded. */
  ghost predicate Expected(file: string, timing: Timing, cost: real) {
    if file in timing then cost == timing[file] else cost == 1000.0
  }

  lemma CostIsExpected(file: string, timing: Timing, cost: real)
    ensures Expected(file, timing, cost) <==> cost == Cost(file, timing)
  {
  }

  /** Files are placed the longest first, and by name where they take equally long. */
  lemma LongestThenByName(files: seq<string>, timing: Timing, collate: Collation, i: nat, j: nat, x: real, y: real)
    requires TotalPreorder(collate) && i < j < |files|
    requires Expected(SchedulingOrder(files, timing, collate)[i], timing, x)
    requires Expected(SchedulingOrder(files, timing, collate)[j], timing, y)
    ensures x > y || (x == y && collate(SchedulingOrder(files, timing, collate)[i],
                                        SchedulingOrder(files, timing, collate)[j]))
  {
    var order := SchedulingOrder(files, timing, collate);
    SortByOrders(files, LongestThenName(timing, collate));
    assert LongestThenName(timing, collate)(order[i], order[j]);
    CostIsExpected(order[i], timing, x);
    CostIsExpected(order[j], timing, y);
  }

  lemma {:induction false} PublishConserves(groups: seq<seq<string>>)
    ensures multiset(Flatten(Publish(groups))) == multiset(Flatten(groups))
  {
    if groups != [] {
      var n := |groups| - 1;
      PublishConserves(groups[..n]);
      if groups[n] != [] {
        var shown := Publish(groups[..n]);
        assert (shown + [Sorted(groups[n])])[..|shown|] == shown;
      }
    }
  }

  ghost predicate Presentable(g: seq<string>) {
    g != [] && InOrder(g)
  }

  lemma {:induction false} PublishSortsAndDropsEmpty(groups: seq<seq<string>>)
    ensures forall g | g in Publish(groups) :: Presentable(g)
  {
    if groups != [] {
      var n := |groups| - 1;
      PublishSortsAndDropsEmpty(groups[..n]);
      SortedOrders(groups[n]);
    }
  }

  lemma {:induction false} PublishKeepsEveryGroup(groups: seq<seq<string>>)
    requires forall g | g in groups :: g != []
    ensures |Publish(groups)| == |groups|
  {
    if groups != [] {
      var n := |groups| - 1;
      assert groups[n] in groups && forall g | g in groups[..n] :: g in groups;
      PublishKeepsEveryGroup(groups[..n]);
    }
  }

  lemma SortedLoad(g: seq<string>, timing: Timing)
    ensures Load(Sorted(g), timing) == Load(g, timing)
  {
    SumPermutation(Sorted(g), g, CostOf(timing));
  }

  lemma {:induction false} PublishKeepsHeaviest(groups: seq<seq<string>>, timing: Timing)
    ensures Heaviest(Publish(groups), timing) == Heaviest(groups, timing)
  {
    if groups != [] {
      var n := |groups| - 1;
      PublishKeepsHeaviest(groups[..n], timing);
      HeaviestMeaning(groups[..n], timing);
      if groups[n] != [] {
        SortedLoad(groups[n], timing);
      }
    }
  }

  lemma EstimateIsHeaviest(files: seq<string>, timing: Timing, collate: Collation, count: nat)
    requires count > 0
    ensures Estimate(files, timing, collate, count)
         == Heaviest(Assign(SchedulingOrder(files, timing, collate), count, timing), timing)
  {
    PublishKeepsHeaviest(Assign(SchedulingOrder(files, timing, collate), count, timing), timing);
  }

  /** The shards are non-empty, sorted, and together hold exactly the files of the plan. */
  lemma PartitionConserves(files: seq<string>, timing: Timing, collate: Collation, count: nat)
    requires count > 0
    ensures
      var shards := Partition(files, timing, collate, count);
      && multiset(Flatten(shards)) == multiset(files)
      && (forall g | g in shards :: Presentable(g))
  {
    var order := SchedulingOrder(files, timing, collate);
    AssignConserves(order, count, timing);
    PublishConserves(Assign(order, count, timing));
    PublishSortsAndDropsEmpty(Assign(order, count, timing));
  }

  /** Asking for no more shards than there are files yields exactly that many. */
  lemma PartitionCount(files: seq<string>, timing: Timing, collate: Collation, count: nat)
    requires 0 < count <= |files|
    ensures |Partition(files, timing, collate, count)| == count
  {
    var order := SchedulingOrder(files, timing, collate);
    NoGroupEmpty(order, count, timing);
    PublishKeepsEveryGroup(Assign(order, count, timing));
  }

  /** Graham's bound for the shards: any other split into as many shards is at best 4/3 - 1/(3m) times faster. */
  lemma PartitionBound(files: seq<string>, timing: Timing, collate: Collation, other: seq<seq<string>>)
    requires TotalPreorder(collate) && other != [] && multiset(Flatten(other)) == multiset(files)
    ensures Estimate(files, timing, collate, |other|) <= GrahamLimit(|other|, Heaviest(other, timing))
  {
    SchedulingOrderLongestFirst(files, timing, collate);
    EstimateIsHeaviest(files, timing, collate, |other|);
    LongestFirstBound(SchedulingOrder(files, timing, collate), other, timing);
  }

  lemma MoreShardsNeverSlower(files: seq<string>, timing: Timing, collate: Collation, fewer: nat, more: nat)
    requires 0 < fewer <= more
    ensures Estimate(files, timing, collate, more) <= Estimate(files, timing, collate, fewer)
  {
    EstimateIsHeaviest(files, timing, collate, fewer);
    EstimateIsHeaviest(files, timing, collate, more);
    MoreGroupsNeverHeavier(SchedulingOrder(files, timing, collate), fewer, more, timing);
  }

  lemma ShardPerFileIsBest(files: seq<string>, timing: Timing, collate: Collation, count: nat)
    requires files != [] && count > 0
    ensures Estimate(files, timing, collate, |files|) <= Estimate(files, timing, collate, count)
  {
    EstimateIsHeaviest(files, timing, collate, |files|);
    EstimateIsHeaviest(files, timing, collate, count);
    FileCountSuffices(SchedulingOrder(files, timing, collate), count, timing);
  }

  // ---------- choosing the number of shards ----------

  function ShardLimit(files: seq<string>): nat {
    if |files| == 0 then 1 else if |files| < MAX_SHARDS then |files| else MAX_SHARDS
  }

  /** `count` is the smallest shard count whose estimate no allowed shard count beats. */
  ghost predicate FewestShards(files: seq<string>, timing: Timing, collate: Collation, count: nat) {
    && 1 <= count <= 16 && (count <= |files| || count == 1)
    && (forall k | 1 <= k <= 16 ::
          Estimate(files, timing, collate, count) <= Estimate(files, timing, collate, k))
    && (forall k | 1 <= k < count :: Estimate(files, timing, collate, count) < Estimate(files, timing, collate, k))
  }

  method EstimatedDuration(files: seq<string>, timing: Timing, collate: Collation, count: int)
    returns (r: Result<real, string>)
    ensures r.Ok? <==> 1 <= count <= 16
    ensures r.Ok? ==> r.value == Estimate(files, timing, collate, count)
  {
    var partition := PartitionFiles(files, timing, collate, count);
    r := match partition case Ok(shards) => Ok(Heaviest(shards, timing)) case Err(e) => Err(e);
  }

  ghost predicate Tabulates(estimate: nat -> real, files: seq<string>, timing: Timing, collate: Collation) {
    forall k: nat {:trigger Estimate(files, timing, collate, k)} |
      k > 0 :: estimate(k) == Estimate(files, timing, collate, k)
  }

  lemma TableOf(files: seq<string>, timing: Timing, collate: Collation) returns (estimate: nat -> real)
    ensures Tabulates(estimate, files, timing, collate)
  {
    estimate := (k: nat) => if k == 0 then 0.0 else Estimate(files, timing, collate, k);
  }

  /** The count a scan of `estimate` holds after one to `n` shards: a later one must be strictly faster. */
  function FastestUpTo(estimate: nat -> real, n: nat): (count: nat)
    requires n > 0
    ensures 1 <= count <= n
  {
    if n == 1 then 1
    else
      var count := FastestUpTo(estimate, n - 1);
      if estimate(n) < estimate(count) then n else count
  }

  lemma {:induction false} FastestIsFirstLeast(estimate: nat -> real, n: nat, k: nat)
    requires 1 <= k <= n
    ensures
      var count := FastestUpTo(estimate, n);
      && estimate(count) <= estimate(k)
      && (k < count ==> estimate(count) < estimate(k))
  {
    if k < n { FastestIsFirstLeast(estimate, n - 1, k); }
  }

  method TabulatedDuration(files: seq<string>, timing: Timing, collate: Collation, count: nat,
                           ghost estimate: nat -> real)
    returns (duration: real)
    requires 1 <= count <= MAX_SHARDS && Tabulates(estimate, files, timing, collate)
    ensures duration == estimate(count)
  {
    var r := EstimatedDuration(files, timing, collate, count);
    duration := r.value;
  }

  method ScanCounts(files: seq<string>, timing: Timing, collate: Collation, limit: nat, ghost estimate: nat -> real)
    returns (count: nat)
    requires 1 <= limit <= MAX_SHARDS && Tabulates(estimate, files, timing, collate)
    ensures count == FastestUpTo(estimate, limit)
  {
    count := 1;
    var duration := TabulatedDuration(files, timing, collate, count, estimate);
    for candidate := 2 to limit + 1
      invariant count == FastestUpTo(estimate, candidate - 1)
      invariant duration == estimate(count)
    {
      var next := TabulatedDuration(files, timing, collate, candidate, estimate);
      if next < duration {
        count, duration := candidate, next;
      }
    }
  }

  lemma NoFilesNoTime(timing: Timing, collate: Collation, count: nat)
    requires count > 0
    ensures Estimate([], timing, collate, count) == 0.0
  {
    EstimateIsHeaviest([], timing, collate, count);
    HeaviestWithin(Assign([], count, timing), 0.0, timing);
  }

  lemma LimitBeatsEveryCount(files: seq<string>, timing: Timing, collate: Collation, k: nat)
    requires 1 <= k <= MAX_SHARDS
    ensures Estimate(files, timing, collate, ShardLimit(files)) <= Estimate(files, timing, collate, k)
  {
    if files == [] {
      NoFilesNoTime(timing, collate, 1);
      NoFilesNoTime(timing, collate, k);
    } else if |files| < MAX_SHARDS {
      ShardPerFileIsBest(files, timing, collate, k);
    } else {
      MoreShardsNeverSlower(files, timing, collate, k, MAX_SHARDS);
    }
  }

  /** The scan finds the fewest shards that attain the best estimate of all allowed counts. */
  method EstimateShardCount(files: seq<string>, timing: Timing, collate: Collation) returns (count: nat)
    ensures FewestShards(files, timing, collate, count)
  {
    ghost var estimate := TableOf(files, timing, collate);
    var limit := ShardLimit(files);
    count := ScanCounts(files, timing, collate, limit, estimate);
    forall k | 1 <= k <= MAX_SHARDS
      ensures Estimate(files, timing, collate, count) <= Estimate(files, timing, collate, k)
    {
      FastestIsFirstLeast(estimate, limit, limit);
      LimitBeatsEveryCount(files, timing, collate, k);
    }
    forall k | 1 <= k < count
      ensures Estimate(files, timing, collate, count) < Estimate(files, timing, collate, k)
    {
      FastestIsFirstLeast(estimate, limit, k);
    }
  }

  /** Some files have a count between one shard and one shard a file. */
  lemma FewestShardsFit(files: seq<string>, timing: Timing, collate: Collation, count: nat)
    requires files != [] && FewestShards(files, timing, collate, count)
    ensures 1 <= count <= 16 && count <= |files|
  {
  }

  /** The chosen count is determined: two counts with the property are equal. */
  lemma FewestShardsIsUnique(files: seq<string>, timing: Timing, collate: Collation, a: nat, b: nat)
    requires FewestShards(files, timing, collate, a) && FewestShards(files, timing, collate, b)
    ensures a == b
  {
    var better := (x: nat, y: nat) requires x > 0 && y > 0 =>
      Estimate(files, timing, collate, x) < Estimate(files, timing, collate, y);
    assert !better(a, b) && !better(b, a);
  }
}
