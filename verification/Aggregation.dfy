/** Merging shard reports and the final verdict: scripts/aggregate-test-reports.ts and scripts/verify-ci-result.ts. */
module Aggregation {
  import opened Ordering
  import opened PlanContract
  import opened Planning
  import opened Selection
  import opened Verdict

  datatype JobResult = JobSuccess | JobFailure | JobCancelled | JobSkipped | JobMissing

  datatype CiInput = CiInput(
    planResult: JobResult,
    testsRequired: Option<bool>,
    checksResult: JobResult,
    testsResult: JobResult,
    plan: Option<Plan>,
    testsReport: Option<TestReport>)

  datatype CiVerdict = CiVerdict(ok: bool, reason: string)

  function FlatMap<T>(reports: seq<TestReport>, part: TestReport -> seq<T>): seq<T> {
    if reports == [] then []
    else FlatMap(reports[..|reports|-1], part) + part(reports[|reports|-1])
  }

  function ResultsOf(reports: seq<TestReport>): seq<TestResult> {
    FlatMap(reports, (r: TestReport) => r.results)
  }

  function CancelledOf(reports: seq<TestReport>): seq<string> {
    FlatMap(reports, (r: TestReport) => OrEmpty(r.cancelled))
  }

  function InProgressOf(reports: seq<TestReport>): seq<string> {
    FlatMap(reports, (r: TestReport) => OrEmpty(r.inProgress))
  }

  function ScopesOf(reports: seq<TestReport>): seq<string> {
    FlatMap(reports, (r: TestReport) => r.scope)
  }

  /** The files neither finished nor interrupted. */
  function NotRun(files: seq<string>, seen: seq<string>, unfinished: seq<string>): (r: seq<string>)
    ensures forall f :: f in r <==> f in files && f !in seen && f !in unfinished
  {
    if files == [] then []
    else
      var n := |files| - 1;
      assert files == files[..n] + [files[n]];
      NotRun(files[..n], seen, unfinished) + (if files[n] in seen || files[n] in unfinished then [] else [files[n]])
  }

  function Combined(plan: Plan, reports: seq<TestReport>, status: string): TestReport {
    var results := ResultsOf(reports);
    var unfinished := CancelledOf(reports) + InProgressOf(reports);
    TestReport(Some(status), Some(OrFull(plan.acceptanceMatrix)), None, plan.files,
               Some(NotRun(plan.files, ResultFiles(results), unfinished)),
               Some(CancelledOf(reports)), Some(InProgressOf(reports)), results)
  }

  predicate Complete(plan: Plan, reports: seq<TestReport>, errors: seq<string>) {
    var matrix := OrFull(plan.acceptanceMatrix);
    && errors == []
    && reports != []
    && (forall r | r in reports :: CompleteTestReport(r, r.scope, matrix))
    && CompleteTestReport(Combined(plan, reports, "passed"), plan.files, matrix)
  }

  function Loaded(files: seq<Result<TestReport, string>>): seq<TestReport> {
    if files == [] then []
    else
      var n := |files| - 1;
      if files[n].Ok? then Loaded(files[..n]) + [files[n].value] else Loaded(files[..n])
  }

  /** The readable reports, in order. */
  lemma {:induction false} LoadedReports(files: seq<Result<TestReport, string>>)
    ensures forall r :: r in Loaded(files) <==> Ok(r) in files
    ensures (forall f | f in files :: f.Ok?) ==>
              |Loaded(files)| == |files| && forall i | 0 <= i < |files| :: files[i] == Ok(Loaded(files)[i])
  {
    if files != [] {
      var n := |files| - 1;
      assert files == files[..n] + [files[n]];
      LoadedReports(files[..n]);
    }
  }

  method LoadReports(files: seq<Result<TestReport, string>>) returns (reports: seq<TestReport>, errors: seq<string>)
    ensures reports == Loaded(files)
    ensures errors == [] <==> forall i | 0 <= i < |files| :: files[i].Ok?
  {
    reports, errors := [], [];
    for i := 0 to |files|
      invariant reports == Loaded(files[..i])
      invariant errors == [] <==> forall j | 0 <= j < i :: files[j].Ok?
    {
      assert files[..i+1][..i] == files[..i];
      match files[i] {
        case Ok(r) => reports := reports + [r];
        case Err(e) => errors := errors + [e];
      }
    }
    assert files[..|files|] == files;
  }

  /** Complete exactly when every report loaded and the shards add up; only then is the written report complete. */
  method AggregateTestReports(plan: Plan, files: seq<Result<TestReport, string>>)
    returns (complete: bool, report: TestReport)
    ensures complete <==> (forall i | 0 <= i < |files| :: files[i].Ok?) && ShardsAddUp(plan, Loaded(files))
    ensures report == Combined(plan, Loaded(files), StatusOf(complete, ResultsOf(Loaded(files))))
    ensures complete ==> report == MergedReport(plan, Loaded(files))
    ensures CompleteTestReport(report, plan.files, OrFull(plan.acceptanceMatrix)) <==> complete
  {
    var reports, errors := LoadReports(files);
    complete := Complete(plan, reports, errors);
    CompleteIffShardsAddUp(plan, reports);
    report := Combined(plan, reports, StatusOf(complete, ResultsOf(reports)));
  }

  function StatusOf(complete: bool, results: seq<TestResult>): string {
    if complete then "passed"
    else if exists r | r in results :: r.exitCode != 0 then "failed" else "incomplete"
  }

  lemma {:induction false} FlatMapMembers<T>(reports: seq<TestReport>, part: TestReport -> seq<T>)
    ensures forall x :: x in FlatMap(reports, part) <==> exists r :: r in reports && x in part(r)
  {
    if reports != [] {
      var n := |reports| - 1;
      assert reports == reports[..n] + [reports[n]];
      FlatMapMembers(reports[..n], part);
    }
  }

  ghost predicate Cancelled(r: TestReport, f: string) { r.cancelled.Some? && f in r.cancelled.value }

  ghost predicate InProgress(r: TestReport, f: string) { r.inProgress.Some? && f in r.inProgress.value }

  ghost predicate HasResult(r: TestReport, f: string) { exists x :: x in r.results && x.file == f }

  /** The written report passes on what the shards say of each file; a planned file of which none says anything has not
      run. */
  lemma MergedReportAccounts(plan: Plan, reports: seq<TestReport>, status: string)
    ensures
      var report := Combined(plan, reports, status);
      && report.scope == plan.files && report.notRun.Some?
      && (forall x :: x in report.results <==> exists r :: r in reports && x in r.results)
      && (forall f :: Cancelled(report, f) <==> exists r :: r in reports && Cancelled(r, f))
      && (forall f :: InProgress(report, f) <==> exists r :: r in reports && InProgress(r, f))
      && forall f :: f in report.notRun.value <==>
           f in plan.files && !exists r :: r in reports && (HasResult(r, f) || Cancelled(r, f) || InProgress(r, f))
  {
    FlatMapMembers(reports, (r: TestReport) => r.results);
    FlatMapMembers(reports, (r: TestReport) => OrEmpty(r.cancelled));
    FlatMapMembers(reports, (r: TestReport) => OrEmpty(r.inProgress));
    var report := Combined(plan, reports, status);
    forall f ensures f in ResultFiles(ResultsOf(reports)) <==> exists r :: r in reports && HasResult(r, f) {
      if f in ResultFiles(ResultsOf(reports)) {
        var i :| 0 <= i < |ResultsOf(reports)| && ResultsOf(reports)[i].file == f;
        assert ResultsOf(reports)[i] in ResultsOf(reports);
      }
      if r :| r in reports && HasResult(r, f) {
        var x :| x in r.results && x.file == f;
        assert x in ResultsOf(reports);
        var i :| 0 <= i < |ResultsOf(reports)| && ResultsOf(reports)[i] == x;
        assert ResultFiles(ResultsOf(reports))[i] == f;
      }
    }
  }

  /** The status says complete, or whether anything failed. */
  lemma StatusMeaning(complete: bool, reports: seq<TestReport>)
    ensures
      var status := StatusOf(complete, ResultsOf(reports));
      && (status == "passed" <==> complete)
      && (status == "failed" <==> !complete && exists r, x :: r in reports && x in r.results && x.exitCode != 0)
      && status in ["passed", "failed", "incomplete"]
  {
    FlatMapMembers(reports, (r: TestReport) => r.results);
    assert "passed"[0] != "failed"[0] && "passed"[0] != "incomplete"[0] && "failed"[0] != "incomplete"[0];
  }

  // ---------- what a complete aggregate means ----------

  /** Every report is complete over its own scope, and the scopes split the plan's files without overlap. */
  ghost predicate ShardsAddUp(plan: Plan, reports: seq<TestReport>) {
    && reports != []
    && (forall r | r in reports :: CompleteTestReport(r, r.scope, OrFull(plan.acceptanceMatrix)))
    && Distinct(ScopesOf(reports))
    && multiset(ScopesOf(reports)) == multiset(plan.files)
  }

  /** Complete reports have a result for each file of their scopes, all passed, and nothing pending. */
  ghost predicate PartsAddUp(reports: seq<TestReport>) {
    && multiset(ResultFiles(ResultsOf(reports))) == multiset(ScopesOf(reports))
    && (forall i | 0 <= i < |ResultsOf(reports)| :: Passed(ResultsOf(reports)[i]))
    && CancelledOf(reports) == [] && InProgressOf(reports) == []
  }

  lemma PartsAddUpAppend(reports: seq<TestReport>, r: TestReport, matrix: Matrix)
    requires PartsAddUp(reports) && CompleteTestReport(r, r.scope, matrix)
    ensures PartsAddUp(reports + [r])
  {
    CompleteMeaning(r, r.scope, matrix);
    ResultFilesAppend(ResultsOf(reports), r.results);
  }

  lemma {:induction false} CompleteParts(reports: seq<TestReport>, matrix: Matrix)
    requires forall r | r in reports :: CompleteTestReport(r, r.scope, matrix)
    ensures PartsAddUp(reports)
  {
    if reports != [] {
      var n := |reports| - 1;
      assert reports == reports[..n] + [reports[n]];
      assert forall r | r in reports[..n] :: r in reports;
      CompleteParts(reports[..n], matrix);
      PartsAddUpAppend(reports[..n], reports[n], matrix);
    }
  }

  lemma CompleteIffShardsAddUp(plan: Plan, reports: seq<TestReport>)
    ensures Complete(plan, reports, []) <==> ShardsAddUp(plan, reports)
  {
    var matrix := OrFull(plan.acceptanceMatrix);
    if reports != [] && forall r | r in reports :: CompleteTestReport(r, r.scope, matrix) {
      CompleteParts(reports, matrix);
      CombinedCompleteIff(plan, reports);
    }
  }

  lemma {:induction false} NothingLeft(files: seq<string>, seen: seq<string>, unfinished: seq<string>)
    requires forall f | f in files :: f in seen
    ensures NotRun(files, seen, unfinished) == []
  {
    if files != [] {
      var n := |files| - 1;
      assert files[n] in files && forall f | f in files[..n] :: f in files;
      NothingLeft(files[..n], seen, unfinished);
    }
  }

  lemma PermutationsShareDistinctness(a: seq<string>, b: seq<string>)
    requires multiset(a) == multiset(b)
    ensures Distinct(a) <==> Distinct(b)
  {
    if Distinct(a) { PermutationKeepsDistinct(a, b); }
    if Distinct(b) { PermutationKeepsDistinct(b, a); }
  }

  lemma CombinedCompleteIff(plan: Plan, reports: seq<TestReport>)
    requires PartsAddUp(reports)
    ensures CompleteTestReport(Combined(plan, reports, "passed"), plan.files, OrFull(plan.acceptanceMatrix)) <==>
              Distinct(ScopesOf(reports)) && multiset(ScopesOf(reports)) == multiset(plan.files)
  {
    var named := ResultFiles(ResultsOf(reports));
    CompleteMeaning(Combined(plan, reports, "passed"), plan.files, OrFull(plan.acceptanceMatrix));
    PermutationsShareDistinctness(ScopesOf(reports), named);
    if multiset(named) == multiset(plan.files) {
      forall f | f in plan.files ensures f in named { assert f in multiset(named); }
      NothingLeft(plan.files, named, []);
      PermutationsShareDistinctness(named, plan.files);
    }
  }

  // ---------- the CI verdict ----------

  function Describe(job: JobResult): string {
    match job
    case JobSuccess => "success"
    case JobFailure => "failure"
    case JobCancelled => "cancelled"
    case JobSkipped => "skipped"
    case JobMissing => "missing"
  }

  function AggregateCiResult(input: CiInput): CiVerdict {
    if input.planResult != JobSuccess then CiVerdict(false, "Plan result is " + Describe(input.planResult))
    else if input.plan.None? then CiVerdict(false, "Plan artifact is missing")
    else if input.testsRequired != Some(input.plan.value.mode != RunNone) then
      CiVerdict(false, "tests_required disagrees with the plan")
    else if input.checksResult != JobSuccess then CiVerdict(false, "Checks result is " + Describe(input.checksResult))
    else if !input.testsRequired.value then
      CiVerdict(input.testsResult == JobSkipped,
                "Plan requires no Tests; Tests result is " + Describe(input.testsResult))
    else if input.testsResult != JobSuccess then
      CiVerdict(false, "Required Tests result is " + Describe(input.testsResult))
    else if input.testsReport.None? then CiVerdict(false, "Tests report artifact is missing")
    else
      var plan := input.plan.value;
      var complete := CompleteTestReport(input.testsReport.value, plan.files, OrFull(plan.acceptanceMatrix));
      CiVerdict(complete,
                if complete then "Required Tests succeeded" else "Tests report is incomplete or contains failures")
  }

  /** A green verdict means every planned file ran exactly once and passed, and nothing else ran; for a plan
      without tests, it means that the Tests job was skipped. */
  lemma GreenVerdictIsSound(input: CiInput)
    requires AggregateCiResult(input).ok
    ensures input.planResult == JobSuccess && input.checksResult == JobSuccess
    ensures input.plan.Some? && input.testsRequired == Some(input.plan.value.mode != RunNone)
    ensures
      var files := input.plan.value.files;
      if input.plan.value.mode == RunNone then input.testsResult == JobSkipped
      else
        && input.testsResult == JobSuccess
        && input.testsReport.Some?
        && var results := input.testsReport.value.results;
        && (forall f | f in files :: exists i :: 0 <= i < |results| && results[i].file == f && Passed(results[i]))
        && (forall i | 0 <= i < |results| :: results[i].file in files)
        && (forall i, j | 0 <= i < j < |results| :: results[i].file != results[j].file)
  {
    var plan := input.plan.value;
    if plan.mode != RunNone {
      var report := input.testsReport.value;
      CompleteMeaning(report, plan.files, OrFull(plan.acceptanceMatrix));
      ResultsMatchFiles(report.results, plan.files);
    }
  }

  ghost predicate Nothing(files: Option<seq<string>>) { files.None? || files.value == [] }

  /** A report without anything pending, in which each planned file has one result, a passing one, and no other file
      has any. */
  ghost predicate EveryFilePassed(report: TestReport, plan: Plan) {
    && (report.status.None? || report.status.value == "passed")
    && (report.acceptanceMatrix == Some(Representative) <==> plan.acceptanceMatrix == Some(Representative))
    && Nothing(report.notRun) && Nothing(report.cancelled) && Nothing(report.inProgress)
    && multiset(report.scope) == multiset(plan.files) && Distinct(report.scope)
    && multiset(ResultFiles(report.results)) == multiset(plan.files)
    && forall r | r in report.results :: r.exitCode == 0 && r.executed > 0
  }

  lemma RanOnceExactly(results: seq<TestResult>, files: seq<string>)
    requires Distinct(files)
    ensures EachRanOnceAndPassed(results, files) <==>
              && multiset(ResultFiles(results)) == multiset(files)
              && forall r | r in results :: r.exitCode == 0 && r.executed > 0
  {
    if multiset(ResultFiles(results)) == multiset(files) { PermutationsShareDistinctness(ResultFiles(results), files); }
  }

  lemma CompleteExactly(report: TestReport, plan: Plan)
    ensures CompleteTestReport(report, plan.files, OrFull(plan.acceptanceMatrix)) <==> EveryFilePassed(report, plan)
  {
    CompleteMeaning(report, plan.files, OrFull(plan.acceptanceMatrix));
    if multiset(report.scope) == multiset(plan.files) && Distinct(report.scope) {
      PermutationKeepsDistinct(report.scope, plan.files);
      RanOnceExactly(report.results, plan.files);
    }
  }

  /** When the verdict is green, over every input. */
  lemma GreenExactly(input: CiInput)
    ensures AggregateCiResult(input).ok <==>
              && input.planResult == JobSuccess && input.checksResult == JobSuccess && input.plan.Some?
              && var plan := input.plan.value;
              if plan.mode == RunNone then input.testsRequired == Some(false) && input.testsResult == JobSkipped
              else
                && input.testsRequired == Some(true) && input.testsResult == JobSuccess
                && input.testsReport.Some? && EveryFilePassed(input.testsReport.value, plan)
  {
    if input.plan.Some? && input.testsReport.Some? {
      CompleteExactly(input.testsReport.value, input.plan.value);
    }
  }

  lemma ResultsMatchFiles(results: seq<TestResult>, files: seq<string>)
    requires EachRanOnceAndPassed(results, files)
    ensures forall f | f in files :: exists i :: 0 <= i < |results| && results[i].file == f && Passed(results[i])
    ensures forall i | 0 <= i < |results| :: results[i].file in files
    ensures forall i, j | 0 <= i < j < |results| :: results[i].file != results[j].file
  {
    var named := ResultFiles(results);
    forall f | f in files ensures exists i :: 0 <= i < |results| && results[i].file == f && Passed(results[i]) {
      assert f in multiset(named);
      var i :| 0 <= i < |named| && named[i] == f;
    }
    forall i | 0 <= i < |results| ensures results[i].file in files {
      assert named[i] in multiset(named);
    }
    forall i, j | 0 <= i < j < |results| ensures results[i].file != results[j].file {
      assert named[i] != named[j];
    }
  }

  lemma DescribesJob(job: JobResult)
    ensures job == JobSuccess ==> Describe(job) == "success"
    ensures job == JobFailure ==> Describe(job) == "failure"
    ensures job == JobCancelled ==> Describe(job) == "cancelled"
    ensures job == JobSkipped ==> Describe(job) == "skipped"
    ensures job == JobMissing ==> Describe(job) == "missing"
  {
  }

  /** What a verdict requires, in the order in which it is looked at. */
  ghost predicate Met(input: CiInput, i: nat) {
    var none := input.plan.Some? && input.plan.value.mode == RunNone;
    match i
    case 0 => input.planResult == JobSuccess
    case 1 => input.plan.Some?
    case 2 => input.testsRequired == Some(!none)
    case 3 => input.checksResult == JobSuccess
    case 4 => input.testsResult == if none then JobSkipped else JobSuccess
    case 5 => none || input.testsReport.Some?
    case _ => none || (input.testsReport.Some? && input.plan.Some?
                       && EveryFilePassed(input.testsReport.value, input.plan.value))
  }

  /** What is said of a requirement that is not met. */
  ghost predicate Says(reason: string, input: CiInput, i: nat) {
    var none := input.plan.Some? && input.plan.value.mode == RunNone;
    match i
    case 0 => reason == "Plan result is " + Describe(input.planResult)
    case 1 => reason == "Plan artifact is missing"
    case 2 => reason == "tests_required disagrees with the plan"
    case 3 => reason == "Checks result is " + Describe(input.checksResult)
    case 4 => reason == (if none then "Plan requires no Tests; Tests result is " else "Required Tests result is ")
                        + Describe(input.testsResult)
    case 5 => reason == "Tests report artifact is missing"
    case _ => reason == "Tests report is incomplete or contains failures"
  }

  ghost predicate FirstUnmet(input: CiInput, i: nat) {
    i < 7 && !Met(input, i) && forall j: nat | j < i :: Met(input, j)
  }

  /** A red verdict names the first requirement that is not met. */
  lemma RedVerdictNamesCause(input: CiInput, i: nat)
    requires FirstUnmet(input, i)
    ensures !AggregateCiResult(input).ok && Says(AggregateCiResult(input).reason, input, i)
  {
    if input.plan.Some? && input.testsReport.Some? { CompleteExactly(input.testsReport.value, input.plan.value); }
    assert forall j: nat | j < i :: Met(input, j);
    if i > 0 { assert Met(input, 0); }
    if i > 1 { assert Met(input, 1); }
    if i > 2 { assert Met(input, 2); }
    if i > 3 { assert Met(input, 3); }
    if i > 4 { assert Met(input, 4); }
    if i > 5 { assert Met(input, 5); }
  }

  /** A green verdict says so. */
  lemma GreenVerdictSays(input: CiInput)
    requires AggregateCiResult(input).ok
    ensures AggregateCiResult(input).reason ==
              if input.plan.Some? && input.plan.value.mode == RunNone
              then "Plan requires no Tests; Tests result is " + Describe(JobSkipped) else "Required Tests succeeded"
  {
  }

  // ---------- from plan to verdict ----------

  /** The reports the shards of a plan leave when file `f` behaves as `outcome(f)` says. */
  function ShardReports(shards: seq<Plan>, setup: real, outcome: string -> Outcome, keepGoing: bool): seq<TestReport> {
    if shards == [] then []
    else
      var n := |shards| - 1;
      ShardReports(shards[..n], setup, outcome, keepGoing) +
      [RunReport(shards[n].files, OrFull(shards[n].acceptanceMatrix), setup, outcome, keepGoing)]
  }

  lemma {:induction false} ShardReportsAt(shards: seq<Plan>, setup: real, outcome: string -> Outcome, keepGoing: bool)
    ensures
      var reports := ShardReports(shards, setup, outcome, keepGoing);
      && |reports| == |shards|
      && forall i | 0 <= i < |shards| ::
           reports[i] == RunReport(shards[i].files, OrFull(shards[i].acceptanceMatrix), setup, outcome, keepGoing)
  {
    if shards != [] { ShardReportsAt(shards[..|shards|-1], setup, outcome, keepGoing); }
  }

  lemma {:induction false} ShardReportsScopes(shards: seq<Plan>, setup: real, outcome: string -> Outcome,
                                              keepGoing: bool)
    ensures ScopesOf(ShardReports(shards, setup, outcome, keepGoing)) == Flatten(FilesOf(shards))
  {
    if shards != [] {
      var n := |shards| - 1;
      ShardReportsScopes(shards[..n], setup, outcome, keepGoing);
      assert FilesOf(shards)[..n] == FilesOf(shards[..n]);
    }
  }

  /** Each shard's report is complete exactly when the shard's files all succeed. */
  lemma ShardReportComplete(plan: Plan, checkout: Checkout, shards: seq<Plan>, count: nat, i: nat, setup: real,
                            outcome: string -> Outcome, keepGoing: bool)
    requires ShardsCover(plan, checkout, shards, count) && i < |shards|
    ensures
      var report := RunReport(shards[i].files, OrFull(shards[i].acceptanceMatrix), setup, outcome, keepGoing);
      CompleteTestReport(report, report.scope, OrFull(plan.acceptanceMatrix)) <==>
        forall f | f in shards[i].files :: Succeeds(outcome(f))
  {
    assert shards[i] in shards;
    RunReportComplete(shards[i].files, OrFull(plan.acceptanceMatrix), setup, outcome, keepGoing);
  }

  /** A plan's shards, run independently, merge into a complete report exactly when every planned file succeeds. */
  lemma PipelineCompleteIffAllSucceed(plan: Plan, checkout: Checkout, shards: seq<Plan>, count: nat, setup: real,
                                      outcome: string -> Outcome, keepGoing: bool)
    requires plan.files != [] && count > 0 && ShardsCover(plan, checkout, shards, count)
    ensures ShardsAddUp(plan, ShardReports(shards, setup, outcome, keepGoing)) <==>
              forall f | f in plan.files :: Succeeds(outcome(f))
  {
    var reports := ShardReports(shards, setup, outcome, keepGoing);
    ShardReportsAt(shards, setup, outcome, keepGoing);
    ShardReportsScopes(shards, setup, outcome, keepGoing);
    forall i: nat | i < |shards|
      ensures CompleteTestReport(reports[i], reports[i].scope, OrFull(plan.acceptanceMatrix)) <==>
                forall f | f in shards[i].files :: Succeeds(outcome(f))
    {
      ShardReportComplete(plan, checkout, shards, count, i, setup, outcome, keepGoing);
    }
    if ShardsAddUp(plan, reports) {
      forall f | f in plan.files ensures Succeeds(outcome(f)) {
        var i := PlannedInShard(plan, checkout, shards, count, f);
        assert reports[i] in reports;
      }
    }
    if forall f | f in plan.files :: Succeeds(outcome(f)) {
      forall i: nat, f | i < |shards| && f in shards[i].files ensures Succeeds(outcome(f)) {
        ShardHoldsPlanned(plan, checkout, shards, count, i, f);
      }
      assert forall r | r in reports :: CompleteTestReport(r, r.scope, OrFull(plan.acceptanceMatrix));
    }
  }

  lemma PlannedInShard(plan: Plan, checkout: Checkout, shards: seq<Plan>, count: nat, f: string) returns (i: nat)
    requires ShardsCover(plan, checkout, shards, count) && f in plan.files
    ensures i < |shards| && f in shards[i].files
  {
    var groups := FilesOf(shards);
    assert f in multiset(Flatten(groups));
    var g := FlattenOrigin(groups, f);
    i :| 0 <= i < |groups| && groups[i] == g;
  }

  lemma ShardHoldsPlanned(plan: Plan, checkout: Checkout, shards: seq<Plan>, count: nat, i: nat, f: string)
    requires ShardsCover(plan, checkout, shards, count) && i < |shards| && f in shards[i].files
    ensures f in plan.files
  {
    var groups := FilesOf(shards);
    assert groups[i] in groups;
    FlattenContains(groups, groups[i], f);
    assert f in multiset(Flatten(groups));
  }

  /** The report that `AggregateTestReports` writes when every shard report loads. */
  function MergedReport(plan: Plan, reports: seq<TestReport>): TestReport {
    Combined(plan, reports, StatusOf(Complete(plan, reports, []), ResultsOf(reports)))
  }

  lemma MergedReportComplete(plan: Plan, reports: seq<TestReport>)
    ensures CompleteTestReport(MergedReport(plan, reports), plan.files, OrFull(plan.acceptanceMatrix)) <==>
              ShardsAddUp(plan, reports)
  {
    CompleteIffShardsAddUp(plan, reports);
  }

  /** The files hold these reports, all readable. */
  ghost predicate Hold(files: seq<Result<TestReport, string>>, reports: seq<TestReport>) {
    |files| == |reports| && forall i | 0 <= i < |files| :: files[i] == Ok(reports[i])
  }

  lemma HeldReportsLoad(files: seq<Result<TestReport, string>>, reports: seq<TestReport>)
    requires Hold(files, reports)
    ensures Loaded(files) == reports
  {
    LoadedReports(files);
    forall f | f in files ensures f.Ok? { var i :| 0 <= i < |files| && files[i] == f; }
    forall i | 0 <= i < |files| ensures Loaded(files)[i] == reports[i] { assert files[i] in files; }
  }

  /** The whole chain: with the jobs successful, the verdict over the merged shard reports is green exactly when every
      planned file succeeds. */
  lemma VerdictGreenIffAllSucceed(plan: Plan, checkout: Checkout, shards: seq<Plan>, count: nat, setup: real,
                                  outcome: string -> Outcome, keepGoing: bool,
                                  files: seq<Result<TestReport, string>>)
    requires plan.mode != RunNone && plan.files != [] && count > 0 && ShardsCover(plan, checkout, shards, count)
    requires Hold(files, ShardReports(shards, setup, outcome, keepGoing))
    ensures
      var report := MergedReport(plan, Loaded(files));
      AggregateCiResult(CiInput(JobSuccess, Some(true), JobSuccess, JobSuccess, Some(plan), Some(report))).ok <==>
        forall f | f in plan.files :: Succeeds(outcome(f))
  {
    HeldReportsLoad(files, ShardReports(shards, setup, outcome, keepGoing));
    MergedReportComplete(plan, Loaded(files));
    PipelineCompleteIffAllSucceed(plan, checkout, shards, count, setup, outcome, keepGoing);
  }

  ghost predicate HasPassingResult(input: CiInput, file: string) {
    && input.testsReport.Some?
    && var results := input.testsReport.value.results;
    exists i :: 0 <= i < |results| && results[i].file == file && Passed(results[i])
  }

  /** From change to verdict: under a green verdict on a plan made for the change, a test that depends on the change has
      a passing result unless its path names no capability and no fallback applied; then it has none. */
  lemma GreenVerdictCoversChange(input: CiInput, repo: Repository, changed: seq<string>, failed: bool, t: string)
    requires AggregateCiResult(input).ok
    requires input.plan.Some? ==> PlansChange(input.plan.value, repo, changed, failed)
    requires Affected(repo, changed, t)
    ensures HasPassingResult(input, t) <==> failed || !Dropped(repo, changed, t)
  {
    GreenVerdictIsSound(input);
    PlanKeepsAffected(input.plan.value, repo, changed, failed, t);
  }
}
