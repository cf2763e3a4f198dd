/** Running shards and deciding whether the whole plan passed: scripts/run-isolated-tests.ts,
    scripts/aggregate-test-reports.ts and scripts/verify-ci-result.ts. */
module Verdict {
  import opened Ordering
  import opened PlanContract

  datatype TestResult = TestResult(file: string, exitCode: int, durationMs: Option<real>, executed: nat, skipped: nat)

  datatype TestReport = TestReport(
    status: Option<string>,
    acceptanceMatrix: Option<Matrix>,
    setupDurationMs: Option<real>,
    scope: seq<string>,
    notRun: Option<seq<string>>,
    cancelled: Option<seq<string>>,
    inProgress: Option<seq<string>>,
    results: seq<TestResult>)

  function OrFull(matrix: Option<Matrix>): Matrix {
    if matrix.Some? then matrix.value else Full
  }

  function OrEmpty(files: Option<seq<string>>): seq<string> {
    if files.Some? then files.value else []
  }

  function ResultFiles(results: seq<TestResult>): (files: seq<string>)
    ensures |files| == |results| && forall i | 0 <= i < |results| :: files[i] == results[i].file
  {
    seq(|results|, i requires 0 <= i < |results| => results[i].file)
  }

  predicate Passed(result: TestResult) {
    result.exitCode == 0 && result.executed > 0
  }

  function SameFiles(left: seq<string>, right: seq<string>): bool {
    |left| == |right| && |set f | f in left| == |left| && Sorted(left) == Sorted(right)
  }

  predicate CompleteTestReport(report: TestReport, files: seq<string>, matrix: Matrix) {
    && (report.status.None? || report.status.value == "passed")
    && OrFull(report.acceptanceMatrix) == matrix
    && OrEmpty(report.notRun) == []
    && OrEmpty(report.cancelled) == []
    && OrEmpty(report.inProgress) == []
    && SameFiles(ResultFiles(report.results), files)
    && SameFiles(report.scope, files)
    && forall result | result in report.results :: Passed(result)
  }

  // ---------- what completeness means ----------

  lemma {:induction false} SetSizeIffDistinct(s: seq<string>)
    ensures |set f | f in s| <= |s|
    ensures |set f | f in s| == |s| <==> Distinct(s)
  {
    if s != [] {
      var n := |s| - 1;
      SetSizeIffDistinct(s[..n]);
      var init := set f | f in s[..n];
      assert (set f | f in s) == init + {s[n]} by {
        assert s == s[..n] + [s[n]];
      }
      if s[n] in s[..n] {
        assert init + {s[n]} == init;
      } else {
        assert |init + {s[n]}| == |init| + 1;
      }
    }
  }

  /** Comparing sorted copies and set sizes decides: distinct, and a permutation. */
  lemma SameFilesMeaning(left: seq<string>, right: seq<string>)
    ensures SameFiles(left, right) <==> Distinct(left) && multiset(left) == multiset(right)
  {
    SetSizeIffDistinct(left);
    SortedEqualIffPermutation(left, right);
    if multiset(left) == multiset(right) { SameMultisetSameLength(left, right); }
  }

  /** Every file has exactly one result, the result passed, and there is no other result. */
  ghost predicate EachRanOnceAndPassed(results: seq<TestResult>, files: seq<string>) {
    && Distinct(ResultFiles(results))
    && multiset(ResultFiles(results)) == multiset(files)
    && forall i | 0 <= i < |results| :: Passed(results[i])
  }

  lemma CompleteMeaning(report: TestReport, files: seq<string>, matrix: Matrix)
    ensures CompleteTestReport(report, files, matrix) <==>
              && (report.status.None? || report.status.value == "passed")
              && OrFull(report.acceptanceMatrix) == matrix
              && OrEmpty(report.notRun) == [] && OrEmpty(report.cancelled) == [] && OrEmpty(report.inProgress) == []
              && EachRanOnceAndPassed(report.results, files)
              && multiset(report.scope) == multiset(files) && Distinct(report.scope)
  {
    SameFilesMeaning(ResultFiles(report.results), files);
    SameFilesMeaning(report.scope, files);
  }

  // ---------- one shard's run ----------

  /** What running one test file leaves behind: its exit code and the counts in its native report. */
  datatype Outcome = Outcome(spawnExit: int, nativeOutput: bool, testcases: nat, skipped: nat, durationMs: real)

  function ExecutedCount(o: Outcome): nat {
    if o.nativeOutput && o.testcases > o.skipped then o.testcases - o.skipped else 0
  }

  /** A file that ran without naming tests must have executed some. */
  function ResultOf(file: string, o: Outcome): TestResult {
    var executed := ExecutedCount(o);
    TestResult(file, if o.spawnExit != 0 then o.spawnExit else if !o.nativeOutput || executed == 0 then 1 else 0,
               Some(o.durationMs), executed, if o.nativeOutput then o.skipped else 0)
  }

  predicate Succeeds(o: Outcome) {
    o.spawnExit == 0 && o.nativeOutput && o.testcases > o.skipped
  }

  /** The results in order, up to and including the first failure unless the run keeps going. */
  function RunResults(files: seq<string>, outcome: string -> Outcome, keepGoing: bool): (results: seq<TestResult>)
    ensures |results| <= |files|
  {
    if files == [] then []
    else
      var first := ResultOf(files[0], outcome(files[0]));
      if first.exitCode != 0 && !keepGoing then [first]
      else [first] + RunResults(files[1..], outcome, keepGoing)
  }

  function FinalStatus(results: seq<TestResult>, files: seq<string>): string {
    if exists result | result in results :: result.exitCode != 0 then "failed"
    else if |results| < |files| then "incomplete"
    else "passed"
  }

  function RunReport(files: seq<string>, matrix: Matrix, setup: real, outcome: string -> Outcome, keepGoing: bool)
    : TestReport
  {
    var results := RunResults(files, outcome, keepGoing);
    TestReport(Some(FinalStatus(results, files)), Some(matrix), Some(setup), files,
               Some(files[|results|..]), Some([]), Some([]), results)
  }

  /** Each file of the scope has a result, is running, or has not run, in scope order. */
  ghost predicate AccountsForScope(snapshot: TestReport, files: seq<string>) {
    && snapshot.scope == files
    && ResultFiles(snapshot.results) + OrEmpty(snapshot.inProgress) + OrEmpty(snapshot.notRun) == files
  }

  function Snapshot(files: seq<string>, matrix: Matrix, status: string, results: seq<TestResult>, running: seq<string>)
    : TestReport
    requires |results| + |running| <= |files|
  {
    TestReport(Some(status), Some(matrix), None, files, Some(files[|results| + |running|..]), Some([]), Some(running),
               results)
  }

  /** The snapshots written while the results came in: one before each file and one after it. */
  function SnapshotsOf(files: seq<string>, matrix: Matrix, results: seq<TestResult>): seq<TestReport>
    requires |results| <= |files|
  {
    if results == [] then []
    else
      var n := |results| - 1;
      SnapshotsOf(files, matrix, results[..n]) +
      [Snapshot(files, matrix, "running", results[..n], [files[n]]),
       Snapshot(files, matrix, StatusAfter(results[n]), results, [])]
  }

  function StatusAfter(result: TestResult): string {
    if result.exitCode == 0 then "running" else "failed"
  }

  lemma SnapshotsStep(files: seq<string>, matrix: Matrix, results: seq<TestResult>, result: TestResult)
    requires |results| < |files|
    ensures SnapshotsOf(files, matrix, results + [result]) ==
              SnapshotsOf(files, matrix, results) +
              [Snapshot(files, matrix, "running", results, [files[|results|]]),
               Snapshot(files, matrix, StatusAfter(result), results + [result], [])]
  {
    assert (results + [result])[..|results|] == results;
  }

  lemma ResultFilesAppend(a: seq<TestResult>, b: seq<TestResult>)
    ensures ResultFiles(a + b) == ResultFiles(a) + ResultFiles(b)
  {
  }

  lemma SnapshotAccounts(files: seq<string>, matrix: Matrix, status: string, results: seq<TestResult>,
                         running: seq<string>)
    requires |results| + |running| <= |files|
    requires ResultFiles(results) + running == files[..|results| + |running|]
    ensures AccountsForScope(Snapshot(files, matrix, status, results, running), files)
  {
    assert files[..|results| + |running|] + files[|results| + |running|..] == files;
  }

  /** No persisted snapshot loses or repeats a file. */
  lemma {:induction false} SnapshotsAccount(files: seq<string>, matrix: Matrix, results: seq<TestResult>)
    requires |results| <= |files| && ResultFiles(results) == files[..|results|]
    ensures forall s | s in SnapshotsOf(files, matrix, results) :: AccountsForScope(s, files)
  {
    if results != [] {
      var n := |results| - 1;
      assert results == results[..n] + [results[n]];
      assert ResultFiles(results[..n]) == ResultFiles(results)[..n] == files[..n];
      assert files[..n] + [files[n]] == files[..n + 1];
      SnapshotsAccount(files, matrix, results[..n]);
      SnapshotAccounts(files, matrix, "running", results[..n], [files[n]]);
      SnapshotAccounts(files, matrix, StatusAfter(results[n]), results, []);
    }
  }

  /** Only the snapshot after a failed file says failed; all others say running. */
  ghost predicate TellsLast(snapshot: TestReport) {
    snapshot.status ==
      if snapshot.inProgress == Some([]) && snapshot.results != []
         && snapshot.results[|snapshot.results| - 1].exitCode != 0
      then Some("failed") else Some("running")
  }

  lemma {:induction false} SnapshotsTellLast(files: seq<string>, matrix: Matrix, results: seq<TestResult>)
    requires |results| <= |files|
    ensures forall s | s in SnapshotsOf(files, matrix, results) :: TellsLast(s)
  {
    if results != [] { SnapshotsTellLast(files, matrix, results[..|results|-1]); }
  }

  predicate Stops(result: TestResult, keepGoing: bool) {
    result.exitCode != 0 && !keepGoing
  }

  lemma RunUnfold(done: seq<TestResult>, files: seq<string>, i: nat, outcome: string -> Outcome, keepGoing: bool)
    requires i < |files|
    ensures
      var result := ResultOf(files[i], outcome(files[i]));
      done + RunResults(files[i..], outcome, keepGoing) ==
      if Stops(result, keepGoing) then done + [result]
      else (done + [result]) + RunResults(files[i+1..], outcome, keepGoing)
  {
    assert files[i..][1..] == files[i+1..];
  }

  /** Runs one file between two snapshots. */
  method RunOne(files: seq<string>, matrix: Matrix, done: seq<TestResult>, o: Outcome)
    returns (result: TestResult, snapshots: seq<TestReport>)
    requires |done| < |files|
    ensures result == ResultOf(files[|done|], o)
    ensures SnapshotsOf(files, matrix, done) + snapshots == SnapshotsOf(files, matrix, done + [result])
  {
    var before := Snapshot(files, matrix, "running", done, [files[|done|]]);
    result := ResultOf(files[|done|], o);
    snapshots := [before, Snapshot(files, matrix, StatusAfter(result), done + [result], [])];
    SnapshotsStep(files, matrix, done, result);
  }

  /** Runs the files one by one, persisting a snapshot before and after each. */
  method RunTestFiles(files: seq<string>, matrix: Matrix, outcome: string -> Outcome, keepGoing: bool)
    returns (results: seq<TestResult>, snapshots: seq<TestReport>)
    ensures results == RunResults(files, outcome, keepGoing)
    ensures snapshots == SnapshotsOf(files, matrix, results)
  {
    results, snapshots := [], [];
    ghost var all := RunResults(files, outcome, keepGoing);
    assert files[0..] == files;
    for i := 0 to |files|
      invariant |results| == i
      invariant results + RunResults(files[i..], outcome, keepGoing) == all
      invariant snapshots == SnapshotsOf(files, matrix, results)
    {
      RunUnfold(results, files, i, outcome, keepGoing);
      var result, written := RunOne(files, matrix, results, outcome(files[i]));
      snapshots := snapshots + written;
      results := results + [result];
      if Stops(result, keepGoing) {
        return;
      }
    }
  }

  /** Whenever the run is interrupted, its last snapshot accounts for every file of the shard. */
  lemma EverySnapshotAccounts(files: seq<string>, matrix: Matrix, outcome: string -> Outcome, keepGoing: bool)
    ensures forall s | s in SnapshotsOf(files, matrix, RunResults(files, outcome, keepGoing)) ::
              AccountsForScope(s, files)
  {
    RunResultsInOrder(files, outcome, keepGoing);
    SnapshotsAccount(files, matrix, RunResults(files, outcome, keepGoing));
  }

  lemma {:induction false} RunResultsInOrder(files: seq<string>, outcome: string -> Outcome, keepGoing: bool)
    ensures
      var results := RunResults(files, outcome, keepGoing);
      && ResultFiles(results) == files[..|results|]
      && (forall i | 0 <= i < |results| :: results[i] == ResultOf(files[i], outcome(files[i])))
      && (|results| < |files| ==> exists i :: 0 <= i < |results| && results[i].exitCode != 0)
  {
    if files != [] {
      var first := ResultOf(files[0], outcome(files[0]));
      RunResultsInOrder(files[1..], outcome, keepGoing);
      var rest := RunResults(files[1..], outcome, keepGoing);
      ResultFilesAppend([first], rest);
      if first.exitCode == 0 || keepGoing {
        if |rest| < |files[1..]| {
          var i :| 0 <= i < |rest| && rest[i].exitCode != 0;
          assert ([first] + rest)[i + 1] == rest[i];
        }
      }
    }
  }

  /** A run keeps going past failures if it is told to; otherwise it stops at the first. */
  lemma {:induction false} StopsAtFirstFailure(files: seq<string>, outcome: string -> Outcome, keepGoing: bool)
    ensures
      var results := RunResults(files, outcome, keepGoing);
      && (keepGoing ==> |results| == |files|)
      && (!keepGoing ==> forall i | 0 <= i < |results| - 1 :: Succeeds(outcome(files[i])))
      && (|results| < |files| ==> results != [] && !Succeeds(outcome(files[|results| - 1])))
  {
    if files != [] {
      SuccessIsPassing(files[0], outcome(files[0]));
      StopsAtFirstFailure(files[1..], outcome, keepGoing);
    }
  }

  /** What is recorded of one file: its exit code, or 1 where the process succeeded without running any test, and the
      numbers of tests its native report shows. */
  lemma ResultIsRecorded(file: string, o: Outcome)
    ensures
      var r := ResultOf(file, o);
      && r.file == file && r.durationMs == Some(o.durationMs)
      && (o.spawnExit != 0 ==> r.exitCode == o.spawnExit)
      && (o.spawnExit == 0 ==> r.exitCode == if Succeeds(o) then 0 else 1)
      && (o.nativeOutput ==> r.skipped == o.skipped)
      && (o.nativeOutput && o.testcases >= o.skipped ==> r.executed + r.skipped == o.testcases)
      && (!o.nativeOutput || o.testcases <= o.skipped ==> r.executed == 0)
      && (!o.nativeOutput ==> r.skipped == 0)
  {
  }

  lemma SuccessIsPassing(file: string, o: Outcome)
    ensures Succeeds(o) <==> ResultOf(file, o).exitCode == 0
    ensures Succeeds(o) <==> Passed(ResultOf(file, o))
  {
  }

  /** The final status: failed if a file failed, incomplete if one has no result, passed otherwise. */
  lemma FinalStatusMeaning(results: seq<TestResult>, files: seq<string>)
    ensures
      var status := FinalStatus(results, files);
      && (status == "failed" <==> exists r | r in results :: r.exitCode != 0)
      && (status == "passed" <==> |results| >= |files| && forall r | r in results :: r.exitCode == 0)
      && status in ["passed", "failed", "incomplete"]
  {
    assert "passed"[0] != "failed"[0] && "passed"[0] != "incomplete"[0] && "failed"[0] != "incomplete"[0];
  }

  /** A run is never reported as incomplete: where a file has no result, one before it failed. */
  lemma RunPassesOrFails(files: seq<string>, matrix: Matrix, setup: real, outcome: string -> Outcome, keepGoing: bool)
    ensures
      var status := RunReport(files, matrix, setup, outcome, keepGoing).status;
      status == if forall f | f in files :: Succeeds(outcome(f)) then Some("passed") else Some("failed")
  {
    var results := RunResults(files, outcome, keepGoing);
    FinalStatusMeaning(results, files);
    RunResultsInOrder(files, outcome, keepGoing);
    if forall f | f in files :: Succeeds(outcome(f)) {
      AllSucceedComplete(files, outcome, keepGoing);
    } else {
      var f :| f in files && !Succeeds(outcome(f));
      SuccessIsPassing(f, outcome(f));
      var i :| 0 <= i < |files| && files[i] == f;
      if i < |results| { assert results[i] in results && results[i].exitCode != 0; }
    }
  }

  lemma AllSucceedComplete(files: seq<string>, outcome: string -> Outcome, keepGoing: bool)
    requires forall f | f in files :: Succeeds(outcome(f))
    ensures
      var results := RunResults(files, outcome, keepGoing);
      && ResultFiles(results) == files && FinalStatus(results, files) == "passed"
      && forall i | 0 <= i < |results| :: Passed(results[i])
  {
    var results := RunResults(files, outcome, keepGoing);
    RunResultsInOrder(files, outcome, keepGoing);
    forall i | 0 <= i < |results| ensures results[i].exitCode == 0 && Passed(results[i]) {
      assert files[i] in files;
      SuccessIsPassing(files[i], outcome(files[i]));
    }
    assert files[..|files|] == files;
  }

  lemma AllPassedSucceed(files: seq<string>, outcome: string -> Outcome, keepGoing: bool)
    requires
      var results := RunResults(files, outcome, keepGoing);
      |results| == |files| && forall i | 0 <= i < |results| :: Passed(results[i])
    ensures forall f | f in files :: Succeeds(outcome(f))
  {
    RunResultsInOrder(files, outcome, keepGoing);
    var results := RunResults(files, outcome, keepGoing);
    forall f | f in files ensures Succeeds(outcome(f)) {
      var i :| 0 <= i < |files| && files[i] == f;
      assert Passed(results[i]);
      SuccessIsPassing(f, outcome(f));
    }
  }

  /** A shard's report is complete exactly when every one of its files succeeds. */
  lemma RunReportComplete(files: seq<string>, matrix: Matrix, setup: real, outcome: string -> Outcome, keepGoing: bool)
    requires Distinct(files)
    ensures CompleteTestReport(RunReport(files, matrix, setup, outcome, keepGoing), files, matrix) <==>
              forall f | f in files :: Succeeds(outcome(f))
  {
    var report := RunReport(files, matrix, setup, outcome, keepGoing);
    CompleteMeaning(report, files, matrix);
    if forall f | f in files :: Succeeds(outcome(f)) {
      AllSucceedComplete(files, outcome, keepGoing);
    }
    if CompleteTestReport(report, files, matrix) {
      SameMultisetSameLength(ResultFiles(report.results), files);
      AllPassedSucceed(files, outcome, keepGoing);
    }
  }
}
