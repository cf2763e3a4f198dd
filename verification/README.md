# Verified models of the verification scripts

The repository's `scripts/` directory decides which tests a change needs, splits them into shards, runs them, merges the
reports and turns the result green or red. Beside that pipeline it holds several measuring and driving tools: a
scheduler-trace accountant, a spinner observer, two RPC clients, a benchmark verdict, a terminal-control stripper and a
publisher of work items. This project models the logic of those scripts in Dafny and proves what they are for.

Code that works step by step in the source is a class, an array or a loop here, proved against a specification; code made
of expressions is a function. Costs, timestamps and ratios are reals. Git, the file system, processes, timers and the
GitHub API are parameters or a small abstract store whose every answer is quantified over.

Check everything with `dafny verify dfyconfig.toml`.

## The parts

| file | what it covers |
|---|---|
| `Ordering.dfy`, `Multiples.dfy` | sorting, permutations, sums, remainders |
| `ListScheduling.dfy`, `Graham.dfy`, `Shards.dfy` | longest-first sharding, its approximation bound and the choice of the shard count |
| `PlanContract.dfy`, `Dependencies.dfy`, `Selection.dfy`, `CapabilityPaths.dfy`, `Planning.dfy` | the import graph, the affected tests, plans and shard plans |
| `Verdict.dfy`, `Aggregation.dfy` | one shard's run, merged reports, the verdict |
| `SchedulerTrace.dfy`, `ProcessGenerations.dfy` | one-pass wakeup accounting against process generations |
| `PtyObservation.dfy` | spinner stalls from samples |
| `Framing.dfy`, `RpcSession.dfy`, `RpcSafety.dfy`, `PiRpcClient.dfy`, `MagicRpc.dfy` | line framing and the waiters of both RPC clients |
| `SignTest.dfy`, `PairedVerdict.dfy`, `Bootstrap.dfy` | exact sign test, benchmark verdict, bootstrap classification |
| `TerminalControls.dfy`, `Concurrency.dfy` | control sequences, growing logs and peak concurrency |
| `PublicationScope.dfy`, `Publication.dfy` | publishing beads to GitHub Issues with readback |

## What the proofs found

- The fallback "unknown impact" of test selection cannot happen: a change that reaches it always has a capability
  (`Selection.SomeCapabilityFound`).
- Selection by capability leaves out an affected test whose path names no capability. `tests/unit/shared/xdg-paths.test.ts`
  imports `packages/pi-stuff/src/code-mode/host/binary.js`, and "shared" is no capability, so a change to that file alone
  does not select it once every import can be followed (`Selection.SharedTestIsLeftOut`). An affected test is left out
  exactly when its path names no capability and no fallback to the whole inventory applies
  (`Selection.AffectedKeptIffNotDropped`); a green verdict then says nothing of it (`Aggregation.GreenVerdictCoversChange`).
- A run of a shard is never reported as "incomplete": a file without a result has a failed one before it
  (`Verdict.RunPassesOrFails`).
- A prompt sent after a terminal failure or a close registers its settlement waiter before its command is refused, so that
  waiter stays until the next failure, a malformed line, the settlement event or its own timer. While nobody else waits, no
  other action of the client leaves one (`RpcSafety.OnlyPromptsLeaveWaiters`, `RpcSafety.LeftoverWaiterEnds`).
- A waiter registered with the second client after it stopped reading is likewise left to its timer
  (`MagicRpc.OnlyWaitsLeaveWaiters`).
- A command whose payload brings an id of its own is written under that id, and the answer to it can settle another
  command (`RpcSafety.ForeignIdMisleads`). The numbers identify the messages exactly when no payload does that
  (`RpcSafety.RunNumbersIdentify`).
- The spinner summary treats an empty text and a missing one as absence but as different values, so a mixture of both can
  under-report an absence (`PtyObservation.MixedAbsenceUnderReports`). It can do so exactly when some stretch of blank
  captures is longer than every run of equal ones and no two captures of a single instant contradict each other
  (`PtyObservation.AbsenceIsReportedIffCovered`). With absence recorded in
  one way, as the caller in `scripts/benchmark-responsiveness.ts` does, it never does.
- The peak of a log joined late is exact exactly when, at or before some point with the most children, none was alive
  (`Concurrency.LateLogIsExact`).
- A publication of beads that share an Issue can succeed and still leave one of them with another's state and title; it
  leaves all of them as wanted exactly when beads that share an Issue agree (`Publication.PublishPlans`,
  `Publication.SharedIssueCannotConverge`).
- A benchmark of nine pairs with all cases correct shows a strong effect exactly when at least six pairs are decided and
  at most one of eight or nine, none of six or seven, is lost (`PairedVerdict.StrongEffectTable`).

## Model

| member | source | states |
|---|---|---|
| `ListScheduling.AssignConserves` | scripts/verification-shards.ts:31-35 | placing files one by one into the least loaded group loses and copies none |
| `ListScheduling.MoreGroupsNeverHeavier` | scripts/verification-shards.ts:31-35 | for any list, in any order, more groups never make the heaviest group heavier |
| `ListScheduling.NoGroupEmpty` | scripts/verification-shards.ts:31-36 | with at least as many files as groups, greedy placement leaves no group empty |
| `ListScheduling.FileCountSuffices` | scripts/verification-shards.ts:52 | a group for each file is at least as good as any number of groups |
| `Graham.LongestFirstBound` | scripts/verification-shards.ts:31-35 | longest-first greedy is at most 4/3 - 1/(3m) times the heaviest group of any other distribution over m groups |
| `Shards.LeastLoaded` | scripts/verification-shards.ts:32 | the scan over the buckets finds the first bucket of least duration |
| `Shards.AddToLeast` | scripts/verification-shards.ts:32-34 | one step appends the file to that bucket alone and keeps every duration equal to the cost of its files |
| `Shards.FillBuckets` | scripts/verification-shards.ts:31-35 | the loop over the files ends with the buckets of the greedy assignment |
| `Shards.PartitionFiles` | scripts/verification-shards.ts:19-37 | rejects exactly the counts outside 1 to 16; otherwise the in-place buckets end as the specified partition |
| `Shards.LongestThenByName` | scripts/verification-shards.ts:31 | files are placed the longest first, by name where they take equally long, and an unrecorded file counts a thousand |
| `Shards.PartitionConserves` | scripts/verification-shards.ts:31-36 | the shards are non-empty and sorted and together are a permutation of the files |
| `Shards.PartitionCount` | scripts/verification-shards.ts:25-36 | asking for no more shards than files yields exactly that many |
| `Shards.PartitionBound` | scripts/verification-shards.ts:31-36 | the heaviest published shard keeps the 4/3 - 1/(3m) bound against every other split |
| `Shards.MoreShardsNeverSlower` | scripts/verification-shards.ts:39-46 | the estimate does not increase with the shard count |
| `Shards.ShardPerFileIsBest` | scripts/verification-shards.ts:52 | no shard count beats one shard a file, so the candidate limit loses nothing |
| `Shards.EstimatedDuration` | scripts/verification-shards.ts:39-46 | the estimate of a count, or the partition's rejection of it |
| `Shards.ScanCounts` | scripts/verification-shards.ts:52-58 | the scan over candidates keeps the first count that no earlier or later candidate beats |
| `Shards.EstimateShardCount` | scripts/verification-shards.ts:48-60 | the fewest shards that attain the best estimate of all counts from 1 to 16 |
| `Shards.FewestShardsIsUnique` | scripts/verification-shards.ts:48-60 | that property determines the count |
| `PlanContract.ValidatePaths` | scripts/verification-plan-contract.ts:50-57 | passes exactly safe and distinct paths; names an offending path otherwise |
| `PlanContract.ValidateKnown` | scripts/verification-plan-contract.ts:60-63 | passes exactly known offline tests; names another otherwise |
| `PlanContract.OfflineMembers` | scripts/verification-plan-contract.ts:45-49 | the offline inventory holds exactly the discovered files that are not live tests |
| `PlanContract.OfflineInventory` | scripts/verification-plan-contract.ts:45-48 | in order, with every discovered file as often as it was found unless its name ends as a live test's |
| `PlanContract.ValidShaMeaning` | scripts/verification-plan-contract.ts:33-35 | forty hexadecimal digits, not all zero |
| `PlanContract.ValidatePlan` | scripts/verification-plan-contract.ts:41-85 | accepts exactly the plans that meet the contract, unchanged; every rejection names a rule that is violated |
| `PlanContract.ViolationRejects` | scripts/verification-plan-contract.ts:41-85 | a plan that violates a rule does not meet the contract |
| `Dependencies.DependencyScan.AddDependency` | scripts/verification-dependencies.ts:27-32 | adds one reverse edge and queues the target exactly when it is a listed file |
| `Dependencies.DependencyScan.AddDependencies` | scripts/verification-dependencies.ts:47 | adds the file as a dependent of each target and of nothing else |
| `Dependencies.DependencyScan.ScanDeclared` | scripts/verification-dependencies.ts:42-48 | adds the edges of the declared dependencies; uncertain exactly if one matches nothing |
| `Dependencies.DeclaredNames` | scripts/verification-dependencies.ts:43-45 | a declared directory stands for all paths below it, any other name for itself |
| `Dependencies.ScriptsByExtension` | scripts/verification-dependencies.ts:58 | scripts are the paths with a js or ts extension, perhaps with c or m before it and x after it |
| `Dependencies.DependencyScan.ScanSpecifiers` | scripts/verification-dependencies.ts:50-62 | adds the edges of the resolved imports; uncertain exactly if one is missing or an unlisted script |
| `Dependencies.DependencyScan.ScanFile` | scripts/verification-dependencies.ts:33-63 | one visit adds exactly the file's edges and queues exactly its listed targets |
| `Dependencies.DependencyScan.Scan` | scripts/verification-dependencies.ts:33-64 | on any finite graph the growing worklist ends with exactly the files reachable from the seeds and exactly their transposed edges |
| `Dependencies.VerificationDependencies` | scripts/verification-dependencies.ts:17-65 | the returned map is the transpose of all reachable edges; the flag says whether some reachable import cannot be followed |
| `Selection.TestCapabilityIsCapability` | scripts/verification-plan.ts:136-138 | a test's own capability is what the general rule finds for its path |
| `CapabilityPaths.SourceCapabilityByPath` | scripts/verification-plan.ts:90-93 | exactly the files below the capability's source directory are of that capability |
| `CapabilityPaths.TestCapabilityByPath` | scripts/test-inventory.ts:36-43 | exactly the paths at or below a capability's directory of some test level are of that capability |
| `Selection.VisitDependents` | scripts/verification-plan.ts:117-125 | queues each unseen dependent once and records the capabilities of those |
| `Selection.DependencyCapabilities` | scripts/verification-plan.ts:107-128 | the recorded capabilities are exactly those of changed production files and of files outside the change that import it in any number of steps; the flag says exactly whether some reachable import cannot be followed |
| `Selection.SelectAffectedTests` | scripts/verification-plan.ts:130-164 | each fallback is taken exactly when its cause is present; a test that imports a changed code file in any number of steps is left out exactly when its path names no capability and no fallback applies |
| `Selection.DependsIsImpacted` | scripts/verification-plan.ts:115-126 | with every import followed, a chain of imports to a change is found by the walk back from it |
| `Selection.RecognisedHasImpactedCapability` | scripts/verification-plan.ts:151-156 | an affected test whose path names a capability has an impacted one |
| `Selection.SelectedByCapability` | scripts/verification-plan.ts:151-159 | without a fallback exactly the tests with an impacted capability are selected, and those of the repository when production changed |
| `Selection.ChosenInOrder` | scripts/verification-plan.ts:151-156 | the chosen tests keep the order and the multiplicity of the inventory |
| `Selection.AffectedKeptIffNotDropped` | scripts/verification-plan.ts:130-164 | an affected test is left out exactly when its path names no capability and no fallback applies |
| `Selection.RecognisedTestsKeepAll` | scripts/verification-plan.ts:151-156 | where every test's path names a capability no affected test is ever left out |
| `Selection.SharedTestIsLeftOut` | scripts/verification-plan.ts:151-156 | a test in a directory named after no capability is left out although it imports the changed file |
| `Selection.SomeCapabilityFound` | scripts/verification-plan.ts:150 | the fallback for an empty capability set is unreachable |
| `Planning.MakePlan` | scripts/verification-plan.ts:165-185 | the plan holds the files, the reason and the matrix of the whole inventory for a given reason, or of what the change selects, with the mode they amount to; it leaves an affected test out exactly when selection does and meets the contract for resolved revisions and safe distinct paths |
| `Planning.PlanKeepsAffected` | scripts/verification-plan.ts:165-185 | a plan for a change that affects a test is never a plan without tests, and leaves that test out exactly when selection does |
| `Planning.RecordedSelection` | scripts/verification-plan.ts:174-184 | documentation alone plans no test; the matrix is reduced exactly for a proper selection by capability without a change to an acceptance dimension |
| `Planning.BuildVerificationPlan` | scripts/verification-plan.ts:186-275 | a full run is reused exactly on a schedule whose very revision passed in a recorded run; every other schedule plans everything; a pull request is compared with its merge base, a push with its base, local work with committed and changed paths alike; an affected test is left out exactly when selection succeeds, its path names no capability and no fallback applies; always accepted by the contract when git's answers are well formed |
| `Planning.ReuseNeedsEvidence` | scripts/verification-plan.ts:193-214 | a run is reused exactly with a run number recorded for the current revision |
| `Planning.RangeServesEvent` | scripts/verification-plan.ts:192-275 | a plan from the computed range is the plan the event or the local checkout asks for |
| `Planning.RefResolves` | scripts/verification-plan.ts:27-34 | an absent, empty or all-zero revision names no commit; any other names what git resolves it to |
| `Planning.UniqueSortedIsDistinct` | scripts/verification-plan.ts:265 | merging committed and local paths keeps every path once |
| `Planning.RangeIsJustified` | scripts/verification-plan.ts:186-275 | every branch hands on resolved revisions and safe distinct paths |
| `Planning.ShardPlanAcceptable` | scripts/verification-shards.ts:74 | each shard of an acceptable plan is an acceptable plan, also when a single shard holds everything |
| `Planning.WriteVerificationShards` | scripts/verification-shards.ts:62-84 | the shard plans hold the longest-first partition for the fewest best count and the recorded timings; they are acceptable, non-empty, disjoint and cover the plan |
| `Verdict.SetSizeIffDistinct` | scripts/verify-ci-result.ts:86 | comparing the set size with the length decides distinctness |
| `Verdict.SameFilesMeaning` | scripts/verify-ci-result.ts:82-89 | the comparison of sorted copies holds exactly for a distinct permutation |
| `Verdict.CompleteMeaning` | scripts/verify-ci-result.ts:36-50 | a report is complete exactly when each file has one result, all passed, and nothing is pending |
| `Verdict.RunOne` | scripts/run-isolated-tests.ts:33-93 | one file runs between its two snapshots |
| `Verdict.RunTestFiles` | scripts/run-isolated-tests.ts:12-96 | results in order up to the first failure unless kept going, with the snapshots in between |
| `Verdict.StopsAtFirstFailure` | scripts/run-isolated-tests.ts:91 | told to keep going a run has a result for every file; otherwise it ends with the first failure |
| `Verdict.ResultIsRecorded` | scripts/run-isolated-tests.ts:78-88 | the recorded exit code and the numbers of tests that ran and were skipped |
| `Verdict.EverySnapshotAccounts` | scripts/run-isolated-tests.ts:28-34 | every persisted snapshot accounts for each file of the scope exactly once |
| `Verdict.SnapshotsTellLast` | scripts/run-isolated-tests.ts:28-34 | a snapshot says failed exactly right after a failed file, otherwise running |
| `Verdict.RunPassesOrFails` | scripts/run-isolated-tests.ts:253-257 | the final status is passed exactly when all files succeed and failed otherwise, never incomplete |
| `Verdict.SuccessIsPassing` | scripts/run-isolated-tests.ts:81-91 | an exit code of zero means that a native report exists and some test was executed |
| `Verdict.RunReportComplete` | scripts/run-isolated-tests.ts:253-280 | a shard's report is complete exactly when all its files succeed |
| `Aggregation.LoadReports` | scripts/aggregate-test-reports.ts:11-17 | reports are kept in order; no error is recorded exactly when all load |
| `Aggregation.LoadedReports` | scripts/aggregate-test-reports.ts:11-17 | exactly the readable reports are loaded, each in its place when all are readable |
| `Aggregation.MergedReportAccounts` | scripts/aggregate-test-reports.ts:18-42 | the written report has exactly the shards' results, cancelled and running files; planned files of which no shard says anything have not run |
| `Aggregation.StatusMeaning` | scripts/aggregate-test-reports.ts:46 | its status says whether it is complete, or else whether a file failed |
| `Aggregation.AggregateTestReports` | scripts/aggregate-test-reports.ts:7-53 | complete exactly when all reports load and the shards add up, and then and only then the written report passes as complete |
| `Aggregation.CompleteIffShardsAddUp` | scripts/aggregate-test-reports.ts:41-45 | the merged report is complete exactly when the complete shards' scopes split the plan without overlap |
| `Aggregation.GreenExactly` | scripts/verify-ci-result.ts:61-80 | over every input: green exactly when plan and checks succeeded and either a plan without tests had its Tests job skipped, or the job succeeded and each planned file has one result, a passing one, with nothing else in the report |
| `Aggregation.RedVerdictNamesCause` | scripts/verify-ci-result.ts:61-80 | a red verdict names the first requirement that is not met |
| `Aggregation.GreenVerdictSays` | scripts/verify-ci-result.ts:67-79 | a green verdict says that the required tests succeeded, or that none were required and their job was skipped |
| `Aggregation.GreenVerdictIsSound` | scripts/verify-ci-result.ts:61-80 | a green verdict means the jobs succeeded, every planned file has exactly one result, which passed, and no other file has one; for a plan without tests it means the tests were skipped |
| `Aggregation.PipelineCompleteIffAllSucceed` | scripts/aggregate-test-reports.ts:18-46 | shards run independently merge into a complete report exactly when every planned file succeeds |
| `Aggregation.MergedReportComplete` | scripts/aggregate-test-reports.ts:24-46 | the written report is complete exactly when the shards add up |
| `Aggregation.VerdictGreenIffAllSucceed` | scripts/verify-ci-result.ts:61-80 | from shard plans over their merged report to the verdict: green exactly when every planned file succeeds |
| `Aggregation.GreenVerdictCoversChange` | scripts/verify-ci-result.ts:61-80 | from change to verdict: under a green verdict an affected test has a passing result exactly unless its path names no capability and no fallback applied |
| `SchedulerTrace.SummarizeSchedulerWakeups` | scripts/scheduler-wakeup-summary.ts:17-85 | the pass accepts and returns what the step-by-step accounting says |
| `ProcessGenerations.PassRefines` | scripts/scheduler-wakeup-summary.ts:28-80 | a prefix is accepted exactly when each event is allowed by the process history, and then every table and counter states a fact of that history |
| `ProcessGenerations.ForkTable` | scripts/scheduler-wakeup-summary.ts:38-51 | a fork frees the PID and gives it to the new generation exactly when that descends from the root |
| `ProcessGenerations.GenerationEndsOnce` | scripts/scheduler-wakeup-summary.ts:58-61 | no owned generation exits twice |
| `ProcessGenerations.BirthsAndExitsBalance` | scripts/scheduler-wakeup-summary.ts:83 | live owned tasks and exits always add up to births |
| `ProcessGenerations.SummaryIsTruth` | scripts/scheduler-wakeup-summary.ts:17-85 | accepted exactly when all events are allowed, the root is born and each owned generation exits once; the summary counts exactly the owned generations and the wakeups of PIDs they hold |
| `ProcessGenerations.BystandersDoNotMatter` | scripts/scheduler-wakeup-summary.ts:28-84 | deleting an event that touches no owned PID leaves the outcome as it was, unless that event alone is malformed or out of order |
| `PtyObservation.SummarizePtyObservations` | scripts/pty-observation.ts:7-58 | rejects exactly empty or overlapping captures; each maximum is the maximum over all maximal equal runs, captures or gaps |
| `PtyObservation.RunStep` | scripts/pty-observation.ts:44-49 | a change of the seen value closes exactly the open run into the maximum of its kind, an equal value closes none |
| `PtyObservation.ObserveAll` | scripts/pty-observation.ts:19-57 | the loop over the captures rejects exactly overlapping or inverted ones and otherwise ends in the specified pass |
| `PtyObservation.PassCoversRuns` | scripts/pty-observation.ts:26-52 | after any number of captures each maximum covers exactly the runs they have closed |
| `PtyObservation.ConclusionIsTrue` | scripts/pty-observation.ts:53-57 | closing the last run makes every figure the maximum, or the count, over the whole observation |
| `PtyObservation.StallIsNeverUnderReported` | scripts/pty-observation.ts:19-57 | for every true signal consistent with the samples, a stall that a capture saw is no longer than reported |
| `PtyObservation.SpanIsTight` | scripts/pty-observation.ts:44-49 | and the report is not exaggerated: if any signal fits the captures, one has a stall as close to it as one likes |
| `PtyObservation.SignalExistsIffConsistent` | scripts/pty-observation.ts:19-22 | some signal fits the captures exactly when no two captures of a single instant saw different values |
| `PtyObservation.CoveredAbsenceIsReported` | scripts/pty-observation.ts:23-24 | if no absence is cut short by a change between an empty and a missing text, no time without a spinner is under-reported |
| `PtyObservation.AbsenceIsReportedIffCovered` | scripts/pty-observation.ts:23-44 | the report covers every absence exactly when each stretch of blank captures is matched in span by a run of equal ones, or no signal fits the captures at all |
| `PtyObservation.UniformAbsenceIsCovered` | scripts/pty-observation.ts:44 | captures that record absence in one way cut none short |
| `PtyObservation.MixedAbsenceUnderReports` | scripts/pty-observation.ts:44 | with two ways, a signal that fits the captures is blank for 7 and 5 is reported |
| `Framing.FrameIsExact` | scripts/pi-rpc-client.ts:146-150 | lines and rest hold no newline and give the text back |
| `Framing.FrameIsUnique` | scripts/pi-rpc-client.ts:146-150 | no other lines and rest do |
| `Framing.FrameAppend` | scripts/pi-rpc-client.ts:145-150 | framing in two pieces carries the first rest into the second piece |
| `RpcSession.TwoChunksAreOne` | scripts/pi-rpc-client.ts:144-158 | reading two chunks is reading their concatenation |
| `RpcSession.LineIsHandledAsText` | scripts/pi-rpc-client.ts:149-156 | a line is handled as its text, with or without one carriage return: empty ignored, an event dispatched, anything else rejecting the waiters |
| `RpcSession.LineEndingsDoNotMatter` | scripts/pi-rpc-client.ts:146-150 | a stream whose lines end with a carriage return leaves the same client as one without |
| `RpcSession.ChunksDoNotMatter` | scripts/pi-rpc-client.ts:144-158 | any chunking leaves the same events, waiters, settlements and buffered text |
| `RpcSession.EventsAreParsedLines` | scripts/pi-rpc-client.ts:149-156 | the events are the parsed lines that are neither empty nor malformed, in order |
| `RpcSession.FirstMatch` | scripts/pi-rpc-client.ts:181-184 | the scan of past events finds the first match or none |
| `RpcSafety.DispatchKeepsInv` | scripts/pi-rpc-client.ts:130-138 | a dispatch settles exactly the waiters it satisfies, once, with the earliest event |
| `RpcSafety.RejectKeepsInv` | scripts/pi-rpc-client.ts:165-171 | a rejection settles every waiter once and leaves none |
| `RpcSafety.EveryRunIsSafe` | scripts/pi-rpc-client.ts:130-198 | over every interleaving: each waiter is settled at most once, waits exactly while unsettled, and if resolved got the earliest event at or after its index that satisfies it |
| `RpcSafety.ResponsesAreNotShared` | scripts/pi-rpc-client.ts:89-97 | two commands are never settled by one response |
| `RpcSafety.ApplyExtends` | scripts/pi-rpc-client.ts:160-163 | no action rewrites events or settlements, and the first failure is kept |
| `RpcSafety.FailureSettlesAll` | scripts/pi-rpc-client.ts:160-171 | a terminal failure settles every waiter and no command is sent after it |
| `RpcSafety.PromptAfterFailureWaits` | scripts/pi-rpc-client.ts:108-118 | a prompt after a failure or a close sends nothing and leaves a waiter behind |
| `RpcSafety.OnlyPromptsLeaveWaiters` | scripts/pi-rpc-client.ts:85-118 | then, with nobody waiting, exactly the prompts among the client's actions leave one |
| `RpcSafety.MalformedLineSettlesAll` | scripts/pi-rpc-client.ts:152-156 | reading a line that cannot be parsed settles every waiter |
| `RpcSafety.LineEndsWaiter` | scripts/pi-rpc-client.ts:149-156 | a line ends a waiter exactly when it is malformed or holds an event that satisfies it |
| `RpcSafety.EventSettlesItsWaiters` | scripts/pi-rpc-client.ts:130-138 | an event settles exactly the waiters that accept it, each with that event |
| `RpcSafety.TimerEndsOwnWaiter` | scripts/pi-rpc-client.ts:191-194 | a timer ends its own waiter and no other |
| `RpcSafety.PromptIsWritten` | scripts/pi-rpc-client.ts:108-118 | a prompt is written under the next number and its settlement waiter accepts exactly the settlement event |
| `RpcSafety.LeftoverWaiterEnds` | scripts/pi-rpc-client.ts:130-198 | the waiter a refused prompt leaves ends with a failure, its timer, and of the lines exactly with a malformed one or the settlement event |
| `RpcSafety.CommandSucceedsByOwnResponse` | scripts/pi-rpc-client.ts:99-101 | a command succeeds exactly when the first response to its own number reports success; otherwise its error says why |
| `RpcSafety.RunNumbersIdentify` | scripts/pi-rpc-client.ts:89-98 | over every interleaving, each command's number is carried by its own message and by no other exactly when no payload brings another id |
| `RpcSafety.ForeignIdMisleads` | scripts/pi-rpc-client.ts:89-98 | with such a payload one answer can settle another command and leave its own waiting |
| `RpcSafety.RunReadsWholeOutput` | scripts/pi-rpc-client.ts:144-158 | over every interleaving, the events are the parsed lines of the whole output and the buffer is its rest |
| `PiRpcClients.PiRpcClient.Sift` | scripts/pi-rpc-client.ts:132-137 | the loop settles exactly the waiters that hear the event, in order, and keeps the others |
| `PiRpcClients.PiRpcClient.Dispatch` | scripts/pi-rpc-client.ts:130-138 | the object's new state is the session's dispatch, nothing else changes |
| `PiRpcClients.PiRpcClient.RejectWaiters` | scripts/pi-rpc-client.ts:165-171 | the object's new state is the session's rejection |
| `PiRpcClients.PiRpcClient.RecordTerminalFailure` | scripts/pi-rpc-client.ts:160-163 | keeps the first message and rejects everyone with it |
| `PiRpcClients.PiRpcClient.TimerFires` | scripts/pi-rpc-client.ts:191-194 | a timer takes its own waiter out and settles it, if it still waits |
| `PiRpcClients.PiRpcClient.WaitFor` | scripts/pi-rpc-client.ts:173-198 | settles at once with the first past match, or registers |
| `PiRpcClients.PiRpcClient.Command` | scripts/pi-rpc-client.ts:85-98 | refused without effect exactly after a failure or a close; otherwise the next number, its waiter, and the payload written under that number or its own id |
| `PiRpcClients.PiRpcClient.PromptAndSettle` | scripts/pi-rpc-client.ts:108-118 | the settlement waiter is registered before the command |
| `PiRpcClients.PiRpcClient.ConsumeLine` | scripts/pi-rpc-client.ts:149-156 | an empty line changes nothing, an event is dispatched, anything else rejects the waiters |
| `PiRpcClients.PiRpcClient.ReadStdout` | scripts/pi-rpc-client.ts:144-158 | the loop over the buffer ends in the session's state for the whole chunk |
| `MagicRpc.LookupIsScan` | scripts/magic-context-real-rpc.ts:72-77 | looking a response up by its number settles what offering it to every pending request would |
| `MagicRpc.ReadRpcOutput` | scripts/magic-context-real-rpc.ts:95-122 | the outcome depends on the output alone: its lines in order, the unterminated one last, up to the first malformed one |
| `MagicRpc.LineIsHandledAsText` | scripts/magic-context-real-rpc.ts:63-93 | a line is handled as its text, with or without one carriage return |
| `MagicRpc.WellFormedStream` | scripts/magic-context-real-rpc.ts:63-84 | without malformed lines every line becomes a record and nobody is rejected, not even at the end |
| `MagicRpc.EveryRunIsSound` | scripts/magic-context-real-rpc.ts:152-188 | over every interleaving, child exits included, requests and waiters are settled at most once, each by the earliest record it was waiting for |
| `MagicRpc.MalformedLineSettlesAll` | scripts/magic-context-real-rpc.ts:86-93 | the first malformed line settles every request and every waiter and ends the reading |
| `MagicRpc.OnlyWaitsLeaveWaiters` | scripts/magic-context-real-rpc.ts:152-170 | after it, with nobody waiting, a step leaves a waiter exactly when it waits for a record not yet seen |
| `MagicRpc.RefusalIsFinal` | scripts/magic-context-real-rpc.ts:172-175 | after a malformed line or the exit of the child no request is sent again |
| `SignTest.Absorption` | scripts/benchmark-ponytail.ts:220 | k C(n, k) = n C(n - 1, k - 1), the identity behind the exact quotients |
| `SignTest.Choose` | scripts/benchmark-ponytail.ts:218-222 | every quotient is an integer and the result is the binomial coefficient |
| `SignTest.OneSidedSignTestPValue` | scripts/benchmark-ponytail.ts:223-229 | rejects exactly impossible counts; otherwise the tail over the power of two |
| `SignTest.PValueIsFraction` | scripts/benchmark-ponytail.ts:223-229 | the p value is the fraction of all win and loss sequences with at least that many wins; of no wins it is 1 |
| `SignTest.PValuesComplement` | scripts/benchmark-ponytail.ts:223-229 | p(w, n) + p(n - w + 1, n) = 1 |
| `SignTest.PValueDecreases` | scripts/benchmark-ponytail.ts:223-229 | p strictly decreases in the number of wins |
| `SignTest.MoreWinsKeepEffect` | scripts/benchmark-ponytail.ts:269 | turning a loss into a win never takes a strong effect away |
| `PairedVerdict.PairsMembers` | scripts/benchmark-ponytail.ts:231-258 | exactly the repetitions whose first cases were measured in both modes are paired, with the lines of each mode |
| `PairedVerdict.PairForMeaning` | scripts/benchmark-ponytail.ts:234-250 | a pair holds the lines of the first case of each mode for that scenario and repetition |
| `PairedVerdict.PairsInOrder` | scripts/benchmark-ponytail.ts:232-233 | the pairs follow the scenarios and, within one, the repetitions |
| `PairedVerdict.CountsCompareLines` | scripts/benchmark-ponytail.ts:252-256 | the counts are the numbers of pairs with fewer, or more, lines in the second mode |
| `PairedVerdict.FullCountMeansAll` | scripts/benchmark-ponytail.ts:269 | the full number of pairs means every repetition of every scenario was measured |
| `PairedVerdict.CollectPairs` | scripts/benchmark-ponytail.ts:231-258 | the nested loops collect the pairs in scenario and repetition order |
| `PairedVerdict.PairsIgnoreOrder` | scripts/benchmark-ponytail.ts:234-240 | the order in which cases were recorded does not matter |
| `PairedVerdict.EvaluatePonytailBenchmark` | scripts/benchmark-ponytail.ts:230-272 | the pairs, the numbers of those with fewer, more and as many lines, the p value and the verdict |
| `PairedVerdict.StrongEffectTable` | scripts/benchmark-ponytail.ts:269 | the verdict in closed form: which numbers of losses are tolerated |
| `Bootstrap.NextRandomInvertible` | scripts/benchmark-statistics.ts:37-43 | the generator step has a left inverse on 32-bit words |
| `Bootstrap.NextRandomSurjective` | scripts/benchmark-statistics.ts:37-43 | and that is a right inverse too: the step is a bijection |
| `Bootstrap.OnlyZeroMapsToZero` | scripts/benchmark-statistics.ts:37-43 | only zero maps to zero, so the generator never gets stuck |
| `Bootstrap.PercentileHasRank` | scripts/benchmark-statistics.ts:29-35 | the percentile is the sample whose rank is that fraction of the number of samples: those below it are fewer, those up to it are not |
| `Bootstrap.RankIsUnique` | scripts/benchmark-statistics.ts:29-35 | no other value has that rank |
| `Bootstrap.ZeroIsSmallest` | scripts/benchmark-statistics.ts:31 | the percentile of zero is the smallest sample |
| `Bootstrap.PercentileIsMonotone` | scripts/benchmark-statistics.ts:29-35 | a larger fraction never selects a smaller sample |
| `Bootstrap.ResampleOnce` | scripts/benchmark-statistics.ts:59-65 | one resample draws as many ratios as there are, one generator step each |
| `Bootstrap.DrawnByState` | scripts/benchmark-statistics.ts:61-63 | each draw takes the ratio at the generator's next state, counted round the list |
| `Bootstrap.ResampleMedians` | scripts/benchmark-statistics.ts:56-67 | one median a replicate, with the generator running on through all of them |
| `Bootstrap.BootstrapMedianConfidence95` | scripts/benchmark-statistics.ts:55-69 | the ends are the 2.5 and 97.5 percentiles of the resamples' medians |
| `Bootstrap.IntervalIsObserved` | scripts/benchmark-statistics.ts:55-69 | both ends are observed ratios, in order |
| `Bootstrap.ComparePairedSamples` | scripts/benchmark-statistics.ts:71-88 | fails exactly for fewer than three or non-positive samples; otherwise the median of the ratios, the interval, and a class that says on which side of 0.95 and 1.1 the interval lies |
| `Bootstrap.UnanimousRatiosDecide` | scripts/benchmark-statistics.ts:74-81 | ratios that all agree force the classification, and each verdict has a ratio that supports it |
| `Bootstrap.ArmAtPlace` | scripts/benchmark-statistics.ts:22-27 | every run uses every arm once, rotated by the run number |
| `Bootstrap.EveryArmTakesEveryPlaceOnce` | scripts/benchmark-statistics.ts:22-27 | over as many consecutive runs as arms, each arm takes each place exactly once |
| `TerminalControls.StripTerminalControls` | scripts/terminal-controls.ts:1-35 | the index-driven scan returns what the specified strip leaves |
| `TerminalControls.StripDistributes` | scripts/terminal-controls.ts:1-35 | at a token boundary stripping distributes over concatenation, and tokens become their plain text |
| `TerminalControls.Tokenize` | scripts/terminal-controls.ts:10-32 | every output is complete tokens followed by at most one incomplete sequence |
| `TerminalControls.StripIsPlainText` | scripts/terminal-controls.ts:1-35 | stripping any output gives the plain text of its tokens |
| `TerminalControls.StripIsClean` | scripts/terminal-controls.ts:5-9 | no escape and no carriage return is left |
| `TerminalControls.StripIsIdempotent` | scripts/terminal-controls.ts:1-35 | stripping twice is stripping once |
| `Concurrency.PeakChildConcurrency` | scripts/verify-agents-execution-matrix.ts:163-175 | the clamped walk finds the largest starts-minus-ends over all windows of the log |
| `Concurrency.PeakIsMostAlive` | scripts/verify-agents-execution-matrix.ts:163-175 | for a log complete from its beginning that is the most children alive at once |
| `Concurrency.LateLogUnderReports` | scripts/verify-agents-execution-matrix.ts:171 | for a log joined late the true maximum exceeds the peak by at most the children then alive |
| `Concurrency.LateLogIsExact` | scripts/verify-agents-execution-matrix.ts:163-175 | and the peak is exact exactly when, at or before some point with the most children, none was alive |
| `Concurrency.LateLogMissesOne` | scripts/verify-agents-execution-matrix.ts:171 | a log of one start joined while a child was alive: two alive, a peak of one |
| `Concurrency.RecordsOfCompleteLines` | scripts/verify-agents-execution-matrix.ts:125-137 | the records are those of the non-blank complete lines, in order; there is no answer exactly when one of these is malformed |
| `Concurrency.GrowingLog` | scripts/verify-agents-execution-matrix.ts:125-137 | reading again after more was written only adds records; a half-written line is left alone |
| `PublicationScopes.ScopeReader.PublicationScope` | scripts/publish-beads.ts:57-64 | the recursion with its shared set computes the depth-first walk |
| `PublicationScopes.WalkSucceedsOnTrees` | scripts/publish-beads.ts:57-64 | the walk succeeds exactly when every bead below the root is known and lies on one path only |
| `PublicationScopes.WalkListsDescendants` | scripts/publish-beads.ts:63 | the scope holds exactly the beads on paths from the root |
| `PublicationScopes.WalkIsDistinct` | scripts/publish-beads.ts:58-59 | and each of them once |
| `Publication.BeadIdPattern` | scripts/publish-beads.ts:6 | a bead id is the prefix, a word of small letters and digits, and any number of dotted numbers |
| `Publication.BeadIdHasNoSpace` | scripts/publish-beads.ts:6 | no bead id holds a space |
| `Publication.MarkersArePrefixFree` | scripts/publish-beads.ts:178-180 | no comment starts with the markers of two beads |
| `Publication.ReadBack` | scripts/publish-beads.ts:203-206 | accepts exactly a single managed comment with the body and the author |
| `Publication.WriteComment` | scripts/publish-beads.ts:195-202 | sends one post where there is no comment, one edit where the only one, its own, differs, and otherwise nothing |
| `Publication.PublishManagedComment` | scripts/publish-beads.ts:190-206 | whatever calls fail or get lost: success means one comment with the body and author, other comments are untouched, no duplicate is made, and a write is sent exactly when the comment was not as wanted |
| `Publication.PublishIssueState` | scripts/publish-beads.ts:207-214 | success means the Issue reads back with state and title; the one write it may send is sent only if they differed |
| `Publication.PublishComment` | scripts/publish-beads.ts:190-216 | success means converged; a success sent no write exactly when all was converged before; the Issue is written only after the comment reads back as wanted; with reliable calls it succeeds exactly when the comment is not ambiguous or foreign, and a failure never spoils that for a retry |
| `Publication.OtherBeadKept` | scripts/publish-beads.ts:192-193 | publishing one bead keeps the comments of every other bead |
| `Publication.PublishPlans` | scripts/publish-beads.ts:233 | success leaves every comment converged, and every Issue too exactly when beads that share one agree; once all have converged a further run sends no write; beads that could all be published can still be after a failure, so a retry with reliable calls succeeds |
| `Publication.SharedIssueCannotConverge` | scripts/publish-beads.ts:207-214 | two beads on one Issue with different titles never both read back as wanted |
| `Publication.ValidatedCodeHasCommit` | scripts/publish-beads.ts:74-92 | after validation the missing final commit of line 128 cannot occur |
| `Publication.DeliveryIsValid` | scripts/publish-beads.ts:74-92 | a delivery is valid exactly when a closed bead records its closure and the delivery's references fit its kind; each rejection is true |
| `Publication.CheckDeliveries` | scripts/publish-beads.ts:231 | passes exactly when every bead in scope has a valid delivery |
| `Publication.PlansOf` | scripts/publish-beads.ts:232 | plans every bead of the scope in order, or fails if one has no Issue or no text |
| `Publication.PlanShowsBead` | scripts/publish-beads.ts:207-212 | exactly a bead with an Issue and a text has a plan, which asks for the bead's own state, title and text on that Issue |
| `Publication.StatesAreIssues` | scripts/publish-beads.ts:207-214 | the Issues are as planned exactly when each shows its bead's state and title |
| `Publication.Prepare` | scripts/publish-beads.ts:230-232 | succeeds exactly for a tree of valid, publishable beads, and writes nothing |
| `Publication.PublishScope` | scripts/publish-beads.ts:230-235 | once all is published every bead on a path from the root has exactly one comment with its marker on its own Issue, by the publishing login and with its text, and the Issues show all states and titles exactly when beads that share one agree, whether or not the final export works; a failure before publishing leaves the store as it was; with reliable calls publishing succeeds exactly when every bead can be published, and a failure never spoils that for a retry |

## Left out

- Rounding: costs, durations, ratios and p values are reals, so sums in floating point may differ in the last digits.
- Text is a sequence of characters; UTF-8 decoding, surrogate pairs and the code-unit order of characters beyond the
  basic plane are not modelled.
- Shards.AddToLeast: replaces a bucket value in the array; the identity of the bucket records in the source is not captured.
- Shards.PartitionFiles: counts are integers, so the source's rejection of non-integer counts is left out; the locale order of names is any total preorder.
- Planning.BuildVerificationPlan: whether selection throws is a parameter; a failure to list the inventory at all is left out.
- Planning.WriteVerificationShards: the files and the index it writes, the setup duration and the printed estimate are left out.
- PlanContract.ValidatePlan: the pattern of safe paths is a parameter, and the schema check before it is left out.
- Selection.SelectAffectedTests: a file that is neither a script nor listed nor a test is data and imports nothing; the predicates for documentation, shared paths and acceptance dimensions are parameters.
- Dependencies.VerificationDependencies: parsing of imports, module resolution and the digest of a declaration are inputs.
- Verdict.RunTestFiles: the command line and the options that select tests by name are left out; the counts come from the native report.
- Aggregation.AggregateTestReports: the sums of durations and counts and the printed line are left out.
- SchedulerTrace.SummarizeSchedulerWakeups: the records are already parsed; a line or event the parser refuses is one malformed event.
- RpcSafety.EveryRunIsSafe: the wall clock is a timer that may fire at any step; exceptions thrown by a predicate are left out.
- PiRpcClients.PiRpcClient.Command: ids are numbers instead of text, and the options and messages of timeouts are left out.
- PiRpcClients.PiRpcClient.ReadStdout: chunks are characters already decoded.
- MagicRpc.ReadRpcOutput: records, pending requests and waiters are values passed from line to line instead of collections changed in place.
- Bootstrap.ComparePairedSamples: infinite and not-a-number measurements are not representable.
- PairedVerdict.EvaluatePonytailBenchmark: collecting and measuring the cases is left out.
- Concurrency.GrowingLog: the schema of a log record is a parameter.
- Publication.PublishComment: readbacks see the store as it is; edits by other people during one publication and stale reads are left out.
- Publication.PublishScope: the checks before the synchronisation with GitHub and the synchronisation itself (lines 219-229) are left out, and the text below the marker is a parameter.
- Closing the RPC process, signals, process groups, temporary directories, tmux and terminal drivers, benchmark collection and acceptance matrices are left out: they are input and output or finite tables.
