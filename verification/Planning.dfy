/** Building a verification plan and its shard plans: scripts/verification-plan.ts and the shard-plan part of
    scripts/verification-shards.ts. */
module Planning {
  import opened Ordering
  import opened PlanContract
  import opened Dependencies
  import opened Selection
  import opened ListScheduling
  import opened Shards

  /** What git answers; a failing command is None. */
  datatype Git = Git(
    head: Option<string>,
    resolve: string -> Option<string>,
    mergeBase: (string, string) -> Option<string>,
    committed: (string, string) -> Option<seq<string>>,
    local: Option<seq<string>>)

  datatype Event = Schedule | WorkflowDispatch | PullRequest | Push | OtherEvent

  /** The environment variables that are read; `previousRun` is the recorded run number when it is a number. */
  datatype Environment = Environment(
    ci: bool,
    event: Event,
    previousRun: Option<int>,
    previousSha: Option<string>,
    baseSha: Option<string>,
    headSha: Option<string>,
    verifyBase: Option<string>)

  /** What the plan is made from: a reusable run, the whole inventory, or a list of changed paths; with `base` and
      `otherwise` the whole inventory is planned if selecting for those paths fails. */
  datatype Range =
    | Reuse(run: nat)
    | Everything(base: Option<string>, reason: Reason)
    | Changes(from: string, paths: seq<string>, base: Option<string>, otherwise: Reason)

  function Ref(git: Git, value: Option<string>): Option<string> {
    match value
    case None => None
    case Some(v) => if v == "" || v == seq(40, _ => '0') then None else git.resolve(v)
  }

  function UniqueSorted(paths: seq<string>): seq<string> {
    Sorted(AddAll([], paths))
  }

  function CiRange(git: Git, env: Environment): Range
    requires env.event == PullRequest || env.event == Push
  {
    var ciBase, ciHead := Ref(git, env.baseSha), Ref(git, env.headSha);
    if ciBase.None? || ciHead.None? || ciHead != git.head then Everything(ciBase, UnreliableCiRange)
    else
      var from :=
        if env.event == PullRequest then git.mergeBase(ciBase.value, ciHead.value) else ciBase;
      if from.None? then Everything(ciBase, NoReliableCiRange)
      else
        match git.committed(from.value, ciHead.value)
        case None => Everything(ciBase, NoReliableCiRange)
        case Some(paths) => Changes(from.value, paths, ciBase, NoReliableCiRange)
  }

  function LocalRange(git: Git, env: Environment): Range {
    var target := Ref(git, if env.verifyBase.Some? then env.verifyBase else Some("origin/main"));
    if env.verifyBase.Some? && env.verifyBase.value != "" && target.None? then Everything(None, InvalidBaseOverride)
    else if target.None? || git.head.None? then Everything(target, NoReliableLocalRange)
    else
      var from := git.mergeBase(target.value, git.head.value);
      if from.None? then Everything(target, NoReliableLocalRange)
      else
        var committed := git.committed(from.value, git.head.value);
        if committed.None? || git.local.None? then Everything(target, NoReliableLocalRange)
        else Changes(from.value, UniqueSorted(committed.value + git.local.value), target, NoReliableLocalRange)
  }

  function PlanRange(git: Git, env: Environment): Range {
    if !env.ci then LocalRange(git, env)
    else
      match env.event
      case Schedule =>
        if git.head.Some? && git.head.value != "" && env.previousSha == git.head && env.previousRun.Some?
           && 0 < env.previousRun.value <= MAX_SAFE_INTEGER
        then Reuse(env.previousRun.value)
        else Everything(None, NightlyFull)
      case WorkflowDispatch => Everything(Ref(git, env.baseSha), ManualDispatch)
      case OtherEvent => Everything(None, UnsupportedEvent)
      case _ => CiRange(git, env)
  }

  // ---------- building the plan ----------

  /** The inventory the plan is made from and the checkout it is validated against agree. */
  ghost predicate SameInventory(repo: Repository, checkout: Checkout) {
    && InOrder(checkout.discovered) && Distinct(checkout.discovered)
    && repo.sources.tests == WithoutLive(checkout.discovered)
    && repo.sources.tests != []
    && AllSafe(repo.sources.tests, checkout.safe)
  }

  lemma {:induction false} WithoutLiveKeepsOrder(files: seq<string>)
    requires InOrder(files) && Distinct(files)
    ensures InOrder(WithoutLive(files)) && Distinct(WithoutLive(files))
  {
    if files != [] {
      var n := |files| - 1;
      WithoutLiveKeepsOrder(files[..n]);
      forall f | f in WithoutLive(files[..n]) ensures LexLe(f, files[n]) && f != files[n] {
        assert f in files[..n];
      }
    }
  }

  lemma InventoryIsOffline(repo: Repository, checkout: Checkout)
    requires SameInventory(repo, checkout)
    ensures Offline(checkout.discovered) == repo.sources.tests && Distinct(repo.sources.tests)
  {
    WithoutLiveKeepsOrder(checkout.discovered);
    SortedIsIdentity(repo.sources.tests);
  }

  function ModeFor(files: seq<string>, all: seq<string>): Mode {
    if |files| == 0 then RunNone else if |files| == |all| then RunAll else RunSelected
  }

  /** The record the plan becomes, for the files and matrix selection chose. */
  function PlanOf(all: seq<string>, base: Option<string>, head: Option<string>, changed: seq<string>, s: Selection)
    : Plan
  {
    Plan(base, head, ModeFor(s.files, all), s.reason, changed, s.files,
         Some(if |s.files| == |all| || s.acceptanceMatrix.None? then Full else s.acceptanceMatrix.value), None)
  }

  /** The plan holds the selection: its files, its reason and its matrix, with a mode that says how many files. */
  ghost predicate Holds(plan: Plan, all: seq<string>, base: Option<string>, head: Option<string>, changed: seq<string>,
                        s: Selection)
  {
    && plan.base == base && plan.head == head && plan.changedFiles == changed && plan.previousFullRun == None
    && plan.files == s.files && plan.reason == s.reason
    && (plan.mode == RunNone <==> s.files == [])
    && (plan.mode == RunAll <==> s.files != [] && |s.files| == |all|)
    && plan.acceptanceMatrix.Some?
    && (plan.acceptanceMatrix.value == Representative <==>
          s.acceptanceMatrix == Some(Representative) && |s.files| != |all|)
  }

  /** The whole inventory is planned, for the reason given. */
  ghost predicate PlansAll(plan: Plan, repo: Repository, base: Option<string>, head: Option<string>, reason: Reason) {
    Holds(plan, repo.sources.tests, base, head, [], Selection(repo.sources.tests, reason, None))
  }

  /** What the change selects is planned. */
  ghost predicate PlansSelection(plan: Plan, repo: Repository, base: Option<string>, head: Option<string>,
                                 changed: seq<string>)
  {
    exists s :: Chooses(repo, changed, s) && Holds(plan, repo.sources.tests, base, head, changed, s)
  }

  method MakePlan(repo: Repository, base: Option<string>, head: Option<string>, changed: seq<string>,
                  reason: Option<Reason>)
    returns (plan: Plan)
    ensures reason.Some? ==> Holds(plan, repo.sources.tests, base, head, changed,
                                   Selection(repo.sources.tests, reason.value, None))
    ensures reason.None? ==> PlansSelection(plan, repo, base, head, changed)
    ensures forall t | Affected(repo, changed, t) :: t in plan.files <==> reason.Some? || !Dropped(repo, changed, t)
    ensures forall checkout | SameInventory(repo, checkout) && Justified(base, head, changed, reason, checkout) ::
              Acceptable(plan, checkout)
  {
    var all := repo.sources.tests;
    var selected;
    match reason {
      case Some(why) => selected := Selection(all, why, None);
      case None => selected := SelectAffectedTests(repo, changed);
    }
    plan := PlanOf(all, base, head, changed, selected);
    PlanIsAcceptable(repo, base, head, changed, reason, selected);
  }

  /** The plan was made for the change, or for everything because selecting for the change failed. */
  ghost predicate PlansChange(plan: Plan, repo: Repository, changed: seq<string>, failed: bool) {
    if failed then PlansAll(plan, repo, plan.base, plan.head, plan.reason)
    else PlansSelection(plan, repo, plan.base, plan.head, changed)
  }

  /** A plan for a change leaves an affected test out exactly when selection does; it is never a plan without tests. */
  lemma PlanKeepsAffected(plan: Plan, repo: Repository, changed: seq<string>, failed: bool, t: string)
    requires PlansChange(plan, repo, changed, failed) && Affected(repo, changed, t)
    ensures plan.mode != RunNone
    ensures t in plan.files <==> failed || !Dropped(repo, changed, t)
  {
    if !failed {
      var s :| Chooses(repo, changed, s) && Holds(plan, repo.sources.tests, plan.base, plan.head, changed, s);
      AffectedKeptIffNotDropped(repo, changed, s, t);
      if SelectsByCapability(repo, CodeChanges(repo, changed)) {
        ChoosesForCode(repo, changed, s, t);
        SelectedByCapability(repo, CodeChanges(repo, changed), s);
      }
    }
  }

  /** What the record of a change's selection says: documentation alone plans no test, and the matrix is reduced exactly
      for a proper selection by capability without a change to an acceptance dimension. */
  lemma RecordedSelection(plan: Plan, repo: Repository, base: Option<string>, head: Option<string>,
                          changed: seq<string>)
    requires PlansSelection(plan, repo, base, head, changed)
    ensures changed != [] && CodeChanges(repo, changed) == [] ==> plan.mode == RunNone && plan.files == []
    ensures plan.mode == RunSelected <==> 0 < |plan.files| && |plan.files| != |repo.sources.tests|
    ensures plan.acceptanceMatrix == Some(Representative) <==>
              && plan.reason.ChangedCapabilities? && |plan.files| != |repo.sources.tests|
              && forall p | p in CodeChanges(repo, changed) :: !repo.dimension(p)
  {
    var s :| Chooses(repo, changed, s) && Holds(plan, repo.sources.tests, base, head, changed, s);
  }

  /** Revisions are resolved commits, changed paths safe and distinct; a plan by change needs a base. */
  ghost predicate Justified(base: Option<string>, head: Option<string>, changed: seq<string>, reason: Option<Reason>,
                            checkout: Checkout)
  {
    && head == Some(checkout.head) && ValidSha(checkout.head)
    && (base.Some? ==> ValidSha(base.value))
    && AllSafe(changed, checkout.safe) && Distinct(changed)
    && (reason.None? ==> base.Some?)
  }

  /** Selection returns the inventory itself, nothing for documentation, or some of it in order. */
  ghost predicate OneSelection(repo: Repository, changed: seq<string>, reason: Option<Reason>, s: Selection) {
    var all := repo.sources.tests;
    || s.files == all
    || (reason.None? && changed != [] && s.files == [])
    || (0 < |s.files| < |all| && (Distinct(all) ==> Distinct(s.files)) && forall f | f in s.files :: f in all)
  }

  lemma PlanIsAcceptable(repo: Repository, base: Option<string>, head: Option<string>, changed: seq<string>,
                         reason: Option<Reason>, s: Selection)
    requires OneSelection(repo, changed, reason, s)
    ensures forall checkout | SameInventory(repo, checkout) && Justified(base, head, changed, reason, checkout) ::
              Acceptable(PlanOf(repo.sources.tests, base, head, changed, s), checkout)
  {
    forall checkout | SameInventory(repo, checkout) && Justified(base, head, changed, reason, checkout)
      ensures Acceptable(PlanOf(repo.sources.tests, base, head, changed, s), checkout)
    {
      InventoryIsOffline(repo, checkout);
    }
  }

  /** No revision: absent, empty or all zeros. */
  ghost predicate NoRevision(value: Option<string>) {
    value.None? || value.value == "" || (|value.value| == 40 && forall c | c in value.value :: c == '0')
  }

  /** A revision is what git resolves it to, unless it names none. */
  lemma RefResolves(git: Git, value: Option<string>)
    ensures Ref(git, value) == if NoRevision(value) then None else git.resolve(value.value)
  {
    var zeros := seq(40, _ => '0');
    if value.Some? && |value.value| == 40 && forall c | c in value.value :: c == '0' {
      assert forall i | 0 <= i < 40 :: value.value[i] in value.value;
      assert value.value == zeros;
    }
    assert forall c | c in zeros :: c == '0';
  }

  /** This very revision passed full verification in the recorded run. */
  ghost predicate PassedBefore(git: Git, env: Environment, run: int) {
    && env.ci && env.event == Schedule
    && git.head.Some? && git.head.value != "" && env.previousSha == git.head
    && env.previousRun == Some(run) && 0 < run < 0x20_0000_0000_0000
  }

  /** The change between two known ends is planned; where the list of paths is missing or selection throws, the whole
      inventory is. */
  ghost predicate PlansRange(plan: Plan, repo: Repository, git: Git, from: Option<string>, paths: Option<seq<string>>,
                             fails: seq<string> -> bool, base: Option<string>, otherwise: Reason)
  {
    if from.None? || paths.None? then PlansAll(plan, repo, base, git.head, otherwise)
    else
      && PlansChange(plan, repo, paths.value, fails(paths.value))
      && (forall t | Affected(repo, paths.value, t) ::
            t in plan.files <==> fails(paths.value) || !Dropped(repo, paths.value, t))
      && if fails(paths.value) then PlansAll(plan, repo, base, git.head, otherwise)
         else PlansSelection(plan, repo, from, git.head, paths.value)
  }

  /** A pull request is compared with its merge base, a push with its base; both ends must be known, and the checkout
      must be at the head end. */
  ghost predicate PlansCi(plan: Plan, repo: Repository, git: Git, env: Environment, fails: seq<string> -> bool) {
    var base, head := Ref(git, env.baseSha), Ref(git, env.headSha);
    if base.None? || head.None? || head != git.head then PlansAll(plan, repo, base, git.head, UnreliableCiRange)
    else
      var from := if env.event == PullRequest then git.mergeBase(base.value, head.value) else base;
      PlansRange(plan, repo, git, from, if from.Some? then git.committed(from.value, head.value) else None, fails, base,
                 NoReliableCiRange)
  }

  /** The paths committed or changed locally, each once and in order. */
  ghost predicate Merges(paths: Option<seq<string>>, committed: Option<seq<string>>, local: Option<seq<string>>) {
    && (paths.Some? <==> committed.Some? && local.Some?)
    && (paths.Some? ==>
          && Distinct(paths.value) && InOrder(paths.value)
          && forall p :: p in paths.value <==> p in committed.value || p in local.value)
  }

  /** Local work is compared with the merge base of a given base, or of the main branch. */
  ghost predicate PlansLocal(plan: Plan, repo: Repository, git: Git, env: Environment, fails: seq<string> -> bool) {
    var target := Ref(git, if env.verifyBase.Some? then env.verifyBase else Some("origin/main"));
    if env.verifyBase.Some? && env.verifyBase.value != "" && target.None? then
      PlansAll(plan, repo, None, git.head, InvalidBaseOverride)
    else if target.None? || git.head.None? then PlansAll(plan, repo, target, git.head, NoReliableLocalRange)
    else
      var from := git.mergeBase(target.value, git.head.value);
      exists paths ::
        && Merges(paths, if from.Some? then git.committed(from.value, git.head.value) else None, git.local)
        && PlansRange(plan, repo, git, from, paths, fails, target, NoReliableLocalRange)
  }

  /** What every kind of run plans. */
  ghost predicate PlansFor(plan: Plan, repo: Repository, git: Git, env: Environment, fails: seq<string> -> bool) {
    if !env.ci then PlansLocal(plan, repo, git, env, fails)
    else
      match env.event
      case Schedule =>
        if exists run :: PassedBefore(git, env, run) then plan.mode == RunNone && plan.files == []
        else PlansAll(plan, repo, None, git.head, NightlyFull)
      case WorkflowDispatch => PlansAll(plan, repo, Ref(git, env.baseSha), git.head, ManualDispatch)
      case OtherEvent => PlansAll(plan, repo, None, git.head, UnsupportedEvent)
      case _ => PlansCi(plan, repo, git, env, fails)
  }

  /** The plan made from a range. */
  ghost predicate PlansFrom(plan: Plan, repo: Repository, git: Git, range: Range, fails: seq<string> -> bool) {
    match range
    case Reuse(run) => plan == Plan(git.head, git.head, RunNone, ReusedFullRun(run), [], [], Some(Full), Some(run))
    case Everything(base, reason) => PlansAll(plan, repo, base, git.head, reason)
    case Changes(from, paths, base, otherwise) =>
      PlansRange(plan, repo, git, Some(from), Some(paths), fails, base, otherwise)
  }

  /** The plan for the current revision and environment; `fails` says for which paths selection throws, as it does
      when a file it has to read is gone. */
  method BuildVerificationPlan(repo: Repository, git: Git, env: Environment, fails: seq<string> -> bool)
    returns (plan: Plan)
    ensures plan.head == git.head
    ensures PlansFor(plan, repo, git, env, fails)
    ensures forall run :: plan.previousFullRun == Some(run) <==> PassedBefore(git, env, run)
    ensures forall run | PassedBefore(git, env, run) ::
              plan == Plan(git.head, git.head, RunNone, ReusedFullRun(run), [], [], Some(Full), Some(run))
    ensures forall checkout | SameInventory(repo, checkout) && TrustedGit(git, checkout) :: Acceptable(plan, checkout)
  {
    var range := PlanRange(git, env);
    match range {
      case Reuse(run) =>
        plan := Plan(git.head, git.head, RunNone, ReusedFullRun(run), [], [], Some(Full), Some(run));
      case Everything(base, reason) =>
        plan := MakePlan(repo, base, git.head, [], Some(reason));
      case Changes(from, paths, base, otherwise) =>
        if fails(paths) {
          plan := MakePlan(repo, base, git.head, [], Some(otherwise));
        } else {
          plan := MakePlan(repo, Some(from), git.head, paths, None);
        }
    }
    RangeServesEvent(plan, repo, git, env, fails);
    ReuseNeedsEvidence(git, env);
    forall checkout | SameInventory(repo, checkout) && TrustedGit(git, checkout) ensures Acceptable(plan, checkout) {
      RangeIsJustified(git, env, checkout);
    }
  }

  lemma ReuseNeedsEvidence(git: Git, env: Environment)
    ensures forall run: nat :: PlanRange(git, env) == Reuse(run) <==> PassedBefore(git, env, run)
  {
  }

  /** A plan from the range of an event is the plan that event asks for. */
  lemma RangeServesEvent(plan: Plan, repo: Repository, git: Git, env: Environment, fails: seq<string> -> bool)
    requires PlansFrom(plan, repo, git, PlanRange(git, env), fails)
    ensures PlansFor(plan, repo, git, env, fails)
  {
    if !env.ci {
      LocalRangeServes(plan, repo, git, env, fails);
    } else if env.event == Schedule {
      ReuseNeedsEvidence(git, env);
      if run :| PassedBefore(git, env, run) { assert PlanRange(git, env) == Reuse(run); }
    } else if env.event == PullRequest || env.event == Push {
      CiRangeServes(plan, repo, git, env, fails);
    }
  }

  lemma CiRangeServes(plan: Plan, repo: Repository, git: Git, env: Environment, fails: seq<string> -> bool)
    requires env.event == PullRequest || env.event == Push
    requires PlansFrom(plan, repo, git, CiRange(git, env), fails)
    ensures PlansCi(plan, repo, git, env, fails)
  {
  }

  lemma LocalRangeServes(plan: Plan, repo: Repository, git: Git, env: Environment, fails: seq<string> -> bool)
    requires PlansFrom(plan, repo, git, LocalRange(git, env), fails)
    ensures PlansLocal(plan, repo, git, env, fails)
  {
    var target := Ref(git, if env.verifyBase.Some? then env.verifyBase else Some("origin/main"));
    if target.Some? && git.head.Some? {
      var from := git.mergeBase(target.value, git.head.value);
      var committed := if from.Some? then git.committed(from.value, git.head.value) else None;
      var paths :=
        if committed.Some? && git.local.Some? then Some(UniqueSorted(committed.value + git.local.value)) else None;
      MergedPaths(committed, git.local);
      assert PlansRange(plan, repo, git, from, paths, fails, target, NoReliableLocalRange);
    }
  }

  lemma MergedPaths(committed: Option<seq<string>>, local: Option<seq<string>>)
    ensures committed.Some? && local.Some? ==>
              Merges(Some(UniqueSorted(committed.value + local.value)), committed, local)
    ensures committed.None? || local.None? ==> Merges(None, committed, local)
  {
    if committed.Some? && local.Some? {
      UniqueSortedIsDistinct(committed.value + local.value);
      SortedOrders(AddAll([], committed.value + local.value));
    }
  }

  /** Every revision git names is a commit hash, HEAD is the checkout, and listed paths are safe and distinct. */
  ghost predicate TrustedGit(git: Git, checkout: Checkout) {
    && git.head == Some(checkout.head) && ValidSha(checkout.head)
    && (forall v :: git.resolve(v).Some? ==> ValidSha(git.resolve(v).value))
    && (forall a, b :: git.mergeBase(a, b).Some? ==> ValidSha(git.mergeBase(a, b).value))
    && (forall a, b :: git.committed(a, b).Some? ==>
          AllSafe(git.committed(a, b).value, checkout.safe) && Distinct(git.committed(a, b).value))
    && (git.local.Some? ==> AllSafe(git.local.value, checkout.safe))
  }

  lemma UniqueSortedIsDistinct(paths: seq<string>)
    ensures Distinct(UniqueSorted(paths))
    ensures forall p :: p in UniqueSorted(paths) <==> p in paths
  {
    var unique := AddAll([], paths);
    PermutationKeepsDistinct(unique, Sorted(unique));
    forall p ensures p in Sorted(unique) <==> p in unique {
      assert p in multiset(Sorted(unique)) <==> p in multiset(unique);
    }
  }

  lemma RangeIsJustified(git: Git, env: Environment, checkout: Checkout)
    requires TrustedGit(git, checkout)
    ensures match PlanRange(git, env)
            case Reuse(run) => true
            case Everything(base, reason) => Justified(base, git.head, [], Some(reason), checkout)
            case Changes(from, paths, base, otherwise) =>
              && Justified(Some(from), git.head, paths, None, checkout)
              && Justified(base, git.head, [], Some(otherwise), checkout)
  {
    if !env.ci && git.local.Some? {
      var target := Ref(git, if env.verifyBase.Some? then env.verifyBase else Some("origin/main"));
      if target.Some? && git.mergeBase(target.value, checkout.head).Some? {
        var committed := git.committed(git.mergeBase(target.value, checkout.head).value, checkout.head);
        if committed.Some? {
          UniqueSortedIsDistinct(committed.value + git.local.value);
        }
      }
    }
  }

  // ---------- shard plans ----------

  function ShardPlan(plan: Plan, files: seq<string>): Plan {
    plan.(mode := if |files| == |plan.files| then plan.mode else RunSelected, files := files)
  }

  lemma {:induction false} GroupWithinFlatten(groups: seq<seq<string>>, g: seq<string>)
    requires g in groups
    ensures multiset(g) <= multiset(Flatten(groups))
  {
    var n := |groups| - 1;
    if g != groups[n] {
      assert g in groups[..n];
      GroupWithinFlatten(groups[..n], g);
    }
  }

  lemma SubMultisetDistinct(g: seq<string>, files: seq<string>)
    requires Distinct(files) && multiset(g) <= multiset(files)
    ensures Distinct(g) && (forall f | f in g :: f in files) && |g| <= |files|
    ensures |g| == |files| ==> multiset(g) == multiset(files)
  {
    forall f | f in g ensures multiset(g)[f] == 1 && f in files {
      assert f in multiset(g) && f in multiset(files);
      DistinctMultiplicity(files, f);
    }
    MultiplicityDistinct(g);
    var rest := multiset(files) - multiset(g);
    assert multiset(files) == multiset(g) + rest;
    assert |multiset(files)| == |files| && |multiset(g)| == |g|;
  }

  /** Each shard of an acceptable plan is an acceptable plan. */
  lemma ShardPlanAcceptable(plan: Plan, checkout: Checkout, g: seq<string>)
    requires Acceptable(plan, checkout)
    requires Presentable(g) && multiset(g) <= multiset(plan.files)
    ensures Acceptable(ShardPlan(plan, g), checkout)
  {
    SubMultisetDistinct(g, plan.files);
    if |g| == |plan.files| {
      if plan.mode == RunAll {
        SortedOrders(WithoutLive(checkout.discovered));
        InOrderIsUnique(g, plan.files);
      }
    } else {
      FilesFitInventory(plan, checkout);
    }
  }

  lemma FilesFitInventory(plan: Plan, checkout: Checkout)
    requires Acceptable(plan, checkout)
    ensures |plan.files| <= |Offline(checkout.discovered)|
  {
    var offline := Offline(checkout.discovered);
    forall f | f in multiset(plan.files) ensures multiset(plan.files)[f] <= multiset(offline)[f] {
      assert f in plan.files;
      DistinctMultiplicity(plan.files, f);
      assert f in multiset(offline);
    }
    assert multiset(plan.files) <= multiset(offline);
    var rest := multiset(offline) - multiset(plan.files);
    assert multiset(offline) == multiset(plan.files) + rest;
    assert |multiset(offline)| == |offline| && |multiset(plan.files)| == |plan.files|;
  }

  /** The shards of an acceptable plan: acceptable, non-empty, disjoint, covering, and as many as chosen. */
  ghost predicate ShardsCover(plan: Plan, checkout: Checkout, shards: seq<Plan>, count: nat) {
    && |shards| == (if plan.files == [] then 0 else count)
    && (forall s | s in shards :: Acceptable(s, checkout) && s.files != [] && s == ShardPlan(plan, s.files))
    && Distinct(Flatten(FilesOf(shards)))
    && multiset(Flatten(FilesOf(shards))) == multiset(plan.files)
  }

  function FilesOf(shards: seq<Plan>): (groups: seq<seq<string>>)
    ensures |groups| == |shards| && forall i | 0 <= i < |shards| :: groups[i] == shards[i].files
  {
    seq(|shards|, i requires 0 <= i < |shards| => shards[i].files)
  }

  function ShardPlans(plan: Plan, groups: seq<seq<string>>): (shards: seq<Plan>)
    ensures |shards| == |groups| && forall i | 0 <= i < |groups| :: shards[i] == ShardPlan(plan, groups[i])
  {
    seq(|groups|, i requires 0 <= i < |groups| => ShardPlan(plan, groups[i]))
  }

  /** The groups are the longest-first partition for the count, the recorded timings and the plan's files. */
  ghost predicate Partitions(plan: Plan, timing: Timing, collate: Collation, count: nat, groups: seq<seq<string>>) {
    if plan.files == [] then groups == [] else count > 0 && groups == Partition(plan.files, timing, collate, count)
  }

  method PartitionPlan(plan: Plan, timing: Timing, collate: Collation)
    returns (groups: seq<seq<string>>, ghost count: nat)
    ensures FewestShards(plan.files, timing, collate, count) && Partitions(plan, timing, collate, count, groups)
  {
    var chosen := EstimateShardCount(plan.files, timing, collate);
    count := chosen;
    groups := [];
    if |plan.files| > 0 {
      FewestShardsFit(plan.files, timing, collate, chosen);
      var partition := PartitionFiles(plan.files, timing, collate, chosen);
      groups := partition.value;
    }
  }

  /** Splits a plan that passed the contract into shard plans. */
  method WriteVerificationShards(plan: Plan, checkout: Checkout, timing: Timing, collate: Collation)
    returns (r: Result<seq<Plan>, PlanError>)
    ensures r.Ok? <==> Acceptable(plan, checkout)
    ensures r.Ok? ==> exists count ::
              && FewestShards(plan.files, timing, collate, count) && ShardsCover(plan, checkout, r.value, count)
              && Partitions(plan, timing, collate, count, FilesOf(r.value))
    ensures r.Err? ==> Violates(r.error, plan, checkout)
  {
    var valid := ValidatePlan(plan, checkout);
    if valid.Err? {
      return Err(valid.error);
    }
    var groups, count := PartitionPlan(plan, timing, collate);
    var shards := ShardPlans(plan, groups);
    assert FilesOf(shards) == groups;
    PartitionedCovers(plan, checkout, timing, collate, count, groups);
    r := Ok(shards);
  }

  lemma PartitionedCovers(plan: Plan, checkout: Checkout, timing: Timing, collate: Collation, count: nat,
                          groups: seq<seq<string>>)
    requires Acceptable(plan, checkout)
    requires FewestShards(plan.files, timing, collate, count) && Partitions(plan, timing, collate, count, groups)
    ensures ShardsCover(plan, checkout, ShardPlans(plan, groups), count)
  {
    if plan.files == [] {
      assert FilesOf(ShardPlans(plan, [])) == [];
    } else {
      FewestShardsFit(plan.files, timing, collate, count);
      PartitionCovers(plan, checkout, timing, collate, count);
    }
  }

  lemma PartitionCovers(plan: Plan, checkout: Checkout, timing: Timing, collate: Collation, count: nat)
    requires Acceptable(plan, checkout) && 1 <= count <= |plan.files|
    ensures ShardsCover(plan, checkout, ShardPlans(plan, Partition(plan.files, timing, collate, count)), count)
  {
    var groups := Partition(plan.files, timing, collate, count);
    var shards := ShardPlans(plan, groups);
    PartitionConserves(plan.files, timing, collate, count);
    PartitionCount(plan.files, timing, collate, count);
    assert FilesOf(shards) == groups;
    PermutationKeepsDistinct(plan.files, Flatten(groups));
    forall s | s in shards ensures Acceptable(s, checkout) && s.files != [] && s == ShardPlan(plan, s.files) {
      var i :| 0 <= i < |shards| && shards[i] == s;
      assert groups[i] in groups;
      GroupWithinFlatten(groups, groups[i]);
      ShardPlanAcceptable(plan, checkout, groups[i]);
    }
  }
}
