/** What a verification plan must satisfy before it is run: scripts/verification-plan-contract.ts. */
module PlanContract {
  import opened Ordering

  /** Why a plan holds the tests it holds. */
  datatype Reason =
    | EmptyChange
    | DocumentationOnly
    | SharedOrUncertainPath
    | UnresolvedDependency
    | ChangedCapabilities(names: seq<string>)
    | ReusedFullRun(run: nat)
    | NightlyFull
    | ManualDispatch
    | UnsupportedEvent
    | UnreliableCiRange
    | NoReliableCiRange
    | InvalidBaseOverride
    | NoReliableLocalRange

  datatype Mode = RunAll | RunSelected | RunNone

  datatype Matrix = Full | Representative

  datatype Plan = Plan(
    base: Option<string>,
    head: Option<string>,
    mode: Mode,
    reason: Reason,
    changedFiles: seq<string>,
    files: seq<string>,
    acceptanceMatrix: Option<Matrix>,
    previousFullRun: Option<nat>)

  /** What the contract reads from the checkout: its revision, its test files and the safe-path pattern. */
  datatype Checkout = Checkout(head: string, discovered: seq<string>, safe: string -> bool)

  datatype PlanError =
    | InvalidBase
    | InvalidHead
    | StaleHead
    | UnsafePath(path: string)
    | DuplicatePath(path: string)
    | UnknownTest(file: string)
    | IncompleteAll
    | EmptySelection
    | MisusedEvidence
    | UnjustifiedNone
    | SelectedEverything

  const LIVE_SUFFIX := "-live.test.ts"

  predicate EndsWith(s: string, suffix: string) {
    |suffix| <= |s| && s[|s| - |suffix|..] == suffix
  }

  lemma SuffixMeaning(s: string, suffix: string)
    ensures EndsWith(s, suffix) <==> exists stem: string :: s == stem + suffix
  {
    if EndsWith(s, suffix) { assert s == s[..|s| - |suffix|] + suffix; }
  }

  predicate ValidSha(value: string) {
    && |value| == 40
    && (forall c | c in value :: '0' <= c <= '9' || 'a' <= c <= 'f')
    && (exists c | c in value :: c != '0')
  }

  /** Forty hexadecimal digits, not all of them zero. */
  lemma ValidShaMeaning(value: string)
    ensures ValidSha(value) <==>
              && |value| == 40 && value != seq(40, _ => '0')
              && forall i | 0 <= i < 40 :: value[i] in "0123456789abcdef"
  {
    forall c: char ensures c in "0123456789abcdef" <==> '0' <= c <= '9' || 'a' <= c <= 'f' { HexDigit(c); }
    assert forall i | 0 <= i < |value| :: value[i] in value;
    var zeros := seq(40, _ => '0');
    assert forall c | c in zeros :: c == '0';
    if |value| == 40 && forall c | c in value :: c == '0' { assert value == zeros; }
    if |value| == 40 && forall i | 0 <= i < 40 :: value[i] in "0123456789abcdef" {
      forall c | c in value ensures '0' <= c <= '9' || 'a' <= c <= 'f' {
        var i :| 0 <= i < |value| && value[i] == c;
        HexDigit(c);
      }
    }
  }

  lemma HexDigit(c: char)
    ensures c in "0123456789abcdef" <==> '0' <= c <= '9' || 'a' <= c <= 'f'
  {
    var digits := "0123456789abcdef";
    if '0' <= c <= '9' { assert digits[c as int - '0' as int] == c; }
    if 'a' <= c <= 'f' { assert digits[10 + c as int - 'a' as int] == c; }
  }

  function WithoutLive(files: seq<string>): (r: seq<string>)
    ensures forall f | f in r :: f in files && !EndsWith(f, LIVE_SUFFIX)
    ensures forall f | f in files && !EndsWith(f, LIVE_SUFFIX) :: f in r
  {
    if files == [] then []
    else
      var n := |files| - 1;
      assert files == files[..n] + [files[n]];
      if EndsWith(files[n], LIVE_SUFFIX) then WithoutLive(files[..n]) else WithoutLive(files[..n]) + [files[n]]
  }

  /** The offline test inventory, in code-unit order. */
  function Offline(discovered: seq<string>): seq<string> {
    Sorted(WithoutLive(discovered))
  }

  ghost predicate AllSafe(paths: seq<string>, safe: string -> bool) {
    forall p | p in paths :: safe(p)
  }

  ghost predicate Acceptable(plan: Plan, checkout: Checkout) {
    var offline := Offline(checkout.discovered);
    && (plan.base.Some? ==> ValidSha(plan.base.value))
    && plan.head == Some(checkout.head) && ValidSha(checkout.head)
    && AllSafe(plan.changedFiles, checkout.safe) && Distinct(plan.changedFiles)
    && AllSafe(plan.files, checkout.safe) && Distinct(plan.files)
    && (forall f | f in plan.files :: f in offline)
    && (plan.previousFullRun.Some? ==>
          plan.mode == RunNone && plan.base == plan.head && plan.changedFiles == [])
    && match plan.mode
       case RunAll => plan.files == offline && plan.acceptanceMatrix != Some(Representative)
       case RunSelected => 0 < |plan.files| && |plan.files| != |offline|
       case RunNone =>
         plan.files == [] && plan.base.Some? && (plan.changedFiles != [] || plan.previousFullRun.Some?)
  }

  /** The rejections are real: what each error says is true of the plan. */
  ghost predicate Violates(error: PlanError, plan: Plan, checkout: Checkout) {
    var offline := Offline(checkout.discovered);
    match error
    case InvalidBase => plan.base.Some? && !ValidSha(plan.base.value)
    case InvalidHead => plan.head.None? || !ValidSha(plan.head.value)
    case StaleHead => plan.head != Some(checkout.head)
    case UnsafePath(p) => p in plan.changedFiles + plan.files && !checkout.safe(p)
    case DuplicatePath(p) =>
      || (p in plan.changedFiles && !Distinct(plan.changedFiles))
      || (p in plan.files && !Distinct(plan.files))
    case UnknownTest(f) => f in plan.files && f !in offline
    case IncompleteAll =>
      plan.mode == RunAll && (plan.files != offline || plan.acceptanceMatrix == Some(Representative))
    case EmptySelection => plan.mode == RunSelected && plan.files == []
    case MisusedEvidence =>
      && plan.previousFullRun.Some?
      && (plan.mode != RunNone || plan.base != plan.head || plan.changedFiles != [])
    case UnjustifiedNone =>
      && plan.mode == RunNone
      && (plan.files != [] || plan.base.None? || (plan.changedFiles == [] && plan.previousFullRun.None?))
    case SelectedEverything => plan.mode == RunSelected && |plan.files| == |offline|
  }

  /** A rejected plan is never an acceptable one. */
  lemma ViolationRejects(error: PlanError, plan: Plan, checkout: Checkout)
    requires Violates(error, plan, checkout)
    ensures !Acceptable(plan, checkout)
  {
  }

  /** Reports the first unsafe or repeated path, if any. */
  method ValidatePaths(paths: seq<string>, safe: string -> bool) returns (fault: Option<PlanError>)
    ensures fault.None? <==> AllSafe(paths, safe) && Distinct(paths)
    ensures fault.Some? ==>
              || (fault.value.UnsafePath? && fault.value.path in paths && !safe(fault.value.path))
              || (fault.value.DuplicatePath? && fault.value.path in paths && !Distinct(paths))
  {
    var seen: set<string> := {};
    for i := 0 to |paths|
      invariant forall p :: p in seen <==> p in paths[..i]
      invariant AllSafe(paths[..i], safe) && Distinct(paths[..i])
    {
      var path := paths[i];
      assert paths[..i+1] == paths[..i] + [path];
      if !safe(path) {
        return Some(UnsafePath(path));
      }
      if path in seen {
        var j :| 0 <= j < i && paths[..i][j] == path;
        assert paths[j] == paths[i];
        return Some(DuplicatePath(path));
      }
      seen := seen + {path};
    }
    assert paths[..|paths|] == paths;
    fault := None;
  }

  method ValidateKnown(files: seq<string>, known: set<string>) returns (unknown: Option<string>)
    ensures unknown.None? <==> forall f | f in files :: f in known && !EndsWith(f, LIVE_SUFFIX)
    ensures unknown.Some? ==>
              unknown.value in files && (unknown.value !in known || EndsWith(unknown.value, LIVE_SUFFIX))
  {
    for i := 0 to |files|
      invariant forall f | f in files[..i] :: f in known && !EndsWith(f, LIVE_SUFFIX)
    {
      assert files[..i+1] == files[..i] + [files[i]];
      if files[i] !in known || EndsWith(files[i], LIVE_SUFFIX) {
        return Some(files[i]);
      }
    }
    assert files[..|files|] == files;
    unknown := None;
  }

  lemma OfflineMembers(discovered: seq<string>)
    ensures forall f :: f in Offline(discovered) <==> f in discovered && !EndsWith(f, LIVE_SUFFIX)
  {
    var kept := WithoutLive(discovered);
    forall f ensures f in Offline(discovered) <==> f in kept {
      assert f in multiset(Sorted(kept)) <==> f in multiset(kept);
    }
  }

  lemma {:induction false} KeptCounts(files: seq<string>, f: string)
    ensures multiset(WithoutLive(files))[f] == if EndsWith(f, LIVE_SUFFIX) then 0 else multiset(files)[f]
  {
    if files != [] {
      var n := |files| - 1;
      assert files == files[..n] + [files[n]];
      KeptCounts(files[..n], f);
    }
  }

  /** The offline inventory is the discovered files without the live tests, in order. */
  lemma OfflineInventory(discovered: seq<string>)
    ensures InOrder(Offline(discovered))
    ensures forall f :: multiset(Offline(discovered))[f] ==
                          if exists stem: string :: f == stem + "-live.test.ts" then 0 else multiset(discovered)[f]
  {
    SortedOrders(WithoutLive(discovered));
    forall f ensures multiset(Offline(discovered))[f] ==
                       if exists stem: string :: f == stem + "-live.test.ts" then 0 else multiset(discovered)[f]
    {
      KeptCounts(discovered, f);
      SuffixMeaning(f, "-live.test.ts");
    }
  }

  /** Accepts exactly the acceptable plans, and hands them on unchanged. */
  method ValidatePlan(plan: Plan, checkout: Checkout) returns (r: Result<Plan, PlanError>)
    ensures r.Ok? <==> Acceptable(plan, checkout)
    ensures r.Ok? ==> r.value == plan
    ensures r.Err? ==> Violates(r.error, plan, checkout)
  {
    if plan.base.Some? && !ValidSha(plan.base.value) {
      return Err(InvalidBase);
    }
    if plan.head.None? || !ValidSha(plan.head.value) {
      return Err(InvalidHead);
    }
    if plan.head.value != checkout.head {
      return Err(StaleHead);
    }
    var offline := Offline(checkout.discovered);
    OfflineMembers(checkout.discovered);
    var known := set f | f in offline;
    var changedFault := ValidatePaths(plan.changedFiles, checkout.safe);
    if changedFault.Some? {
      return Err(changedFault.value);
    }
    var fileFault := ValidatePaths(plan.files, checkout.safe);
    if fileFault.Some? {
      return Err(fileFault.value);
    }
    var unknown := ValidateKnown(plan.files, known);
    if unknown.Some? {
      return Err(UnknownTest(unknown.value));
    }
    if plan.mode == RunAll && (plan.files != offline || plan.acceptanceMatrix == Some(Representative)) {
      return Err(IncompleteAll);
    }
    if plan.mode == RunSelected && |plan.files| == 0 {
      return Err(EmptySelection);
    }
    var reusedFullRun := plan.previousFullRun.Some? && plan.base == plan.head && |plan.changedFiles| == 0;
    if plan.previousFullRun.Some? && (plan.mode != RunNone || !reusedFullRun) {
      return Err(MisusedEvidence);
    }
    if plan.mode == RunNone
       && (|plan.files| != 0 || (|plan.changedFiles| == 0 && !reusedFullRun) || plan.base.None?) {
      return Err(UnjustifiedNone);
    }
    if |plan.files| == |offline| && plan.mode == RunSelected {
      return Err(SelectedEverything);
    }
    r := Ok(plan);
  }
}
