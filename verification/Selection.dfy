/** Choosing the tests a change can affect: selectAffectedTests in scripts/verification-plan.ts. */
module Selection {
  import opened Ordering
  import opened PlanContract
  import opened Dependencies

  /** What selection reads from the repository; the path predicates classify by name alone. */
  datatype Repository = Repository(
    sources: Sources,
    capabilities: set<string>,
    present: string -> bool,
    documentation: string -> bool,
    shared: string -> bool,
    dimension: string -> bool)

  datatype Selection = Selection(files: seq<string>, reason: Reason, acceptanceMatrix: Option<Matrix>)

  const TEST_LEVELS := ["unit", "component-integration", "system", "system-integration", "acceptance"]

  // ---------- capabilities by path ----------

  /** The parts of a path between slashes. */
  function Parts(path: string): (parts: seq<string>)
    ensures parts != []
    ensures |parts| > 1 ==> parts[0] + "/" <= path
  {
    if path == "" then [""]
    else
      var rest := Parts(path[1..]);
      if path[0] == '/' then [""] + rest
      else
        assert path == [path[0]] + path[1..];
        [[path[0]] + rest[0]] + rest[1..]
  }

  function SourceCapability(path: string, capabilities: set<string>): Option<string> {
    var parts := Parts(path);
    if |parts| > 4 && parts[..3] == ["packages", "pi-stuff", "src"] && parts[3] in capabilities && parts[3] != ""
    then Some(parts[3]) else None
  }

  function TestCapability(path: string, capabilities: set<string>): Option<string> {
    var parts := Parts(path);
    if |parts| < 2 || parts[0] != "tests" || parts[1] !in TEST_LEVELS then None
    else if |parts| > 2 && parts[2] != "" && (parts[2] in capabilities || parts[2] == "repository")
    then Some(parts[2]) else None
  }

  /** The capability of a production file, or of a file under the test directory. */
  function Capability(path: string, capabilities: set<string>): Option<string> {
    match SourceCapability(path, capabilities)
    case Some(c) => Some(c)
    case None => if "tests/" <= path then TestCapability(path, capabilities) else None
  }

  /** A test's own capability is always found by the general rule. */
  lemma TestCapabilityIsCapability(path: string, capabilities: set<string>)
    requires TestCapability(path, capabilities).Some?
    ensures Capability(path, capabilities) == TestCapability(path, capabilities)
  {
    var parts := Parts(path);
    assert parts[0] + "/" == "tests/";
    if |parts| > 4 {
      assert parts[..3][0] == "tests";
    }
  }

  // ---------- what a change affects ----------

  /** `n` steps from importer to imported file lead from `file` to `target`. */
  ghost predicate DependsIn(sources: Sources, n: nat, file: string, target: string) {
    if n == 0 then file == target
    else exists f :: Edge(sources, file, f) && DependsIn(sources, n - 1, f, target)
  }

  ghost predicate Depends(sources: Sources, file: string, target: string) {
    exists n: nat :: DependsIn(sources, n, file, target)
  }

  /** `n` imports of scanned files lead from `file` to a changed path. */
  ghost predicate ImpactedIn(sources: Sources, changed: seq<string>, n: nat, file: string) {
    if n == 0 then file in changed
    else
      && Reached(sources, file)
      && exists f :: ImpactedIn(sources, changed, n - 1, f) && Edge(sources, file, f)
  }

  ghost predicate Impacted(sources: Sources, changed: seq<string>, file: string) {
    exists n: nat :: ImpactedIn(sources, changed, n, file)
  }

  lemma ChangedIsImpacted(sources: Sources, changed: seq<string>, file: string)
    requires file in changed
    ensures Impacted(sources, changed, file)
  {
    assert ImpactedIn(sources, changed, 0, file);
  }

  lemma ImporterIsImpacted(sources: Sources, changed: seq<string>, current: string, dependent: string)
    requires Impacted(sources, changed, current) && Reached(sources, dependent) && Edge(sources, dependent, current)
    ensures Impacted(sources, changed, dependent)
  {
    var n: nat :| ImpactedIn(sources, changed, n, current);
    assert ImpactedIn(sources, changed, n + 1, dependent);
  }

  ghost predicate ClosedUnderImporters(sources: Sources, closed: seq<string>) {
    forall f, d | f in closed && Reached(sources, d) && Edge(sources, d, f) :: d in closed
  }

  lemma {:induction false} ClosedHoldsImpacted(sources: Sources, changed: seq<string>, closed: seq<string>, n: nat,
                                               file: string)
    requires forall f | f in changed :: f in closed
    requires ClosedUnderImporters(sources, closed)
    requires ImpactedIn(sources, changed, n, file)
    ensures file in closed
  {
    if n > 0 {
      var f :| ImpactedIn(sources, changed, n - 1, f) && Edge(sources, file, f);
      ClosedHoldsImpacted(sources, changed, closed, n - 1, f);
    }
  }

  // ---------- the walk back from the change ----------

  function AddCapability(caps: seq<string>, capability: Option<string>): (r: seq<string>)
    ensures forall c :: c in r <==> c in caps || capability == Some(c)
  {
    if capability.Some? then AddUnique(caps, capability.value) else caps
  }

  ghost predicate SomeSource(paths: seq<string>, capabilities: set<string>, c: string) {
    exists f :: f in paths && SourceCapability(f, capabilities) == Some(c)
  }

  ghost predicate SomeCapable(paths: seq<string>, capabilities: set<string>, c: string) {
    exists f :: f in paths && Capability(f, capabilities) == Some(c)
  }

  method RecordSources(changed: seq<string>, capabilities: set<string>) returns (caps: seq<string>)
    ensures forall c :: c in caps <==> SomeSource(changed, capabilities, c)
  {
    caps := [];
    for i := 0 to |changed|
      invariant forall c :: c in caps <==> SomeSource(changed[..i], capabilities, c)
    {
      assert changed[..i+1] == changed[..i] + [changed[i]];
      caps := AddCapability(caps, SourceCapability(changed[i], capabilities));
    }
    assert changed[..|changed|] == changed;
  }

  method RecordAll(changed: seq<string>, capabilities: set<string>, caps0: seq<string>) returns (caps: seq<string>)
    ensures forall c :: c in caps <==> c in caps0 || SomeCapable(changed, capabilities, c)
  {
    caps := caps0;
    for i := 0 to |changed|
      invariant forall c :: c in caps <==> c in caps0 || SomeCapable(changed[..i], capabilities, c)
    {
      assert changed[..i+1] == changed[..i] + [changed[i]];
      caps := AddCapability(caps, Capability(changed[i], capabilities));
    }
    assert changed[..|changed|] == changed;
  }

  /** Queues the dependents not seen before and records their capabilities. */
  method VisitDependents(dependents: seq<string>, seen0: set<string>, caps0: seq<string>, capabilities: set<string>)
    returns (added: seq<string>, seen: set<string>, caps: seq<string>)
    ensures Distinct(added) && forall f | f in added :: f in dependents && f !in seen0
    ensures seen == seen0 + (set f | f in added) && forall d | d in dependents :: d in seen
    ensures forall c :: c in caps <==> c in caps0 || SomeCapable(added, capabilities, c)
  {
    added, seen, caps := [], seen0, caps0;
    for i := 0 to |dependents|
      invariant Distinct(added) && forall f | f in added :: f in dependents && f !in seen0
      invariant seen == seen0 + (set f | f in added) && forall d | d in dependents[..i] :: d in seen
      invariant forall c :: c in caps <==> c in caps0 || SomeCapable(added, capabilities, c)
    {
      var dependent := dependents[i];
      assert dependents[..i+1] == dependents[..i] + [dependent];
      if dependent !in seen {
        seen := seen + {dependent};
        added := added + [dependent];
        caps := AddCapability(caps, Capability(dependent, capabilities));
      }
    }
    assert dependents[..|dependents|] == dependents;
  }

  /** The state of the walk after the first `i` entries of its queue. */
  ghost predicate Frontier(sources: Sources, changed: seq<string>, added: seq<string>, i: nat)
    requires i <= |changed + added|
  {
    && Distinct(added)
    && (forall f | f in changed + added :: Impacted(sources, changed, f))
    && (forall k, d | 0 <= k < i && Reached(sources, d) && Edge(sources, d, (changed + added)[k]) ::
          d in changed + added)
  }

  lemma FrontierStep(sources: Sources, changed: seq<string>, added: seq<string>, i: nat, more: seq<string>,
                     dependents: seq<string>)
    requires i < |changed + added| && Frontier(sources, changed, added, i)
    requires forall d :: d in dependents <==> Reached(sources, d) && Edge(sources, d, (changed + added)[i])
    requires Distinct(more) && forall f | f in more :: f in dependents && f !in changed + added
    requires forall d | d in dependents :: d in changed + added + more
    ensures Frontier(sources, changed, added + more, i + 1)
  {
    var queue := changed + added;
    assert changed + (added + more) == queue + more;
    forall f | f in queue + more ensures Impacted(sources, changed, f) {
      if f !in queue { ImporterIsImpacted(sources, changed, queue[i], f); }
    }
    forall x | x in added ensures x in queue {}
    DistinctConcat(added, more);
  }

  lemma FrontierDone(sources: Sources, changed: seq<string>, added: seq<string>)
    requires Frontier(sources, changed, added, |changed + added|)
    ensures forall f :: f in changed + added <==> Impacted(sources, changed, f)
  {
    var queue := changed + added;
    forall f ensures f in queue <==> Impacted(sources, changed, f) {
      if Impacted(sources, changed, f) {
        var n: nat :| ImpactedIn(sources, changed, n, f);
        ClosedHoldsImpacted(sources, changed, queue, n, f);
      }
    }
  }

  /** The change as recorded by the walk: changed production files, and everything that imports the change. */
  ghost predicate Recorded(sources: Sources, changed: seq<string>, capabilities: set<string>, c: string) {
    || SomeSource(changed, capabilities, c)
    || exists f :: f !in changed && Impacted(sources, changed, f) && Capability(f, capabilities) == Some(c)
  }

  method DependencyCapabilities(sources: Sources, changed: seq<string>, capabilities: set<string>)
    returns (caps: seq<string>, uncertain: bool)
    ensures uncertain <==> exists f :: Reached(sources, f) && Uncertain(sources, f)
    ensures forall c :: c in caps <==> Recorded(sources, changed, capabilities, c)
  {
    var reverse;
    reverse, uncertain := VerificationDependencies(sources);
    var seen := set f | f in changed;
    caps := RecordSources(changed, capabilities);
    ghost var universe := set t, d | t in reverse.Keys && d in reverse[t] :: d;
    var queue := changed;
    ghost var added: seq<string> := [];
    forall f | f in changed ensures Impacted(sources, changed, f) { ChangedIsImpacted(sources, changed, f); }
    var i := 0;
    while i < |queue|
      invariant 0 <= i <= |queue| && queue == changed + added
      invariant seen == set f | f in queue
      invariant Frontier(sources, changed, added, i)
      invariant forall f | f in added :: f in universe && f !in changed
      invariant forall c :: c in caps <==>
        SomeSource(changed, capabilities, c) || SomeCapable(added, capabilities, c)
      decreases |universe| + |changed| - i
    {
      var current := queue[i];
      DistinctFits(added, universe);
      var dependents := DependentsOf(reverse, current);
      assert forall d :: d in dependents <==> Linked(reverse, d, current);
      var more;
      more, seen, caps := VisitDependents(dependents, seen, caps, capabilities);
      FrontierStep(sources, changed, added, i, more, dependents);
      queue := queue + more;
      added := added + more;
      assert queue == changed + added;
      i := i + 1;
    }
    FrontierDone(sources, changed, added);
    RecordedExactly(sources, changed, added, capabilities, caps);
  }

  lemma RecordedExactly(sources: Sources, changed: seq<string>, added: seq<string>, capabilities: set<string>,
                        caps: seq<string>)
    requires forall f :: f in changed + added <==> Impacted(sources, changed, f)
    requires forall f | f in added :: f !in changed
    requires forall c :: c in caps <==> SomeSource(changed, capabilities, c) || SomeCapable(added, capabilities, c)
    ensures forall c :: c in caps <==> Recorded(sources, changed, capabilities, c)
  {
    forall c ensures c in caps <==> Recorded(sources, changed, capabilities, c) {
      if SomeCapable(added, capabilities, c) {
        var f :| f in added && Capability(f, capabilities) == Some(c);
        assert f in changed + added && f !in changed;
      }
      if f :| f !in changed && Impacted(sources, changed, f) && Capability(f, capabilities) == Some(c) {
        assert f in changed + added;
        assert f in added;
      }
    }
  }

  // ---------- selection ----------

  /** The changed paths that are not engineering documentation. */
  function CodeChanges(repo: Repository, changed: seq<string>): (r: seq<string>)
    ensures forall p :: p in r <==> p in changed && !repo.documentation(p)
  {
    if changed == [] then []
    else
      var n := |changed| - 1;
      assert changed == changed[..n] + [changed[n]];
      CodeChanges(repo, changed[..n]) + (if repo.documentation(changed[n]) then [] else [changed[n]])
  }

  /** A path whose impact cannot be traced by name and import. */
  predicate Untraceable(repo: Repository, path: string) {
    repo.shared(path) || !repo.present(path) || Capability(path, repo.capabilities).None?
  }

  /** A path is traced by its name and its imports: present, not shared, and of some capability. */
  ghost predicate Traced(repo: Repository, path: string) {
    repo.present(path) && !repo.shared(path) && Capability(path, repo.capabilities).Some?
  }

  predicate Chosen(test: string, caps: seq<string>, production: bool, capabilities: set<string>) {
    match TestCapability(test, capabilities)
    case None => false
    case Some(c) => c in caps || ((production || "repository" in caps) && c == "repository")
  }

  lemma {:induction false} ChosenCounts(tests: seq<string>, caps: seq<string>, production: bool,
                                        capabilities: set<string>, t: string)
    ensures multiset(ChosenTests(tests, caps, production, capabilities))[t] ==
              if Chosen(t, caps, production, capabilities) then multiset(tests)[t] else 0
  {
    if tests != [] {
      var n := |tests| - 1;
      assert tests == tests[..n] + [tests[n]];
      ChosenCounts(tests[..n], caps, production, capabilities, t);
    }
  }

  lemma {:induction false} ChosenKeepOrder(tests: seq<string>, caps: seq<string>, production: bool,
                                           capabilities: set<string>)
    requires InOrder(tests)
    ensures InOrder(ChosenTests(tests, caps, production, capabilities))
  {
    if tests != [] {
      var n := |tests| - 1;
      ChosenKeepOrder(tests[..n], caps, production, capabilities);
      forall t | t in ChosenTests(tests[..n], caps, production, capabilities) ensures LexLe(t, tests[n]) {
        assert t in tests[..n];
      }
    }
  }

  /** The chosen tests are all those of the inventory that are chosen, in its order. */
  lemma ChosenInOrder(tests: seq<string>, caps: seq<string>, production: bool, capabilities: set<string>)
    ensures InOrder(tests) ==> InOrder(ChosenTests(tests, caps, production, capabilities))
    ensures forall t :: multiset(ChosenTests(tests, caps, production, capabilities))[t] ==
                          if Chosen(t, caps, production, capabilities) then multiset(tests)[t] else 0
  {
    if InOrder(tests) { ChosenKeepOrder(tests, caps, production, capabilities); }
    forall t ensures multiset(ChosenTests(tests, caps, production, capabilities))[t] ==
                       if Chosen(t, caps, production, capabilities) then multiset(tests)[t] else 0
    {
      ChosenCounts(tests, caps, production, capabilities, t);
    }
  }

  function ChosenTests(tests: seq<string>, caps: seq<string>, production: bool, capabilities: set<string>)
    : (r: seq<string>)
    ensures forall t :: t in r <==> t in tests && Chosen(t, caps, production, capabilities)
    ensures |r| <= |tests| && (|r| == |tests| ==> r == tests)
    ensures Distinct(tests) ==> Distinct(r)
  {
    if tests == [] then []
    else
      var n := |tests| - 1;
      assert tests == tests[..n] + [tests[n]];
      var r := ChosenTests(tests[..n], caps, production, capabilities);
      if Chosen(tests[n], caps, production, capabilities) then r + [tests[n]] else r
  }

  ghost predicate ImpactedCapability(sources: Sources, changed: seq<string>, capabilities: set<string>, c: string) {
    exists f :: Impacted(sources, changed, f) && Capability(f, capabilities) == Some(c)
  }

  ghost predicate SomeUncertainFile(sources: Sources) {
    exists f :: Reached(sources, f) && Uncertain(sources, f)
  }

  /** With every import followed, an imported file that itself imports something is scanned too. */
  lemma ImporterReached(sources: Sources, file: string, f: string)
    requires Reached(sources, file) && Edge(sources, file, f) && exists g :: Edge(sources, f, g)
    requires !SomeUncertainFile(sources)
    ensures Reached(sources, f)
  {
    assert !Uncertain(sources, file);
    if f in sources.files {
      EdgeReaches(sources, file, f);
    } else if f in sources.tests {
      SeedReached(sources, f);
    } else {
      assert IsScript(f);
      assert UncertainImport(sources, Found(f));
    }
  }

  /** With every import followed, depending on a change means being impacted by it. */
  lemma {:induction false} DependsIsImpacted(sources: Sources, changed: seq<string>, n: nat, file: string,
                                             target: string)
    requires DependsIn(sources, n, file, target) && target in changed
    requires Reached(sources, file) && !SomeUncertainFile(sources)
    ensures ImpactedIn(sources, changed, n, file)
  {
    if n > 0 {
      var f :| Edge(sources, file, f) && DependsIn(sources, n - 1, f, target);
      if n > 1 {
        ImporterReached(sources, file, f);
        DependsIsImpacted(sources, changed, n - 1, f, target);
      }
    }
  }

  method SelectAffectedTests(repo: Repository, changed: seq<string>) returns (r: Selection)
    ensures Chooses(repo, changed, r)
    ensures forall t | Affected(repo, changed, t) :: t in r.files <==> !Dropped(repo, changed, t)
  {
    var all := repo.sources.tests;
    if |changed| == 0 {
      return Selection(all, EmptyChange, None);
    }
    var code := CodeChanges(repo, changed);
    if |code| == 0 {
      return Selection([], DocumentationOnly, None);
    }
    if exists p | p in code :: Untraceable(repo, p) {
      return Selection(all, SharedOrUncertainPath, None);
    }
    var caps, uncertain := DependencyCapabilities(repo.sources, code, repo.capabilities);
    if uncertain {
      return Selection(all, UnresolvedDependency, None);
    }
    ghost var recorded := caps;
    caps := RecordAll(code, repo.capabilities, caps);
    CapsAreImpacted(repo, code, recorded, caps);
    SomeCapabilityFound(repo, code, caps);
    var production := exists p | p in code :: PRODUCTION <= p;
    var files := ChosenTests(all, caps, production, repo.capabilities);
    var matrix := if exists p | p in code :: repo.dimension(p) then Full else Representative;
    r := Selection(if |files| == 0 then all else files, ChangedCapabilities(Sorted(caps)), Some(matrix));
    SortedKeepsMembers(caps);
    ChosenDependOnMembers(all, caps, Sorted(caps), production, repo.capabilities);
    forall t | Affected(repo, changed, t) ensures t in r.files <==> !Dropped(repo, changed, t) {
      AffectedKeptIffNotDropped(repo, changed, r, t);
    }
  }

  /** The fallback for an empty list of capabilities is never needed: a traceable change has one. */
  lemma SomeCapabilityFound(repo: Repository, code: seq<string>, caps: seq<string>)
    requires code != [] && forall p | p in code :: Traced(repo, p)
    requires forall c :: c in caps <==> ImpactedCapability(repo.sources, code, repo.capabilities, c)
    ensures caps != []
  {
    var p := code[0];
    assert Traced(repo, p);
    ChangedIsImpacted(repo.sources, code, p);
    assert Capability(p, repo.capabilities).value in caps;
  }

  /** A test that imports, in any number of steps, a changed path that is not documentation. */
  ghost predicate Affected(repo: Repository, changed: seq<string>, test: string) {
    && test in repo.sources.tests
    && exists c :: c in changed && !repo.documentation(c) && Depends(repo.sources, test, c)
  }

  /** The test's capability is one of the impacted ones, or "repository" when production changed. */
  ghost predicate HasImpactedCapability(repo: Repository, code: seq<string>, test: string) {
    && TestCapability(test, repo.capabilities).Some?
    && var c := TestCapability(test, repo.capabilities).value;
    || ImpactedCapability(repo.sources, code, repo.capabilities, c)
    || (c == "repository" && exists p | p in code :: "packages/pi-stuff/src/" <= p)
  }

  /** No fallback applies: every path is traced, every import followed, and some test has an impacted capability. */
  ghost predicate SelectsByCapability(repo: Repository, code: seq<string>) {
    && (forall p | p in code :: Traced(repo, p))
    && !SomeUncertainFile(repo.sources)
    && exists t :: t in repo.sources.tests && HasImpactedCapability(repo, code, t)
  }

  /** The tests that selection by capability cannot see: those whose path names no capability. */
  ghost predicate Dropped(repo: Repository, changed: seq<string>, test: string) {
    TestCapability(test, repo.capabilities).None? && SelectsByCapability(repo, CodeChanges(repo, changed))
  }

  lemma AffectedIsImpacted(repo: Repository, changed: seq<string>, t: string)
    requires !SomeUncertainFile(repo.sources) && Affected(repo, changed, t)
    ensures Impacted(repo.sources, CodeChanges(repo, changed), t)
  {
    var c :| c in changed && !repo.documentation(c) && Depends(repo.sources, t, c);
    var n: nat :| DependsIn(repo.sources, n, t, c);
    SeedReached(repo.sources, t);
    DependsIsImpacted(repo.sources, CodeChanges(repo, changed), n, t, c);
  }

  lemma RecognisedHasImpactedCapability(repo: Repository, changed: seq<string>, t: string)
    requires !SomeUncertainFile(repo.sources) && Affected(repo, changed, t)
    requires TestCapability(t, repo.capabilities).Some?
    ensures HasImpactedCapability(repo, CodeChanges(repo, changed), t)
  {
    AffectedIsImpacted(repo, changed, t);
    TestCapabilityIsCapability(t, repo.capabilities);
  }

  /** Without a fallback exactly the tests with an impacted capability are chosen. */
  lemma SelectedByCapability(repo: Repository, code: seq<string>, r: Selection)
    requires Selected(repo, code, r) && SelectsByCapability(repo, code)
    ensures forall t :: t in r.files <==> t in repo.sources.tests && HasImpactedCapability(repo, code, t)
  {
    var production := exists p | p in code :: PRODUCTION <= p;
    forall t | t in repo.sources.tests
      ensures Chosen(t, r.reason.names, production, repo.capabilities) <==> HasImpactedCapability(repo, code, t)
    {
    }
    var some :| some in repo.sources.tests && HasImpactedCapability(repo, code, some);
    assert some in ChosenTests(repo.sources.tests, r.reason.names, production, repo.capabilities);
  }

  /** With a fallback everything is chosen. */
  lemma SelectedByFallback(repo: Repository, code: seq<string>, r: Selection)
    requires Selected(repo, code, r) && !SelectsByCapability(repo, code)
    ensures r.files == repo.sources.tests
  {
    if r.reason.ChangedCapabilities? {
      var production := exists p | p in code :: PRODUCTION <= p;
      var files := ChosenTests(repo.sources.tests, r.reason.names, production, repo.capabilities);
      if files != [] {
        assert Chosen(files[0], r.reason.names, production, repo.capabilities);
        assert HasImpactedCapability(repo, code, files[0]);
      }
    }
  }

  lemma ChoosesForCode(repo: Repository, changed: seq<string>, r: Selection, t: string)
    requires Chooses(repo, changed, r) && Affected(repo, changed, t)
    ensures Selected(repo, CodeChanges(repo, changed), r)
  {
    var c :| c in changed && !repo.documentation(c) && Depends(repo.sources, t, c);
    assert c in CodeChanges(repo, changed);
  }

  /** An affected test is left out exactly when its path names no capability and no fallback applies. */
  lemma AffectedKeptIffNotDropped(repo: Repository, changed: seq<string>, r: Selection, t: string)
    requires Chooses(repo, changed, r) && Affected(repo, changed, t)
    ensures t in r.files <==> !Dropped(repo, changed, t)
  {
    var code := CodeChanges(repo, changed);
    ChoosesForCode(repo, changed, r, t);
    if SelectsByCapability(repo, code) {
      SelectedByCapability(repo, code, r);
      if TestCapability(t, repo.capabilities).Some? { RecognisedHasImpactedCapability(repo, changed, t); }
    } else {
      SelectedByFallback(repo, code, r);
    }
  }

  /** Where every test's path names a capability, no affected test is ever left out. */
  lemma RecognisedTestsKeepAll(repo: Repository, changed: seq<string>, r: Selection)
    requires Chooses(repo, changed, r)
    requires forall t | t in repo.sources.tests :: TestCapability(t, repo.capabilities).Some?
    ensures forall t | Affected(repo, changed, t) :: t in r.files
  {
    forall t | Affected(repo, changed, t) ensures t in r.files { AffectedKeptIffNotDropped(repo, changed, r, t); }
  }

  // ---------- an affected test that is left out ----------

  predicate PathName(name: string) { name != "" && '/' !in name }

  /** The path made of these names. */
  function Path(names: seq<string>): string
    requires names != []
  {
    if |names| == 1 then names[0] else names[0] + "/" + Path(names[1..])
  }

  lemma {:induction false} PartsSplit(head: string, rest: string)
    requires '/' !in head
    ensures Parts(head + "/" + rest) == [head] + Parts(rest)
  {
    var path := head + "/" + rest;
    if head == "" {
      assert path[1..] == rest;
    } else {
      assert path[1..] == head[1..] + "/" + rest;
      assert [head[0]] + head[1..] == head;
      PartsSplit(head[1..], rest);
    }
  }

  lemma {:induction false} PartsOfName(name: string)
    requires '/' !in name
    ensures Parts(name) == [name]
  {
    if name != "" {
      PartsOfName(name[1..]);
      assert name == [name[0]] + name[1..];
    }
  }

  lemma {:induction false} PartsOfPath(names: seq<string>)
    requires names != [] && forall n | n in names :: '/' !in n
    ensures Parts(Path(names)) == names
  {
    assert names[0] in names && forall n | n in names[1..] :: n in names;
    if |names| == 1 {
      PartsOfName(names[0]);
    } else {
      PartsOfPath(names[1..]);
      PartsSplit(names[0], Path(names[1..]));
    }
  }

  /** A production file of a capability, a test of that capability, and a test that imports the file from a directory
      of tests named after no capability, as `tests/unit/shared` is. */
  function SharedTests(capability: string, host: string, own: string, shared: string): Repository {
    Repository(
      Sources([host, own, shared], [own, shared],
              file => Imports(false, None, if file == shared then [Found(host)] else [])),
      {capability}, _ => true, _ => false, _ => false, _ => false)
  }

  /** When only the production file changes, whatever is selected, the test that imports it is left out. */
  lemma SharedTestIsLeftOut(capability: string, directory: string, name: string, r: Selection)
    requires PathName(capability) && PathName(directory) && PathName(name)
    requires directory != capability && directory != "repository"
    ensures
      var host := Path(["packages", "pi-stuff", "src", capability, name]);
      var own, shared := Path(["tests", "unit", capability, name]), Path(["tests", "unit", directory, name]);
      var repo := SharedTests(capability, host, own, shared);
      && Affected(repo, [host], shared)
      && (Chooses(repo, [host], r) ==> shared !in r.files && own in r.files)
  {
    var host := Path(["packages", "pi-stuff", "src", capability, name]);
    var own, shared := Path(["tests", "unit", capability, name]), Path(["tests", "unit", directory, name]);
    SourcePath(capability, name);
    UnitTestPath(capability, capability, name);
    UnitTestPath(capability, directory, name);
    SharedTestUnseen(SharedTests(capability, host, own, shared), capability, host, own, shared, r);
  }

  lemma SourcePath(capability: string, name: string)
    requires PathName(capability) && PathName(name)
    ensures SourceCapability(Path(["packages", "pi-stuff", "src", capability, name]), {capability}) == Some(capability)
  {
    PartsOfPath(["packages", "pi-stuff", "src", capability, name]);
  }

  lemma UnitTestPath(capability: string, directory: string, name: string)
    requires PathName(directory) && PathName(name)
    ensures TestCapability(Path(["tests", "unit", directory, name]), {capability}) ==
              if directory == capability || directory == "repository" then Some(directory) else None
  {
    PartsOfPath(["tests", "unit", directory, name]);
  }

  lemma SharedTestUnseen(repo: Repository, capability: string, host: string, own: string, shared: string, r: Selection)
    requires repo.sources.files == [host, own, shared] && repo.sources.tests == [own, shared]
    requires forall f :: repo.sources.importsOf(f) == Imports(false, None, if f == shared then [Found(host)] else [])
    requires repo.present(host) && !repo.documentation(host) && !repo.shared(host)
    requires SourceCapability(host, repo.capabilities) == Some(capability)
    requires TestCapability(own, repo.capabilities) == Some(capability)
    requires TestCapability(shared, repo.capabilities) == None
    ensures Affected(repo, [host], shared)
    ensures Chooses(repo, [host], r) ==> shared !in r.files && own in r.files
  {
    var code := CodeChanges(repo, [host]);
    assert [host][..0] == [] && CodeChanges(repo, []) == [];
    assert code == [host];
    assert Edge(repo.sources, shared, host);
    assert DependsIn(repo.sources, 0, host, host);
    assert DependsIn(repo.sources, 1, shared, host);
    ChangedIsImpacted(repo.sources, code, host);
    assert HasImpactedCapability(repo, code, own);
    if Chooses(repo, [host], r) { SelectedByCapability(repo, code, r); }
  }

  /** What is selected for any change. */
  ghost predicate Chooses(repo: Repository, changed: seq<string>, r: Selection) {
    && (changed == [] ==> r == Selection(repo.sources.tests, EmptyChange, None))
    && (changed != [] && CodeChanges(repo, changed) == [] ==> r == Selection([], DocumentationOnly, None))
    && (CodeChanges(repo, changed) != [] ==> Selected(repo, CodeChanges(repo, changed), r))
  }

  /** What is selected for a change to code. */
  ghost predicate Selected(repo: Repository, code: seq<string>, r: Selection) {
    var all := repo.sources.tests;
    var untraceable := exists p | p in code :: !Traced(repo, p);
    && (r.reason == SharedOrUncertainPath <==> untraceable)
    && (r.reason == UnresolvedDependency <==> !untraceable && SomeUncertainFile(repo.sources))
    && (r.reason.ChangedCapabilities? <==> !untraceable && !SomeUncertainFile(repo.sources))
    && (!r.reason.ChangedCapabilities? ==> r.files == all && r.acceptanceMatrix.None?)
    && (r.reason.ChangedCapabilities? ==>
          var caps := r.reason.names;
          var production := exists p | p in code :: PRODUCTION <= p;
          var files := ChosenTests(all, caps, production, repo.capabilities);
          && (forall c :: c in caps <==> ImpactedCapability(repo.sources, code, repo.capabilities, c))
          && r.files == (if files == [] then all else files)
          && r.acceptanceMatrix == Some(if exists p | p in code :: repo.dimension(p) then Full else Representative))
  }

  lemma CapsAreImpacted(repo: Repository, code: seq<string>, recorded: seq<string>, caps: seq<string>)
    requires forall c :: c in recorded <==> Recorded(repo.sources, code, repo.capabilities, c)
    requires forall c :: c in caps <==> c in recorded || SomeCapable(code, repo.capabilities, c)
    ensures forall c :: c in caps <==> ImpactedCapability(repo.sources, code, repo.capabilities, c)
  {
    forall c ensures c in caps <==> ImpactedCapability(repo.sources, code, repo.capabilities, c) {
      if SomeCapable(code, repo.capabilities, c) {
        var f :| f in code && Capability(f, repo.capabilities) == Some(c);
        ChangedIsImpacted(repo.sources, code, f);
      }
      if SomeSource(code, repo.capabilities, c) {
        var f :| f in code && SourceCapability(f, repo.capabilities) == Some(c);
        ChangedIsImpacted(repo.sources, code, f);
      }
      if ImpactedCapability(repo.sources, code, repo.capabilities, c) {
        var f :| Impacted(repo.sources, code, f) && Capability(f, repo.capabilities) == Some(c);
        if f in code {
          assert SomeCapable(code, repo.capabilities, c);
        } else {
          assert Recorded(repo.sources, code, repo.capabilities, c);
        }
      }
    }
  }

  lemma SortedKeepsMembers(caps: seq<string>)
    ensures forall c :: c in Sorted(caps) <==> c in caps
  {
    forall c ensures c in Sorted(caps) <==> c in caps {
      assert c in multiset(Sorted(caps)) <==> c in multiset(caps);
    }
  }

  lemma {:induction false} ChosenDependOnMembers(tests: seq<string>, a: seq<string>, b: seq<string>, production: bool,
                                                 capabilities: set<string>)
    requires forall c :: c in a <==> c in b
    ensures ChosenTests(tests, a, production, capabilities) == ChosenTests(tests, b, production, capabilities)
  {
    if tests != [] {
      ChosenDependOnMembers(tests[..|tests|-1], a, b, production, capabilities);
    }
  }
}
