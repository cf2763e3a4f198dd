/** The growing worklist over imports: scripts/verification-dependencies.ts. */
module Dependencies {
  import opened Ordering
  import opened PlanContract

  /** What one relative import specifier leads to. */
  datatype Resolution =
    | Boundary                 // not relative, or inside an installed package
    | Missing                  // no such file
    | Found(target: string)

  /** The imports of a file; `declared` lists its dependencies when a declaration with its digest exists. */
  datatype Imports = Imports(dynamic: bool, declared: Option<seq<string>>, specifiers: seq<Resolution>)

  datatype Sources = Sources(files: seq<string>, tests: seq<string>, importsOf: string -> Imports)

  type Dependents = map<string, seq<string>>

  const PRODUCTION := "packages/pi-stuff/src/"

  const SCRIPT_SUFFIXES :=
    [".js", ".ts", ".jsx", ".tsx", ".cjs", ".cts", ".cjsx", ".ctsx", ".mjs", ".mts", ".mjsx", ".mtsx"]

  predicate IsScript(path: string) {
    exists s | s in SCRIPT_SUFFIXES :: EndsWith(path, s)
  }

  /** The extension: js or ts, perhaps with a c or m before it and an x after it. */
  ghost predicate ScriptExtension(extension: string) {
    exists before: string, language: char, after: string ::
      Extension(before, language, after) && extension == "." + before + [language] + "s" + after
  }

  predicate Extension(before: string, language: char, after: string) {
    before in ["", "c", "m"] && language in "jt" && after in ["", "x"]
  }

  lemma ExtensionIsListed(before: string, language: char, after: string)
    requires Extension(before, language, after)
    ensures "." + before + [language] + "s" + after in SCRIPT_SUFFIXES
  {
    var i := (if language == 'j' then 0 else 1) + (if after == "x" then 2 else 0)
             + (if before == "c" then 4 else if before == "m" then 8 else 0);
    assert SCRIPT_SUFFIXES[i] == "." + before + [language] + "s" + after;
  }

  lemma ListedIsExtension(i: nat)
    requires i < |SCRIPT_SUFFIXES|
    ensures ScriptExtension(SCRIPT_SUFFIXES[i])
  {
    var before := if i >= 8 then "m" else if i >= 4 then "c" else "";
    var language := if i % 2 == 0 then 'j' else 't';
    var after := if i % 4 >= 2 then "x" else "";
    assert Extension(before, language, after);
    assert SCRIPT_SUFFIXES[i] == "." + before + [language] + "s" + after;
  }

  lemma ScriptsByExtension(path: string)
    ensures IsScript(path) <==> exists stem: string, extension :: ScriptExtension(extension) && path == stem + extension
  {
    if IsScript(path) {
      var suffix :| suffix in SCRIPT_SUFFIXES && EndsWith(path, suffix);
      var i :| 0 <= i < |SCRIPT_SUFFIXES| && SCRIPT_SUFFIXES[i] == suffix;
      ListedIsExtension(i);
      SuffixMeaning(path, suffix);
    }
    if stem: string, extension :| ScriptExtension(extension) && path == stem + extension {
      var before, language, after :|
        Extension(before, language, after) && extension == "." + before + [language] + "s" + after;
      ExtensionIsListed(before, language, after);
      SuffixMeaning(path, extension);
    }
  }

  function AddUnique(s: seq<string>, x: string): (r: seq<string>)
    ensures forall y :: y in r <==> y in s || y == x
    ensures Distinct(s) ==> Distinct(r)
    ensures s <= r
  {
    if x in s then s else s + [x]
  }

  function AddAll(s: seq<string>, xs: seq<string>): (r: seq<string>)
    ensures forall y :: y in r <==> y in s || y in xs
    ensures Distinct(s) ==> Distinct(r)
    ensures s <= r
  {
    if xs == [] then s
    else
      assert xs == xs[..|xs|-1] + [xs[|xs|-1]];
      AddUnique(AddAll(s, xs[..|xs|-1]), xs[|xs|-1])
  }

  predicate Declares(dependency: string, target: string) {
    if EndsWith(dependency, "/") then dependency <= target else target == dependency
  }

  /** A declared directory stands for everything below it, any other name for itself. */
  lemma DeclaredNames(dependency: string, target: string)
    ensures Declares(dependency, target) <==>
              if exists directory: string :: dependency == directory + "/"
              then exists rest: string :: target == dependency + rest
              else target == dependency
  {
    SuffixMeaning(dependency, "/");
    if dependency <= target { assert target == dependency + target[|dependency|..]; }
  }

  function Matching(dependency: string, files: seq<string>): (r: seq<string>)
    ensures forall t :: t in r <==> t in files && Declares(dependency, t)
  {
    if files == [] then []
    else
      var n := |files| - 1;
      assert files == files[..n] + [files[n]];
      Matching(dependency, files[..n]) + (if Declares(dependency, files[n]) then [files[n]] else [])
  }

  // ---------- the import graph, declaratively ----------

  ghost predicate DeclaredEdge(sources: Sources, file: string, target: string) {
    var imports := sources.importsOf(file);
    && imports.dynamic && imports.declared.Some?
    && target in sources.files
    && SomeDeclares(imports.declared.value, target)
  }

  /** Scripts, listed files and tests are programs; any other file is data and imports nothing. */
  ghost predicate CanImport(sources: Sources, file: string) {
    IsScript(file) || file in sources.files || file in sources.tests
  }

  /** `file` imports or declares `target`. */
  ghost predicate Edge(sources: Sources, file: string, target: string) {
    && CanImport(sources, file)
    && (DeclaredEdge(sources, file, target) || Found(target) in sources.importsOf(file).specifiers)
  }

  ghost predicate UncertainImport(sources: Sources, r: Resolution) {
    r.Missing? || (r.Found? && IsScript(r.target) && r.target !in sources.files)
  }

  /** A declared dependency that no listed file matches. */
  ghost predicate SomeUnmatched(dependencies: seq<string>, files: seq<string>) {
    exists d | d in dependencies :: Unmatched(d, files)
  }

  ghost predicate Unmatched(dependency: string, files: seq<string>) {
    forall f | f in files :: !Declares(dependency, f)
  }

  lemma UnmatchedAppend(dependencies: seq<string>, d: string, files: seq<string>)
    ensures SomeUnmatched(dependencies + [d], files) <==> SomeUnmatched(dependencies, files) || Matching(d, files) == []
  {
    assert d in dependencies + [d] && forall x | x in dependencies :: x in dependencies + [d];
    if Matching(d, files) != [] { assert Matching(d, files)[0] in Matching(d, files); }
    assert Unmatched(d, files) <==> Matching(d, files) == [];
  }

  ghost predicate SomeDeclares(dependencies: seq<string>, target: string) {
    exists d | d in dependencies :: Declares(d, target)
  }

  ghost predicate SomeUncertain(sources: Sources, specifiers: seq<Resolution>) {
    exists r | r in specifiers :: UncertainImport(sources, r)
  }

  lemma UncertainAppend(sources: Sources, specifiers: seq<Resolution>, r: Resolution)
    ensures SomeUncertain(sources, specifiers + [r]) <==>
              (SomeUncertain(sources, specifiers) || UncertainImport(sources, r))
  {
    var all := specifiers + [r];
    assert r in all && forall x | x in specifiers :: x in all;
  }

  /** The file has an import that cannot be followed. */
  ghost predicate Uncertain(sources: Sources, file: string) {
    var imports := sources.importsOf(file);
    || (imports.dynamic && imports.declared.None?)
    || (imports.dynamic && imports.declared.Some? && SomeUnmatched(imports.declared.value, sources.files))
    || SomeUncertain(sources, imports.specifiers)
  }

  ghost predicate IsSeed(sources: Sources, file: string) {
    (file in sources.files && "packages/pi-stuff/src/" <= file) || file in sources.tests
  }

  /** A walk of `n` imports from a seed, through listed files, ends at `file`. */
  ghost predicate ReachedIn(sources: Sources, n: nat, file: string) {
    if n == 0 then IsSeed(sources, file)
    else file in sources.files && exists f :: ReachedIn(sources, n - 1, f) && Edge(sources, f, file)
  }

  ghost predicate Reached(sources: Sources, file: string) {
    exists n: nat :: ReachedIn(sources, n, file)
  }

  lemma SeedReached(sources: Sources, file: string)
    requires IsSeed(sources, file)
    ensures Reached(sources, file)
  {
    assert ReachedIn(sources, 0, file);
  }

  lemma EdgeReaches(sources: Sources, file: string, target: string)
    requires Reached(sources, file) && Edge(sources, file, target) && target in sources.files
    ensures Reached(sources, target)
  {
    var n: nat :| ReachedIn(sources, n, file);
    assert ReachedIn(sources, n + 1, target);
  }

  ghost predicate ClosedUnderEdges(sources: Sources, closed: seq<string>) {
    forall f, t | f in closed && Edge(sources, f, t) && t in sources.files :: t in closed
  }

  /** A list that holds the seeds and is closed under edges to listed files holds every reached file. */
  lemma {:induction false} ClosedHoldsReached(sources: Sources, closed: seq<string>, n: nat, file: string)
    requires forall f | IsSeed(sources, f) :: f in closed
    requires ClosedUnderEdges(sources, closed)
    requires ReachedIn(sources, n, file)
    ensures file in closed
  {
    if n > 0 {
      var f :| ReachedIn(sources, n - 1, f) && Edge(sources, f, file);
      ClosedHoldsReached(sources, closed, n - 1, f);
    }
  }

  // ---------- the scan ----------

  function DependentsOf(reverse: Dependents, target: string): seq<string> {
    if target in reverse then reverse[target] else []
  }

  ghost predicate Linked(reverse: Dependents, file: string, target: string) {
    file in DependentsOf(reverse, target)
  }

  class DependencyScan {
    const sources: Sources
    var pending: seq<string>
    var reverse: Dependents
    var uncertain: bool

    constructor (sources: Sources)
      ensures this.sources == sources
      ensures forall f :: f in pending <==> IsSeed(sources, f)
      ensures Distinct(pending) && reverse == map[] && !uncertain
    {
      this.sources := sources;
      pending := AddAll(AddAll([], Matching(PRODUCTION, sources.files)), sources.tests);
      reverse := map[];
      uncertain := false;
    }

    method AddDependency(file: string, target: string)
      requires Distinct(pending)
      modifies this
      ensures Distinct(pending) && old(pending) <= pending && uncertain == old(uncertain)
      ensures forall f :: f in pending <==> f in old(pending) || (f == target && f in sources.files)
      ensures forall f, t :: Linked(reverse, f, t) <==> Linked(old(reverse), f, t) || (f == file && t == target)
    {
      reverse := reverse[target := AddUnique(DependentsOf(reverse, target), file)];
      if target in sources.files {
        pending := AddUnique(pending, target);
      }
    }

    /** Records `file` as a dependent of every target in the list. */
    method AddDependencies(file: string, targets: seq<string>)
      requires Distinct(pending)
      modifies this
      ensures Distinct(pending) && old(pending) <= pending && uncertain == old(uncertain)
      ensures forall f :: f in pending <==> f in old(pending) || (f in targets && f in sources.files)
      ensures forall f, t :: Linked(reverse, f, t) <==> Linked(old(reverse), f, t) || (f == file && t in targets)
    {
      for i := 0 to |targets|
        invariant Distinct(pending) && old(pending) <= pending && uncertain == old(uncertain)
        invariant forall f :: f in pending <==> f in old(pending) || (f in targets[..i] && f in sources.files)
        invariant forall f, t ::
          Linked(reverse, f, t) <==> Linked(old(reverse), f, t) || (f == file && t in targets[..i])
      {
        assert targets[..i+1] == targets[..i] + [targets[i]];
        AddDependency(file, targets[i]);
      }
      assert targets[..|targets|] == targets;
    }

    method ScanDeclared(file: string, dependencies: seq<string>)
      requires Distinct(pending)
      modifies this
      ensures Distinct(pending) && old(pending) <= pending
      ensures uncertain <==> (old(uncertain) || SomeUnmatched(dependencies, sources.files))
      ensures forall f :: f in pending <==>
                f in old(pending) || (f in sources.files && SomeDeclares(dependencies, f))
      ensures forall f, t :: Linked(reverse, f, t) <==>
                || Linked(old(reverse), f, t)
                || (f == file && t in sources.files && SomeDeclares(dependencies, t))
    {
      for i := 0 to |dependencies|
        invariant Distinct(pending) && old(pending) <= pending
        invariant uncertain <==> (old(uncertain) || SomeUnmatched(dependencies[..i], sources.files))
        invariant forall f :: f in pending <==>
          f in old(pending) || (f in sources.files && SomeDeclares(dependencies[..i], f))
        invariant forall f, t :: Linked(reverse, f, t) <==>
          || Linked(old(reverse), f, t)
          || (f == file && t in sources.files && SomeDeclares(dependencies[..i], t))
      {
        var dependency := dependencies[i];
        var targets := Matching(dependency, sources.files);
        assert dependencies[..i+1] == dependencies[..i] + [dependency];
        UnmatchedAppend(dependencies[..i], dependency, sources.files);
        if |targets| == 0 {
          uncertain := true;
        }
        AddDependencies(file, targets);
      }
      assert dependencies[..|dependencies|] == dependencies;
    }

    method ScanSpecifiers(file: string, specifiers: seq<Resolution>)
      requires Distinct(pending)
      modifies this
      ensures Distinct(pending) && old(pending) <= pending
      ensures uncertain <==> (old(uncertain) || SomeUncertain(sources, specifiers))
      ensures forall f :: f in pending <==> f in old(pending) || (f in sources.files && Found(f) in specifiers)
      ensures forall f, t :: Linked(reverse, f, t) <==>
                Linked(old(reverse), f, t) || (f == file && Found(t) in specifiers)
    {
      for i := 0 to |specifiers|
        invariant Distinct(pending) && old(pending) <= pending
        invariant uncertain <==> (old(uncertain) || SomeUncertain(sources, specifiers[..i]))
        invariant forall f :: f in pending <==>
          f in old(pending) || (f in sources.files && Found(f) in specifiers[..i])
        invariant forall f, t :: Linked(reverse, f, t) <==>
          Linked(old(reverse), f, t) || (f == file && Found(t) in specifiers[..i])
      {
        assert specifiers[..i+1] == specifiers[..i] + [specifiers[i]];
        UncertainAppend(sources, specifiers[..i], specifiers[i]);
        match specifiers[i]
        case Boundary =>
        case Missing =>
          uncertain := true;
        case Found(target) =>
          if IsScript(target) && target !in sources.files {
            uncertain := true;
          }
          AddDependency(file, target);
      }
      assert specifiers[..|specifiers|] == specifiers;
    }

    method ScanFile(file: string)
      requires Distinct(pending) && CanImport(sources, file)
      modifies this
      ensures Distinct(pending) && old(pending) <= pending
      ensures uncertain <==> old(uncertain) || Uncertain(sources, file)
      ensures forall f :: f in pending <==> f in old(pending) || (f in sources.files && Edge(sources, file, f))
      ensures forall f, t :: Linked(reverse, f, t) <==>
                Linked(old(reverse), f, t) || (f == file && Edge(sources, file, t))
    {
      var imports := sources.importsOf(file);
      if imports.dynamic {
        match imports.declared
        case None =>
          uncertain := true;
        case Some(dependencies) =>
          ScanDeclared(file, dependencies);
      }
      ScanSpecifiers(file, imports.specifiers);
    }

    /** Visits every file of the worklist, including those added on the way. */
    method Scan()
      requires forall f :: f in pending <==> IsSeed(sources, f)
      requires Distinct(pending) && reverse == map[] && !uncertain
      modifies this
      ensures forall f :: f in pending <==> Reached(sources, f)
      ensures forall f, t :: Linked(reverse, f, t) <==> Reached(sources, f) && Edge(sources, f, t)
      ensures uncertain <==> exists f :: Reached(sources, f) && Uncertain(sources, f)
    {
      ghost var universe := (set f | f in sources.files) + (set f | f in sources.tests);
      forall f | f in pending ensures Reached(sources, f) { SeedReached(sources, f); }
      var i := 0;
      while i < |pending|
        invariant 0 <= i <= |pending| && Distinct(pending)
        invariant forall f | IsSeed(sources, f) :: f in pending
        invariant Worklist(sources, pending, i, reverse, uncertain)
        decreases |universe| - i
      {
        var file := pending[i];
        DistinctFits(pending, universe);
        ghost var before, links, flag := pending, reverse, uncertain;
        ScanFile(file);
        WorklistStep(sources, before, i, links, flag, pending, reverse, uncertain);
        i := i + 1;
      }
      WorklistDone(sources, pending, reverse, uncertain);
    }
  }

  /** The state of the scan after the first `i` files of the worklist have been visited. */
  ghost predicate Worklist(sources: Sources, pending: seq<string>, i: nat, reverse: Dependents, uncertain: bool)
    requires i <= |pending|
  {
    && (forall f | f in pending :: (f in sources.files || f in sources.tests) && Reached(sources, f))
    && (forall k, t | 0 <= k < i && Edge(sources, pending[k], t) && t in sources.files :: t in pending)
    && (forall f, t :: Linked(reverse, f, t) <==> f in pending[..i] && Edge(sources, f, t))
    && (uncertain <==> exists f | f in pending[..i] :: Uncertain(sources, f))
  }

  lemma WorklistStep(sources: Sources, before: seq<string>, i: nat, links: Dependents, flag: bool,
                     after: seq<string>, reverse: Dependents, uncertain: bool)
    requires i < |before| && Worklist(sources, before, i, links, flag) && before <= after
    requires uncertain <==> (flag || Uncertain(sources, before[i]))
    requires forall f :: f in after <==> f in before || (f in sources.files && Edge(sources, before[i], f))
    requires forall f, t :: Linked(reverse, f, t) <==>
               Linked(links, f, t) || (f == before[i] && Edge(sources, before[i], t))
    ensures Worklist(sources, after, i + 1, reverse, uncertain)
  {
    var file := before[i];
    forall f | f in after ensures (f in sources.files || f in sources.tests) && Reached(sources, f) {
      if f !in before { EdgeReaches(sources, file, f); }
    }
    assert after[..i+1] == before[..i] + [file];
  }

  lemma WorklistDone(sources: Sources, pending: seq<string>, reverse: Dependents, uncertain: bool)
    requires forall f | IsSeed(sources, f) :: f in pending
    requires Worklist(sources, pending, |pending|, reverse, uncertain)
    ensures forall f :: f in pending <==> Reached(sources, f)
    ensures forall f, t :: Linked(reverse, f, t) <==> Reached(sources, f) && Edge(sources, f, t)
    ensures uncertain <==> exists f :: Reached(sources, f) && Uncertain(sources, f)
  {
    assert pending[..|pending|] == pending;
    forall f ensures f in pending <==> Reached(sources, f) {
      if Reached(sources, f) {
        var n: nat :| ReachedIn(sources, n, f);
        ClosedHoldsReached(sources, pending, n, f);
      }
    }
  }

  lemma {:induction false} DistinctFits<T>(s: seq<T>, universe: set<T>)
    requires Distinct(s) && forall x | x in s :: x in universe
    ensures |s| <= |universe|
  {
    if s != [] {
      var n := |s| - 1;
      assert s[n] !in s[..n];
      DistinctFits(s[..n], universe - {s[n]});
    }
  }

  /** The transposed import graph of everything reached, and whether some import could not be followed. */
  method VerificationDependencies(sources: Sources) returns (reverse: Dependents, uncertain: bool)
    ensures forall f, t :: Linked(reverse, f, t) <==> Reached(sources, f) && Edge(sources, f, t)
    ensures uncertain <==> exists f :: Reached(sources, f) && Uncertain(sources, f)
  {
    var scan := new DependencyScan(sources);
    scan.Scan();
    reverse, uncertain := scan.reverse, scan.uncertain;
  }
}
