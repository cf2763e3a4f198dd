/** Which paths belong to which capability, as the patterns of scripts/verification-plan.ts and
    scripts/test-inventory.ts describe them. */
module CapabilityPaths {
  import opened Ordering
  import opened Selection

  lemma PathOfSlash(rest: seq<string>)
    requires rest != []
    ensures Path([""] + rest) == "/" + Path(rest)
  {
    assert ([""] + rest)[1..] == rest;
    assert "" + "/" + Path(rest) == "/" + Path(rest);
  }

  lemma PathOfChar(c: char, rest: seq<string>)
    requires rest != []
    ensures Path([[c] + rest[0]] + rest[1..]) == [c] + Path(rest)
  {
    var names := [[c] + rest[0]] + rest[1..];
    assert names[1..] == rest[1..];
    if |rest| > 1 {
      assert ([c] + rest[0]) + "/" + Path(rest[1..]) == [c] + (rest[0] + "/" + Path(rest[1..]));
    }
  }

  ghost predicate NoSlash(parts: seq<string>) {
    forall i | 0 <= i < |parts| :: '/' !in parts[i]
  }

  /** The parts of a path give the path back, and hold no slash. */
  lemma {:induction false} PartsAreExact(path: string)
    ensures Path(Parts(path)) == path && NoSlash(Parts(path))
  {
    if path != "" {
      PartsAreExact(path[1..]);
      assert path == [path[0]] + path[1..];
      if path[0] == '/' { PathOfSlash(Parts(path[1..])); } else { PathOfChar(path[0], Parts(path[1..])); }
    }
  }

  lemma PathStep(names: seq<string>)
    requires |names| > 1
    ensures Path(names) == names[0] + "/" + Path(names[1..])
  {
  }

  /** The rest of a path below a directory. */
  lemma PartsBelow(directory: string, rest: string)
    requires '/' !in directory
    ensures Parts(directory + "/" + rest) == [directory] + Parts(rest)
  {
    PartsSplit(directory, rest);
  }

  lemma SplitFirst(path: string) returns (rest: string)
    requires |Parts(path)| > 1
    ensures path == Parts(path)[0] + "/" + rest && Parts(rest) == Parts(path)[1..] && '/' !in Parts(path)[0]
  {
    var parts := Parts(path);
    PartsAreExact(path);
    PathStep(parts);
    rest := Path(parts[1..]);
    assert '/' !in parts[0];
    PartsBelow(parts[0], rest);
    assert ([parts[0]] + Parts(rest))[1..] == Parts(rest);
  }

  lemma Nested(a: string, b: string, c: string, d: string, rest: string)
    ensures a + "/" + (b + "/" + (c + "/" + (d + "/" + rest))) == (a + "/" + b + "/" + c + "/") + d + "/" + rest
  {
  }

  /** A file below `packages/pi-stuff/src/<capability>/` is of that capability, and no other file is. */
  lemma SourceCapabilityByPath(path: string, capabilities: set<string>, c: string)
    ensures SourceCapability(path, capabilities) == Some(c) <==>
              && c in capabilities && c != "" && '/' !in c
              && exists rest: string :: path == "packages/pi-stuff/src/" + c + "/" + rest
  {
    var prefix := "packages" + "/" + "pi-stuff" + "/" + "src" + "/";
    assert prefix == "packages/pi-stuff/src/";
    var parts := Parts(path);
    if SourceCapability(path, capabilities) == Some(c) {
      assert parts[..3][0] == parts[0] && parts[..3][1] == parts[1] && parts[..3][2] == parts[2];
      var one := SplitFirst(path);
      var two := SplitFirst(one);
      var three := SplitFirst(two);
      var rest := SplitFirst(three);
      Nested("packages", "pi-stuff", "src", c, rest);
      assert path == prefix + c + "/" + rest;
    }
    if '/' !in c {
      if rest: string :| path == "packages/pi-stuff/src/" + c + "/" + rest {
        Nested("packages", "pi-stuff", "src", c, rest);
        SourceParts(c, rest);
      }
    }
  }

  lemma SourceParts(c: string, rest: string)
    requires '/' !in c
    ensures
      Parts("packages" + "/" + ("pi-stuff" + "/" + ("src" + "/" + (c + "/" + rest)))) ==
        ["packages", "pi-stuff", "src", c] + Parts(rest)
  {
    PartsBelow(c, rest);
    PartsBelow("src", c + "/" + rest);
    PartsBelow("pi-stuff", "src" + "/" + (c + "/" + rest));
    PartsBelow("packages", "pi-stuff" + "/" + ("src" + "/" + (c + "/" + rest)));
  }

  ghost predicate Level(name: string) {
    name in ["unit", "component-integration", "system", "system-integration", "acceptance"]
  }

  /** The path of something at or below a directory of tests. */
  ghost predicate TestPath(path: string, level: string, c: string, rest: string) {
    path == "tests" + "/" + (level + "/" + (c + rest)) && (rest == "" || rest[0] == '/')
  }

  lemma TestPathOf(path: string) returns (rest: string)
    requires |Parts(path)| > 2 && Parts(path)[0] == "tests"
    ensures TestPath(path, Parts(path)[1], Parts(path)[2], rest) && '/' !in Parts(path)[2]
  {
    var one := SplitFirst(path);
    var two := SplitFirst(one);
    var c := Parts(two)[0];
    PartsAreExact(two);
    assert '/' !in Parts(two)[0];
    if |Parts(two)| > 1 {
      var below := SplitFirst(two);
      rest := "/" + below;
      assert two == c + rest;
    } else {
      rest := "";
      assert two == c + rest;
    }
  }

  /** A test below `tests/<level>/<capability>` is of that capability, and no other file is; the directory of the
      repository itself counts as one. */
  lemma TestCapabilityByPath(path: string, capabilities: set<string>, c: string)
    ensures TestCapability(path, capabilities) == Some(c) <==>
              && (c in capabilities || c == "repository") && c != "" && '/' !in c
              && exists level, rest :: Level(level) && TestPath(path, level, c, rest)
  {
    if TestCapability(path, capabilities) == Some(c) {
      var rest := TestPathOf(path);
      assert TestPath(path, Parts(path)[1], c, rest);
    }
    if c != "" && '/' !in c {
      if level, rest :| Level(level) && TestPath(path, level, c, rest) {
        TestParts(level, c, rest);
      }
    }
  }

  lemma TestParts(level: string, c: string, rest: string)
    requires Level(level) && '/' !in c && (rest == "" || rest[0] == '/')
    ensures
      var parts := Parts("tests" + "/" + (level + "/" + (c + rest)));
      |parts| > 2 && parts[0] == "tests" && parts[1] == level && parts[2] == c
  {
    if rest == "" {
      assert c + rest == c;
      PartsOfName(c);
    } else {
      assert c + rest == c + "/" + rest[1..];
      PartsBelow(c, rest[1..]);
    }
    PartsBelow(level, c + rest);
    PartsBelow("tests", level + "/" + (c + rest));
  }
}
