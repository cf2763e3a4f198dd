/** Which beads one publication covers: `publicationScope` of scripts/publish-beads.ts. */
module PublicationScopes {
  import opened Ordering

  datatype Delivery = Delivery(code: bool, commits: seq<string>, pullRequest: Option<nat>, noPrReason: Option<string>)

  /** A bead as `bd` reports it; `issue` is the number of its GitHub Issue, if it has one here. */
  datatype Bead = Bead(id: string, title: string, closed: bool, closeReason: Option<string>, issue: Option<nat>,
                       delivery: Option<Delivery>)

  /** The answers of `bd show` and of `bd list --parent`. */
  datatype Beads = Beads(shown: map<string, Bead>, listed: map<string, seq<string>>)
  {
    ghost predicate Valid() {
      shown.Keys == listed.Keys && forall id | id in shown :: shown[id].id == id
    }
  }

  datatype ScopeFault = RepeatedChild(id: string) | InvalidRecord(id: string)

  datatype Walked = Done(order: seq<string>, seen: set<string>) | Halted(fault: ScopeFault)

  /** Depth first: the ids still to visit, next one first. */
  function Walk(beads: Beads, pending: seq<string>, seen: set<string>): Walked
    requires beads.Valid()
    decreases beads.shown.Keys - seen, |pending|
  {
    if pending == [] then Done([], seen)
    else if pending[0] in seen then Halted(RepeatedChild(pending[0]))
    else if pending[0] !in beads.shown then Halted(InvalidRecord(pending[0]))
    else
      match Walk(beads, beads.listed[pending[0]] + pending[1..], seen + {pending[0]})
      case Done(order, all) => Done([pending[0]] + order, all)
      case Halted(fault) => Halted(fault)
  }

  // ---------- the recursive walk ----------

  lemma {:induction false} WalkAppend(beads: Beads, first: seq<string>, second: seq<string>, seen: set<string>)
    requires beads.Valid()
    ensures Walk(beads, first, seen).Halted? ==> Walk(beads, first + second, seen) == Walk(beads, first, seen)
    ensures Walk(beads, first, seen).Done? ==>
              Walk(beads, first + second, seen) == Joined(Walk(beads, first, seen).order,
                                                          Walk(beads, second, Walk(beads, first, seen).seen))
    decreases beads.shown.Keys - seen, |first|
  {
    if first == [] {
      assert first + second == second;
    } else if first[0] !in seen && first[0] in beads.shown {
      var kids := beads.listed[first[0]];
      WalkAppend(beads, kids + first[1..], second, seen + {first[0]});
      assert kids + (first + second)[1..] == (kids + first[1..]) + second;
    }
  }

  function Joined(order: seq<string>, rest: Walked): Walked {
    match rest
    case Done(more, seen) => Done(order + more, seen)
    case Halted(fault) => Halted(fault)
  }

  lemma WalkOne(beads: Beads, id: string, seen: set<string>)
    requires beads.Valid() && id !in seen && id in beads.shown
    ensures Walk(beads, [id], seen) == Joined([id], Walk(beads, beads.listed[id], seen + {id}))
  {
    assert beads.listed[id] + [id][1..] == beads.listed[id];
  }

  lemma {:induction false} SeenGrows(beads: Beads, pending: seq<string>, seen: set<string>)
    requires beads.Valid() && Walk(beads, pending, seen).Done?
    ensures seen <= Walk(beads, pending, seen).seen
    decreases beads.shown.Keys - seen, |pending|
  {
    if pending != [] {
      SeenGrows(beads, beads.listed[pending[0]] + pending[1..], seen + {pending[0]});
    }
  }

  class ScopeReader {
    const beads: Beads
    var seen: set<string>

    constructor (beads: Beads)
      ensures this.beads == beads && seen == {}
    {
      this.beads := beads;
      seen := {};
    }

    method PublicationScope(id: string) returns (r: Result<seq<string>, ScopeFault>)
      requires beads.Valid()
      modifies this
      ensures r == Outcome(Walk(beads, [id], old(seen)))
      ensures r.Ok? ==> seen == Walk(beads, [id], old(seen)).seen
      decreases beads.shown.Keys - seen, 1
    {
      if id in seen {
        return Err(RepeatedChild(id));
      }
      if id !in beads.shown {
        return Err(InvalidRecord(id));
      }
      WalkOne(beads, id, seen);
      seen := seen + {id};
      r := ChildScopes(beads.listed[id]);
      if r.Ok? {
        r := Ok([id] + r.value);
      }
    }

    method ChildScopes(children: seq<string>) returns (r: Result<seq<string>, ScopeFault>)
      requires beads.Valid()
      modifies this
      ensures r == Outcome(Walk(beads, children, old(seen)))
      ensures r.Ok? ==> seen == Walk(beads, children, old(seen)).seen
      decreases beads.shown.Keys - seen, 2, |children|
    {
      if children == [] {
        return Ok([]);
      }
      WalkAppend(beads, [children[0]], children[1..], seen);
      assert [children[0]] + children[1..] == children;
      ghost var start := seen;
      r := PublicationScope(children[0]);
      if r.Ok? {
        var own := r.value;
        SeenGrows(beads, [children[0]], start);
        r := ChildScopes(children[1..]);
        if r.Ok? {
          r := Ok(own + r.value);
        }
      }
    }
  }

  function Outcome(walked: Walked): Result<seq<string>, ScopeFault> {
    match walked
    case Done(order, seen) => Ok(order)
    case Halted(fault) => Err(fault)
  }

  // ---------- what the walk means ----------

  /** The bead at the end of a path of child positions; the first position picks one of `ids`. */
  ghost function At(beads: Beads, ids: seq<string>, path: seq<nat>): Option<string>
    requires beads.Valid()
    decreases |path|
  {
    if path == [] || path[0] >= |ids| then None
    else if |path| == 1 then Some(ids[path[0]])
    else if ids[path[0]] !in beads.shown then None
    else At(beads, beads.listed[ids[path[0]]], path[1..])
  }

  ghost predicate KnownAndUnseen(beads: Beads, ids: seq<string>, seen: set<string>)
    requires beads.Valid()
  {
    forall path: seq<nat> | At(beads, ids, path).Some? ::
      At(beads, ids, path).value in beads.shown && At(beads, ids, path).value !in seen
  }

  ghost predicate OnePathEach(beads: Beads, ids: seq<string>)
    requires beads.Valid()
  {
    forall p: seq<nat>, q: seq<nat> | At(beads, ids, p).Some? && At(beads, ids, p) == At(beads, ids, q) :: p == q
  }

  /** The same bead's path once the first of `ids` is replaced by its `n` children. */
  ghost function Lowered(n: nat, path: seq<nat>): seq<nat>
    requires path != [] && path != [0]
  {
    if path[0] == 0 then path[1..] else [path[0] - 1 + n] + path[1..]
  }

  ghost function Raised(n: nat, path: seq<nat>): seq<nat>
    requires path != []
  {
    if path[0] < n then [0] + path else [path[0] - n + 1] + path[1..]
  }

  lemma RaisedThenLowered(n: nat, path: seq<nat>)
    requires path != []
    ensures Raised(n, path) != [] && Raised(n, path) != [0] && Lowered(n, Raised(n, path)) == path
  {
    var up := Raised(n, path);
    assert |up| > 1 || up[0] > 0;
    assert path[0] < n ==> up[1..] == path;
    assert path[0] >= n ==> up[1..] == path[1..] && path == [path[0]] + path[1..];
  }

  lemma LoweredIsInjective(n: nat, p: seq<nat>, q: seq<nat>)
    requires p != [] && p != [0] && q != [] && q != [0]
    requires p[0] == 0 ==> p[1] < n
    requires q[0] == 0 ==> q[1] < n
    requires Lowered(n, p) == Lowered(n, q)
    ensures p == q
  {
    assert Raised(n, Lowered(n, p)) == p;
    assert Raised(n, Lowered(n, q)) == q;
  }

  function Next(beads: Beads, ids: seq<string>): seq<string>
    requires beads.Valid() && ids != [] && ids[0] in beads.shown
  {
    beads.listed[ids[0]] + ids[1..]
  }

  lemma AtLowered(beads: Beads, ids: seq<string>, path: seq<nat>)
    requires beads.Valid() && ids != [] && ids[0] in beads.shown && path != [] && path != [0]
    requires At(beads, ids, path).Some?
    ensures At(beads, Next(beads, ids), Lowered(|beads.listed[ids[0]]|, path)) == At(beads, ids, path)
    ensures path[0] == 0 ==> path[1] < |beads.listed[ids[0]]|
  {
    var low := Lowered(|beads.listed[ids[0]]|, path);
    if path[0] == 0 {
      assert Next(beads, ids)[low[0]] == beads.listed[ids[0]][low[0]];
    } else {
      assert Next(beads, ids)[low[0]] == ids[path[0]];
      assert low[1..] == path[1..];
    }
  }

  lemma AtRaised(beads: Beads, ids: seq<string>, path: seq<nat>)
    requires beads.Valid() && ids != [] && ids[0] in beads.shown && path != []
    requires At(beads, Next(beads, ids), path).Some?
    ensures At(beads, ids, Raised(|beads.listed[ids[0]]|, path)) == At(beads, Next(beads, ids), path)
  {
    var n := |beads.listed[ids[0]]|;
    var up := Raised(n, path);
    if path[0] < n {
      assert up[1..] == path;
      assert Next(beads, ids)[path[0]] == beads.listed[ids[0]][path[0]];
    } else {
      assert up[1..] == path[1..];
      assert Next(beads, ids)[path[0]] == ids[up[0]];
    }
  }

  lemma AtStart(beads: Beads, ids: seq<string>)
    requires beads.Valid() && ids != []
    ensures At(beads, ids, [0]) == Some(ids[0])
  {
  }

  lemma StepDown(beads: Beads, ids: seq<string>, seen: set<string>)
    requires beads.Valid() && ids != []
    requires KnownAndUnseen(beads, ids, seen) && OnePathEach(beads, ids)
    ensures ids[0] in beads.shown && ids[0] !in seen
    ensures KnownAndUnseen(beads, Next(beads, ids), seen + {ids[0]}) && OnePathEach(beads, Next(beads, ids))
  {
    AtStart(beads, ids);
    var n := |beads.listed[ids[0]]|;
    forall path: seq<nat> | At(beads, Next(beads, ids), path).Some?
      ensures At(beads, Next(beads, ids), path).value in beads.shown
      ensures At(beads, Next(beads, ids), path).value !in seen + {ids[0]}
    {
      AtRaised(beads, ids, path);
      RaisedThenLowered(n, path);
    }
    forall p: seq<nat>, q: seq<nat>
      | At(beads, Next(beads, ids), p).Some? && At(beads, Next(beads, ids), p) == At(beads, Next(beads, ids), q)
      ensures p == q
    {
      AtRaised(beads, ids, p);
      AtRaised(beads, ids, q);
      RaisedThenLowered(n, p);
      RaisedThenLowered(n, q);
    }
  }

  lemma StepUpKnown(beads: Beads, ids: seq<string>, seen: set<string>)
    requires beads.Valid() && ids != [] && ids[0] in beads.shown && ids[0] !in seen
    requires KnownAndUnseen(beads, Next(beads, ids), seen + {ids[0]})
    ensures KnownAndUnseen(beads, ids, seen)
  {
    forall path: seq<nat> | At(beads, ids, path).Some?
      ensures At(beads, ids, path).value in beads.shown && At(beads, ids, path).value !in seen
    {
      if path != [0] { AtLowered(beads, ids, path); }
    }
  }

  lemma StepUpUnique(beads: Beads, ids: seq<string>, seen: set<string>)
    requires beads.Valid() && ids != [] && ids[0] in beads.shown
    requires KnownAndUnseen(beads, Next(beads, ids), seen + {ids[0]}) && OnePathEach(beads, Next(beads, ids))
    ensures OnePathEach(beads, ids)
  {
    var n := |beads.listed[ids[0]]|;
    forall p: seq<nat>, q: seq<nat> | At(beads, ids, p).Some? && At(beads, ids, p) == At(beads, ids, q)
      ensures p == q
    {
      if p != [0] { AtLowered(beads, ids, p); }
      if q != [0] { AtLowered(beads, ids, q); }
      if p != [0] && q != [0] { LoweredIsInjective(n, p, q); }
    }
  }

  /** The walk succeeds exactly when every bead below the roots is known and lies on one path only. */
  lemma {:induction false} WalkSucceedsOnTrees(beads: Beads, ids: seq<string>, seen: set<string>)
    requires beads.Valid()
    ensures Walk(beads, ids, seen).Done? <==> KnownAndUnseen(beads, ids, seen) && OnePathEach(beads, ids)
    decreases beads.shown.Keys - seen, |ids|
  {
    if ids != [] {
      AtStart(beads, ids);
      if ids[0] in beads.shown && ids[0] !in seen {
        WalkSucceedsOnTrees(beads, Next(beads, ids), seen + {ids[0]});
        if KnownAndUnseen(beads, ids, seen) && OnePathEach(beads, ids) {
          StepDown(beads, ids, seen);
        }
        if Walk(beads, ids, seen).Done? {
          StepUpKnown(beads, ids, seen);
          StepUpUnique(beads, ids, seen);
        }
      }
    }
  }

  /** A successful walk lists each bead once, and exactly the beads below the roots. */
  lemma {:induction false} WalkListsDescendants(beads: Beads, ids: seq<string>, seen: set<string>, x: string)
    requires beads.Valid() && Walk(beads, ids, seen).Done?
    ensures x in Walk(beads, ids, seen).order <==> exists path: seq<nat> :: At(beads, ids, path) == Some(x)
    decreases beads.shown.Keys - seen, |ids|
  {
    if ids != [] {
      AtStart(beads, ids);
      WalkListsDescendants(beads, Next(beads, ids), seen + {ids[0]}, x);
      if path: seq<nat> :| At(beads, ids, path) == Some(x) {
        if path != [0] { AtLowered(beads, ids, path); }
      }
      if path: seq<nat> :| At(beads, Next(beads, ids), path) == Some(x) {
        AtRaised(beads, ids, path);
      }
    }
  }

  lemma {:induction false} WalkIsDistinct(beads: Beads, ids: seq<string>, seen: set<string>)
    requires beads.Valid() && Walk(beads, ids, seen).Done?
    ensures Distinct(Walk(beads, ids, seen).order)
    ensures forall x | x in Walk(beads, ids, seen).order :: x in beads.shown && x !in seen
    decreases beads.shown.Keys - seen, |ids|
  {
    if ids != [] {
      WalkIsDistinct(beads, Next(beads, ids), seen + {ids[0]});
    }
  }
}
