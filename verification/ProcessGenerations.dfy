/** What the scheduler accounting means: process generations, defined on the whole trace and independent of the pass. */
module ProcessGenerations {
  import opened Ordering
  import opened SchedulerTrace

  // The integers that the source language represents exactly.

  ghost predicate Pid(value: int) { 1 <= value < 0x20_0000_0000_0000 }

  ghost predicate Priority(value: int) { -1 <= value < 0x20_0000_0000_0000 }

  ghost predicate Cpu(value: int) { 0 <= value < 0x20_0000_0000_0000 }

  ghost predicate ForksChild(r: Record, pid: int) {
    r.event.Fork? && r.event.child == pid
  }

  /** The index of the last fork before `i` that gave birth to `pid`, or -1. */
  ghost function LatestBirth(trace: Trace, i: nat, pid: int): (b: int)
    requires i <= |trace|
    ensures -1 <= b < i && (b >= 0 ==> ForksChild(trace[b], pid))
  {
    if i == 0 then -1
    else if ForksChild(trace[i - 1], pid) then i - 1
    else LatestBirth(trace, i - 1, pid)
  }

  /** The generation born at `b` descends from the root: it is the root's, or its parent's generation descends. */
  ghost predicate Owned(trace: Trace, root: int, b: nat)
    requires b < |trace| && trace[b].event.Fork?
    decreases b
  {
    || trace[b].event.child == root
    || var p := LatestBirth(trace, b, trace[b].event.parent);
       p >= 0 && Owned(trace, root, p)
  }

  /** At `i`, the PID belongs to an owned generation: exited ones keep it until it is reused. */
  ghost predicate Holds(trace: Trace, root: int, i: nat, pid: int)
    requires i <= |trace|
  {
    var b := LatestBirth(trace, i, pid);
    b >= 0 && Owned(trace, root, b)
  }

  /** The PID has exited since its latest birth. */
  ghost predicate ExitedSince(trace: Trace, i: nat, pid: int)
    requires i <= |trace|
  {
    i > 0 &&
    match trace[i - 1].event
    case Fork(_, child) => child != pid && ExitedSince(trace, i - 1, pid)
    case Exit(p, _) => p == pid || ExitedSince(trace, i - 1, pid)
    case _ => ExitedSince(trace, i - 1, pid)
  }

  ghost predicate RootBorn(trace: Trace, root: int, i: nat)
    requires i <= |trace|
  {
    LatestBirth(trace, i, root) >= 0
  }

  ghost predicate LiveOwned(trace: Trace, root: int, i: nat, pid: int)
    requires i <= |trace|
  {
    Holds(trace, root, i, pid) && !ExitedSince(trace, i, pid)
  }

  ghost predicate ReapedOwned(trace: Trace, root: int, i: nat, pid: int)
    requires i <= |trace|
  {
    Holds(trace, root, i, pid) && ExitedSince(trace, i, pid)
  }

  /** What the accounting demands of the event at `i`, given the events before it. */
  ghost predicate EventAllowed(trace: Trace, root: int, i: nat)
    requires i < |trace|
  {
    match trace[i].event
    case Fork(parent, child) =>
      && Pid(parent) && Pid(child) && parent != child
      && !LiveOwned(trace, root, i, child)
      && !ReapedOwned(trace, root, i, parent)
      && (child == root ==> !RootBorn(trace, root, i))
    case Exit(pid, prio) =>
      && Pid(pid) && Priority(prio)
      && (pid == root ==> RootBorn(trace, root, i))
      && !ReapedOwned(trace, root, i, pid)
    case Wakeup(_, pid, prio, cpu) =>
      && Pid(pid) && Priority(prio) && Cpu(cpu)
      && (pid == root ==> RootBorn(trace, root, i))
    case Exec(pid, oldPid) =>
      && Pid(pid) && Pid(oldPid)
      && (pid == oldPid || (!Holds(trace, root, i, pid) && !Holds(trace, root, i, oldPid)))
    case Malformed => false
  }

  ghost predicate InTime(trace: Trace, i: nat)
    requires i < |trace|
  {
    i == 0 || trace[i - 1].timestamp <= trace[i].timestamp
  }

  ghost predicate AllowedTo(trace: Trace, root: int, i: nat)
    requires i <= |trace|
  {
    forall j | 0 <= j < i :: InTime(trace, j) && EventAllowed(trace, root, j)
  }

  ghost predicate OwnedBirth(trace: Trace, root: int, b: nat)
    requires b < |trace|
  {
    trace[b].event.Fork? && Owned(trace, root, b)
  }

  /** The owned generations in order of birth. */
  ghost function OwnedGenerations(trace: Trace, root: int, i: nat): (g: seq<Generation>)
    requires i <= |trace|
  {
    if i == 0 then []
    else
      var g := OwnedGenerations(trace, root, i - 1);
      if OwnedBirth(trace, root, i - 1) then g + [Generation(|g| + 1, trace[i - 1].event.child)] else g
  }

  ghost predicate OwnedExit(trace: Trace, root: int, e: nat)
    requires e < |trace|
  {
    trace[e].event.Exit? && Holds(trace, root, e, trace[e].event.pid)
  }

  ghost predicate OwnedWakeup(trace: Trace, root: int, w: nat, isNew: bool)
    requires w < |trace|
  {
    trace[w].event.Wakeup? && trace[w].event.isNew == isNew && Holds(trace, root, w, trace[w].event.pid)
  }

  ghost function CountExits(trace: Trace, root: int, i: nat): nat
    requires i <= |trace|
  {
    if i == 0 then 0 else CountExits(trace, root, i - 1) + (if OwnedExit(trace, root, i - 1) then 1 else 0)
  }

  ghost function CountWakeups(trace: Trace, root: int, i: nat, isNew: bool): nat
    requires i <= |trace|
  {
    if i == 0 then 0
    else CountWakeups(trace, root, i - 1, isNew) + (if OwnedWakeup(trace, root, i - 1, isNew) then 1 else 0)
  }

  // ---------- the pass refines the semantics ----------

  /** The pass's table says for every PID whether an owned generation holds it, and whether that one has exited. */
  ghost predicate TableAgrees(exited: map<int, bool>, trace: Trace, root: int, i: nat)
    requires i <= |trace|
  {
    && (forall pid :: pid in exited <==> Holds(trace, root, i, pid))
    && (forall pid :: pid in exited ==> (exited[pid] <==> ExitedSince(trace, i, pid)))
  }

  ghost predicate Agrees(s: Accounting, trace: Trace, root: int, i: nat)
    requires i <= |trace|
  {
    && TableAgrees(s.exited, trace, root, i)
    && (s.rootBorn <==> RootBorn(trace, root, i))
    && s.generations == OwnedGenerations(trace, root, i)
    && s.totalExits == CountExits(trace, root, i)
    && s.wakeups == CountWakeups(trace, root, i, false)
    && s.wakeupsNew == CountWakeups(trace, root, i, true)
    && s.previous == (if i == 0 then None else Some(trace[i - 1].timestamp))
  }

  /** A fork frees the child's PID and gives it to the new generation when that one is owned. */
  lemma ForkTable(exited: map<int, bool>, trace: Trace, root: int, i: nat)
    requires i < |trace| && trace[i].event.Fork? && TableAgrees(exited, trace, root, i)
    ensures
      var child := trace[i].event.child;
      var freed := exited - {child};
      TableAgrees(if OwnedBirth(trace, root, i) then freed[child := false] else freed, trace, root, i + 1)
  {
  }

  lemma ForkAgrees(s: Accounting, trace: Trace, root: int, i: nat)
    requires i < |trace| && trace[i].event.Fork? && Agrees(s, trace, root, i)
    ensures
      var next := ForkStep(s.(previous := Some(trace[i].timestamp)), root, trace[i].event.parent, trace[i].event.child);
      && (next.Some? <==> EventAllowed(trace, root, i))
      && (next.Some? ==> Agrees(next.value, trace, root, i + 1))
  {
    var Fork(parent, child) := trace[i].event;
    var forked := s.(previous := Some(trace[i].timestamp));
    assert Owned(trace, root, i) <==> child == root || parent in s.exited;
    var next := ForkStep(forked, root, parent, child);
    assert next.Some? <==> EventAllowed(trace, root, i) by {
      assert parent in s.exited <==> Holds(trace, root, i, parent);
      assert child in s.exited <==> Holds(trace, root, i, child);
    }
    if next.Some? {
      ForkTable(s.exited, trace, root, i);
      assert next.value.exited ==
        if OwnedBirth(trace, root, i) then (s.exited - {child})[child := false] else s.exited - {child};
    }
  }

  lemma OtherAgrees(s: Accounting, trace: Trace, root: int, i: nat)
    requires i < |trace| && !trace[i].event.Fork? && !trace[i].event.Exit? && Agrees(s, trace, root, i)
    ensures
      var next := EventStep(s.(previous := Some(trace[i].timestamp)), root, trace[i].event);
      && (next.Some? <==> EventAllowed(trace, root, i))
      && (next.Some? ==> Agrees(next.value, trace, root, i + 1))
  {
    assert forall pid :: LatestBirth(trace, i + 1, pid) == LatestBirth(trace, i, pid);
    assert forall pid :: ExitedSince(trace, i + 1, pid) == ExitedSince(trace, i, pid);
  }

  lemma EventAgrees(s: Accounting, trace: Trace, root: int, i: nat)
    requires i < |trace| && Agrees(s, trace, root, i)
    ensures
      var next := EventStep(s.(previous := Some(trace[i].timestamp)), root, trace[i].event);
      && (next.Some? <==> EventAllowed(trace, root, i))
      && (next.Some? ==> Agrees(next.value, trace, root, i + 1))
  {
    match trace[i].event {
      case Fork(_, _) => ForkAgrees(s, trace, root, i);
      case Exit(_, _) =>
      case _ => OtherAgrees(s, trace, root, i);
    }
  }

  lemma StepAgrees(s: Accounting, trace: Trace, root: int, i: nat)
    requires i < |trace| && Agrees(s, trace, root, i)
    ensures
      var next := Step(s, root, trace[i]);
      && (next.Some? <==> InTime(trace, i) && EventAllowed(trace, root, i))
      && (next.Some? ==> Agrees(next.value, trace, root, i + 1))
  {
    EventAgrees(s, trace, root, i);
  }

  lemma AllowedStep(trace: Trace, root: int, i: nat)
    requires i < |trace|
    ensures AllowedTo(trace, root, i + 1) <==>
              AllowedTo(trace, root, i) && InTime(trace, i) && EventAllowed(trace, root, i)
  {
  }

  lemma InitialAgrees(trace: Trace, root: int)
    ensures RunTo(trace, root, 0) == Some(INITIAL) && Agrees(INITIAL, trace, root, 0) && AllowedTo(trace, root, 0)
  {
  }

  lemma RunStep(trace: Trace, root: int, i: nat)
    requires i < |trace|
    requires RunTo(trace, root, i).Some? ==> Agrees(RunTo(trace, root, i).value, trace, root, i)
    ensures RunTo(trace, root, i + 1).Some? <==>
              RunTo(trace, root, i).Some? && InTime(trace, i) && EventAllowed(trace, root, i)
    ensures RunTo(trace, root, i + 1).Some? ==> Agrees(RunTo(trace, root, i + 1).value, trace, root, i + 1)
  {
    if RunTo(trace, root, i).Some? { StepAgrees(RunTo(trace, root, i).value, trace, root, i); }
  }

  /** A prefix is processed exactly when every event in it is allowed, and then the accounting tells the truth. */
  lemma {:induction false} PassRefines(trace: Trace, root: int, i: nat)
    requires i <= |trace|
    ensures RunTo(trace, root, i).Some? <==> AllowedTo(trace, root, i)
    ensures RunTo(trace, root, i).Some? ==> Agrees(RunTo(trace, root, i).value, trace, root, i)
  {
    if i == 0 {
      InitialAgrees(trace, root);
    } else {
      PassRefines(trace, root, i - 1);
      AllowedStep(trace, root, i - 1);
      RunStep(trace, root, i - 1);
    }
  }

  // ---------- every owned generation exits exactly once ----------

  /** Exit `e` ends the generation born at `b`. */
  ghost predicate ExitOf(trace: Trace, b: nat, e: nat)
    requires b < |trace| && trace[b].event.Fork?
  {
    && b < e < |trace|
    && trace[e].event.Exit? && trace[e].event.pid == trace[b].event.child
    && LatestBirth(trace, e, trace[b].event.child) == b
  }

  ghost predicate Ended(trace: Trace, b: nat, i: nat)
    requires b < |trace| && trace[b].event.Fork? && i <= |trace|
  {
    exists e :: b < e < i && ExitOf(trace, b, e)
  }

  lemma {:induction false} GenerationEnds(trace: Trace, root: int, b: nat, i: nat)
    requires b < i <= |trace| && OwnedBirth(trace, root, b) && AllowedTo(trace, root, i)
    ensures
      var pid := trace[b].event.child;
      if LatestBirth(trace, i, pid) == b then ExitedSince(trace, i, pid) ==> Ended(trace, b, i)
      else Ended(trace, b, i)
  {
    var pid := trace[b].event.child;
    if i > b + 1 {
      GenerationEnds(trace, root, b, i - 1);
      assert EventAllowed(trace, root, i - 1);
      if LatestBirth(trace, i - 1, pid) == b && trace[i - 1].event.Exit? && trace[i - 1].event.pid == pid {
        assert ExitOf(trace, b, i - 1);
      }
    }
  }

  lemma {:induction false} ExitIsRemembered(trace: Trace, e: nat, i: nat, pid: int)
    requires e < i <= |trace| && trace[e].event.Exit? && trace[e].event.pid == pid
    requires LatestBirth(trace, i, pid) < e
    ensures ExitedSince(trace, i, pid)
  {
    if i > e + 1 { ExitIsRemembered(trace, e, i - 1, pid); }
  }

  lemma GenerationEndsOnce(trace: Trace, root: int, b: nat, e1: nat, e2: nat)
    requires AllowedTo(trace, root, |trace|)
    requires b < |trace| && OwnedBirth(trace, root, b) && ExitOf(trace, b, e1) && ExitOf(trace, b, e2)
    ensures e1 == e2
  {
    var pid := trace[b].event.child;
    assert EventAllowed(trace, root, e1) && EventAllowed(trace, root, e2);
    if e1 < e2 {
      ExitIsRemembered(trace, e1, e2, pid);
    } else if e2 < e1 {
      ExitIsRemembered(trace, e2, e1, pid);
    }
  }

  // ---------- the balance of births and exits ----------

  ghost function Live(exited: map<int, bool>): set<int> {
    set pid | pid in exited && !exited[pid]
  }

  lemma LiveAfterFork(exited: map<int, bool>, child: int)
    requires child in exited ==> exited[child]
    ensures Live(exited - {child}) == Live(exited)
    ensures |Live((exited - {child})[child := false])| == |Live(exited)| + 1
  {
    assert Live((exited - {child})[child := false]) == Live(exited) + {child};
  }

  lemma LiveAfterExit(exited: map<int, bool>, pid: int)
    requires pid in exited && !exited[pid]
    ensures |Live(exited[pid := true])| == |Live(exited)| - 1
  {
    assert Live(exited[pid := true]) == Live(exited) - {pid};
  }

  lemma LiveStep(s: Accounting, root: int, event: Event)
    requires |Live(s.exited)| + s.totalExits == |s.generations|
    ensures
      var next := EventStep(s, root, event);
      next.Some? ==> |Live(next.value.exited)| + next.value.totalExits == |next.value.generations|
  {
    if EventStep(s, root, event).Some? {
      match event
      case Fork(parent, child) =>
        LiveAfterFork(s.exited, child);
      case Exit(pid, _) =>
        if pid in s.exited { LiveAfterExit(s.exited, pid); }
      case _ =>
    }
  }

  lemma {:induction false} BirthsAndExitsBalance(trace: Trace, root: int, i: nat)
    requires i <= |trace| && RunTo(trace, root, i).Some?
    ensures
      var s := RunTo(trace, root, i).value;
      |Live(s.exited)| + s.totalExits == |s.generations|
  {
    if i > 0 {
      BirthsAndExitsBalance(trace, root, i - 1);
      var s := RunTo(trace, root, i - 1).value;
      LiveStep(s.(previous := Some(trace[i - 1].timestamp)), root, trace[i - 1].event);
    } else {
      assert Live(map[]) == {};
    }
  }

  // ---------- acceptance and summary ----------

  /** Every owned generation exits, exactly once. */
  ghost predicate EachExitsOnce(trace: Trace, root: int) {
    forall b | 0 <= b < |trace| && OwnedBirth(trace, root, b) ::
      && Ended(trace, b, |trace|)
      && forall e1, e2 | ExitOf(trace, b, e1) && ExitOf(trace, b, e2) :: e1 == e2
  }

  lemma AllReapedMeansEnded(trace: Trace, root: int)
    requires AllowedTo(trace, root, |trace|)
    requires forall pid :: !LiveOwned(trace, root, |trace|, pid)
    ensures EachExitsOnce(trace, root)
  {
    forall b | 0 <= b < |trace| && OwnedBirth(trace, root, b)
      ensures Ended(trace, b, |trace|)
      ensures forall e1, e2 | ExitOf(trace, b, e1) && ExitOf(trace, b, e2) :: e1 == e2
    {
      GenerationEnds(trace, root, b, |trace|);
      assert !LiveOwned(trace, root, |trace|, trace[b].event.child);
      forall e1, e2 | ExitOf(trace, b, e1) && ExitOf(trace, b, e2) ensures e1 == e2 {
        GenerationEndsOnce(trace, root, b, e1, e2);
      }
    }
  }

  lemma EndedMeansReaped(trace: Trace, root: int, pid: int)
    requires EachExitsOnce(trace, root)
    ensures !LiveOwned(trace, root, |trace|, pid)
  {
    if Holds(trace, root, |trace|, pid) {
      var b := LatestBirth(trace, |trace|, pid);
      assert OwnedBirth(trace, root, b);
      var e :| b < e < |trace| && ExitOf(trace, b, e);
      ExitIsRemembered(trace, e, |trace|, pid);
    }
  }

  /** A trace is accepted exactly when every event is allowed, the root is born, and every owned generation exits. */
  ghost predicate AcceptableTrace(trace: Trace, root: int) {
    && Pid(root)
    && AllowedTo(trace, root, |trace|)
    && RootBorn(trace, root, |trace|)
    && EachExitsOnce(trace, root)
  }

  lemma SummaryIsTruth(trace: Trace, root: int)
    ensures Summarize(trace, root).Some? <==> AcceptableTrace(trace, root)
    ensures Summarize(trace, root).Some? ==>
              var n := |trace|;
              var births := OwnedGenerations(trace, root, n);
              Summarize(trace, root).value ==
                Summary(root, births, |births|, |births|, CountWakeups(trace, root, n, false),
                        CountWakeups(trace, root, n, true))
  {
    PassRefines(trace, root, |trace|);
    if RunTo(trace, root, |trace|).Some? {
      BirthsAndExitsBalance(trace, root, |trace|);
      ConcludeMeaning(trace, root, RunTo(trace, root, |trace|).value);
    }
  }

  lemma ConcludeMeaning(trace: Trace, root: int, s: Accounting)
    requires AllowedTo(trace, root, |trace|) && Agrees(s, trace, root, |trace|)
    requires |Live(s.exited)| + s.totalExits == |s.generations|
    ensures Conclude(s, root).Some? <==> RootBorn(trace, root, |trace|) && EachExitsOnce(trace, root)
  {
    if s.totalExits == |s.generations| {
      assert Live(s.exited) == {};
      forall pid ensures !LiveOwned(trace, root, |trace|, pid) {
        assert pid !in Live(s.exited);
      }
      AllReapedMeansEnded(trace, root);
    }
    if EachExitsOnce(trace, root) {
      forall pid ensures pid !in Live(s.exited) { EndedMeansReaped(trace, root, pid); }
      assert Live(s.exited) == {};
      if RootBorn(trace, root, |trace|) {
        assert root in s.exited;
        assert root !in Live(s.exited);
      }
    }
  }

  // ---------- bystanders do not matter ----------

  ghost function Without(trace: Trace, k: nat): Trace
    requires k < |trace|
  {
    trace[..k] + trace[k+1..]
  }

  /** The event at `k` names no PID that an owned generation holds, and does not fork the root. */
  ghost predicate Bystander(trace: Trace, root: int, k: nat)
    requires k < |trace|
  {
    match trace[k].event
    case Fork(parent, child) =>
      child != root && !Holds(trace, root, k, parent) && !Holds(trace, root, k, child)
    case Exit(pid, _) => !Holds(trace, root, k, pid)
    case Wakeup(_, pid, _, _) => !Holds(trace, root, k, pid)
    case Exec(pid, oldPid) => !Holds(trace, root, k, pid) && !Holds(trace, root, k, oldPid)
    case Malformed => true
  }

  /** What can be wrong with a bystander by itself: its numbers, a self-fork, or the root before its birth. */
  ghost predicate WellFormed(trace: Trace, root: int, k: nat)
    requires k < |trace|
  {
    match trace[k].event
    case Fork(parent, child) => Pid(parent) && Pid(child) && parent != child
    case Exit(pid, prio) => Pid(pid) && Priority(prio) && pid != root
    case Wakeup(_, pid, prio, cpu) => Pid(pid) && Priority(prio) && Cpu(cpu) && pid != root
    case Exec(pid, oldPid) => Pid(pid) && Pid(oldPid)
    case Malformed => false
  }

  ghost predicate FitsBetween(trace: Trace, k: nat)
    requires k < |trace|
  {
    InTime(trace, k) && (k + 1 < |trace| ==> InTime(trace, k + 1))
  }

  lemma BystanderStep(s: Accounting, trace: Trace, root: int, k: nat)
    requires k < |trace| && Bystander(trace, root, k) && Agrees(s, trace, root, k)
    requires s.rootBorn ==> root in s.exited
    ensures EventStep(s, root, trace[k].event) == if WellFormed(trace, root, k) then Some(s) else None
  {
    match trace[k].event
    case Fork(parent, child) =>
      assert child !in s.exited && parent !in s.exited;
      assert s.exited - {child} == s.exited;
    case _ =>
  }

  /** From any point on, the run depends only on the state and the records to come. */
  ghost function RunFrom(s: Accounting, root: int, rest: Trace): Option<Accounting>
    decreases |rest|
  {
    if rest == [] then Some(s)
    else
      match Step(s, root, rest[0])
      case None => None
      case Some(next) => RunFrom(next, root, rest[1..])
  }

  lemma {:induction false} RunSplits(trace: Trace, root: int, k: nat)
    requires k <= |trace|
    ensures RunTo(trace, root, |trace|) ==
              match RunTo(trace, root, k) case None => None case Some(s) => RunFrom(s, root, trace[k..])
    decreases |trace| - k
  {
    if k < |trace| {
      RunSplits(trace, root, k + 1);
      assert trace[k..][1..] == trace[k+1..];
    }
  }

  lemma {:induction false} RunPrefix(a: Trace, b: Trace, root: int, k: nat)
    requires k <= |a| && k <= |b| && a[..k] == b[..k]
    ensures RunTo(a, root, k) == RunTo(b, root, k)
  {
    if k > 0 {
      assert a[..k-1] == a[..k][..k-1] && b[..k-1] == b[..k][..k-1];
      RunPrefix(a, b, root, k - 1);
      assert a[k-1] == a[..k][k-1] && b[k-1] == b[..k][k-1];
    }
  }

  /** Deleting a bystander leaves verdict and summary as they are, unless the bystander alone spoils the trace:
      by its own numbers, by naming the root before its birth, or by a timestamp out of order. */
  lemma BystandersDoNotMatter(trace: Trace, root: int, k: nat)
    requires k < |trace| && Bystander(trace, root, k)
    ensures Summarize(trace, root) ==
              if WellFormed(trace, root, k) && FitsBetween(trace, k) then Summarize(Without(trace, k), root) else None
  {
    var without := Without(trace, k);
    RunSplits(trace, root, k);
    RunSplits(without, root, k);
    assert trace[..k] == without[..k];
    RunPrefix(trace, without, root, k);
    assert without[k..] == trace[k+1..];
    PassRefines(trace, root, k);
    if RunTo(trace, root, k).Some? {
      var s := RunTo(trace, root, k).value;
      RootStaysListed(trace, root, k);
      DeleteFirst(s, trace, root, k);
    }
  }

  lemma {:induction false} RootStaysListed(trace: Trace, root: int, i: nat)
    requires i <= |trace| && RunTo(trace, root, i).Some?
    ensures var s := RunTo(trace, root, i).value; s.rootBorn ==> root in s.exited
    decreases i
  {
    if i > 0 { RootStaysListed(trace, root, i - 1); }
  }

  lemma DeleteFirst(s: Accounting, trace: Trace, root: int, k: nat)
    requires k < |trace| && Bystander(trace, root, k) && Agrees(s, trace, root, k)
    requires s.rootBorn ==> root in s.exited
    ensures
      var with := RunFrom(s, root, trace[k..]);
      var without := RunFrom(s, root, trace[k+1..]);
      if WellFormed(trace, root, k) && FitsBetween(trace, k) then
        (with.None? && without.None?) ||
        (with.Some? && without.Some? && Conclude(with.value, root) == Conclude(without.value, root))
      else with.None?
  {
    var rest := trace[k+1..];
    assert trace[k..][0] == trace[k] && trace[k..][1..] == rest;
    var t := trace[k].timestamp;
    if s.previous.None? || s.previous.value <= t {
      var timed := s.(previous := Some(t));
      assert EventStep(timed, root, trace[k].event) == (if WellFormed(trace, root, k) then Some(timed) else None) by {
        BystanderStep(s, trace, root, k);
      }
    }
  }

}
