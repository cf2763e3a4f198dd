/** Counting the wakeups of a process tree in a scheduler trace: scripts/scheduler-wakeup-summary.ts. */
module SchedulerTrace {
  import opened Ordering

  /** A parsed record; Malformed stands for every line or event name the parser refuses. */
  datatype Event =
    | Fork(parent: int, child: int)
    | Exit(pid: int, prio: int)
    | Wakeup(isNew: bool, pid: int, prio: int, cpu: int)
    | Exec(pid: int, oldPid: int)
    | Malformed

  datatype Record = Record(timestamp: real, event: Event)

  type Trace = seq<Record>

  datatype Generation = Generation(generation: nat, pid: int)

  datatype Accounting = Accounting(
    exited: map<int, bool>,
    generations: seq<Generation>,
    rootBorn: bool,
    totalExits: nat,
    wakeups: nat,
    wakeupsNew: nat,
    previous: Option<real>)

  datatype Summary = Summary(rootPid: int, taskGenerations: seq<Generation>, totalBirths: nat, totalExits: nat,
                             wakeups: nat, wakeupsNew: nat)

  predicate InRange(value: int, minimum: int) {
    minimum <= value <= MAX_SAFE_INTEGER
  }

  const INITIAL := Accounting(map[], [], false, 0, 0, 0, None)

  // ---------- the one-pass accounting ----------

  function ForkStep(s: Accounting, root: int, parent: int, child: int): Option<Accounting> {
    if !InRange(parent, 1) || !InRange(child, 1) then None
    else if parent == child || (child in s.exited && !s.exited[child]) then None
    else if parent in s.exited && s.exited[parent] then None
    else
      var freed := s.(exited := s.exited - {child});
      if child == root && s.rootBorn then None
      else if child != root && parent !in freed.exited then Some(freed)
      else
        Some(freed.(
          rootBorn := s.rootBorn || child == root,
          exited := freed.exited[child := false],
          generations := s.generations + [Generation(|s.generations| + 1, child)]))
  }

  function ExitStep(s: Accounting, root: int, pid: int, prio: int): Option<Accounting> {
    if !InRange(pid, 1) || !InRange(prio, -1) then None
    else if pid == root && !s.rootBorn then None
    else if pid !in s.exited then Some(s)
    else if s.exited[pid] then None
    else Some(s.(exited := s.exited[pid := true], totalExits := s.totalExits + 1))
  }

  function WakeupStep(s: Accounting, root: int, isNew: bool, pid: int, prio: int, cpu: int): Option<Accounting> {
    if !InRange(pid, 1) || !InRange(prio, -1) || !InRange(cpu, 0) then None
    else if pid == root && !s.rootBorn then None
    else if pid !in s.exited then Some(s)
    else if isNew then Some(s.(wakeupsNew := s.wakeupsNew + 1))
    else Some(s.(wakeups := s.wakeups + 1))
  }

  function ExecStep(s: Accounting, pid: int, oldPid: int): Option<Accounting> {
    if !InRange(pid, 1) || !InRange(oldPid, 1) then None
    else if pid == oldPid || (pid !in s.exited && oldPid !in s.exited) then Some(s)
    else None
  }

  function EventStep(s: Accounting, root: int, event: Event): Option<Accounting> {
    match event
    case Fork(parent, child) => ForkStep(s, root, parent, child)
    case Exit(pid, prio) => ExitStep(s, root, pid, prio)
    case Wakeup(isNew, pid, prio, cpu) => WakeupStep(s, root, isNew, pid, prio, cpu)
    case Exec(pid, oldPid) => ExecStep(s, pid, oldPid)
    case Malformed => None
  }

  function Step(s: Accounting, root: int, r: Record): Option<Accounting> {
    if s.previous.Some? && r.timestamp < s.previous.value then None
    else EventStep(s.(previous := Some(r.timestamp)), root, r.event)
  }

  /** The accounting after the first `i` records, unless one of them is rejected. */
  function RunTo(trace: Trace, root: int, i: nat): Option<Accounting>
    requires i <= |trace|
  {
    if i == 0 then Some(INITIAL)
    else
      match RunTo(trace, root, i - 1)
      case None => None
      case Some(s) => Step(s, root, trace[i - 1])
  }

  function Conclude(s: Accounting, root: int): Option<Summary> {
    if s.rootBorn && root in s.exited && s.exited[root] && s.totalExits == |s.generations| then
      Some(Summary(root, s.generations, |s.generations|, s.totalExits, s.wakeups, s.wakeupsNew))
    else None
  }

  function Summarize(trace: Trace, root: int): Option<Summary> {
    if !InRange(root, 1) then None
    else
      match RunTo(trace, root, |trace|)
      case None => None
      case Some(s) => Conclude(s, root)
  }

  lemma {:induction false} RejectionSticks(trace: Trace, root: int, i: nat, n: nat)
    requires i <= n <= |trace| && RunTo(trace, root, i).None?
    ensures RunTo(trace, root, n).None?
  {
    if i < n { RejectionSticks(trace, root, i, n - 1); }
  }

  method SummarizeSchedulerWakeups(trace: Trace, root: int) returns (r: Option<Summary>)
    ensures r == Summarize(trace, root)
  {
    if !InRange(root, 1) {
      return None;
    }
    var exited: map<int, bool> := map[];
    var taskGenerations: seq<Generation> := [];
    var rootBorn, totalExits, wakeups, wakeupsNew := false, 0, 0, 0;
    var previousTimestamp: Option<real> := None;
    for i := 0 to |trace|
      invariant RunTo(trace, root, i) == Some(
        Accounting(exited, taskGenerations, rootBorn, totalExits, wakeups, wakeupsNew, previousTimestamp))
    {
      var Record(timestamp, event) := trace[i];
      if RunTo(trace, root, i + 1).None? {
        RejectionSticks(trace, root, i + 1, |trace|);
      }
      if previousTimestamp.Some? && timestamp < previousTimestamp.value {
        return None;
      }
      previousTimestamp := Some(timestamp);
      match event {
        case Fork(parentPid, childPid) =>
          if !InRange(parentPid, 1) || !InRange(childPid, 1) {
            return None;
          }
          if parentPid == childPid || (childPid in exited && !exited[childPid]) {
            return None;
          }
          if parentPid in exited && exited[parentPid] {
            return None;
          }
          exited := exited - {childPid};
          if childPid == root {
            if rootBorn {
              return None;
            }
            rootBorn := true;
          } else if parentPid !in exited {
            continue;
          }
          exited := exited[childPid := false];
          taskGenerations := taskGenerations + [Generation(|taskGenerations| + 1, childPid)];
        case Exit(pid, prio) =>
          if !InRange(pid, 1) || !InRange(prio, -1) || (pid == root && !rootBorn) {
            return None;
          }
          if pid !in exited {
            continue;
          }
          if exited[pid] {
            return None;
          }
          exited := exited[pid := true];
          totalExits := totalExits + 1;
        case Wakeup(isNew, pid, prio, cpu) =>
          if !InRange(pid, 1) || !InRange(prio, -1) || !InRange(cpu, 0) || (pid == root && !rootBorn) {
            return None;
          }
          if pid in exited {
            if isNew {
              wakeupsNew := wakeupsNew + 1;
            } else {
              wakeups := wakeups + 1;
            }
          }
        case Exec(pid, oldPid) =>
          if !InRange(pid, 1) || !InRange(oldPid, 1) {
            return None;
          }
          if pid != oldPid && (pid in exited || oldPid in exited) {
            return None;
          }
        case Malformed =>
          return None;
      }
    }
    if rootBorn && root in exited && exited[root] && totalExits == |taskGenerations| {
      r := Some(Summary(root, taskGenerations, |taskGenerations|, totalExits, wakeups, wakeupsNew));
    } else {
      r := None;
    }
  }
}
