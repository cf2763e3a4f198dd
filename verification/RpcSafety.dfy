/** What holds of the waiters over every interleaving of output, registrations, timers and failures. */
module RpcSafety {
  import opened Ordering
  import opened Framing
  import opened RpcSession

  datatype Action =
    | Output(chunk: string)
    | Register(r: Registration)
    | SendCommand(payload: Payload)
    | SendPrompt(text: string)
    | Timer(id: nat)
    | Failure(message: string)
    | Close

  function Apply(c: Client, action: Action, parse: Parser): Client {
    match action
    case Output(chunk) => ReadStdout(c, chunk, parse)
    case Register(r) => c.(session := WaitFor(c.session, r.(request := None)))
    case SendCommand(payload) => c.(session := Command(c.session, payload))
    case SendPrompt(text) => c.(session := PromptAndSettle(c.session, text))
    case Timer(id) => c.(session := TimerFires(c.session, id))
    case Failure(message) => c.(session := RecordTerminalFailure(c.session, message))
    case Close => c.(session := c.session.(closing := true))
  }

  function Run(actions: seq<Action>, parse: Parser): Client {
    if actions == [] then INITIAL
    else Apply(Run(actions[..|actions|-1], parse), actions[|actions|-1], parse)
  }

  // ---------- the invariant ----------

  function LogIds(log: seq<Entry>): (ids: seq<nat>)
    ensures |ids| == |log| && forall i | 0 <= i < |log| :: ids[i] == log[i].id
  {
    seq(|log|, i requires 0 <= i < |log| => log[i].id)
  }

  /** No event from `after` up to (not including) `bound` satisfies the predicate. */
  ghost predicate Quiet(r: Registration, events: seq<Event>, bound: nat)
    requires bound <= |events|
  {
    forall k | r.after <= k < bound :: !r.accepts(events[k])
  }

  /** A waiter resolved with the earliest event that satisfies it; or it was rejected or timed out while none had. */
  ghost predicate TrueEntry(e: Entry, r: Registration, events: seq<Event>) {
    match e.settlement
    case Resolved(event) =>
      && r.after <= e.at < |events| && events[e.at] == event && r.accepts(event)
      && Quiet(r, events, e.at)
    case _ => e.at <= |events| && Quiet(r, events, e.at)
  }

  /** Every registration is either waiting or settled, and settled at most once. */
  ghost predicate SettledOnce(count: nat, waiters: seq<nat>, log: seq<Entry>) {
    && Distinct(waiters)
    && Distinct(LogIds(log))
    && (forall id | id in waiters :: id < count && id !in LogIds(log))
    && (forall id | id in LogIds(log) :: id < count)
    && (forall id: nat | id < count :: id in waiters || id in LogIds(log))
  }

  ghost predicate WaitersQuiet(s: Session) {
    forall id | id in s.waiters && id < |s.registered| :: Quiet(s.registered[id], s.events, |s.events|)
  }

  ghost predicate LogTrue(s: Session) {
    forall e | e in s.log && e.id < |s.registered| :: TrueEntry(e, s.registered[e.id], s.events)
  }

  ghost predicate AnswersRequest(r: Registration) {
    r.request.Some? ==> forall e: Event :: r.accepts(e) <==> IsResponse(e, r.request.value)
  }

  /** Request numbers are not reused, and a command waits for the response to its own request. */
  ghost predicate RequestsDistinct(s: Session) {
    && (forall id | 0 <= id < |s.registered| ::
          && AnswersRequest(s.registered[id])
          && (s.registered[id].request.Some? ==> s.registered[id].request.value <= s.sequence))
    && (forall i, j | 0 <= i < j < |s.registered| && s.registered[i].request.Some? ::
          s.registered[i].request != s.registered[j].request)
  }

  ghost predicate Inv(s: Session) {
    && SettledOnce(|s.registered|, s.waiters, s.log)
    && WaitersQuiet(s)
    && LogTrue(s)
    && RequestsDistinct(s)
  }

  // ---------- every step keeps it ----------

  lemma LogIdsAppend(a: seq<Entry>, b: seq<Entry>)
    ensures LogIds(a + b) == LogIds(a) + LogIds(b)
  {
  }

  lemma SettleKeepsOnce(s: Session, hit: nat -> bool, settlement: Settlement, at: nat)
    requires SettledOnce(|s.registered|, s.waiters, s.log)
    ensures var t := SettleIf(s, hit, settlement, at); SettledOnce(|t.registered|, t.waiters, t.log)
  {
    var ids := Pick(s.waiters, hit, true);
    var entries := EntriesFor(ids, settlement, at);
    assert LogIds(entries) == ids;
    LogIdsAppend(s.log, entries);
    DistinctConcat(LogIds(s.log), ids);
  }

  /** Settling is truthful when each settled waiter's entry is. */
  lemma SettleKeepsInv(s: Session, hit: nat -> bool, settlement: Settlement, at: nat)
    requires SettledOnce(|s.registered|, s.waiters, s.log) && LogTrue(s) && RequestsDistinct(s)
    requires forall id | id in s.waiters ::
               if hit(id) then TrueEntry(Entry(id, settlement, at), s.registered[id], s.events)
               else Quiet(s.registered[id], s.events, |s.events|)
    ensures Inv(SettleIf(s, hit, settlement, at))
  {
    SettleKeepsOnce(s, hit, settlement, at);
    var t := SettleIf(s, hit, settlement, at);
    forall e | e in t.log && e.id < |t.registered| ensures TrueEntry(e, t.registered[e.id], t.events) {
      if e !in s.log {
        var ids := Pick(s.waiters, hit, true);
        assert e in EntriesFor(ids, settlement, at);
        assert e.id in ids;
      }
    }
  }

  lemma DispatchKeepsInv(s: Session, event: Event)
    requires Inv(s)
    ensures Inv(Dispatch(s, event))
  {
    var t := s.(events := s.events + [event]);
    var hit := Hears(t, event);
    forall e | e in t.log && e.id < |t.registered| ensures TrueEntry(e, t.registered[e.id], t.events) {
    }
    forall id | id in t.waiters
      ensures if hit(id) then TrueEntry(Entry(id, Resolved(event), |s.events|), t.registered[id], t.events)
              else Quiet(t.registered[id], t.events, |t.events|)
    {
      assert Quiet(s.registered[id], s.events, |s.events|);
      assert forall k | 0 <= k < |s.events| :: t.events[k] == s.events[k];
    }
    SettleKeepsInv(t, hit, Resolved(event), |s.events|);
  }

  lemma RejectKeepsInv(s: Session, message: string)
    requires Inv(s)
    ensures Inv(RejectWaiters(s, message)) && RejectWaiters(s, message).waiters == []
  {
    SettleKeepsInv(s, (id: nat) => true, Rejected(message), |s.events|);
    PickNone(s.waiters, (id: nat) => true, false);
  }

  lemma TimerKeepsInv(s: Session, id: nat)
    requires Inv(s)
    ensures Inv(TimerFires(s, id))
  {
    SettleKeepsInv(s, (i: nat) => i == id, TimedOut, |s.events|);
  }

  lemma RegisterKeepsOnce(s: Session, r: Registration)
    requires SettledOnce(|s.registered|, s.waiters, s.log)
    ensures var t := WaitFor(s, r); SettledOnce(|t.registered|, t.waiters, t.log)
  {
    var id := |s.registered|;
    match FirstMatch(r, s.events, r.after)
    case Some(k) =>
      LogIdsAppend(s.log, [Entry(id, Resolved(s.events[k]), k)]);
      assert LogIds([Entry(id, Resolved(s.events[k]), k)]) == [id];
      DistinctConcat(LogIds(s.log), [id]);
    case None =>
      DistinctConcat(s.waiters, [id]);
  }

  lemma RegisterKeepsTruth(s: Session, r: Registration)
    requires SettledOnce(|s.registered|, s.waiters, s.log) && LogTrue(s)
    ensures LogTrue(WaitFor(s, r))
  {
    var t := WaitFor(s, r);
    forall e | e in t.log && e.id < |t.registered| ensures TrueEntry(e, t.registered[e.id], t.events) {
      if e in s.log {
        var i :| 0 <= i < |s.log| && s.log[i] == e;
        assert LogIds(s.log)[i] == e.id;
        assert e.id in LogIds(s.log);
      }
    }
  }

  lemma RegisterKeepsInv(s: Session, r: Registration)
    requires Inv(s) && AnswersRequest(r)
    requires r.request.Some? ==>
               r.request.value <= s.sequence &&
               forall id | 0 <= id < |s.registered| :: s.registered[id].request != r.request
    ensures Inv(WaitFor(s, r))
  {
    RegisterKeepsOnce(s, r);
    RegisterKeepsTruth(s, r);
  }

  lemma CommandKeepsInv(s: Session, payload: Payload)
    requires Inv(s)
    ensures Inv(Command(s, payload))
  {
    if !Refused(s) {
      var request := s.sequence + 1;
      RegisterKeepsInv(s.(sequence := request),
                       Registration(|s.events|, (e: Event) => IsResponse(e, request), Some(request)));
    }
  }

  lemma {:induction false} LinesKeepInv(s: Session, lines: seq<string>, parse: Parser)
    requires Inv(s)
    ensures Inv(ConsumeLines(s, lines, parse))
    decreases |lines|
  {
    if lines != [] {
      var line := StripReturn(lines[0]);
      if line != "" {
        match parse(line)
        case Some(event) => DispatchKeepsInv(s, event);
        case None => RejectKeepsInv(s, MALFORMED);
      }
      LinesKeepInv(ConsumeLine(s, lines[0], parse), lines[1..], parse);
    }
  }

  lemma PromptKeepsInv(s: Session, text: string)
    requires Inv(s)
    ensures Inv(PromptAndSettle(s, text))
  {
    var r := Registration(|s.events|, (e: Event) => e.kind == "agent_settled", None);
    RegisterKeepsInv(s, r);
    CommandKeepsInv(WaitFor(s, r), Prompt(text));
  }

  lemma FailureKeepsInv(s: Session, message: string)
    requires Inv(s)
    ensures Inv(RecordTerminalFailure(s, message)) && RecordTerminalFailure(s, message).waiters == []
  {
    var failure := if s.failure.Some? then s.failure.value else message;
    RejectKeepsInv(s.(failure := Some(failure)), failure);
  }

  lemma CloseKeepsInv(s: Session)
    requires Inv(s)
    ensures Inv(s.(closing := true))
  {
  }

  lemma AnyRegistrationKeepsInv(s: Session, r: Registration)
    requires Inv(s)
    ensures Inv(WaitFor(s, r.(request := None)))
  {
    RegisterKeepsInv(s, r.(request := None));
  }

  lemma OutputKeepsInv(c: Client, chunk: string, parse: Parser)
    requires Inv(c.session)
    ensures Inv(ReadStdout(c, chunk, parse).session)
  {
    LinesKeepInv(c.session, Frame(c.buffer + chunk).lines, parse);
  }

  lemma ApplyKeepsInv(c: Client, action: Action, parse: Parser)
    requires Inv(c.session)
    ensures Inv(Apply(c, action, parse).session)
  {
    match action
    case Output(chunk) => OutputKeepsInv(c, chunk, parse);
    case Register(r) => AnyRegistrationKeepsInv(c.session, r);
    case SendCommand(payload) => CommandKeepsInv(c.session, payload);
    case SendPrompt(text) =>
      PromptKeepsInv(c.session, text);
    case Timer(id) => TimerKeepsInv(c.session, id);
    case Failure(message) =>
      FailureKeepsInv(c.session, message);
    case Close => CloseKeepsInv(c.session);
  }

  /** In every run: each waiter is settled at most once, waits exactly while unsettled, and if resolved got the
      earliest event it was waiting for. */
  lemma {:induction false} EveryRunIsSafe(actions: seq<Action>, parse: Parser)
    ensures Inv(Run(actions, parse).session)
  {
    if actions != [] {
      EveryRunIsSafe(actions[..|actions|-1], parse);
      ApplyKeepsInv(Run(actions[..|actions|-1], parse), actions[|actions|-1], parse);
    }
  }

  // ---------- consequences ----------

  /** Two commands are never settled by the same response. */
  lemma ResponsesAreNotShared(s: Session, a: Entry, b: Entry)
    requires Inv(s) && a in s.log && b in s.log && a.id != b.id
    requires a.id < |s.registered| && b.id < |s.registered|
    requires a.settlement.Resolved? && b.settlement.Resolved?
    requires s.registered[a.id].request.Some? && s.registered[b.id].request.Some?
    ensures a.at != b.at
  {
    assert TrueEntry(a, s.registered[a.id], s.events) && TrueEntry(b, s.registered[b.id], s.events);
    assert AnswersRequest(s.registered[a.id]) && AnswersRequest(s.registered[b.id]);
    var i, j := if a.id < b.id then a.id else b.id, if a.id < b.id then b.id else a.id;
    assert s.registered[i].request != s.registered[j].request;
  }

  /** History is never rewritten: what has been dispatched, registered and settled stays. */
  ghost predicate Extends(s: Session, t: Session) {
    && s.events <= t.events && s.registered <= t.registered && s.log <= t.log && s.outbox <= t.outbox
    && s.sequence <= t.sequence
    && (s.failure.Some? ==> t.failure == s.failure)
    && (s.closing ==> t.closing)
  }

  lemma {:induction false} LinesExtend(s: Session, lines: seq<string>, parse: Parser)
    ensures Extends(s, ConsumeLines(s, lines, parse))
    decreases |lines|
  {
    if lines != [] { LinesExtend(ConsumeLine(s, lines[0], parse), lines[1..], parse); }
  }

  /** The first terminal failure is the one reported, and nothing an action does takes a settlement back. */
  lemma ApplyExtends(c: Client, action: Action, parse: Parser)
    ensures Extends(c.session, Apply(c, action, parse).session)
  {
    if action.Output? { LinesExtend(c.session, Frame(c.buffer + action.chunk).lines, parse); }
  }

  /** A terminal failure settles every waiter, and from then on no command is sent. */
  lemma FailureSettlesAll(c: Client, message: string, parse: Parser)
    requires Inv(c.session)
    ensures
      var s := Apply(c, Failure(message), parse).session;
      && s.waiters == [] && s.failure.Some?
      && (forall id: nat | id < |s.registered| :: id in LogIds(s.log))
      && forall payload :: Command(s, payload) == s
  {
    FailureKeepsInv(c.session, message);
  }

  /** But a prompt registers its settlement waiter before its command is refused, and leaves that waiter behind. */
  lemma PromptAfterFailureWaits(c: Client, text: string, parse: Parser)
    requires Inv(c.session) && Refused(c.session)
    ensures
      var s := Apply(c, SendPrompt(text), parse).session;
      && s.waiters == c.session.waiters + [|c.session.registered|]
      && s.outbox == c.session.outbox && s.sequence == c.session.sequence
  {
  }

  lemma {:induction false} NoWaitersNoneLeft(s: Session, lines: seq<string>, parse: Parser)
    requires s.waiters == []
    ensures ConsumeLines(s, lines, parse).waiters == []
    decreases |lines|
  {
    if lines != [] { NoWaitersNoneLeft(ConsumeLine(s, lines[0], parse), lines[1..], parse); }
  }

  /** After a failure or a close, with nobody waiting, a prompt is the only action that leaves a waiter. */
  lemma OnlyPromptsLeaveWaiters(c: Client, action: Action, parse: Parser)
    requires Inv(c.session) && Refused(c.session) && c.session.waiters == [] && !action.Register?
    ensures Apply(c, action, parse).session.waiters == [] <==> !action.SendPrompt?
  {
    if action.Output? { NoWaitersNoneLeft(c.session, Frame(c.buffer + action.chunk).lines, parse); }
  }

  /** A line that cannot be parsed settles every waiter. */
  lemma MalformedLineSettlesAll(s: Session, line: string, parse: Parser)
    requires Inv(s) && StripReturn(line) != "" && parse(StripReturn(line)) == None
    ensures
      var t := ConsumeLine(s, line, parse);
      t.waiters == [] && forall id: nat | id < |t.registered| :: id in LogIds(t.log)
  {
    RejectKeepsInv(s, MALFORMED);
  }

  /** A line takes a waiter out exactly when it is malformed or holds an event that satisfies the waiter. */
  lemma LineEndsWaiter(s: Session, w: nat, line: string, parse: Parser)
    requires w in s.waiters && w < |s.registered| && s.registered[w].after <= |s.events|
    ensures
      var stripped := StripReturn(line);
      w !in ConsumeLine(s, line, parse).waiters <==>
        stripped != "" && (parse(stripped).Some? ==> s.registered[w].accepts(parse(stripped).value))
  {
  }

  /** A timer ends its own waiter and no other, if that still waits. */
  lemma TimerEndsOwnWaiter(s: Session, id: nat)
    requires Distinct(s.waiters)
    ensures
      var t := TimerFires(s, id);
      && (forall w :: w in t.waiters <==> w in s.waiters && w != id)
      && t.log == (if id in s.waiters then s.log + [Entry(id, TimedOut, |s.events|)] else s.log)
  {
    PickOne(s.waiters, id);
    assert EntriesFor([id], TimedOut, |s.events|) == [Entry(id, TimedOut, |s.events|)];
    assert s.log + EntriesFor([], TimedOut, |s.events|) == s.log;
  }

  /** An event settles exactly the waiters that accept it, each with that event, and an event settles nobody twice. */
  lemma EventSettlesItsWaiters(s: Session, event: Event)
    requires forall w | w in s.waiters :: w < |s.registered| && s.registered[w].after <= |s.events|
    ensures
      var t := Dispatch(s, event);
      && t.events == s.events + [event]
      && (forall w :: w in t.waiters <==> w in s.waiters && !s.registered[w].accepts(event))
      && (forall e :: e in t.log <==>
            e in s.log || (e.id in s.waiters && s.registered[e.id].accepts(event)
                           && e == Entry(e.id, Resolved(event), |s.events|)))
  {
    var hit := Hears(s.(events := s.events + [event]), event);
    var ids := Pick(s.waiters, hit, true);
    forall e ensures e in EntriesFor(ids, Resolved(event), |s.events|) <==>
                       e.id in ids && e == Entry(e.id, Resolved(event), |s.events|)
    {
      if e.id in ids {
        var i :| 0 <= i < |ids| && ids[i] == e.id;
        assert EntriesFor(ids, Resolved(event), |s.events|)[i] == Entry(e.id, Resolved(event), |s.events|);
      }
    }
  }

  /** A prompt is written as such, under the next number. */
  lemma PromptIsWritten(s: Session, text: string)
    requires !Refused(s)
    ensures
      var t := PromptAndSettle(s, text);
      && t.outbox == s.outbox + [Message(s.sequence + 1, Payload("prompt", None, text))]
      && |t.registered| == |s.registered| + 2
      && forall e: Event :: t.registered[|s.registered|].accepts(e) <==> e.kind == "agent_settled"
  {
  }

  /** What ends the waiter that a refused prompt leaves: a failure, its own timer, or a line that is malformed or holds
      the event it waits for. */
  lemma LeftoverWaiterEnds(c: Client, text: string, message: string, line: string, parse: Parser)
    requires Inv(c.session) && Refused(c.session)
    ensures
      var s := Apply(c, SendPrompt(text), parse).session;
      var w := |c.session.registered|;
      var stripped := StripReturn(line);
      && w in s.waiters
      && w !in RecordTerminalFailure(s, message).waiters
      && w !in TimerFires(s, w).waiters
      && (w !in ConsumeLine(s, line, parse).waiters <==>
            stripped != "" && (parse(stripped).Some? ==> parse(stripped).value.kind == "agent_settled"))
  {
    PromptAfterFailureWaits(c, text, parse);
    LineEndsWaiter(Apply(c, SendPrompt(text), parse).session, |c.session.registered|, line, parse);
  }

  // ---------- what a command returns ----------

  /** A command succeeds exactly when the first response to its own number, after it was sent, reports success. */
  lemma CommandSucceedsByOwnResponse(s: Session, e: Entry)
    requires Inv(s) && e in s.log && e.id < |s.registered| && s.registered[e.id].request.Some?
    ensures
      var r := s.registered[e.id];
      var outcome := CommandOutcome(e.settlement);
      && (outcome.Ok? <==> e.settlement.Resolved? && e.settlement.event.success)
      && (outcome.Err? ==>
            && (e.settlement.Resolved? ==> outcome.error == "Pi RPC command failed: " + e.settlement.event.text)
            && (e.settlement.Rejected? ==> outcome.error == e.settlement.message)
            && (e.settlement.TimedOut? ==> outcome.error == "timed out waiting for the response"))
      && (outcome.Ok? ==>
            && r.after <= e.at < |s.events| && s.events[e.at] == outcome.value
            && IsResponse(outcome.value, r.request.value)
            && forall k | r.after <= k < e.at :: !IsResponse(s.events[k], r.request.value))
  {
    var r := s.registered[e.id];
    assert TrueEntry(e, r, s.events) && AnswersRequest(r);
  }

  /** Message `i` is that of command `i + 1`, written under that number or the payload's own id. */
  ghost predicate OutboxNumbered(s: Session) {
    && |s.outbox| == s.sequence
    && forall i | 0 <= i < |s.outbox| :: s.outbox[i].id == WrittenId(s.outbox[i].payload, i + 1)
  }

  lemma {:induction false} LinesWriteNothing(s: Session, lines: seq<string>, parse: Parser)
    ensures ConsumeLines(s, lines, parse).outbox == s.outbox && ConsumeLines(s, lines, parse).sequence == s.sequence
    decreases |lines|
  {
    if lines != [] { LinesWriteNothing(ConsumeLine(s, lines[0], parse), lines[1..], parse); }
  }

  lemma ApplyKeepsNumbers(c: Client, action: Action, parse: Parser)
    requires OutboxNumbered(c.session)
    ensures OutboxNumbered(Apply(c, action, parse).session)
  {
    if action.Output? { LinesWriteNothing(c.session, Frame(c.buffer + action.chunk).lines, parse); }
  }

  lemma {:induction false} RunNumbersMessages(actions: seq<Action>, parse: Parser)
    ensures OutboxNumbered(Run(actions, parse).session)
  {
    if actions != [] {
      RunNumbersMessages(actions[..|actions|-1], parse);
      ApplyKeepsNumbers(Run(actions[..|actions|-1], parse), actions[|actions|-1], parse);
    }
  }

  ghost predicate Carries(s: Session, i: nat, number: nat) {
    i < |s.outbox| && s.outbox[i].id == number
  }

  /** Each command's number is carried by its own message and by no other. */
  ghost predicate NumbersIdentify(s: Session) {
    forall i: nat, number: nat | i < |s.outbox| :: Carries(s, i, number) <==> number == i + 1
  }

  predicate NoForeignIds(s: Session) {
    forall i | 0 <= i < |s.outbox| :: s.outbox[i].payload.id in {None, Some(i + 1)}
  }

  lemma IdentifiedWithoutForeignIds(s: Session)
    requires OutboxNumbered(s)
    ensures NumbersIdentify(s) <==> NoForeignIds(s)
  {
    if NumbersIdentify(s) {
      forall i | 0 <= i < |s.outbox| ensures s.outbox[i].payload.id in {None, Some(i + 1)} {
        assert Carries(s, i, i + 1);
      }
    }
  }

  /** Over every interleaving, the numbers identify the messages exactly when no payload brings another id. */
  lemma RunNumbersIdentify(actions: seq<Action>, parse: Parser)
    ensures
      var s := Run(actions, parse).session;
      |s.outbox| == s.sequence && (NumbersIdentify(s) <==> NoForeignIds(s))
  {
    RunNumbersMessages(actions, parse);
    IdentifiedWithoutForeignIds(Run(actions, parse).session);
  }

  lemma RunOfTwo(a: Action, b: Action, parse: Parser)
    ensures Run([a, b], parse) == Apply(Apply(INITIAL, a, parse), b, parse)
  {
    assert [a, b][..1] == [a] && [a][..0] == [];
    assert Run([a], parse) == Apply(Run([], parse), a, parse);
  }

  lemma TwoCommands(a: Payload, b: Payload)
    ensures
      var s := Command(Command(INITIAL.session, a), b);
      && s.events == [] && s.log == [] && s.waiters == [0, 1]
      && s.outbox == [Message(WrittenId(a, 1), a), Message(WrittenId(b, 2), b)]
      && |s.registered| == 2 && s.registered[0].after == s.registered[1].after == 0
      && (forall e: Event :: s.registered[0].accepts(e) <==> IsResponse(e, 1))
      && (forall e: Event :: s.registered[1].accepts(e) <==> IsResponse(e, 2))
  {
  }

  lemma PickSecond(hit: nat -> bool)
    requires !hit(0) && hit(1)
    ensures Pick([0, 1], hit, true) == [1] && Pick([0, 1], hit, false) == [0]
  {
    assert [0, 1][..1] == [0];
    PickNone([0], hit, true);
    PickAll([0], hit, false);
  }

  lemma SecondHears(s: Session, answer: Event)
    requires s.events == [] && s.log == [] && s.waiters == [0, 1] && |s.registered| == 2
    requires s.registered[0].after == 0 && !s.registered[0].accepts(answer)
    requires s.registered[1].after == 0 && s.registered[1].accepts(answer)
    ensures Dispatch(s, answer).waiters == [0] && Dispatch(s, answer).log == [Entry(1, Resolved(answer), 0)]
  {
    PickSecond(Hears(s.(events := s.events + [answer]), answer));
    assert EntriesFor([1], Resolved(answer), 0) == [Entry(1, Resolved(answer), 0)];
  }

  /** Otherwise the answer to one command's message can settle another command and leave the first one waiting. */
  lemma ForeignIdMisleads(answer: Event, parse: Parser)
    requires IsResponse(answer, 2)
    ensures
      var s := Run([SendCommand(Payload("x", Some(2), "")), SendCommand(Payload("y", None, ""))], parse).session;
      && Carries(s, 0, 2) && Carries(s, 1, 2)
      && Dispatch(s, answer).waiters == [0] && Dispatch(s, answer).log == [Entry(1, Resolved(answer), 0)]
  {
    var a, b := Payload("x", Some(2), ""), Payload("y", None, "");
    RunOfTwo(SendCommand(a), SendCommand(b), parse);
    TwoCommands(a, b);
    SecondHears(Command(Command(INITIAL.session, a), b), answer);
  }

  // ---------- the events of a whole run ----------

  /** Everything the process wrote during the run. */
  function OutputOf(actions: seq<Action>): string {
    if actions == [] then ""
    else
      var last := actions[|actions|-1];
      OutputOf(actions[..|actions|-1]) + (if last.Output? then last.chunk else "")
  }

  lemma {:induction false} ParsedAppend(a: seq<string>, b: seq<string>, parse: Parser)
    ensures ParsedLines(a + b, parse) == ParsedLines(a, parse) + ParsedLines(b, parse)
  {
    if a == [] {
      assert a + b == b;
    } else {
      assert (a + b)[0] == a[0] && (a + b)[1..] == a[1..] + b;
      ParsedAppend(a[1..], b, parse);
      ConcatAssociates(ParsedLine(a[0], parse), ParsedLines(a[1..], parse), ParsedLines(b, parse));
    }
  }

  /** The client has dispatched the complete lines of `text` and holds back the rest. */
  ghost predicate HasRead(c: Client, text: string, parse: Parser) {
    var framed := Frame(text);
    c.session.events == ParsedLines(framed.lines, parse) && c.buffer == framed.rest
  }

  lemma OutputReads(c: Client, text: string, chunk: string, parse: Parser)
    requires HasRead(c, text, parse)
    ensures HasRead(ReadStdout(c, chunk, parse), text + chunk, parse)
  {
    var more := Frame(c.buffer + chunk);
    FrameAppend(text, chunk);
    EventsAreParsedLines(c.session, more.lines, parse);
    ParsedAppend(Frame(text).lines, more.lines, parse);
  }

  lemma OtherActionsReadNothing(c: Client, action: Action, parse: Parser)
    requires !action.Output?
    ensures
      var d := Apply(c, action, parse);
      d.session.events == c.session.events && d.buffer == c.buffer
  {
  }

  lemma ActionReads(c: Client, text: string, action: Action, parse: Parser)
    requires HasRead(c, text, parse)
    ensures HasRead(Apply(c, action, parse), text + (if action.Output? then action.chunk else ""), parse)
  {
    if action.Output? {
      OutputReads(c, text, action.chunk, parse);
    } else {
      assert text + "" == text;
      OtherActionsReadNothing(c, action, parse);
    }
  }

  /** Over every interleaving, the events are the parsed lines of the whole output and the buffer is its last part:
      neither chunking nor anything else that happens in between matters. */
  lemma {:induction false} RunReadsWholeOutput(actions: seq<Action>, parse: Parser)
    ensures HasRead(Run(actions, parse), OutputOf(actions), parse)
  {
    if actions != [] {
      var before, last := actions[..|actions|-1], actions[|actions|-1];
      RunReadsWholeOutput(before, parse);
      ActionReads(Run(before, parse), OutputOf(before), last, parse);
    }
  }
}
