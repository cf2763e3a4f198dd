/** The second RPC client: scripts/magic-context-real-rpc.ts. It keeps requests apart from waiters, takes the text after
    the last newline as a line when the output ends, and stops reading at the first malformed line. */
module MagicRpc {
  import opened Ordering
  import opened Framing
  import opened RpcSession
  import opened RpcSafety

  /** `replies` are the pending requests, one registration each, closed once the child has exited; `waits` are the
      waiters; both see the same records. */
  datatype Transport = Transport(replies: Session, waits: Session)
  {
    predicate Stopped() { replies.failure.Some? }
  }

  const IDLE := Transport(INITIAL.session, INITIAL.session)

  // ---------- pending requests, by number ----------

  function Lookup(s: Session, ids: seq<nat>, request: nat): (w: Option<nat>)
    ensures w.Some? ==> w.value in ids && w.value < |s.registered| && s.registered[w.value].request == Some(request)
    ensures w.None? ==> forall id | id in ids && id < |s.registered| :: s.registered[id].request != Some(request)
  {
    if ids == [] then None
    else if ids[0] < |s.registered| && s.registered[ids[0]].request == Some(request) then Some(ids[0])
    else Lookup(s, ids[1..], request)
  }

  /** A response settles the pending request of its number, if there is one. */
  function ConsumeReply(s: Session, event: Event): Session {
    var t := s.(events := s.events + [event]);
    if event.kind != "response" || event.id == None then t
    else
      match Lookup(t, t.waiters, event.id.value)
      case None => t
      case Some(w) =>
        t.(waiters := Pick(t.waiters, (id: nat) => id == w, false),
           log := t.log + [Entry(w, Resolved(event), |s.events|)])
  }

  ghost predicate AllRequests(s: Session) {
    forall id | 0 <= id < |s.registered| :: s.registered[id].request.Some? && s.registered[id].after <= |s.events|
  }

  lemma PickLike(ids: seq<nat>, hit: nat -> bool, w: nat)
    requires Distinct(ids) && w in ids && forall id | id in ids :: hit(id) == (id == w)
    ensures Pick(ids, hit, true) == [w] && Pick(ids, hit, false) == Pick(ids, (id: nat) => id == w, false)
  {
    PickAgrees(ids, hit, (id: nat) => id == w, true);
    PickAgrees(ids, hit, (id: nat) => id == w, false);
    PickOne(ids, w);
  }

  lemma HearsOwnResponse(s: Session, event: Event, id: nat)
    requires Inv(s) && AllRequests(s) && id < |s.registered|
    ensures
      var t := s.(events := s.events + [event]);
      Hears(t, event)(id) <==> event.kind == "response" && event.id == s.registered[id].request
  {
    assert AnswersRequest(s.registered[id]);
  }

  lemma HearsOnly(s: Session, event: Event, w: nat, id: nat)
    requires Inv(s) && AllRequests(s) && id in s.waiters && w in s.waiters
    requires event.kind == "response" && event.id == s.registered[w].request
    ensures Hears(s.(events := s.events + [event]), event)(id) <==> id == w
  {
    HearsOwnResponse(s, event, id);
    assert id < w ==> s.registered[id].request != s.registered[w].request;
    assert w < id ==> s.registered[w].request != s.registered[id].request;
  }

  lemma DispatchToOne(s: Session, event: Event, w: nat)
    requires Inv(s) && AllRequests(s) && w in s.waiters
    requires event.kind == "response" && event.id == s.registered[w].request
    ensures Dispatch(s, event) == s.(events := s.events + [event],
                                     waiters := Pick(s.waiters, (id: nat) => id == w, false),
                                     log := s.log + [Entry(w, Resolved(event), |s.events|)])
  {
    var hit := Hears(s.(events := s.events + [event]), event);
    forall id | id in s.waiters ensures hit(id) == (id == w) { HearsOnly(s, event, w, id); }
    PickLike(s.waiters, hit, w);
    assert EntriesFor([w], Resolved(event), |s.events|) == [Entry(w, Resolved(event), |s.events|)];
  }

  lemma DispatchToNone(s: Session, event: Event)
    requires Inv(s) && AllRequests(s)
    requires event.kind == "response" && event.id.Some? ==>
               forall id | id in s.waiters && id < |s.registered| :: s.registered[id].request != event.id
    ensures Dispatch(s, event) == s.(events := s.events + [event])
  {
    var hit := Hears(s.(events := s.events + [event]), event);
    forall id | id in s.waiters ensures !hit(id) { HearsOwnResponse(s, event, id); }
    PickNone(s.waiters, hit, true);
    PickAll(s.waiters, hit, false);
    assert s.log + EntriesFor([], Resolved(event), |s.events|) == s.log;
  }

  /** Looking a response up by its number does what offering it to every request in turn would do. */
  lemma LookupIsScan(s: Session, event: Event)
    requires Inv(s) && AllRequests(s)
    ensures ConsumeReply(s, event) == Dispatch(s, event)
  {
    if event.kind == "response" && event.id.Some? {
      var found := Lookup(s.(events := s.events + [event]), s.waiters, event.id.value);
      if found.Some? { DispatchToOne(s, event, found.value); } else { DispatchToNone(s, event); }
    } else {
      DispatchToNone(s, event);
    }
  }

  // ---------- reading ----------

  function RejectReaders(t: Transport, message: string): Transport {
    Transport(RecordTerminalFailure(t.replies, message), RejectWaiters(t.waits, message))
  }

  function ConsumeLine(t: Transport, line: string, parse: Parser): Transport {
    var stripped := StripReturn(line);
    if t.Stopped() || stripped == "" then t
    else
      match parse(stripped)
      case Some(event) => Transport(ConsumeReply(t.replies, event), Dispatch(t.waits, event))
      case None => RejectReaders(t, "Invalid Pi RPC record: " + stripped)
  }

  /** A line is handled as its text, with one carriage return at its end belonging to the line ending. */
  lemma LineIsHandledAsText(t: Transport, text: string, parse: Parser)
    requires !t.Stopped()
    ensures ConsumeLine(t, text + "\r", parse) ==
              if text == "" then t
              else if parse(text).Some?
              then Transport(ConsumeReply(t.replies, parse(text).value), Dispatch(t.waits, parse(text).value))
              else RejectReaders(t, "Invalid Pi RPC record: " + text)
    ensures !EndsWithReturn(text) ==> ConsumeLine(t, text, parse) == ConsumeLine(t, text + "\r", parse)
  {
    StripOneReturn(text);
  }

  function ConsumeLines(t: Transport, lines: seq<string>, parse: Parser): Transport
    decreases |lines|
  {
    if lines == [] then t else ConsumeLines(ConsumeLine(t, lines[0], parse), lines[1..], parse)
  }

  /** The lines of a whole output; what follows the last newline is the last of them. */
  function LinesOf(text: string): seq<string> {
    Frame(text).lines + [Frame(text).rest]
  }

  lemma {:induction false} StoppedForGood(t: Transport, lines: seq<string>, parse: Parser)
    requires t.Stopped()
    ensures ConsumeLines(t, lines, parse) == t
    decreases |lines|
  {
    if lines != [] { StoppedForGood(t, lines[1..], parse); }
  }

  lemma LinesOfStep(head: string, tail: string)
    requires '\n' !in head
    ensures LinesOf(head + ("\n" + tail)) == [head] + LinesOf(tail)
  {
    FrameStep(head, tail);
    assert ([head] + Frame(tail).lines) + [Frame(tail).rest] == [head] + LinesOf(tail);
  }

  lemma TextStep(text: string, head: string, tail: string, later: string)
    requires '\n' !in head && text == head + ("\n" + (tail + later))
    ensures LinesOf(text) == [head] + LinesOf(tail + later)
  {
    LinesOfStep(head, tail + later);
  }

  lemma NextLine(buffer: string, later: string)
    requires '\n' in buffer
    ensures
      var k := NewlineAt(buffer);
      LinesOf(buffer + later) == [buffer[..k]] + LinesOf(buffer[k + 1..] + later)
  {
    var k := NewlineAt(buffer);
    var head, tail := buffer[..k], buffer[k + 1..];
    assert buffer + later == head + ("\n" + (tail + later));
    TextStep(buffer + later, head, tail, later);
  }

  lemma NextChunk(buffer: string, chunks: seq<string>)
    requires chunks != []
    ensures buffer + Concat(chunks) == (buffer + chunks[0]) + Concat(chunks[1..])
  {
  }

  /** The outcome depends on the output alone, not on how it was cut into chunks: its lines are taken in order, the
      unterminated one last, up to and including the first malformed one. */
  method ReadRpcOutput(start: Transport, chunks: seq<string>, parse: Parser) returns (t: Transport)
    requires !start.Stopped()
    ensures t == ConsumeLines(start, LinesOf(Concat(chunks)), parse)
  {
    t := start;
    var buffer := "";
    ghost var target := ConsumeLines(start, LinesOf(Concat(chunks)), parse);
    assert buffer + Concat(chunks) == Concat(chunks);
    for i := 0 to |chunks|
      invariant !t.Stopped()
      invariant ConsumeLines(t, LinesOf(buffer + Concat(chunks[i..])), parse) == target
      invariant i == |chunks| ==> '\n' !in buffer
    {
      NextChunk(buffer, chunks[i..]);
      assert chunks[i..][1..] == chunks[i + 1..];
      buffer := buffer + chunks[i];
      ghost var later := Concat(chunks[i + 1..]);
      while '\n' in buffer
        invariant !t.Stopped()
        invariant ConsumeLines(t, LinesOf(buffer + later), parse) == target
        decreases |buffer|
      {
        NextLine(buffer, later);
        var newline := NewlineAt(buffer);
        t := ConsumeLine(t, buffer[..newline], parse);
        buffer := buffer[newline + 1..];
        assert ConsumeLines(t, LinesOf(buffer + later), parse) == target;
        if t.Stopped() {
          StoppedForGood(t, LinesOf(buffer + later), parse);
          return;
        }
      }
    }
    assert buffer + Concat(chunks[|chunks|..]) == buffer;
    assert LinesOf(buffer) == [buffer];
    t := ConsumeLine(t, buffer, parse);
  }

  /** A stream without malformed lines: every line became a record, and nobody was rejected, not even at its end. */
  lemma {:induction false} WellFormedStream(t: Transport, lines: seq<string>, parse: Parser)
    requires !ConsumeLines(t, lines, parse).Stopped()
    ensures
      var u := ConsumeLines(t, lines, parse);
      && u.replies.events == t.replies.events + ParsedLines(lines, parse)
      && (forall e | e in u.replies.log && e !in t.replies.log :: e.settlement.Resolved?)
      && (forall e | e in u.waits.log && e !in t.waits.log :: e.settlement.Resolved?)
    decreases |lines|
  {
    if lines != [] {
      var next := ConsumeLine(t, lines[0], parse);
      if next.Stopped() { StoppedForGood(next, lines[1..], parse); }
      WellFormedStream(next, lines[1..], parse);
      OneLineResolves(t, lines[0], parse);
    }
  }

  lemma OneLineResolves(t: Transport, line: string, parse: Parser)
    requires !ConsumeLine(t, line, parse).Stopped()
    ensures
      var u := ConsumeLine(t, line, parse);
      && u.replies.events == t.replies.events + ParsedLines([line], parse)
      && (forall e | e in u.replies.log && e !in t.replies.log :: e.settlement.Resolved?)
      && (forall e | e in u.waits.log && e !in t.waits.log :: e.settlement.Resolved?)
  {
  }

  // ---------- every interleaving ----------

  datatype Step =
    | Line(line: string)
    | Send(payload: Payload)
    | ChildExits
    | Wait(r: Registration)
    | RequestTimer(id: nat)
    | WaiterTimer(id: nat)

  function Take(t: Transport, step: Step, parse: Parser): Transport {
    match step
    case Line(line) => ConsumeLine(t, line, parse)
    case Send(payload) => t.(replies := Command(t.replies, payload.(id := None)))
    case ChildExits => t.(replies := t.replies.(closing := true))
    case Wait(r) => t.(waits := WaitFor(t.waits, r.(request := None)))
    case RequestTimer(id) => t.(replies := TimerFires(t.replies, id))
    case WaiterTimer(id) => t.(waits := TimerFires(t.waits, id))
  }

  function TakeAll(steps: seq<Step>, parse: Parser): Transport {
    if steps == [] then IDLE
    else Take(TakeAll(steps[..|steps|-1], parse), steps[|steps|-1], parse)
  }

  ghost predicate Sound(t: Transport) {
    && Inv(t.replies) && Inv(t.waits) && AllRequests(t.replies)
    && t.replies.events == t.waits.events
    && |t.replies.registered| == t.replies.sequence
  }

  lemma LineKeepsSound(t: Transport, line: string, parse: Parser)
    requires Sound(t)
    ensures Sound(ConsumeLine(t, line, parse))
  {
    var stripped := StripReturn(line);
    if !t.Stopped() && stripped != "" {
      match parse(stripped)
      case Some(event) =>
        LookupIsScan(t.replies, event);
        DispatchKeepsInv(t.replies, event);
        DispatchKeepsInv(t.waits, event);
      case None =>
        var message := "Invalid Pi RPC record: " + stripped;
        RejectKeepsInv(t.replies.(failure := Some(message)), message);
        RejectKeepsInv(t.waits, message);
    }
  }

  lemma StepKeepsSound(t: Transport, step: Step, parse: Parser)
    requires Sound(t)
    ensures Sound(Take(t, step, parse))
  {
    match step
    case Line(line) => LineKeepsSound(t, line, parse);
    case Send(payload) => CommandKeepsInv(t.replies, payload.(id := None));
    case ChildExits =>
    case Wait(r) => RegisterKeepsInv(t.waits, r.(request := None));
    case RequestTimer(id) => TimerKeepsInv(t.replies, id);
    case WaiterTimer(id) => TimerKeepsInv(t.waits, id);
  }

  /** In every run each request and each waiter is settled at most once, is kept exactly while unsettled, and if
      resolved got the earliest record it was waiting for. */
  lemma {:induction false} EveryRunIsSound(steps: seq<Step>, parse: Parser)
    ensures Sound(TakeAll(steps, parse))
    ensures forall step :: TakeAll(steps + [step], parse) == Take(TakeAll(steps, parse), step, parse)
  {
    forall step ensures TakeAll(steps + [step], parse) == Take(TakeAll(steps, parse), step, parse) {
      assert (steps + [step])[..|steps|] == steps;
    }
    if steps != [] {
      EveryRunIsSound(steps[..|steps|-1], parse);
      StepKeepsSound(TakeAll(steps[..|steps|-1], parse), steps[|steps|-1], parse);
    }
  }

  /** After a malformed line or the exit of the child no request is ever sent again. */
  lemma RefusalIsFinal(t: Transport, step: Step, parse: Parser)
    requires Refused(t.replies)
    ensures
      var u := Take(t, step, parse);
      && Refused(u.replies) && u.replies.registered == t.replies.registered
      && u.replies.sequence == t.replies.sequence && u.replies.outbox == t.replies.outbox
  {
  }

  /** Every registration has been settled. */
  ghost predicate AllSettled(s: Session) {
    s.waiters == [] && forall id: nat | id < |s.registered| :: id in LogIds(s.log)
  }

  /** The first malformed line settles every request and every waiter, and ends the reading. */
  lemma MalformedLineSettlesAll(t: Transport, line: string, parse: Parser)
    requires Sound(t) && !t.Stopped() && StripReturn(line) != "" && parse(StripReturn(line)) == None
    ensures
      var u := ConsumeLine(t, line, parse);
      u.Stopped() && AllSettled(u.replies) && AllSettled(u.waits)
  {
    var message := "Invalid Pi RPC record: " + StripReturn(line);
    RejectKeepsInv(t.replies.(failure := Some(message)), message);
    RejectKeepsInv(t.waits, message);
  }

  /** From then on, with nobody waiting, a step leaves a waiter exactly when it waits for a record not yet seen. */
  lemma OnlyWaitsLeaveWaiters(t: Transport, step: Step, parse: Parser)
    requires Sound(t) && t.Stopped() && t.replies.waiters == [] && t.waits.waiters == []
    ensures
      var u := Take(t, step, parse);
      u.replies.waiters == [] && u.waits.waiters == [] <==>
        !(step.Wait? && FirstMatch(step.r.(request := None), t.waits.events, step.r.after) == None)
  {
  }
}
