/** The waiters of an RPC session as a state machine: the state of PiRpcClient in scripts/pi-rpc-client.ts. */
module RpcSession {
  import opened Ordering
  import opened Framing

  /** A parsed event; `id` is the number of the request it answers, if any. */
  datatype Event = Event(kind: string, id: Option<nat>, success: bool, text: string)

  type Parser = string -> Option<Event>

  /** What a caller sends; `id` is an id of its own, if it brings one. */
  datatype Payload = Payload(kind: string, id: Option<nat>, text: string)

  /** What is written: the id comes first, so the payload's own id takes its place. */
  datatype Message = Message(id: nat, payload: Payload)

  /** What a caller waits for: an event at index `after` or later that satisfies the predicate. */
  datatype Registration = Registration(after: nat, accepts: Event -> bool, request: Option<nat>)

  datatype Settlement = Resolved(event: Event) | Rejected(message: string) | TimedOut

  /** One call of a promise's resolve or reject; `at` is the event that resolved it, or the events seen by then. */
  datatype Entry = Entry(id: nat, settlement: Settlement, at: nat)

  /** Registrations are numbered in order; `waiters` lists the unsettled ones, `log` every settlement made. */
  datatype Session = Session(
    events: seq<Event>,
    registered: seq<Registration>,
    waiters: seq<nat>,
    log: seq<Entry>,
    failure: Option<string>,
    closing: bool,
    sequence: nat,
    outbox: seq<Message>)

  datatype Client = Client(session: Session, buffer: string)

  const INITIAL := Client(Session([], [], [], [], None, false, 0, []), "")

  const MALFORMED := "Pi RPC emitted malformed JSON"

  // ---------- settling ----------

  function Pick(ids: seq<nat>, hit: nat -> bool, want: bool): (r: seq<nat>)
    ensures forall id :: id in r <==> id in ids && hit(id) == want
    ensures Distinct(ids) ==> Distinct(r)
  {
    if ids == [] then []
    else
      var n := |ids| - 1;
      assert ids == ids[..n] + [ids[n]];
      Pick(ids[..n], hit, want) + (if hit(ids[n]) == want then [ids[n]] else [])
  }

  lemma {:induction false} PickAll(ids: seq<nat>, hit: nat -> bool, want: bool)
    requires forall id | id in ids :: hit(id) == want
    ensures Pick(ids, hit, want) == ids
  {
    if ids != [] {
      var n := |ids| - 1;
      assert ids == ids[..n] + [ids[n]];
      PickAll(ids[..n], hit, want);
    }
  }

  lemma {:induction false} PickNone(ids: seq<nat>, hit: nat -> bool, want: bool)
    requires forall id | id in ids :: hit(id) != want
    ensures Pick(ids, hit, want) == []
  {
    if ids != [] {
      var n := |ids| - 1;
      assert forall id | id in ids[..n] :: id in ids;
      PickNone(ids[..n], hit, want);
    }
  }

  lemma {:induction false} PickAgrees(ids: seq<nat>, a: nat -> bool, b: nat -> bool, want: bool)
    requires forall id | id in ids :: a(id) == b(id)
    ensures Pick(ids, a, want) == Pick(ids, b, want)
  {
    if ids != [] {
      var n := |ids| - 1;
      assert ids == ids[..n] + [ids[n]];
      PickAgrees(ids[..n], a, b, want);
    }
  }

  lemma {:induction false} PickOne(ids: seq<nat>, w: nat)
    requires Distinct(ids)
    ensures Pick(ids, (id: nat) => id == w, true) == if w in ids then [w] else []
  {
    if ids != [] {
      var n := |ids| - 1;
      assert ids == ids[..n] + [ids[n]];
      PickOne(ids[..n], w);
    }
  }

  function EntriesFor(ids: seq<nat>, settlement: Settlement, at: nat): (r: seq<Entry>)
    ensures |r| == |ids| && forall i | 0 <= i < |ids| :: r[i] == Entry(ids[i], settlement, at)
  {
    seq(|ids|, i requires 0 <= i < |ids| => Entry(ids[i], settlement, at))
  }

  /** Settles the waiters that `hit` selects, in registration order, and keeps the others. */
  function SettleIf(s: Session, hit: nat -> bool, settlement: Settlement, at: nat): Session {
    s.(waiters := Pick(s.waiters, hit, false),
       log := s.log + EntriesFor(Pick(s.waiters, hit, true), settlement, at))
  }

  function Hears(s: Session, event: Event): nat -> bool {
    (id: nat) => id < |s.registered| && s.registered[id].after < |s.events| && s.registered[id].accepts(event)
  }

  function Dispatch(s: Session, event: Event): Session {
    var t := s.(events := s.events + [event]);
    SettleIf(t, Hears(t, event), Resolved(event), |s.events|)
  }

  function RejectWaiters(s: Session, message: string): Session {
    SettleIf(s, (id: nat) => true, Rejected(message), |s.events|)
  }

  function RecordTerminalFailure(s: Session, message: string): Session {
    var failure := if s.failure.Some? then s.failure.value else message;
    RejectWaiters(s.(failure := Some(failure)), failure)
  }

  /** A timer is cleared when its waiter is settled, so it can only fire for one that is not. */
  function TimerFires(s: Session, id: nat): Session {
    SettleIf(s, (i: nat) => i == id, TimedOut, |s.events|)
  }

  // ---------- waiting ----------

  function FirstMatch(r: Registration, events: seq<Event>, from: nat): (k: Option<nat>)
    ensures k.Some? ==> from <= k.value < |events| && r.accepts(events[k.value])
    ensures forall j | from <= j < (if k.Some? then k.value else |events|) :: !r.accepts(events[j])
    decreases |events| - from
  {
    if from >= |events| then None
    else if r.accepts(events[from]) then Some(from)
    else FirstMatch(r, events, from + 1)
  }

  function WaitFor(s: Session, r: Registration): Session {
    var id := |s.registered|;
    var t := s.(registered := s.registered + [r]);
    match FirstMatch(r, s.events, r.after)
    case Some(k) => t.(log := s.log + [Entry(id, Resolved(s.events[k]), k)])
    case None => t.(waiters := s.waiters + [id])
  }

  predicate IsResponse(event: Event, request: nat) {
    event.kind == "response" && event.id == Some(request)
  }

  predicate Refused(s: Session) {
    s.failure.Some? || s.closing
  }

  /** Numbers a request, waits for its response, and writes it out; refused after a failure or a close. */
  function Command(s: Session, payload: Payload): Session {
    if Refused(s) then s
    else
      var request := s.sequence + 1;
      var waiting := WaitFor(s.(sequence := request),
                             Registration(|s.events|, (e: Event) => IsResponse(e, request), Some(request)));
      waiting.(outbox := s.outbox + [Message(WrittenId(payload, request), payload)])
  }

  function WrittenId(payload: Payload, request: nat): nat {
    if payload.id.Some? then payload.id.value else request
  }

  function Prompt(text: string): Payload {
    Payload("prompt", None, text)
  }

  function PromptAndSettle(s: Session, text: string): Session {
    Command(WaitFor(s, Registration(|s.events|, (e: Event) => e.kind == "agent_settled", None)), Prompt(text))
  }

  /** What a command's caller gets: the response, if there is one and it reports success. */
  function CommandOutcome(settlement: Settlement): Result<Event, string> {
    match settlement
    case Resolved(event) => if event.success then Ok(event) else Err("Pi RPC command failed: " + event.text)
    case Rejected(message) => Err(message)
    case TimedOut => Err("timed out waiting for the response")
  }

  // ---------- reading ----------

  function ConsumeLine(s: Session, line: string, parse: Parser): Session {
    var stripped := StripReturn(line);
    if stripped == "" then s
    else
      match parse(stripped)
      case Some(event) => Dispatch(s, event)
      case None => RejectWaiters(s, MALFORMED)
  }

  /** A line is handled as its text, with one carriage return before the newline belonging to the line ending. */
  lemma LineIsHandledAsText(s: Session, text: string, parse: Parser)
    ensures ConsumeLine(s, text + "\r", parse) == (if text == "" then s
                                                   else if parse(text).Some? then Dispatch(s, parse(text).value)
                                                   else RejectWaiters(s, "Pi RPC emitted malformed JSON"))
    ensures !EndsWithReturn(text) ==> ConsumeLine(s, text, parse) == ConsumeLine(s, text + "\r", parse)
  {
    StripOneReturn(text);
  }

  function ConsumeLines(s: Session, lines: seq<string>, parse: Parser): Session
    decreases |lines|
  {
    if lines == [] then s else ConsumeLines(ConsumeLine(s, lines[0], parse), lines[1..], parse)
  }

  function ReadStdout(c: Client, chunk: string, parse: Parser): Client {
    var framed := Frame(c.buffer + chunk);
    Client(ConsumeLines(c.session, framed.lines, parse), framed.rest)
  }

  function ReadChunks(c: Client, chunks: seq<string>, parse: Parser): Client
    decreases |chunks|
  {
    if chunks == [] then c else ReadChunks(ReadStdout(c, chunks[0], parse), chunks[1..], parse)
  }

  function Concat(chunks: seq<string>): string {
    if chunks == [] then "" else chunks[0] + Concat(chunks[1..])
  }

  lemma {:induction false} ConsumeAppend(s: Session, a: seq<string>, b: seq<string>, parse: Parser)
    ensures ConsumeLines(s, a + b, parse) == ConsumeLines(ConsumeLines(s, a, parse), b, parse)
    decreases |a|
  {
    if a == [] {
      assert a + b == b;
    } else {
      assert (a + b)[0] == a[0] && (a + b)[1..] == a[1..] + b;
      ConsumeAppend(ConsumeLine(s, a[0], parse), a[1..], b, parse);
    }
  }

  /** Line endings with and without a carriage return leave the same client. */
  lemma {:induction false} ReturnsDoNotMatter(s: Session, lines: seq<string>, parse: Parser)
    requires forall line | line in lines :: !EndsWithReturn(line)
    ensures ConsumeLines(s, WithReturns(lines), parse) == ConsumeLines(s, lines, parse)
    decreases |lines|
  {
    if lines != [] {
      assert lines[0] in lines && forall line | line in lines[1..] :: line in lines;
      LineIsHandledAsText(s, lines[0], parse);
      assert WithReturns(lines)[1..] == WithReturns(lines[1..]);
      ReturnsDoNotMatter(ConsumeLine(s, lines[0], parse), lines[1..], parse);
    }
  }

  lemma FramedLines(s: Session, lines: seq<string>, rest: string, parse: Parser)
    requires '\n' !in rest && forall line | line in lines :: '\n' !in line
    ensures ReadStdout(Client(s, ""), Unframe(lines, rest), parse) == Client(ConsumeLines(s, lines, parse), rest)
  {
    FrameIsUnique(lines, rest);
    assert "" + Unframe(lines, rest) == Unframe(lines, rest);
  }

  /** The same for the whole output as one stream. */
  lemma LineEndingsDoNotMatter(s: Session, lines: seq<string>, rest: string, parse: Parser)
    requires forall line | line in lines :: '\n' !in line && !EndsWithReturn(line)
    requires '\n' !in rest
    ensures ReadStdout(Client(s, ""), Unframe(WithReturns(lines), rest), parse) ==
              ReadStdout(Client(s, ""), Unframe(lines, rest), parse)
  {
    forall line | line in WithReturns(lines) ensures '\n' !in line {
      var i :| 0 <= i < |lines| && line == lines[i] + "\r";
      assert lines[i] in lines;
    }
    FramedLines(s, lines, rest, parse);
    FramedLines(s, WithReturns(lines), rest, parse);
    ReturnsDoNotMatter(s, lines, parse);
  }

  lemma TwoChunksAreOne(c: Client, a: string, b: string, parse: Parser)
    ensures ReadStdout(ReadStdout(c, a, parse), b, parse) == ReadStdout(c, a + b, parse)
  {
    var text := c.buffer + a;
    assert text + b == c.buffer + (a + b);
    FrameAppend(text, b);
    ConsumeAppend(c.session, Frame(text).lines, Frame(Frame(text).rest + b).lines, parse);
  }

  /** However the output is cut into chunks, the client ends in the same state: same events, same waiters, same
      settlements, and the text after the last newline still buffered. */
  lemma {:induction false} ChunksDoNotMatter(c: Client, chunks: seq<string>, parse: Parser)
    requires '\n' !in c.buffer
    ensures ReadChunks(c, chunks, parse) == ReadStdout(c, Concat(chunks), parse)
    ensures ReadChunks(c, chunks, parse).buffer == Frame(c.buffer + Concat(chunks)).rest
    decreases |chunks|
  {
    if chunks == [] {
    } else {
      FrameIsExact(c.buffer + chunks[0]);
      ChunksDoNotMatter(ReadStdout(c, chunks[0], parse), chunks[1..], parse);
      TwoChunksAreOne(c, chunks[0], Concat(chunks[1..]), parse);
    }
  }

  /** The event of one line: none if it is empty or malformed. */
  function ParsedLine(line: string, parse: Parser): seq<Event> {
    var stripped := StripReturn(line);
    if stripped != "" && parse(stripped).Some? then [parse(stripped).value] else []
  }

  /** The events of a stream of lines, in order. */
  function ParsedLines(lines: seq<string>, parse: Parser): seq<Event> {
    if lines == [] then [] else ParsedLine(lines[0], parse) + ParsedLines(lines[1..], parse)
  }

  lemma EventOfLine(s: Session, line: string, parse: Parser)
    ensures ConsumeLine(s, line, parse).events == s.events + ParsedLine(line, parse)
  {
  }

  lemma {:induction false} EventsAreParsedLines(s: Session, lines: seq<string>, parse: Parser)
    ensures ConsumeLines(s, lines, parse).events == s.events + ParsedLines(lines, parse)
    decreases |lines|
  {
    if lines != [] {
      var next := ConsumeLine(s, lines[0], parse);
      EventOfLine(s, lines[0], parse);
      EventsAreParsedLines(next, lines[1..], parse);
      ConcatAssociates(s.events, ParsedLine(lines[0], parse), ParsedLines(lines[1..], parse));
    }
  }
}
