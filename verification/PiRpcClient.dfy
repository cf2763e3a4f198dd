/** The client object itself: class PiRpcClient in scripts/pi-rpc-client.ts, each method against its specification. */
module PiRpcClients {
  import opened Ordering
  import opened Framing
  import opened RpcSession

  class PiRpcClient {
    const parse: Parser
    var buffer: string
    var events: seq<Event>
    var registered: seq<Registration>
    var waiters: seq<nat>
    var log: seq<Entry>
    var terminalFailure: Option<string>
    var closing: bool
    var requestSequence: nat
    var outbox: seq<Message>

    function View(): Session
      reads this
    {
      RpcSession.Session.Session(events, registered, waiters, log, terminalFailure, closing, requestSequence, outbox)
    }

    function State(): Client
      reads this
    {
      Client(View(), buffer)
    }

    constructor (parse: Parser)
      ensures State() == INITIAL && this.parse == parse
    {
      this.parse := parse;
      buffer, events, registered, waiters, log := "", [], [], [], [];
      terminalFailure, closing, requestSequence, outbox := None, false, 0, [];
    }

    /** Goes over the waiters in order: who hears is settled, the others are kept. */
    static method Sift(ids: seq<nat>, hit: nat -> bool, settlement: Settlement, at: nat)
      returns (kept: seq<nat>, settled: seq<Entry>)
      ensures kept == Pick(ids, hit, false) && settled == EntriesFor(Pick(ids, hit, true), settlement, at)
    {
      kept, settled := [], [];
      for i := 0 to |ids|
        invariant kept == Pick(ids[..i], hit, false)
        invariant settled == EntriesFor(Pick(ids[..i], hit, true), settlement, at)
      {
        PickStep(ids, i, hit, settlement, at);
        if hit(ids[i]) {
          settled := settled + [Entry(ids[i], settlement, at)];
        } else {
          kept := kept + [ids[i]];
        }
      }
      assert ids[..|ids|] == ids;
    }

    method Dispatch(event: Event)
      modifies this
      ensures View() == RpcSession.Dispatch(old(View()), event) && buffer == old(buffer)
    {
      events := events + [event];
      var hit := Hears(View(), event);
      var kept, settled := Sift(waiters, hit, Resolved(event), |events| - 1);
      log := log + settled;
      waiters := kept;
    }

    method RejectWaiters(message: string)
      modifies this
      ensures View() == RpcSession.RejectWaiters(old(View()), message) && buffer == old(buffer)
    {
      var settled: seq<Entry> := [];
      for i := 0 to |waiters|
        modifies {}
        invariant settled == EntriesFor(waiters[..i], Rejected(message), |events|)
      {
        assert waiters[..i+1] == waiters[..i] + [waiters[i]];
        settled := settled + [Entry(waiters[i], Rejected(message), |events|)];
      }
      assert waiters[..|waiters|] == waiters;
      RejectingSettlesAll(View(), message);
      log := log + settled;
      waiters := [];
    }

    method RecordTerminalFailure(message: string)
      modifies this
      ensures View() == RpcSession.RecordTerminalFailure(old(View()), message) && buffer == old(buffer)
    {
      if terminalFailure.None? {
        terminalFailure := Some(message);
      }
      RejectWaiters(terminalFailure.value);
    }

    method TimerFires(id: nat)
      modifies this
      ensures View() == RpcSession.TimerFires(old(View()), id) && buffer == old(buffer)
    {
      var hit := (i: nat) => i == id;
      log := log + EntriesFor(Pick(waiters, hit, true), TimedOut, |events|);
      waiters := Pick(waiters, hit, false);
    }

    method WaitFor(r: Registration) returns (id: nat)
      modifies this
      ensures id == |old(registered)|
      ensures View() == RpcSession.WaitFor(old(View()), r) && buffer == old(buffer)
    {
      id := |registered|;
      registered := registered + [r];
      var index := r.after;
      while index < |events|
        invariant FirstMatch(r, events, r.after) == FirstMatch(r, events, index)
        decreases |events| - index
      {
        if r.accepts(events[index]) {
          log := log + [Entry(id, Resolved(events[index]), index)];
          return;
        }
        index := index + 1;
      }
      waiters := waiters + [id];
    }

    /** Fails without effect after a terminal failure or a close. */
    method Command(payload: Payload) returns (request: Result<nat, string>)
      modifies this
      ensures View() == RpcSession.Command(old(View()), payload) && buffer == old(buffer)
      ensures request.Err? <==> Refused(old(View()))
      ensures request.Ok? ==> request.value == old(requestSequence) + 1
      ensures request.Err? ==>
                request.error == (if old(terminalFailure).Some? then old(terminalFailure).value
                                  else "Pi RPC process is closed")
    {
      if terminalFailure.Some? {
        return Err(terminalFailure.value);
      }
      if closing {
        return Err("Pi RPC process is closed");
      }
      requestSequence := requestSequence + 1;
      var number := requestSequence;
      var _ := WaitFor(Registration(|events|, (e: Event) => IsResponse(e, number), Some(number)));
      outbox := outbox + [Message(WrittenId(payload, number), payload)];
      request := Ok(number);
    }

    method PromptAndSettle(text: string) returns (request: Result<nat, string>)
      modifies this
      ensures View() == RpcSession.PromptAndSettle(old(View()), text) && buffer == old(buffer)
      ensures request.Err? <==> Refused(old(View()))
    {
      var _ := WaitFor(Registration(|events|, (e: Event) => e.kind == "agent_settled", None));
      request := Command(Prompt(text));
    }

    method ConsumeLine(line: string)
      modifies this
      ensures View() == RpcSession.ConsumeLine(old(View()), line, parse) && buffer == old(buffer)
    {
      var stripped := StripReturn(line);
      if stripped == "" {
        return;
      }
      match parse(stripped)
      case Some(event) => Dispatch(event);
      case None => RejectWaiters(MALFORMED);
    }

    /** Takes whole lines off the buffer as long as it holds a newline. */
    method ReadStdout(chunk: string)
      modifies this
      ensures State() == RpcSession.ReadStdout(old(State()), chunk, parse)
    {
      buffer := buffer + chunk;
      ghost var target := RpcSession.ReadStdout(old(State()), chunk, parse);
      while '\n' in buffer
        invariant Client(ConsumeLines(View(), Frame(buffer).lines, parse), Frame(buffer).rest) == target
        decreases |buffer|
      {
        var newline := NewlineAt(buffer);
        var line := buffer[..newline];
        ghost var after := Frame(buffer[newline + 1..]);
        assert Frame(buffer).lines[0] == line && Frame(buffer).lines[1..] == after.lines;
        buffer := buffer[newline + 1..];
        ConsumeLine(line);
      }
    }

    method Close()
      modifies this
      ensures View() == old(View()).(closing := true) && buffer == old(buffer)
    {
      closing := true;
    }
  }

  lemma RejectingSettlesAll(s: Session, message: string)
    ensures RpcSession.RejectWaiters(s, message) ==
              s.(waiters := [], log := s.log + EntriesFor(s.waiters, Rejected(message), |s.events|))
  {
    PickAll(s.waiters, (id: nat) => true, true);
    PickNone(s.waiters, (id: nat) => true, false);
  }

  lemma PickStep(ids: seq<nat>, i: nat, hit: nat -> bool, settlement: Settlement, at: nat)
    requires i < |ids|
    ensures
      var id := ids[i];
      && Pick(ids[..i+1], hit, false) == Pick(ids[..i], hit, false) + (if hit(id) then [] else [id])
      && EntriesFor(Pick(ids[..i+1], hit, true), settlement, at) ==
           EntriesFor(Pick(ids[..i], hit, true), settlement, at) + (if hit(id) then [Entry(id, settlement, at)] else [])
  {
    assert ids[..i+1][..i] == ids[..i];
  }
}
