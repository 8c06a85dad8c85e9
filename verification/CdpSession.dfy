/** figura/scripts/cdp-session.mjs: the session object. Every method is proved against the
    step of CdpProtocol it takes; a promise is its resolve and reject calls, which the
    ghost history records. */
module CdpSession {
  import opened Optional
  import opened CdpProtocol
  import opened CdpFraming

  class CdpSession {
    const parse: Parser

    var nextId: nat
    var pendingCommands: seq<Pending>
    var commandTimers: set<nat>
    var eventListeners: seq<Waiter>
    var eventWaiterRejections: seq<nat>
    var waiterTimers: set<nat>
    var nextToken: nat
    var partialMessage: seq<string>
    var failure: Option<Failure>
    var written: seq<nat>

    ghost var issued: set<Promise>
    ghost var settled: seq<Settlement>

    ghost function Abs(): Session
      reads this
    {
      Session(nextId, pendingCommands, commandTimers, eventListeners, eventWaiterRejections, waiterTimers, nextToken,
              partialMessage, failure, written, issued, settled)
    }

    constructor (parse: Parser)
      ensures Abs() == Fresh() && this.parse == parse
    {
      this.parse := parse;
      nextId, pendingCommands, commandTimers := 1, [], {};
      eventListeners, eventWaiterRejections, waiterTimers, nextToken := [], [], {}, 0;
      partialMessage, failure, written, issued, settled := [], None, [], {}, [];
    }

    method Send(name: string) returns (call: Call)
      modifies this
      ensures Abs() == SendStep(old(Abs()), name)
      ensures call == CallOn(old(Abs()), old(nextId))
    {
      if failure.Some? { return RejectedWith(failure.value); }
      var id := nextId;
      nextId := nextId + 1;
      commandTimers := commandTimers + {id};
      pendingCommands := pendingCommands + [Pending(id, name)];
      written := written + [id];
      issued := issued + {OfCommand(id)};
      return Issued(id);
    }

    method CommandTimedOut(id: nat)
      requires id in commandTimers
      modifies this
      ensures Abs() == CommandTimeoutStep(old(Abs()), id)
    {
      var found := FindPending(pendingCommands, id);
      commandTimers := commandTimers - {id};
      pendingCommands := WithoutPending(pendingCommands, id);
      settled := settled + [Settlement(OfCommand(id), Rejected(TimeoutFailure(if found.Some? then found.value.name else "")))];
    }

    method WaitForEvent(name: string, session: Option<string>) returns (call: Call)
      modifies this
      ensures Abs() == WaitStep(old(Abs()), name, session)
      ensures call == CallOn(old(Abs()), old(nextToken))
    {
      if failure.Some? { return RejectedWith(failure.value); }
      var token := nextToken;
      nextToken := nextToken + 1;
      eventListeners := eventListeners + [Waiter(token, name, session)];
      waiterTimers := waiterTimers + {token};
      eventWaiterRejections := eventWaiterRejections + [token];
      issued := issued + {OfWaiter(token)};
      return Issued(token);
    }

    // The settle closure of a waiter, then its resolve or reject.
    method Finish(token: nat, outcome: Outcome)
      modifies this
      ensures Abs() == SettleWaiter(old(Abs()), token, outcome)
    {
      waiterTimers := waiterTimers - {token};
      eventListeners := WithoutListener(eventListeners, token);
      eventWaiterRejections := WithoutToken(eventWaiterRejections, token);
      settled := settled + [Settlement(OfWaiter(token), outcome)];
    }

    method WaiterTimedOut(token: nat)
      requires token in waiterTimers
      modifies this
      ensures Abs() == WaiterTimeoutStep(old(Abs()), token)
    {
      Finish(token, Rejected(TimeoutFailure(NameAwaited(eventListeners, token))));
    }

    method Dispatch(message: Message)
      modifies this
      ensures Abs() == DispatchStep(old(Abs()), message)
    {
      if message.Event? {
        var listeners := eventListeners;
        for i := 0 to |listeners|
          invariant Notify(Abs(), listeners[i..], message) == DispatchStep(old(Abs()), message)
        {
          assert listeners[i..][0] == listeners[i] && listeners[i..][1..] == listeners[i + 1..];
          if Hears(listeners[i], message) {
            Finish(listeners[i].token, Resolved(message.params));
          }
        }
        return;
      }
      var pending := FindPending(pendingCommands, message.id);
      if pending.None? { return; }
      pendingCommands := WithoutPending(pendingCommands, message.id);
      commandTimers := commandTimers - {message.id};
      settled := settled + [Settlement(OfCommand(message.id), Answer(pending.value.name, message))];
    }

    method Receive(text: string)
      modifies this
      ensures Abs() == Received(old(Abs()), text, parse)
    {
      var messageStart := 0;
      var terminatorIndex := TerminatorIndex(text, 0);
      while terminatorIndex != -1
        invariant 0 <= messageStart <= |text| && terminatorIndex == TerminatorIndex(text, messageStart)
        invariant ReceivedFrom(Abs(), text, messageStart, parse) == Received(old(Abs()), text, parse)
        decreases |text| - messageStart
      {
        partialMessage := partialMessage + [text[messageStart..terminatorIndex]];
        var rawMessage := Joined(partialMessage);
        partialMessage := [];
        Dispatch(parse(rawMessage));
        messageStart := terminatorIndex + 1;
        terminatorIndex := TerminatorIndex(text, messageStart);
      }
      if messageStart < |text| {
        partialMessage := partialMessage + [text[messageStart..]];
      }
    }

    method FailAll(failed: Failure)
      modifies this
      ensures Abs() == FailAllStep(old(Abs()), failed)
    {
      if failure.Some? { return; }
      failure := Some(failed);
      var pending := pendingCommands;
      for i := 0 to |pending|
        invariant RejectCommands(Abs(), pending[i..], failed) == RejectCommands(old(Abs()).(failure := Some(failed)), pending, failed)
      {
        assert pending[i..][0] == pending[i] && pending[i..][1..] == pending[i + 1..];
        commandTimers := commandTimers - {pending[i].id};
        settled := settled + [Settlement(OfCommand(pending[i].id), Rejected(failed))];
      }
      pendingCommands := [];
      var tokens := eventWaiterRejections;
      ghost var rejected := Abs();
      for i := 0 to |tokens|
        invariant RejectWaiters(Abs(), tokens[i..], failed) == RejectWaiters(rejected, tokens, failed)
      {
        assert tokens[i..][0] == tokens[i] && tokens[i..][1..] == tokens[i + 1..];
        Finish(tokens[i], Rejected(failed));
      }
    }

    // close() up to the wait for the exit; FailAll with the exit failure follows it.
    method WriteClose()
      modifies this
      ensures Abs() == CloseStep(old(Abs()))
    {
      if failure.None? {
        written := written + [nextId];
        nextId := nextId + 1;
      }
    }
  }
}
