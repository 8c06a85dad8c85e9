/** figura/scripts/cdp-session.mjs as a state machine: what every call, message, timeout
    and failure does to a session, and what holds over any interleaving of them. */
module CdpProtocol {
  import opened Optional

  datatype Failure = Failure(code: string, what: string)

  datatype Message =
    | Result(id: nat, value: string)
    | Error(id: nat, what: string)
    | Event(name: string, session: Option<string>, params: string)

  datatype Pending = Pending(id: nat, name: string)

  datatype Waiter = Waiter(token: nat, name: string, session: Option<string>)

  // A promise handed to a caller, by a command or by a wait for an event.
  datatype Promise = OfCommand(id: nat) | OfWaiter(token: nat)

  datatype Outcome = Resolved(value: string) | Rejected(failure: Failure)

  datatype Settlement = Settlement(promise: Promise, outcome: Outcome)

  // The fields of a session, the Maps and Sets in insertion order, with what it wrote to
  // the pipe, the promises it handed out and the resolve and reject calls it made.
  datatype Session = Session(
    nextId: nat,
    pending: seq<Pending>,
    commandTimers: set<nat>,
    listeners: seq<Waiter>,
    rejections: seq<nat>,
    waiterTimers: set<nat>,
    nextToken: nat,
    partial: seq<string>,
    failure: Option<Failure>,
    written: seq<nat>,
    issued: set<Promise>,
    settled: seq<Settlement>)

  const CDP_TIMEOUT := "CDP-TIMEOUT"
  const CDP_COMMAND_FAILED := "CDP-COMMAND-FAILED"

  function TimeoutFailure(name: string): Failure {
    Failure(CDP_TIMEOUT, name)
  }

  function CommandFailure(name: string, what: string): Failure {
    Failure(CDP_COMMAND_FAILED, name + " failed: " + what)
  }

  // What an answer to a command means for its promise.
  function Answer(name: string, message: Message): Outcome
    requires !message.Event?
  {
    if message.Result? then Resolved(message.value) else Rejected(CommandFailure(name, message.what))
  }

  function Fresh(): Session {
    Session(1, [], {}, [], [], {}, 0, [], None, [], {}, [])
  }

  function Settle(s: Session, promise: Promise, outcome: Outcome): Session {
    s.(settled := s.settled + [Settlement(promise, outcome)])
  }

  // ----- commands

  function HasPending(pending: seq<Pending>, id: nat): bool {
    exists i :: 0 <= i < |pending| && pending[i].id == id
  }

  // `pendingCommands.get(id)`.
  function FindPending(pending: seq<Pending>, id: nat): (found: Option<Pending>)
    ensures found.Some? <==> HasPending(pending, id)
    ensures found.Some? ==> found.value in pending && found.value.id == id
  {
    if pending == [] then None
    else if pending[0].id == id then Some(pending[0])
    else
      assert HasPending(pending, id) <==> HasPending(pending[1..], id) by {
        if HasPending(pending, id) {
          var i :| 0 <= i < |pending| && pending[i].id == id;
          assert pending[1..][i - 1].id == id;
        }
      }
      FindPending(pending[1..], id)
  }

  function NameSent(pending: seq<Pending>, id: nat): string {
    var found := FindPending(pending, id);
    if found.Some? then found.value.name else ""
  }

  function WithoutPending(pending: seq<Pending>, id: nat): seq<Pending> {
    if pending == [] then []
    else (if pending[0].id == id then [] else [pending[0]]) + WithoutPending(pending[1..], id)
  }

  function SendStep(s: Session, name: string): Session {
    if s.failure.Some? then s
    else s.(nextId := s.nextId + 1,
            pending := s.pending + [Pending(s.nextId, name)],
            commandTimers := s.commandTimers + {s.nextId},
            written := s.written + [s.nextId],
            issued := s.issued + {OfCommand(s.nextId)})
  }

  function SettleCommand(s: Session, id: nat, outcome: Outcome): Session {
    Settle(s.(pending := WithoutPending(s.pending, id), commandTimers := s.commandTimers - {id}), OfCommand(id), outcome)
  }

  // A timer that fired is no longer set; its callback deletes the command and rejects it.
  function CommandTimeoutStep(s: Session, id: nat): Session
    requires id in s.commandTimers
  {
    SettleCommand(s, id, Rejected(TimeoutFailure(NameSent(s.pending, id))))
  }

  // ----- waiters

  function WaitStep(s: Session, name: string, session: Option<string>): Session {
    if s.failure.Some? then s
    else s.(listeners := s.listeners + [Waiter(s.nextToken, name, session)],
            rejections := s.rejections + [s.nextToken],
            waiterTimers := s.waiterTimers + {s.nextToken},
            nextToken := s.nextToken + 1,
            issued := s.issued + {OfWaiter(s.nextToken)})
  }

  function WithoutListener(listeners: seq<Waiter>, token: nat): seq<Waiter> {
    if listeners == [] then []
    else (if listeners[0].token == token then [] else [listeners[0]]) + WithoutListener(listeners[1..], token)
  }

  function WithoutToken(tokens: seq<nat>, token: nat): seq<nat> {
    if tokens == [] then []
    else (if tokens[0] == token then [] else [tokens[0]]) + WithoutToken(tokens[1..], token)
  }

  function SettleWaiter(s: Session, token: nat, outcome: Outcome): Session {
    Settle(s.(waiterTimers := s.waiterTimers - {token},
              listeners := WithoutListener(s.listeners, token),
              rejections := WithoutToken(s.rejections, token)), OfWaiter(token), outcome)
  }

  function NameAwaited(listeners: seq<Waiter>, token: nat): string {
    if listeners == [] then ""
    else if listeners[0].token == token then listeners[0].name
    else NameAwaited(listeners[1..], token)
  }

  function WaiterTimeoutStep(s: Session, token: nat): Session
    requires token in s.waiterTimers
  {
    SettleWaiter(s, token, Rejected(TimeoutFailure(NameAwaited(s.listeners, token))))
  }

  // ----- messages

  predicate Hears(waiter: Waiter, event: Message)
    requires event.Event?
  {
    waiter.name == event.name && waiter.session == event.session
  }

  // `for (const listener of this.#eventListeners) listener(message)`.
  function Notify(s: Session, listeners: seq<Waiter>, event: Message): Session
    requires event.Event?
    decreases |listeners|
  {
    if listeners == [] then s
    else Notify(if Hears(listeners[0], event) then SettleWaiter(s, listeners[0].token, Resolved(event.params)) else s,
                listeners[1..], event)
  }

  function DispatchStep(s: Session, message: Message): Session {
    if message.Event? then Notify(s, s.listeners, message)
    else if !HasPending(s.pending, message.id) then s
    else SettleCommand(s, message.id, Answer(NameSent(s.pending, message.id), message))
  }

  // ----- failure

  function RejectCommands(s: Session, pending: seq<Pending>, failure: Failure): Session
    decreases |pending|
  {
    if pending == [] then s
    else RejectCommands(Settle(s.(commandTimers := s.commandTimers - {pending[0].id}), OfCommand(pending[0].id), Rejected(failure)),
                        pending[1..], failure)
  }

  function RejectWaiters(s: Session, tokens: seq<nat>, failure: Failure): Session
    decreases |tokens|
  {
    if tokens == [] then s
    else RejectWaiters(SettleWaiter(s, tokens[0], Rejected(failure)), tokens[1..], failure)
  }

  function FailAllStep(s: Session, failure: Failure): Session {
    if s.failure.Some? then s
    else
      var failed := RejectCommands(s.(failure := Some(failure)), s.pending, failure).(pending := []);
      RejectWaiters(failed, failed.rejections, failure)
  }

  // close() writes one command of its own, which waits for no answer.
  function CloseStep(s: Session): Session {
    if s.failure.Some? then s else s.(nextId := s.nextId + 1, written := s.written + [s.nextId])
  }

  // ----- the invariant

  function PendingIds(pending: seq<Pending>): seq<nat> {
    seq(|pending|, i requires 0 <= i < |pending| => pending[i].id)
  }

  function ListenerTokens(listeners: seq<Waiter>): seq<nat> {
    seq(|listeners|, i requires 0 <= i < |listeners| => listeners[i].token)
  }

  predicate Ascending(numbers: seq<nat>) {
    forall i, j | 0 <= i < j < |numbers| :: numbers[i] < numbers[j]
  }

  ghost function NumbersIn(numbers: seq<nat>): set<nat> {
    set n | n in numbers
  }

  ghost function Settled(s: Session): set<Promise> {
    set settlement | settlement in s.settled :: settlement.promise
  }

  // The promises still open: those of the commands in the table and of the waiters listed.
  ghost function Open(s: Session): set<Promise> {
    (set n | n in PendingIds(s.pending) :: OfCommand(n)) + (set n | n in ListenerTokens(s.listeners) :: OfWaiter(n))
  }

  ghost predicate SettledOnce(settled: seq<Settlement>) {
    forall i, j | 0 <= i < j < |settled| :: settled[i].promise != settled[j].promise
  }

  // Timers and rejections are exactly those of the open promises.
  ghost predicate Tables(s: Session) {
    && Ascending(PendingIds(s.pending)) && s.commandTimers == NumbersIn(PendingIds(s.pending))
    && Ascending(ListenerTokens(s.listeners)) && s.rejections == ListenerTokens(s.listeners)
    && s.waiterTimers == NumbersIn(s.rejections)
  }

  // Every promise handed out is open or settled, never both, and settled at most once.
  ghost predicate Promises(s: Session) {
    && SettledOnce(s.settled) && Open(s) !! Settled(s) && Open(s) + Settled(s) == s.issued
  }

  // Ids and tokens grow, so none is given twice.
  ghost predicate Numbering(s: Session) {
    && (forall promise | promise in s.issued ::
          if promise.OfCommand? then promise.id < s.nextId && promise.id in s.written else promise.token < s.nextToken)
    && Ascending(s.written) && forall i | 0 <= i < |s.written| :: s.written[i] < s.nextId
  }

  ghost predicate Books(s: Session) {
    Tables(s) && Promises(s) && Numbering(s)
  }

  ghost predicate Inv(s: Session) {
    Books(s) && (s.failure.Some? ==> s.pending == [] && s.listeners == [])
  }

  lemma FreshIsSound()
    ensures Inv(Fresh())
  {
  }

  // ----- one promise is settled

  lemma {:induction false} WithoutTokenRemoves(numbers: seq<nat>, number: nat)
    ensures forall n :: n in WithoutToken(numbers, number) <==> n in numbers && n != number
    ensures Ascending(numbers) ==> Ascending(WithoutToken(numbers, number))
  {
    if numbers != [] {
      var others := WithoutToken(numbers[1..], number);
      WithoutTokenRemoves(numbers[1..], number);
      assert numbers == [numbers[0]] + numbers[1..];
      if Ascending(numbers) {
        forall j | 0 <= j < |others| ensures numbers[0] < others[j] {
          assert others[j] in numbers[1..];
        }
      }
    }
  }

  lemma {:induction false} WithoutPendingIds(pending: seq<Pending>, id: nat)
    ensures PendingIds(WithoutPending(pending, id)) == WithoutToken(PendingIds(pending), id)
  {
    if pending != [] {
      WithoutPendingIds(pending[1..], id);
      assert PendingIds(pending) == [pending[0].id] + PendingIds(pending[1..]);
    }
  }

  lemma {:induction false} WithoutListenerTokens(listeners: seq<Waiter>, token: nat)
    ensures ListenerTokens(WithoutListener(listeners, token)) == WithoutToken(ListenerTokens(listeners), token)
  {
    if listeners != [] {
      WithoutListenerTokens(listeners[1..], token);
      assert ListenerTokens(listeners) == [listeners[0].token] + ListenerTokens(listeners[1..]);
    }
  }

  lemma HasPendingIsOpen(s: Session, id: nat)
    ensures HasPending(s.pending, id) <==> id in PendingIds(s.pending)
    ensures HasPending(s.pending, id) <==> OfCommand(id) in Open(s)
  {
    if HasPending(s.pending, id) {
      var i :| 0 <= i < |s.pending| && s.pending[i].id == id;
      assert PendingIds(s.pending)[i] == id;
    }
  }

  // Settling moves one promise from the open to the settled ones and leaves the others.
  lemma SettleCommandMoves(s: Session, id: nat, outcome: Outcome)
    requires Books(s) && OfCommand(id) in Open(s)
    ensures Books(SettleCommand(s, id, outcome))
    ensures Open(SettleCommand(s, id, outcome)) == Open(s) - {OfCommand(id)}
  {
    var t := SettleCommand(s, id, outcome);
    WithoutPendingIds(s.pending, id);
    WithoutTokenRemoves(PendingIds(s.pending), id);
    OpenIsClosed(s, t, OfCommand(id), outcome);
  }

  lemma SettleWaiterMoves(s: Session, token: nat, outcome: Outcome)
    requires Books(s) && OfWaiter(token) in Open(s)
    ensures Books(SettleWaiter(s, token, outcome))
    ensures Open(SettleWaiter(s, token, outcome)) == Open(s) - {OfWaiter(token)}
  {
    var t := SettleWaiter(s, token, outcome);
    WithoutListenerTokens(s.listeners, token);
    WithoutTokenRemoves(ListenerTokens(s.listeners), token);
    OpenIsClosed(s, t, OfWaiter(token), outcome);
  }

  // The bookkeeping of promises, given that the open ones are one fewer.
  lemma OpenIsClosed(s: Session, t: Session, promise: Promise, outcome: Outcome)
    requires Promises(s) && promise in Open(s) && Open(t) == Open(s) - {promise}
    requires t.settled == s.settled + [Settlement(promise, outcome)] && t.issued == s.issued
    ensures Promises(t)
  {
    SettledGrows(s, t, Settlement(promise, outcome));
    forall i | 0 <= i < |s.settled| ensures s.settled[i].promise != promise {
      assert s.settled[i] in s.settled && s.settled[i].promise in Settled(s);
    }
  }

  lemma SettledGrows(s: Session, t: Session, settlement: Settlement)
    requires t.settled == s.settled + [settlement]
    ensures Settled(t) == Settled(s) + {settlement.promise}
  {
    assert settlement in t.settled;
    forall x | x in s.settled ensures x in t.settled {
    }
  }

  // ----- an event

  function Heard(listeners: seq<Waiter>, event: Message): seq<Settlement>
    requires event.Event?
  {
    if listeners == [] then []
    else (if Hears(listeners[0], event) then [Settlement(OfWaiter(listeners[0].token), Resolved(event.params))] else [])
         + Heard(listeners[1..], event)
  }

  function Deaf(listeners: seq<Waiter>, event: Message): seq<Waiter>
    requires event.Event?
  {
    if listeners == [] then []
    else (if Hears(listeners[0], event) then [] else [listeners[0]]) + Deaf(listeners[1..], event)
  }

  lemma {:induction false} WithoutUnknownListener(listeners: seq<Waiter>, token: nat)
    requires token !in ListenerTokens(listeners)
    ensures WithoutListener(listeners, token) == listeners
  {
    if listeners != [] {
      assert ListenerTokens(listeners) == [listeners[0].token] + ListenerTokens(listeners[1..]);
      WithoutUnknownListener(listeners[1..], token);
    }
  }

  lemma {:induction false} WithoutListenerConcat(a: seq<Waiter>, b: seq<Waiter>, token: nat)
    ensures WithoutListener(a + b, token) == WithoutListener(a, token) + WithoutListener(b, token)
  {
    if a == [] {
      assert a + b == b;
    } else {
      assert (a + b)[1..] == a[1..] + b;
      WithoutListenerConcat(a[1..], b, token);
    }
  }

  lemma TokensConcat(a: seq<Waiter>, b: seq<Waiter>)
    ensures ListenerTokens(a + b) == ListenerTokens(a) + ListenerTokens(b)
  {
  }

  lemma MiddleIsUnique(a: seq<nat>, n: nat, b: seq<nat>)
    requires Ascending(a + [n] + b)
    ensures n !in a && n !in b
  {
    var all := a + [n] + b;
    assert all[|a|] == n;
    assert forall i | 0 <= i < |a| :: a[i] == all[i];
    assert forall i | 0 <= i < |b| :: b[i] == all[|a| + 1 + i];
  }

  lemma WithoutThatListener(kept: seq<Waiter>, waiter: Waiter, others: seq<Waiter>)
    requires Ascending(ListenerTokens(kept + [waiter] + others))
    ensures WithoutListener(kept + [waiter] + others, waiter.token) == kept + others
  {
    TokensConcat(kept, [waiter]);
    TokensConcat(kept + [waiter], others);
    assert ListenerTokens([waiter]) == [waiter.token];
    MiddleIsUnique(ListenerTokens(kept), waiter.token, ListenerTokens(others));
    WithoutMiddle(kept, waiter, others);
  }

  lemma WithoutItself(waiter: Waiter)
    ensures WithoutListener([waiter], waiter.token) == []
  {
    assert WithoutListener([], waiter.token) == [] && [waiter][1..] == [];
  }

  lemma WithoutMiddle(kept: seq<Waiter>, waiter: Waiter, others: seq<Waiter>)
    requires waiter.token !in ListenerTokens(kept) && waiter.token !in ListenerTokens(others)
    ensures WithoutListener(kept + [waiter] + others, waiter.token) == kept + others
  {
    WithoutUnknownListener(kept, waiter.token);
    WithoutUnknownListener(others, waiter.token);
    WithoutListenerConcat(kept + [waiter], others, waiter.token);
    WithoutListenerConcat(kept, [waiter], waiter.token);
    WithoutItself(waiter);
    assert kept + [] == kept;
  }

  lemma HearerLeaves(s: Session, kept: seq<Waiter>, waiter: Waiter, others: seq<Waiter>, outcome: Outcome)
    requires Books(s) && s.listeners == kept + [waiter] + others
    ensures Books(SettleWaiter(s, waiter.token, outcome)) && SettleWaiter(s, waiter.token, outcome).listeners == kept + others
  {
    WithoutThatListener(kept, waiter, others);
    assert ListenerTokens(s.listeners)[|kept|] == waiter.token;
    SettleWaiterMoves(s, waiter.token, outcome);
  }

  lemma HearerUnfolds(settled: seq<Settlement>, listeners: seq<Waiter>, event: Message)
    requires event.Event? && listeners != [] && Hears(listeners[0], event)
    ensures settled + Heard(listeners, event)
            == settled + [Settlement(OfWaiter(listeners[0].token), Resolved(event.params))] + Heard(listeners[1..], event)
    ensures Deaf(listeners, event) == Deaf(listeners[1..], event)
  {
  }

  lemma DeafUnfolds(kept: seq<Waiter>, listeners: seq<Waiter>, event: Message)
    requires event.Event? && listeners != [] && !Hears(listeners[0], event)
    ensures kept + Deaf(listeners, event) == kept + [listeners[0]] + Deaf(listeners[1..], event)
    ensures Heard(listeners, event) == Heard(listeners[1..], event)
  {
    assert Deaf(listeners, event) == [listeners[0]] + Deaf(listeners[1..], event);
    WaitersRegroup(kept, [listeners[0]], Deaf(listeners[1..], event));
    assert [] + Heard(listeners[1..], event) == Heard(listeners[1..], event);
  }

  lemma WaitersRegroup(a: seq<Waiter>, b: seq<Waiter>, c: seq<Waiter>)
    ensures a + (b + c) == a + b + c
  {
  }

  // The loop over the listeners settles those that hear the event, in the order they were
  // added, and keeps the others.
  lemma {:induction false} NotifySettlesHearers(s: Session, kept: seq<Waiter>, listeners: seq<Waiter>, event: Message)
    requires event.Event? && Books(s) && s.listeners == kept + listeners
    ensures var t := Notify(s, listeners, event);
            && Books(t) && t.listeners == kept + Deaf(listeners, event) && t.settled == s.settled + Heard(listeners, event)
            && t.pending == s.pending && t.failure == s.failure && t.written == s.written && t.issued == s.issued && t.partial == s.partial
    decreases |listeners|
  {
    if listeners != [] {
      var first, others := listeners[0], listeners[1..];
      assert kept + listeners == kept + [first] + others;
      if Hears(first, event) {
        HearerLeaves(s, kept, first, others, Resolved(event.params));
        HearerUnfolds(s.settled, listeners, event);
        NotifySettlesHearers(SettleWaiter(s, first.token, Resolved(event.params)), kept, others, event);
      } else {
        DeafUnfolds(kept, listeners, event);
        NotifySettlesHearers(s, kept + [first], others, event);
      }
    }
  }

  // ----- a failure

  function CommandRejections(pending: seq<Pending>, failure: Failure): seq<Settlement> {
    seq(|pending|, i requires 0 <= i < |pending| => Settlement(OfCommand(pending[i].id), Rejected(failure)))
  }

  function WaiterRejections(tokens: seq<nat>, failure: Failure): seq<Settlement> {
    seq(|tokens|, i requires 0 <= i < |tokens| => Settlement(OfWaiter(tokens[i]), Rejected(failure)))
  }

  // Rejecting the commands reads nothing of the table it clears at the end.
  lemma {:induction false} RejectCommandsIgnoresTable(s: Session, table: seq<Pending>, pending: seq<Pending>, failure: Failure)
    ensures RejectCommands(s.(pending := table), pending, failure) == RejectCommands(s, pending, failure).(pending := table)
    decreases |pending|
  {
    if pending != [] {
      var next := Settle(s.(commandTimers := s.commandTimers - {pending[0].id}), OfCommand(pending[0].id), Rejected(failure));
      RejectCommandsIgnoresTable(next, table, pending[1..], failure);
    }
  }

  lemma WithoutFirstPending(pending: seq<Pending>)
    requires pending != [] && Ascending(PendingIds(pending))
    ensures WithoutPending(pending, pending[0].id) == pending[1..]
  {
    assert PendingIds(pending) == [] + [pending[0].id] + PendingIds(pending[1..]);
    MiddleIsUnique([], pending[0].id, PendingIds(pending[1..]));
    WithoutUnknownPending(pending[1..], pending[0].id);
  }

  lemma {:induction false} WithoutUnknownPending(pending: seq<Pending>, id: nat)
    requires id !in PendingIds(pending)
    ensures WithoutPending(pending, id) == pending
  {
    if pending != [] {
      assert PendingIds(pending) == [pending[0].id] + PendingIds(pending[1..]);
      WithoutUnknownPending(pending[1..], id);
    }
  }

  lemma FirstCommandRejected(s: Session, failure: Failure)
    requires Books(s) && s.pending != []
    ensures var next := SettleCommand(s, s.pending[0].id, Rejected(failure));
            && Books(next) && next.pending == s.pending[1..]
            && next.settled == s.settled + [Settlement(OfCommand(s.pending[0].id), Rejected(failure))]
            && next == s.(pending := next.pending, commandTimers := next.commandTimers, settled := next.settled)
            && RejectCommands(s, s.pending, failure) == RejectCommands(next, next.pending, failure).(pending := s.pending)
  {
    var id := s.pending[0].id;
    assert PendingIds(s.pending)[0] == id;
    SettleCommandMoves(s, id, Rejected(failure));
    WithoutFirstPending(s.pending);
    RejectCommandsIgnoresTable(SettleCommand(s, id, Rejected(failure)), s.pending, s.pending[1..], failure);
  }

  lemma CommandRejectionsCons(settled: seq<Settlement>, pending: seq<Pending>, failure: Failure)
    requires pending != []
    ensures settled + CommandRejections(pending, failure)
            == settled + [Settlement(OfCommand(pending[0].id), Rejected(failure))] + CommandRejections(pending[1..], failure)
  {
  }

  lemma {:induction false} RejectCommandsSettlesAll(s: Session, failure: Failure)
    requires Books(s)
    ensures var t := RejectCommands(s, s.pending, failure).(pending := []);
            Books(t) && t == s.(pending := [], commandTimers := {}, settled := s.settled + CommandRejections(s.pending, failure))
    decreases |s.pending|
  {
    if s.pending != [] {
      FirstCommandRejected(s, failure);
      RejectCommandsSettlesAll(SettleCommand(s, s.pending[0].id, Rejected(failure)), failure);
      CommandRejectionsCons(s.settled, s.pending, failure);
    }
  }

  lemma FirstWaiterRejected(s: Session, failure: Failure)
    requires Books(s) && s.rejections != []
    ensures var next := SettleWaiter(s, s.rejections[0], Rejected(failure));
            && Books(next) && next.rejections == s.rejections[1..]
            && next.settled == s.settled + [Settlement(OfWaiter(s.rejections[0]), Rejected(failure))]
            && next == s.(listeners := next.listeners, rejections := next.rejections, waiterTimers := next.waiterTimers, settled := next.settled)
  {
    SettleWaiterMoves(s, s.rejections[0], Rejected(failure));
    WithoutFirstToken(s.rejections);
  }

  lemma WaiterRejectionsCons(settled: seq<Settlement>, tokens: seq<nat>, failure: Failure)
    requires tokens != []
    ensures settled + WaiterRejections(tokens, failure)
            == settled + [Settlement(OfWaiter(tokens[0]), Rejected(failure))] + WaiterRejections(tokens[1..], failure)
  {
  }

  lemma {:induction false} RejectWaitersSettlesAll(s: Session, failure: Failure)
    requires Books(s)
    ensures var t := RejectWaiters(s, s.rejections, failure);
            && Books(t)
            && t == s.(listeners := [], rejections := [], waiterTimers := {}, settled := s.settled + WaiterRejections(s.rejections, failure))
    decreases |s.rejections|
  {
    if s.rejections != [] {
      FirstWaiterRejected(s, failure);
      RejectWaitersSettlesAll(SettleWaiter(s, s.rejections[0], Rejected(failure)), failure);
      WaiterRejectionsCons(s.settled, s.rejections, failure);
    }
  }

  lemma WithoutFirstToken(tokens: seq<nat>)
    requires tokens != [] && Ascending(tokens)
    ensures WithoutToken(tokens, tokens[0]) == tokens[1..]
  {
    WithoutUnknownToken(tokens[1..], tokens[0]);
  }

  lemma {:induction false} WithoutUnknownToken(tokens: seq<nat>, token: nat)
    requires token !in tokens
    ensures WithoutToken(tokens, token) == tokens
  {
    if tokens != [] {
      WithoutUnknownToken(tokens[1..], token);
    }
  }

  // The first failure rejects every open promise with that failure, the commands in the
  // order they were sent, then the waiters, and leaves no table entry and no timer.
  lemma FailureRejectsEverything(s: Session, failure: Failure)
    requires Inv(s) && s.failure.None?
    ensures Inv(FailAllStep(s, failure))
    ensures FailAllStep(s, failure)
            == s.(failure := Some(failure), pending := [], commandTimers := {}, listeners := [], rejections := [], waiterTimers := {},
                  settled := s.settled + CommandRejections(s.pending, failure) + WaiterRejections(s.rejections, failure))
  {
    RejectCommandsSettlesAll(s.(failure := Some(failure)), failure);
    RejectWaitersSettlesAll(RejectCommands(s.(failure := Some(failure)), s.pending, failure).(pending := []), failure);
  }

  // ----- any interleaving

  datatype Step =
    | Send(name: string)
    | Wait(awaited: string, session: Option<string>)
    | Dispatch(message: Message)
    | CommandTimeout(id: nat)
    | WaiterTimeout(token: nat)
    | FailAll(failure: Failure)
    | Close

  predicate Enabled(s: Session, step: Step) {
    (step.CommandTimeout? ==> step.id in s.commandTimers) && (step.WaiterTimeout? ==> step.token in s.waiterTimers)
  }

  function Apply(s: Session, step: Step): Session
    requires Enabled(s, step)
  {
    match step
    case Send(name) => SendStep(s, name)
    case Wait(name, session) => WaitStep(s, name, session)
    case Dispatch(message) => DispatchStep(s, message)
    case CommandTimeout(id) => CommandTimeoutStep(s, id)
    case WaiterTimeout(token) => WaiterTimeoutStep(s, token)
    case FailAll(failure) => FailAllStep(s, failure)
    case Close => CloseStep(s)
  }

  lemma SendKeeps(s: Session, name: string)
    requires Inv(s)
    ensures Inv(SendStep(s, name))
  {
    if s.failure.None? {
      var t := SendStep(s, name);
      assert PendingIds(t.pending) == PendingIds(s.pending) + [s.nextId];
      forall i | 0 <= i < |s.pending| ensures PendingIds(s.pending)[i] < s.nextId {
        assert PendingIds(s.pending)[i] in PendingIds(s.pending) && OfCommand(PendingIds(s.pending)[i]) in Open(s);
      }
      assert Open(t) == Open(s) + {OfCommand(s.nextId)};
      assert OfCommand(s.nextId) !in s.issued;
    }
  }

  lemma WaitKeeps(s: Session, name: string, session: Option<string>)
    requires Inv(s)
    ensures Inv(WaitStep(s, name, session))
  {
    if s.failure.None? {
      var t := WaitStep(s, name, session);
      assert ListenerTokens(t.listeners) == ListenerTokens(s.listeners) + [s.nextToken];
      forall i | 0 <= i < |s.listeners| ensures ListenerTokens(s.listeners)[i] < s.nextToken {
        assert ListenerTokens(s.listeners)[i] in ListenerTokens(s.listeners) && OfWaiter(ListenerTokens(s.listeners)[i]) in Open(s);
      }
      assert Open(t) == Open(s) + {OfWaiter(s.nextToken)};
      assert OfWaiter(s.nextToken) !in s.issued;
    }
  }

  lemma DispatchKeeps(s: Session, message: Message)
    requires Inv(s)
    ensures Inv(DispatchStep(s, message))
  {
    if message.Event? {
      NotifySettlesHearers(s, [], s.listeners, message);
    } else {
      HasPendingIsOpen(s, message.id);
      if HasPending(s.pending, message.id) {
        SettleCommandMoves(s, message.id, Answer(NameSent(s.pending, message.id), message));
      }
    }
  }

  lemma StepKeeps(s: Session, step: Step)
    requires Inv(s) && Enabled(s, step)
    ensures Inv(Apply(s, step))
  {
    match step
    case Send(name) => SendKeeps(s, name);
    case Wait(name, session) => WaitKeeps(s, name, session);
    case Dispatch(message) => DispatchKeeps(s, message);
    case CommandTimeout(id) =>
      assert OfCommand(id) in Open(s);
      SettleCommandMoves(s, id, Rejected(TimeoutFailure(NameSent(s.pending, id))));
    case WaiterTimeout(token) =>
      assert OfWaiter(token) in Open(s);
      SettleWaiterMoves(s, token, Rejected(TimeoutFailure(NameAwaited(s.listeners, token))));
    case FailAll(failure) =>
      if s.failure.None? { FailureRejectsEverything(s, failure); }
    case Close =>
  }

  ghost predicate Run(states: seq<Session>, steps: seq<Step>) {
    && |states| == |steps| + 1 && states[0] == Fresh()
    && forall i | 0 <= i < |steps| :: Enabled(states[i], steps[i]) && states[i + 1] == Apply(states[i], steps[i])
  }

  // In every reachable state every promise handed out is open or settled, never both and
  // never settled twice, the timers are those of the open promises, and every id written
  // is greater than the ones before it.
  lemma {:induction false} RunKeeps(states: seq<Session>, steps: seq<Step>, i: nat)
    requires Run(states, steps) && i < |states|
    ensures Inv(states[i])
  {
    if i == 0 {
      FreshIsSound();
    } else {
      RunKeeps(states, steps, i - 1);
      StepKeeps(states[i - 1], steps[i - 1]);
    }
  }

  // A settlement once made is never undone or changed.
  lemma StepAppends(s: Session, step: Step)
    requires Inv(s) && Enabled(s, step)
    ensures s.settled <= Apply(s, step).settled && s.issued <= Apply(s, step).issued
  {
    match step
    case Dispatch(message) =>
      if message.Event? { NotifySettlesHearers(s, [], s.listeners, message); }
    case FailAll(failure) =>
      if s.failure.None? { FailureRejectsEverything(s, failure); }
    case _ =>
  }

  lemma {:induction false} SettlementsStay(states: seq<Session>, steps: seq<Step>, i: nat, j: nat)
    requires Run(states, steps) && i <= j < |states|
    ensures states[i].settled <= states[j].settled && states[i].issued <= states[j].issued
    decreases j - i
  {
    if i < j {
      SettlementsStay(states, steps, i, j - 1);
      RunKeeps(states, steps, j - 1);
      StepAppends(states[j - 1], steps[j - 1]);
    }
  }

  // Who may settle a promise: an answer its own command, a timeout its own promise, an
  // event the waiters that hear it, a failure every open promise.
  ghost predicate MaySettle(s: Session, step: Step, promise: Promise) {
    match step
    case Dispatch(message) =>
      if message.Event? then promise.OfWaiter? && exists w :: w in s.listeners && w.token == promise.token && Hears(w, message)
      else promise == OfCommand(message.id)
    case CommandTimeout(id) => promise == OfCommand(id)
    case WaiterTimeout(token) => promise == OfWaiter(token)
    case FailAll(_) => s.failure.None?
    case _ => false
  }

  lemma {:induction false} HeardAreHearers(listeners: seq<Waiter>, event: Message)
    requires event.Event?
    ensures forall x | x in Heard(listeners, event) ::
              x.promise.OfWaiter? && exists w :: w in listeners && w.token == x.promise.token && Hears(w, event)
    ensures forall w | w in listeners && Hears(w, event) :: Settlement(OfWaiter(w.token), Resolved(event.params)) in Heard(listeners, event)
  {
    if listeners != [] {
      HeardAreHearers(listeners[1..], event);
      assert listeners == [listeners[0]] + listeners[1..];
    }
  }

  // Every settlement a step makes is one it may make, of a promise that was open.
  lemma StepSettlesItsOwn(s: Session, step: Step, settlement: Settlement)
    requires Inv(s) && Enabled(s, step)
    requires settlement in Apply(s, step).settled && settlement !in s.settled
    ensures MaySettle(s, step, settlement.promise) && settlement.promise in Open(s)
  {
    var t := Apply(s, step);
    StepKeeps(s, step);
    StepAppends(s, step);
    match step {
      case Dispatch(message) =>
        if message.Event? {
          NotifySettlesHearers(s, [], s.listeners, message);
          HeardAreHearers(s.listeners, message);
          assert settlement in Heard(s.listeners, message);
        }
      case FailAll(failure) =>
        if s.failure.None? { FailureRejectsEverything(s, failure); }
      case _ =>
    }
    NewSettlementWasOpen(s, t, settlement);
  }

  lemma NewSettlementWasOpen(s: Session, t: Session, settlement: Settlement)
    requires Promises(s) && Promises(t) && s.settled <= t.settled && s.issued == t.issued
    requires settlement in t.settled && settlement !in s.settled
    ensures settlement.promise in Open(s)
  {
    var k :| 0 <= k < |t.settled| && t.settled[k] == settlement;
    assert settlement.promise in Settled(t);
    forall i | 0 <= i < |s.settled| ensures s.settled[i].promise != settlement.promise {
      assert t.settled[i] == s.settled[i];
    }
  }

  // An answer to an id that is not open, unknown or late, changes nothing; the one to an
  // open id settles it with the answer.
  lemma AnswerSettlesItsCommand(s: Session, message: Message)
    requires Inv(s) && !message.Event?
    ensures OfCommand(message.id) !in Open(s) ==> DispatchStep(s, message) == s
    ensures OfCommand(message.id) in Open(s) ==>
              && Open(DispatchStep(s, message)) == Open(s) - {OfCommand(message.id)}
              && DispatchStep(s, message).settled == s.settled + [Settlement(OfCommand(message.id), Answer(NameSent(s.pending, message.id), message))]
  {
    HasPendingIsOpen(s, message.id);
    if HasPending(s.pending, message.id) {
      SettleCommandMoves(s, message.id, Answer(NameSent(s.pending, message.id), message));
    }
  }

  // What send or waitForEvent hands back: a promise still open, or one rejected at once.
  datatype Call = Issued(number: nat) | RejectedWith(failure: Failure)

  function CallOn(s: Session, number: nat): Call {
    if s.failure.Some? then RejectedWith(s.failure.value) else Issued(number)
  }

  // Once a session failed no step changes it any more: the first failure stays, nothing is
  // open, no timer is set, and every later call is turned away with that failure.
  lemma FailedSessionStays(s: Session, step: Step)
    requires Inv(s) && Enabled(s, step) && s.failure.Some?
    ensures Apply(s, step) == s && Open(s) == {} && s.commandTimers == {} && s.waiterTimers == {}
    ensures forall number :: CallOn(Apply(s, step), number) == RejectedWith(s.failure.value)
  {
    assert PendingIds(s.pending) == [] && ListenerTokens(s.listeners) == [];
    if step.Dispatch? && !step.message.Event? {
      HasPendingIsOpen(s, step.message.id);
    }
  }

  lemma {:induction false} FirstFailureWins(states: seq<Session>, steps: seq<Step>, i: nat, j: nat)
    requires Run(states, steps) && i <= j < |states| && states[i].failure.Some?
    ensures states[j] == states[i] && Open(states[j]) == {}
    ensures forall number :: CallOn(states[j], number) == RejectedWith(states[i].failure.value)
    decreases j - i
  {
    RunKeeps(states, steps, i);
    if i < j {
      FirstFailureWins(states, steps, i, j - 1);
      FailedSessionStays(states[j - 1], steps[j - 1]);
    } else {
      assert PendingIds(states[i].pending) == [] && ListenerTokens(states[i].listeners) == [];
    }
  }
}
