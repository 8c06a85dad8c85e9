/** figura/scripts/cdp-session.mjs: how every promise ends. What a command or a wait asked
    for and the steps taken since decide its outcome, in every run of a session. */
module CdpOutcomes {
  import opened Optional
  import opened CdpProtocol

  // What was asked for: the promise handed out, and the name and session it was asked with.
  datatype Request = Request(promise: Promise, name: string, session: Option<string>)

  // The step hands out the promise of the request.
  predicate Issues(s: Session, step: Step, r: Request) {
    s.failure.None?
    && match step
       case Send(name) => r == Request(OfCommand(s.nextId), name, None)
       case Wait(name, session) => r == Request(OfWaiter(s.nextToken), name, session)
       case _ => false
  }

  // What a step says about an open promise: a result resolves the command of its id, an
  // error rejects it; an event resolves what waits for its name in its session; a timer
  // rejects with the name that was sent or awaited; a failure rejects everything.
  function Verdict(r: Request, step: Step): Option<Outcome> {
    match step
    case Dispatch(Result(id, value)) => if r.promise == OfCommand(id) then Some(Resolved(value)) else None
    case Dispatch(Error(id, what)) =>
      if r.promise == OfCommand(id) then Some(Rejected(Failure("CDP-COMMAND-FAILED", r.name + " failed: " + what))) else None
    case Dispatch(Event(name, session, params)) =>
      if r.promise.OfWaiter? && name == r.name && session == r.session then Some(Resolved(params)) else None
    case CommandTimeout(id) => if r.promise == OfCommand(id) then Some(Rejected(Failure("CDP-TIMEOUT", r.name))) else None
    case WaiterTimeout(token) => if r.promise == OfWaiter(token) then Some(Rejected(Failure("CDP-TIMEOUT", r.name))) else None
    case FailAll(failure) => Some(Rejected(failure))
    case _ => None
  }

  // The tables hold the request.
  predicate Holds(s: Session, r: Request) {
    match r.promise
    case OfCommand(id) => Pending(id, r.name) in s.pending
    case OfWaiter(token) => Waiter(token, r.name, r.session) in s.listeners
  }

  lemma HeldIsOpen(s: Session, r: Request)
    requires Holds(s, r)
    ensures r.promise in Open(s)
  {
    if r.promise.OfCommand? {
      var i :| 0 <= i < |s.pending| && s.pending[i] == Pending(r.promise.id, r.name);
      assert PendingIds(s.pending)[i] == r.promise.id;
    } else {
      var i :| 0 <= i < |s.listeners| && s.listeners[i] == Waiter(r.promise.token, r.name, r.session);
      assert ListenerTokens(s.listeners)[i] == r.promise.token;
    }
  }

  lemma IssuedIsHeld(s: Session, step: Step, r: Request)
    requires Enabled(s, step) && Issues(s, step, r)
    ensures Holds(Apply(s, step), r)
  {
  }

  // ----- what leaves the tables

  lemma {:induction false} WithoutPendingKeeps(pending: seq<Pending>, id: nat, entry: Pending)
    ensures entry in WithoutPending(pending, id) <==> entry in pending && entry.id != id
  {
    if pending != [] {
      WithoutPendingKeeps(pending[1..], id, entry);
      assert pending == [pending[0]] + pending[1..];
    }
  }

  lemma {:induction false} WithoutListenerKeeps(listeners: seq<Waiter>, token: nat, waiter: Waiter)
    ensures waiter in WithoutListener(listeners, token) <==> waiter in listeners && waiter.token != token
  {
    if listeners != [] {
      WithoutListenerKeeps(listeners[1..], token, waiter);
      assert listeners == [listeners[0]] + listeners[1..];
    }
  }

  lemma {:induction false} DeafKeeps(listeners: seq<Waiter>, event: Message, waiter: Waiter)
    requires event.Event?
    ensures waiter in Deaf(listeners, event) <==> waiter in listeners && !(waiter.name == event.name && waiter.session == event.session)
  {
    if listeners != [] {
      DeafKeeps(listeners[1..], event, waiter);
      assert listeners == [listeners[0]] + listeners[1..];
    }
  }

  lemma SameIdSameEntry(pending: seq<Pending>, a: Pending, b: Pending)
    requires Ascending(PendingIds(pending)) && a in pending && b in pending && a.id == b.id
    ensures a == b
  {
    var i :| 0 <= i < |pending| && pending[i] == a;
    var j :| 0 <= j < |pending| && pending[j] == b;
    assert PendingIds(pending)[i] == PendingIds(pending)[j];
  }

  lemma NameSentIs(pending: seq<Pending>, entry: Pending)
    requires Ascending(PendingIds(pending)) && entry in pending
    ensures HasPending(pending, entry.id) && NameSent(pending, entry.id) == entry.name
  {
    var found := FindPending(pending, entry.id);
    assert HasPending(pending, entry.id);
    SameIdSameEntry(pending, found.value, entry);
  }

  lemma {:induction false} NameAwaitedIs(listeners: seq<Waiter>, waiter: Waiter)
    requires Ascending(ListenerTokens(listeners)) && waiter in listeners
    ensures NameAwaited(listeners, waiter.token) == waiter.name
  {
    assert listeners == [listeners[0]] + listeners[1..];
    var tokens, others := ListenerTokens(listeners), ListenerTokens(listeners[1..]);
    assert forall i | 0 <= i < |others| :: others[i] == tokens[i + 1];
    if waiter != listeners[0] {
      var i :| 0 <= i < |listeners[1..]| && listeners[1..][i] == waiter;
      assert ListenerTokens(listeners)[0] < ListenerTokens(listeners)[i + 1] == waiter.token;
      NameAwaitedIs(listeners[1..], waiter);
    }
  }

  // ----- one step

  // Without a verdict the promise stays open; with one it is settled by it.
  predicate Meets(t: Session, r: Request, verdict: Option<Outcome>) {
    match verdict
    case None => Holds(t, r)
    case Some(outcome) => Settlement(r.promise, outcome) in t.settled
  }

  lemma CommandTimeoutMeets(s: Session, id: nat, r: Request)
    requires Inv(s) && Holds(s, r) && id in s.commandTimers
    ensures Meets(CommandTimeoutStep(s, id), r, Verdict(r, CommandTimeout(id)))
  {
    if r.promise.OfCommand? {
      WithoutPendingKeeps(s.pending, id, Pending(r.promise.id, r.name));
      NameSentIs(s.pending, Pending(r.promise.id, r.name));
    }
  }

  lemma WaiterTimeoutMeets(s: Session, token: nat, r: Request)
    requires Inv(s) && Holds(s, r) && token in s.waiterTimers
    ensures Meets(WaiterTimeoutStep(s, token), r, Verdict(r, WaiterTimeout(token)))
  {
    if r.promise.OfWaiter? {
      WithoutListenerKeeps(s.listeners, token, Waiter(r.promise.token, r.name, r.session));
      NameAwaitedIs(s.listeners, Waiter(r.promise.token, r.name, r.session));
    }
  }

  lemma AnswerMeets(s: Session, message: Message, r: Request)
    requires Inv(s) && Holds(s, r) && !message.Event?
    ensures Meets(DispatchStep(s, message), r, Verdict(r, Dispatch(message)))
  {
    if r.promise.OfCommand? {
      WithoutPendingKeeps(s.pending, message.id, Pending(r.promise.id, r.name));
      NameSentIs(s.pending, Pending(r.promise.id, r.name));
    }
  }

  lemma EventMeets(s: Session, event: Message, r: Request)
    requires Inv(s) && Holds(s, r) && event.Event?
    ensures Meets(DispatchStep(s, event), r, Verdict(r, Dispatch(event)))
  {
    NotifySettlesHearers(s, [], s.listeners, event);
    if r.promise.OfWaiter? {
      var waiter := Waiter(r.promise.token, r.name, r.session);
      DeafKeeps(s.listeners, event, waiter);
      HeardAreHearers(s.listeners, event);
      if waiter.name == event.name && waiter.session == event.session {
        assert Settlement(OfWaiter(waiter.token), Resolved(event.params)) in Heard(s.listeners, event);
      }
    }
  }

  lemma FailureMeets(s: Session, failure: Failure, r: Request)
    requires Inv(s) && Holds(s, r)
    ensures Settlement(r.promise, Rejected(failure)) in FailAllStep(s, failure).settled
  {
    FailureRejectsEverything(s, failure);
    if r.promise.OfCommand? {
      var i :| 0 <= i < |s.pending| && s.pending[i] == Pending(r.promise.id, r.name);
      assert CommandRejections(s.pending, failure)[i] == Settlement(r.promise, Rejected(failure));
    } else {
      var i :| 0 <= i < |s.listeners| && s.listeners[i] == Waiter(r.promise.token, r.name, r.session);
      assert s.rejections[i] == r.promise.token;
      assert WaiterRejections(s.rejections, failure)[i] == Settlement(r.promise, Rejected(failure));
    }
  }

  lemma StepMeets(s: Session, step: Step, r: Request)
    requires Inv(s) && Enabled(s, step) && Holds(s, r)
    ensures Meets(Apply(s, step), r, Verdict(r, step))
  {
    match step
    case Dispatch(message) => if message.Event? { EventMeets(s, message, r); } else { AnswerMeets(s, message, r); }
    case CommandTimeout(id) => CommandTimeoutMeets(s, id, r);
    case WaiterTimeout(token) => WaiterTimeoutMeets(s, token, r);
    case FailAll(failure) => FailureMeets(s, failure, r);
    case _ =>
  }

  // ----- whole runs

  // Step k is the first one behind step j with a verdict on the request.
  ghost predicate FirstVerdict(r: Request, steps: seq<Step>, j: nat, k: nat, outcome: Outcome) {
    j < k < |steps| && Verdict(r, steps[k]) == Some(outcome) && forall m | j < m < k :: Verdict(r, steps[m]) == None
  }

  ghost predicate NoVerdict(r: Request, steps: seq<Step>, j: nat, n: nat)
    requires n <= |steps|
  {
    forall m | j < m < n :: Verdict(r, steps[m]) == None
  }

  lemma {:induction false} HeldWithoutVerdict(states: seq<Session>, steps: seq<Step>, j: nat, n: nat, r: Request)
    requires Run(states, steps) && j < n <= |steps| && Issues(states[j], steps[j], r) && NoVerdict(r, steps, j, n)
    ensures Holds(states[n], r)
  {
    if n == j + 1 {
      IssuedIsHeld(states[j], steps[j], r);
    } else {
      HeldWithoutVerdict(states, steps, j, n - 1, r);
      RunKeeps(states, steps, n - 1);
      StepMeets(states[n - 1], steps[n - 1], r);
    }
  }

  lemma VerdictSettles(states: seq<Session>, steps: seq<Step>, j: nat, k: nat, n: nat, r: Request, outcome: Outcome)
    requires Run(states, steps) && FirstVerdict(r, steps, j, k, outcome) && Issues(states[j], steps[j], r) && k < n <= |steps|
    ensures Settlement(r.promise, outcome) in states[n].settled
  {
    HeldWithoutVerdict(states, steps, j, k, r);
    RunKeeps(states, steps, k);
    StepMeets(states[k], steps[k], r);
    SettlementsStay(states, steps, k + 1, n);
    PrefixHolds(states[k + 1].settled, states[n].settled, Settlement(r.promise, outcome));
  }

  lemma PrefixHolds<T>(a: seq<T>, b: seq<T>, x: T)
    requires a <= b && x in a
    ensures x in b
  {
  }

  lemma {:induction false} SomeVerdictIsFirst(r: Request, steps: seq<Step>, j: nat, m: nat) returns (k: nat, outcome: Outcome)
    requires j < m < |steps| && Verdict(r, steps[m]).Some?
    ensures k <= m && FirstVerdict(r, steps, j, k, outcome)
    decreases m
  {
    if l :| j < l < m && Verdict(r, steps[l]).Some? {
      k, outcome := SomeVerdictIsFirst(r, steps, j, l);
    } else {
      k, outcome := m, Verdict(r, steps[m]).value;
    }
  }

  lemma OpenIsNotSettled(s: Session, promise: Promise)
    requires Promises(s) && promise in Open(s)
    ensures forall x | x in s.settled :: x.promise != promise
  {
    forall x | x in s.settled ensures x.promise in Settled(s) {
    }
  }

  lemma OneOutcome(settled: seq<Settlement>, a: Settlement, b: Settlement)
    requires SettledOnce(settled) && a in settled && b in settled && a.promise == b.promise
    ensures a == b
  {
  }

  // In every run a promise is settled by the first later step that has a verdict on it,
  // with that verdict and no other; until then it is open.
  lemma FirstVerdictDecides(states: seq<Session>, steps: seq<Step>, j: nat, n: nat, r: Request)
    requires Run(states, steps) && j < n <= |steps| && Issues(states[j], steps[j], r)
    ensures r.promise in Open(states[n]) <==> NoVerdict(r, steps, j, n)
    ensures forall outcome :: Settlement(r.promise, outcome) in states[n].settled <==> exists k: nat :: k < n && FirstVerdict(r, steps, j, k, outcome)
  {
    RunKeeps(states, steps, n);
    if NoVerdict(r, steps, j, n) {
      HeldWithoutVerdict(states, steps, j, n, r);
      HeldIsOpen(states[n], r);
      OpenIsNotSettled(states[n], r.promise);
      assert forall k: nat, outcome | k < n :: !FirstVerdict(r, steps, j, k, outcome);
    } else {
      var m: nat :| j < m < n && Verdict(r, steps[m]) != None;
      var first, decided := SomeVerdictIsFirst(r, steps, j, m);
      VerdictSettles(states, steps, j, first, n, r, decided);
      assert r.promise in Settled(states[n]);
      forall outcome ensures Settlement(r.promise, outcome) in states[n].settled <==> exists k: nat :: k < n && FirstVerdict(r, steps, j, k, outcome) {
        if Settlement(r.promise, outcome) in states[n].settled {
          OneOutcome(states[n].settled, Settlement(r.promise, outcome), Settlement(r.promise, decided));
        }
        if k: nat :| k < n && FirstVerdict(r, steps, j, k, outcome) {
          assert k == first;
        }
      }
    }
  }

  // Every promise was handed out by a step that sent a command or started to wait.
  lemma {:induction false} EveryPromiseWasAskedFor(states: seq<Session>, steps: seq<Step>, n: nat, promise: Promise) returns (j: nat, r: Request)
    requires Run(states, steps) && n <= |steps| && promise in states[n].issued
    ensures j < n && Issues(states[j], steps[j], r) && r.promise == promise
  {
    RunKeeps(states, steps, n - 1);
    if promise in states[n - 1].issued {
      j, r := EveryPromiseWasAskedFor(states, steps, n - 1, promise);
    } else {
      j := n - 1;
      r := NewlyIssued(states[j], steps[j], promise);
    }
  }

  lemma NewlyIssued(s: Session, step: Step, promise: Promise) returns (r: Request)
    requires Inv(s) && Enabled(s, step) && promise in Apply(s, step).issued && promise !in s.issued
    ensures Issues(s, step, r) && r.promise == promise
  {
    match step {
      case Send(name) => r := Request(promise, name, None);
      case Wait(name, session) => r := Request(promise, name, session);
      case Dispatch(message) =>
        if message.Event? { NotifySettlesHearers(s, [], s.listeners, message); }
        assert false;
      case FailAll(failure) =>
        if s.failure.None? { FailureRejectsEverything(s, failure); }
        assert false;
      case _ => assert false;
    }
  }

  // So a command is resolved only with the value of an answer to its id that came before.
  lemma ResolvedOnlyByAnswer(states: seq<Session>, steps: seq<Step>, n: nat, id: nat, value: string) returns (k: nat)
    requires Run(states, steps) && n <= |steps| && Settlement(OfCommand(id), Resolved(value)) in states[n].settled
    ensures k < n && steps[k] == Dispatch(Result(id, value))
  {
    RunKeeps(states, steps, n);
    assert OfCommand(id) in Settled(states[n]);
    var j, r := EveryPromiseWasAskedFor(states, steps, n, OfCommand(id));
    FirstVerdictDecides(states, steps, j, n, r);
    k :| k < n && FirstVerdict(r, steps, j, k, Resolved(value));
  }

  // And a waiter only with the parameters of an event of its name and session.
  lemma ResolvedOnlyByEvent(states: seq<Session>, steps: seq<Step>, n: nat, token: nat, value: string) returns (j: nat, k: nat)
    requires Run(states, steps) && n <= |steps| && Settlement(OfWaiter(token), Resolved(value)) in states[n].settled
    ensures j < k < n && steps[j].Wait? && states[j].nextToken == token
    ensures steps[k] == Dispatch(Event(steps[j].awaited, steps[j].session, value))
  {
    RunKeeps(states, steps, n);
    assert OfWaiter(token) in Settled(states[n]);
    var r;
    j, r := EveryPromiseWasAskedFor(states, steps, n, OfWaiter(token));
    FirstVerdictDecides(states, steps, j, n, r);
    k :| k < n && FirstVerdict(r, steps, j, k, Resolved(value));
  }

  // A timeout makes one settlement, a rejection with the name that was sent or awaited.
  lemma TimeoutRejects(states: seq<Session>, steps: seq<Step>, k: nat) returns (j: nat, r: Request)
    requires Run(states, steps) && k < |steps| && (steps[k].CommandTimeout? || steps[k].WaiterTimeout?)
    ensures j < k && Issues(states[j], steps[j], r)
    ensures r.promise == if steps[k].CommandTimeout? then OfCommand(steps[k].id) else OfWaiter(steps[k].token)
    ensures states[k + 1].settled == states[k].settled + [Settlement(r.promise, Rejected(Failure("CDP-TIMEOUT", r.name)))]
  {
    RunKeeps(states, steps, k);
    RunKeeps(states, steps, k + 1);
    var promise := if steps[k].CommandTimeout? then OfCommand(steps[k].id) else OfWaiter(steps[k].token);
    assert promise in Open(states[k]);
    j, r := EveryPromiseWasAskedFor(states, steps, k, promise);
    FirstVerdictDecides(states, steps, j, k, r);
    HeldWithoutVerdict(states, steps, j, k, r);
    StepMeets(states[k], steps[k], r);
    OnlyOneSettlement(states[k], steps[k], Settlement(promise, Rejected(Failure("CDP-TIMEOUT", r.name))));
  }

  lemma OnlyOneSettlement(s: Session, step: Step, settlement: Settlement)
    requires Inv(s) && Enabled(s, step) && (step.CommandTimeout? || step.WaiterTimeout?)
    requires settlement in Apply(s, step).settled && settlement.promise in Open(s)
    ensures Apply(s, step).settled == s.settled + [settlement]
  {
    assert settlement in s.settled ==> settlement.promise in Settled(s);
  }

  // ----- what is written

  // A command, or the command of close, goes to the pipe.
  predicate Writes(s: Session, step: Step) {
    s.failure.None? && (step.Send? || step.Close?)
  }

  ghost function WritesUpTo(states: seq<Session>, steps: seq<Step>, n: nat): nat
    requires n <= |steps| && n <= |states|
  {
    if n == 0 then 0 else WritesUpTo(states, steps, n - 1) + if Writes(states[n - 1], steps[n - 1]) then 1 else 0
  }

  lemma StepWrites(s: Session, step: Step)
    requires Inv(s) && Enabled(s, step)
    ensures var t := Apply(s, step);
            t.written == (if Writes(s, step) then s.written + [s.nextId] else s.written)
            && t.nextId == (if Writes(s, step) then s.nextId + 1 else s.nextId)
  {
    match step
    case Dispatch(message) =>
      if message.Event? { NotifyKeepsIds(s, s.listeners, message); }
    case FailAll(failure) =>
      if s.failure.None? { FailureRejectsEverything(s, failure); }
    case _ =>
  }

  lemma {:induction false} NotifyKeepsIds(s: Session, listeners: seq<Waiter>, event: Message)
    requires event.Event?
    ensures Notify(s, listeners, event).nextId == s.nextId && Notify(s, listeners, event).written == s.written
    decreases |listeners|
  {
    if listeners != [] {
      NotifyKeepsIds(if Hears(listeners[0], event) then SettleWaiter(s, listeners[0].token, Resolved(event.params)) else s, listeners[1..], event);
    }
  }

  // In every run each command sent, and each close, before a failure is written once, and
  // the ids written are 1, 2, 3 and so on.
  lemma {:induction false} WrittenInOrder(states: seq<Session>, steps: seq<Step>, n: nat)
    requires Run(states, steps) && n <= |steps|
    ensures |states[n].written| == WritesUpTo(states, steps, n) && states[n].nextId == |states[n].written| + 1
    ensures forall i | 0 <= i < |states[n].written| :: states[n].written[i] == i + 1
  {
    if n > 0 {
      WrittenInOrder(states, steps, n - 1);
      RunKeeps(states, steps, n - 1);
      StepWrites(states[n - 1], steps[n - 1]);
    }
  }
}
