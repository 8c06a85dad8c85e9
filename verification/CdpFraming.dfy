/** figura/scripts/cdp-session.mjs: putting NUL-terminated messages together from chunks
    of decoded text. */
module CdpFraming {
  import opened CdpProtocol

  const TERMINATOR: char := '\0'

  type Parser = string -> Message

  // `text.indexOf(MESSAGE_TERMINATOR, from)`.
  function TerminatorIndex(text: string, from: nat): (index: int)
    requires from <= |text|
    ensures index == -1 ==> forall i | from <= i < |text| :: text[i] != TERMINATOR
    ensures index != -1 ==> from <= index < |text| && text[index] == TERMINATOR && forall i | from <= i < index :: text[i] != TERMINATOR
    decreases |text| - from
  {
    if from == |text| then -1
    else if text[from] == TERMINATOR then from
    else TerminatorIndex(text, from + 1)
  }

  predicate Plain(text: string) {
    forall i | 0 <= i < |text| :: text[i] != TERMINATOR
  }

  // `partialMessage.join('')`.
  function Joined(fragments: seq<string>): string {
    if fragments == [] then "" else fragments[0] + Joined(fragments[1..])
  }

  // What the loop does to a session from one message start on.
  function ReceivedFrom(s: Session, text: string, start: nat, parse: Parser): Session
    requires start <= |text|
    decreases |text| - start
  {
    var end := TerminatorIndex(text, start);
    if end == -1 then (if start < |text| then s.(partial := s.partial + [text[start..]]) else s)
    else
      var raw := Joined(s.partial + [text[start..end]]);
      ReceivedFrom(DispatchStep(s.(partial := []), parse(raw)), text, end + 1, parse)
  }

  // What receiving a chunk does to a session.
  function Received(s: Session, text: string, parse: Parser): Session {
    ReceivedFrom(s, text, 0, parse)
  }

  function ReceivedAll(s: Session, chunks: seq<string>, parse: Parser): Session
    decreases |chunks|
  {
    if chunks == [] then s else ReceivedAll(Received(s, chunks[0], parse), chunks[1..], parse)
  }

  // ----- the stream as a whole

  datatype Framed = Framed(messages: seq<string>, remainder: string)

  // The NUL-terminated pieces of a stream and what follows the last terminator.
  function Frames(stream: string): Framed
    decreases |stream|
  {
    var end := TerminatorIndex(stream, 0);
    if end == -1 then Framed([], stream)
    else
      var later := Frames(stream[end + 1..]);
      Framed([stream[..end]] + later.messages, later.remainder)
  }

  function DispatchAll(s: Session, messages: seq<string>, parse: Parser): Session
    decreases |messages|
  {
    if messages == [] then s else DispatchAll(DispatchStep(s, parse(messages[0])), messages[1..], parse)
  }

  // The fragments kept between chunks hold no terminator.
  predicate Unterminated(fragments: seq<string>) {
    Plain(Joined(fragments))
  }

  lemma {:induction false} JoinedPush(fragments: seq<string>, last: string)
    ensures Joined(fragments + [last]) == Joined(fragments) + last
  {
    if fragments == [] {
      assert [last][1..] == [];
    } else {
      assert (fragments + [last])[1..] == fragments[1..] + [last];
      JoinedPush(fragments[1..], last);
    }
  }

  lemma IndexIsFirst(text: string, end: nat)
    requires end < |text| && text[end] == TERMINATOR && forall i | 0 <= i < end :: text[i] != TERMINATOR
    ensures TerminatorIndex(text, 0) == end
  {
    var index := TerminatorIndex(text, 0);
    assert index != -1 && !(index < end) && !(end < index);
  }

  lemma NoTerminatorAnywhere(text: string)
    requires Plain(text)
    ensures TerminatorIndex(text, 0) == -1
  {
    assert text[0..] == text;
  }

  lemma PrefixedIndex(prefix: string, text: string)
    requires Plain(prefix)
    ensures var end := TerminatorIndex(text, 0);
            TerminatorIndex(prefix + text, 0) == if end == -1 then -1 else |prefix| + end
  {
    var end := TerminatorIndex(text, 0);
    assert text[0..] == text;
    if end == -1 {
      NoTerminatorAnywhere(prefix + text);
    } else {
      assert text[0..end] == text[..end];
      assert (prefix + text)[..|prefix| + end] == prefix + text[..end];
      IndexIsFirst(prefix + text, |prefix| + end);
    }
  }

  // The first frame of a stream, and those behind it.
  function FirstFrame(frame: string, later: Framed): Framed {
    Framed([frame] + later.messages, later.remainder)
  }

  lemma PrefixedCut(prefix: string, text: string, end: nat)
    requires end < |text|
    ensures (prefix + text)[..|prefix| + end] == prefix + text[..end]
    ensures (prefix + text)[|prefix| + end + 1..] == text[end + 1..]
  {
  }

  lemma FramesAt(stream: string, end: nat, first: string, rest: string)
    requires TerminatorIndex(stream, 0) == end && end < |stream| && first == stream[..end] && rest == stream[end + 1..]
    ensures Frames(stream) == FirstFrame(first, Frames(rest))
  {
  }

  lemma NoFrames(text: string)
    requires TerminatorIndex(text, 0) == -1
    ensures Frames(text) == Framed([], text)
  {
  }

  // Text without a terminator in front of a stream only lengthens its first frame.
  lemma FramesOfPrefixed(prefix: string, text: string, head: string, tail: string)
    requires Plain(prefix) && TerminatorIndex(text, 0) == |head| < |text|
    requires head == text[..|head|] && tail == text[|head| + 1..]
    ensures Frames(prefix + text) == FirstFrame(prefix + head, Frames(tail))
  {
    PrefixedIndex(prefix, text);
    PrefixedCut(prefix, text, |head|);
    FramesAt(prefix + text, |prefix| + |head|, prefix + head, tail);
  }

  lemma NoFramesOfPrefixed(prefix: string, text: string)
    requires Plain(prefix) && TerminatorIndex(text, 0) == -1
    ensures Frames(prefix + text) == Framed([], prefix + text)
  {
    PrefixedIndex(prefix, text);
    NoFrames(prefix + text);
  }

  // Dispatching a message reads and changes nothing of the partial message.
  lemma {:induction false} NotifyKeepsPartial(s: Session, listeners: seq<Waiter>, event: Message, partial: seq<string>)
    requires event.Event?
    ensures Notify(s.(partial := partial), listeners, event) == Notify(s, listeners, event).(partial := partial)
    decreases |listeners|
  {
    if listeners != [] {
      var next := if Hears(listeners[0], event) then SettleWaiter(s, listeners[0].token, Resolved(event.params)) else s;
      NotifyKeepsPartial(next, listeners[1..], event, partial);
    }
  }

  lemma DispatchKeepsPartial(s: Session, message: Message, partial: seq<string>)
    ensures DispatchStep(s.(partial := partial), message) == DispatchStep(s, message).(partial := partial)
  {
    if message.Event? {
      NotifyKeepsPartial(s, s.listeners, message, partial);
    }
  }

  lemma DispatchCons(s: Session, first: string, others: seq<string>, parse: Parser)
    ensures DispatchAll(s, [first] + others, parse) == DispatchAll(DispatchStep(s, parse(first)), others, parse)
  {
    assert ([first] + others)[1..] == others;
  }

  // What receiving text in a state amounts to, given the frames it completes.
  ghost predicate ReceivedAs(s: Session, t: Session, framed: Framed, parse: Parser) {
    && t.(partial := []) == DispatchAll(s.(partial := []), framed.messages, parse)
    && Joined(t.partial) == framed.remainder && Plain(framed.remainder)
  }

  lemma IndexInSuffix(text: string, start: nat)
    requires start <= |text|
    ensures TerminatorIndex(text[start..], 0) == if TerminatorIndex(text, start) == -1 then -1 else TerminatorIndex(text, start) - start
  {
    var rest, end := text[start..], TerminatorIndex(text, start);
    assert rest[0..] == rest;
    if end != -1 {
      assert rest[..end - start] == text[start..end];
      IndexIsFirst(rest, end - start);
    }
  }

  lemma ReceivedLast(s: Session, text: string, start: nat, parse: Parser)
    requires Unterminated(s.partial) && start <= |text| && TerminatorIndex(text, start) == -1
    ensures ReceivedAs(s, ReceivedFrom(s, text, start, parse), Framed([], Joined(s.partial) + text[start..]), parse)
  {
    JoinedPush(s.partial, text[start..]);
    if start == |text| {
      assert Joined(s.partial) + text[start..] == Joined(s.partial);
    }
  }

  // What one terminated message of a chunk does.
  lemma ReceivedNext(s: Session, text: string, start: nat, parse: Parser) returns (raw: string, next: Session)
    requires Unterminated(s.partial) && start <= |text| && TerminatorIndex(text, start) != -1
    ensures var end := TerminatorIndex(text, start);
            && raw == Joined(s.partial) + text[start..end]
            && next == DispatchStep(s.(partial := []), parse(raw)) && next.partial == []
            && ReceivedFrom(s, text, start, parse) == ReceivedFrom(next, text, end + 1, parse)
  {
    var end := TerminatorIndex(text, start);
    raw := Joined(s.partial + [text[start..end]]);
    JoinedPush(s.partial, text[start..end]);
    next := DispatchStep(s.(partial := []), parse(raw));
    DispatchKeepsPartial(s.(partial := []), parse(raw), []);
  }

  // The frames behind a terminator, together with the one it ends.
  lemma FrameInFront(s: Session, text: string, start: nat, end: nat, next: Session, raw: string, t: Session, parse: Parser)
    requires Unterminated(s.partial) && start <= end < |text| && TerminatorIndex(text, start) == end
    requires raw == Joined(s.partial) + text[start..end]
    requires next == DispatchStep(s.(partial := []), parse(raw)) && next.partial == []
    requires ReceivedAs(next, t, Frames(Joined(next.partial) + text[end + 1..]), parse)
    ensures ReceivedAs(s, t, Frames(Joined(s.partial) + text[start..]), parse)
  {
    assert Joined(next.partial) + text[end + 1..] == text[end + 1..];
    FramesOfSuffix(Joined(s.partial), text, start, end);
    ReceivedLater(s, next, t, raw, Frames(text[end + 1..]), parse);
  }

  lemma NoFrameYet(s: Session, text: string, start: nat, parse: Parser)
    requires Unterminated(s.partial) && start <= |text| && TerminatorIndex(text, start) == -1
    ensures ReceivedAs(s, ReceivedFrom(s, text, start, parse), Frames(Joined(s.partial) + text[start..]), parse)
  {
    IndexInSuffix(text, start);
    NoFramesOfPrefixed(Joined(s.partial), text[start..]);
    ReceivedLast(s, text, start, parse);
  }

  // Receiving a chunk dispatches the frames it completes and keeps the remainder.
  lemma {:induction false} ReceivedFrames(s: Session, text: string, start: nat, parse: Parser, t: Session)
    requires Unterminated(s.partial) && start <= |text| && t == ReceivedFrom(s, text, start, parse)
    ensures ReceivedAs(s, t, Frames(Joined(s.partial) + text[start..]), parse)
    decreases |text| - start
  {
    var end := TerminatorIndex(text, start);
    if end == -1 {
      NoFrameYet(s, text, start, parse);
    } else {
      var raw, next := ReceivedNext(s, text, start, parse);
      NextIsUnterminated(next);
      ReceivedFrames(next, text, end + 1, parse, t);
      FrameInFront(s, text, start, end, next, raw, t, parse);
    }
  }

  lemma NextIsUnterminated(next: Session)
    requires next.partial == []
    ensures Unterminated(next.partial)
  {
  }

  lemma CutSuffix(text: string, start: nat, end: nat)
    requires start <= end < |text|
    ensures text[start..][..end - start] == text[start..end]
    ensures text[start..][end - start + 1..] == text[end + 1..]
  {
  }

  lemma FramesOfSuffix(prefix: string, text: string, start: nat, end: nat)
    requires Plain(prefix) && start <= end < |text| && TerminatorIndex(text, start) == end
    ensures Frames(prefix + text[start..]) == FirstFrame(prefix + text[start..end], Frames(text[end + 1..]))
  {
    IndexInSuffix(text, start);
    CutSuffix(text, start, end);
    FramesOfPrefixed(prefix, text[start..], text[start..end], text[end + 1..]);
  }

  lemma ReceivedLater(s: Session, next: Session, t: Session, raw: string, later: Framed, parse: Parser)
    requires next == DispatchStep(s.(partial := []), parse(raw)) && next.partial == [] && ReceivedAs(next, t, later, parse)
    ensures ReceivedAs(s, t, FirstFrame(raw, later), parse)
  {
    DispatchCons(s.(partial := []), raw, later.messages, parse);
  }

  // Framing a longer stream: the frames of its front, then those its remainder begins.
  ghost predicate FramedAs(whole: Framed, front: Framed, back: Framed) {
    whole == Framed(front.messages + back.messages, back.remainder)
  }

  lemma {:induction false} FramesConcat(a: string, b: string)
    ensures FramedAs(Frames(a + b), Frames(a), Frames(Frames(a).remainder + b))
    decreases |a|
  {
    var end := TerminatorIndex(a, 0);
    if end != -1 {
      var tail := a[end + 1..];
      FirstOfConcat(a, b, end);
      FramesConcat(tail, b);
      FramedCons(a[..end], Frames(tail + b), Frames(tail), Frames(Frames(tail).remainder + b));
    } else {
      NoFrames(a);
      FramedAlone(Frames(a + b), a);
    }
  }

  lemma FramedAlone(whole: Framed, remainder: string)
    ensures FramedAs(whole, Framed([], remainder), whole)
  {
    assert [] + whole.messages == whole.messages;
  }

  lemma CutOfConcat(a: string, b: string, end: nat)
    requires end < |a|
    ensures (a + b)[..end] == a[..end] && (a + b)[end + 1..] == a[end + 1..] + b
  {
  }

  lemma FirstOfConcat(a: string, b: string, end: nat)
    requires TerminatorIndex(a, 0) == end && end < |a|
    ensures Frames(a) == FirstFrame(a[..end], Frames(a[end + 1..]))
    ensures Frames(a + b) == FirstFrame(a[..end], Frames(a[end + 1..] + b))
  {
    IndexIsFirst(a + b, end);
    CutOfConcat(a, b, end);
    FramesAt(a, end, a[..end], a[end + 1..]);
    FramesAt(a + b, end, a[..end], a[end + 1..] + b);
  }

  lemma FramedCons(first: string, whole: Framed, front: Framed, back: Framed)
    requires FramedAs(whole, front, back)
    ensures FramedAs(FirstFrame(first, whole), FirstFrame(first, front), back)
  {
    assert [first] + (front.messages + back.messages) == [first] + front.messages + back.messages;
  }

  lemma {:induction false} DispatchAllConcat(s: Session, a: seq<string>, b: seq<string>, parse: Parser)
    ensures DispatchAll(s, a + b, parse) == DispatchAll(DispatchAll(s, a, parse), b, parse)
    decreases |a|
  {
    if a == [] {
      assert a + b == b;
    } else {
      assert (a + b)[1..] == a[1..] + b;
      DispatchAllConcat(DispatchStep(s, parse(a[0])), a[1..], b, parse);
    }
  }

  lemma ReceivedChunk(s: Session, text: string, parse: Parser)
    requires Unterminated(s.partial)
    ensures ReceivedAs(s, Received(s, text, parse), Frames(Joined(s.partial) + text), parse)
  {
    assert text[0..] == text;
    ReceivedFrames(s, text, 0, parse, Received(s, text, parse));
  }

  lemma FramesRegroup(before: string, chunk: string, others: string)
    ensures FramedAs(Frames(before + (chunk + others)), Frames(before + chunk), Frames(Frames(before + chunk).remainder + others))
  {
    assert before + (chunk + others) == (before + chunk) + others;
    FramesConcat(before + chunk, others);
  }

  // However a stream is cut into chunks, the messages dispatched are the NUL-separated
  // pieces of the whole stream in order, and the fragments kept are its remainder.
  lemma {:induction false} ChunkingDoesNotMatter(s: Session, chunks: seq<string>, parse: Parser)
    requires Unterminated(s.partial)
    ensures ReceivedAs(s, ReceivedAll(s, chunks, parse), Frames(Joined(s.partial) + Joined(chunks)), parse)
    decreases |chunks|
  {
    if chunks == [] {
      var kept := Joined(s.partial);
      assert kept + Joined(chunks) == kept;
      NoTerminatorAnywhere(kept);
      NoFrames(kept);
    } else {
      var next := Received(s, chunks[0], parse);
      ReceivedChunk(s, chunks[0], parse);
      ChunkingDoesNotMatter(next, chunks[1..], parse);
      FramesRegroup(Joined(s.partial), chunks[0], Joined(chunks[1..]));
      ReceivedThen(s, next, ReceivedAll(next, chunks[1..], parse), Frames(Joined(s.partial) + chunks[0]),
                   Frames(Joined(next.partial) + Joined(chunks[1..])), parse);
    }
  }

  lemma ReceivedThen(s: Session, next: Session, t: Session, front: Framed, back: Framed, parse: Parser)
    requires ReceivedAs(s, next, front, parse) && ReceivedAs(next, t, back, parse)
    ensures ReceivedAs(s, t, Framed(front.messages + back.messages, back.remainder), parse)
  {
    DispatchAllConcat(s.(partial := []), front.messages, back.messages, parse);
  }

  // The stream that these messages, each with a terminator behind it, and a remainder make.
  function StreamOf(messages: seq<string>, remainder: string): string {
    if messages == [] then remainder else messages[0] + ['\0'] + StreamOf(messages[1..], remainder)
  }

  // The pieces hold no terminator and put together again are the stream.
  lemma {:induction false} FramesAreThePieces(stream: string)
    ensures var framed := Frames(stream);
            && StreamOf(framed.messages, framed.remainder) == stream
            && (forall i | 0 <= i < |framed.messages| :: '\0' !in framed.messages[i]) && '\0' !in framed.remainder
    decreases |stream|
  {
    var end := TerminatorIndex(stream, 0);
    if end != -1 {
      var later := Frames(stream[end + 1..]);
      FramesAreThePieces(stream[end + 1..]);
      assert ([stream[..end]] + later.messages)[1..] == later.messages;
      assert stream == stream[..end] + [stream[end]] + stream[end + 1..];
    }
  }
}
