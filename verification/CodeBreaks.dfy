/** figura/scripts/print-pdf.mjs: break opportunities in inline code. A <wbr> goes after the
    separator runs of a code element that have visible text on both sides; the code of pre
    and svg elements is left alone. */
module CodeBreaks {
  import opened HtmlTokens

  const CODE_TAG := "code"
  const UNTOUCHED_TAGS: set<string> := {"pre", "svg"}

  datatype Marked = Source(token: Token) | BreakOpportunity

  predicate IsMarkup(token: Token) {
    token.Open? || token.Close? || token.SelfClosed?
  }

  // ----- visible lengths

  // What a token adds to the visible text: nothing, one character, or its run.
  function Width(token: Token): nat {
    match token
    case Ref(_) => 1
    case Run(text) => |text|
    case Char(_) => 1
    case _ => 0
  }

  function Tally(tokens: seq<Token>): nat {
    if tokens == [] then 0 else Tally(tokens[..|tokens| - 1]) + Width(tokens[|tokens| - 1])
  }

  function TextOf(token: Token): string {
    match token
    case Ref(text) => text
    case Run(text) => text
    case Char(c) => [c]
    case _ => ""
  }

  // `codeHtml.replace(CODE_TAG, '')`.
  function Stripped(tokens: seq<Token>): string {
    if tokens == [] then "" else TextOf(tokens[0]) + Stripped(tokens[1..])
  }

  predicate IsRefChar(c: char) {
    c == '#' || 'a' <= c <= 'z' || 'A' <= c <= 'Z' || '0' <= c <= '9'
  }

  function RefChars(s: string): (n: nat)
    ensures n <= |s| && (forall i | 0 <= i < n :: IsRefChar(s[i])) && (n < |s| ==> !IsRefChar(s[n]))
  {
    if s != "" && IsRefChar(s[0]) then 1 + RefChars(s[1..]) else 0
  }

  // The length of the character reference a text starts with, or 0.
  function RefAt(s: string): (n: nat)
    ensures n == 0 || 3 <= n <= |s|
  {
    if s == "" || s[0] != '&' then 0
    else
      var n := RefChars(s[1..]);
      if n >= 1 && 1 + n < |s| && s[1 + n] == ';' then n + 2 else 0
  }

  // `.replace(CODE_CHARACTER_REFERENCE, '&').length`.
  function Collapsed(s: string): nat {
    if s == "" then 0
    else if RefAt(s) > 0 then 1 + Collapsed(s[RefAt(s)..])
    else 1 + Collapsed(s[1..])
  }

  function VisibleLength(tokens: seq<Token>): nat {
    Collapsed(Stripped(tokens))
  }

  predicate IsSeparator(c: char) {
    c == '_' || c == '/' || c == '.' || c == ':'
  }

  predicate LexedToken(token: Token) {
    match token
    case Ref(text) => RefAt(text) == |text| > 0
    case Run(text) => text != "" && forall k | 0 <= k < |text| :: IsSeparator(text[k])
    case _ => true
  }

  // The tokens of one code element as the expression cuts its text.
  predicate Lexed(tokens: seq<Token>) {
    forall i | 0 <= i < |tokens| :: LexedToken(tokens[i])
  }

  // No reference is cut in two by markup: none starts at a character of its own.
  predicate WholeRefs(tokens: seq<Token>) {
    forall i | 0 <= i < |tokens| && tokens[i].Char? :: RefAt(Stripped(tokens[i..])) == 0
  }

  lemma {:induction false} TallyConcat(a: seq<Token>, b: seq<Token>)
    ensures Tally(a + b) == Tally(a) + Tally(b)
  {
    if b == [] {
      assert a + b == a;
    } else {
      var last := |b| - 1;
      assert (a + b)[..|a| + last] == a + b[..last];
      TallyConcat(a, b[..last]);
    }
  }

  lemma TallyFirst(tokens: seq<Token>)
    requires tokens != []
    ensures Tally(tokens) == Width(tokens[0]) + Tally(tokens[1..])
  {
    TallyConcat([tokens[0]], tokens[1..]);
    assert tokens == [tokens[0]] + tokens[1..];
    assert Tally([tokens[0]]) == Tally([]) + Width(tokens[0]) by { assert [tokens[0]][..0] == []; }
  }

  lemma RefAtPrefix(text: string, rest: string)
    requires RefAt(text) > 0
    ensures RefAt(text + rest) == RefAt(text)
  {
    var n := RefChars(text[1..]);
    assert (text + rest)[1..] == text[1..] + rest;
    RefCharsPrefix(text[1..], rest);
  }

  lemma {:induction false} RefCharsPrefix(s: string, rest: string)
    requires RefChars(s) < |s|
    ensures RefChars(s + rest) == RefChars(s)
  {
    if IsRefChar(s[0]) {
      assert (s + rest)[1..] == s[1..] + rest;
      RefCharsPrefix(s[1..], rest);
    }
  }

  // Text without an ampersand collapses to its length.
  lemma {:induction false} CollapsedPlain(text: string, rest: string)
    requires forall k | 0 <= k < |text| :: text[k] != '&'
    ensures Collapsed(text + rest) == |text| + Collapsed(rest)
  {
    if text == "" {
      assert text + rest == rest;
    } else {
      assert (text + rest)[1..] == text[1..] + rest;
      CollapsedPlain(text[1..], rest);
    }
  }

  // Text of a reference is the inside of one: letters, digits, # and the final semicolon.
  predicate RefTail(s: string) {
    forall i | 0 <= i < |s| :: IsRefChar(s[i]) || s[i] == ';'
  }

  lemma StrippedFirst(tokens: seq<Token>)
    requires tokens != []
    ensures Stripped(tokens) == TextOf(tokens[0]) + Stripped(tokens[1..])
    ensures TextOf(tokens[0]) == "" ==> Stripped(tokens) == Stripped(tokens[1..])
    ensures tokens[0].Char? ==> Stripped(tokens) != "" && Stripped(tokens)[0] == tokens[0].c && Stripped(tokens)[1..] == Stripped(tokens[1..])
  {
  }

  lemma LexedTail(tokens: seq<Token>, k: nat)
    requires k <= |tokens| && Lexed(tokens)
    ensures Lexed(tokens[k..])
  {
  }

  lemma RefTailBehind(text: string, rest: string, n: nat)
    requires |text| <= n <= |text + rest| && RefTail((text + rest)[..n])
    ensures n - |text| <= |rest| && RefTail(rest[..n - |text|]) && RefTail(text)
    ensures (text + rest)[n..] == rest[n - |text|..]
  {
    var whole := text + rest;
    assert forall i | 0 <= i < n - |text| :: whole[..n][|text| + i] == rest[i];
    assert forall i | 0 <= i < |text| :: whole[..n][i] == text[i];
  }

  // Of the tokens with text only a character of its own can continue a reference.
  lemma FirstIsNarrow(token: Token, rest: string, n: nat)
    requires LexedToken(token) && 0 < n <= |TextOf(token) + rest| && RefTail((TextOf(token) + rest)[..n])
    ensures |TextOf(token)| == Width(token) <= 1
  {
    var text := TextOf(token);
    if text != "" {
      assert (text + rest)[..n][0] == text[0];
    }
  }

  lemma FirstOfRefTail(tokens: seq<Token>, n: nat) returns (eaten: nat)
    requires tokens != [] && Lexed(tokens) && 0 < n <= |Stripped(tokens)| && RefTail(Stripped(tokens)[..n])
    ensures eaten == Width(tokens[0]) <= n
    ensures n - eaten <= |Stripped(tokens[1..])| && RefTail(Stripped(tokens[1..])[..n - eaten])
    ensures Stripped(tokens)[n..] == Stripped(tokens[1..])[n - eaten..]
  {
    StrippedFirst(tokens);
    FirstIsNarrow(tokens[0], Stripped(tokens[1..]), n);
    RefTailBehind(TextOf(tokens[0]), Stripped(tokens[1..]), n);
    eaten := Width(tokens[0]);
  }

  // The first n characters of the text are k tokens of one character each, or none.
  ghost predicate SkipsTo(tokens: seq<Token>, n: nat, k: nat) {
    k <= |tokens| && n <= |Stripped(tokens)| && Stripped(tokens[k..]) == Stripped(tokens)[n..] && Tally(tokens) == n + Tally(tokens[k..])
  }

  lemma SkipsNothing(tokens: seq<Token>)
    ensures SkipsTo(tokens, 0, 0)
  {
    assert tokens[0..] == tokens && Stripped(tokens)[0..] == Stripped(tokens);
  }

  lemma SkipsFirst(tokens: seq<Token>, n: nat, eaten: nat, later: nat)
    requires tokens != [] && eaten == Width(tokens[0]) <= n <= |Stripped(tokens)| && SkipsTo(tokens[1..], n - eaten, later)
    requires Stripped(tokens)[n..] == Stripped(tokens[1..])[n - eaten..]
    ensures SkipsTo(tokens, n, later + 1)
  {
    TallyFirst(tokens);
    assert tokens[1..][later..] == tokens[later + 1..];
  }

  // The rest of a reference that begins before the tokens is characters of their own.
  lemma {:induction false} RefTailIsChars(tokens: seq<Token>, n: nat) returns (k: nat)
    requires Lexed(tokens) && n <= |Stripped(tokens)| && RefTail(Stripped(tokens)[..n])
    ensures SkipsTo(tokens, n, k)
  {
    if n == 0 {
      k := 0;
      SkipsNothing(tokens);
    } else {
      LexedTail(tokens, 1);
      var eaten := FirstOfRefTail(tokens, n);
      var later := RefTailIsChars(tokens[1..], n - eaten);
      SkipsFirst(tokens, n, eaten, later);
      k := later + 1;
    }
  }

  // Whether the tally is right, for the tokens from one on.
  ghost predicate Agrees(tokens: seq<Token>) {
    VisibleLength(tokens) <= Tally(tokens) && (VisibleLength(tokens) == Tally(tokens) <==> WholeRefs(tokens))
  }

  lemma WholeRefsFirst(tokens: seq<Token>)
    requires tokens != []
    ensures WholeRefs(tokens) <==> (tokens[0].Char? ==> RefAt(Stripped(tokens)) == 0) && WholeRefs(tokens[1..])
  {
    var others := tokens[1..];
    assert tokens[0..] == tokens;
    assert forall i | 0 <= i < |others| :: others[i] == tokens[i + 1] && others[i..] == tokens[i + 1..];
    assert forall i | 1 <= i < |tokens| :: tokens[i] == others[i - 1] && tokens[i..] == others[i - 1..];
  }

  // A token that collapses to its width leaves the question to the tokens after it.
  lemma AgreesFirst(tokens: seq<Token>)
    requires tokens != [] && Agrees(tokens[1..])
    requires VisibleLength(tokens) == Width(tokens[0]) + VisibleLength(tokens[1..])
    requires tokens[0].Char? ==> RefAt(Stripped(tokens)) == 0
    ensures Agrees(tokens)
  {
    TallyFirst(tokens);
    WholeRefsFirst(tokens);
  }

  lemma CollapsedFirst(tokens: seq<Token>)
    requires tokens != [] && Lexed(tokens) && (tokens[0].Char? ==> RefAt(Stripped(tokens)) == 0)
    ensures VisibleLength(tokens) == Width(tokens[0]) + VisibleLength(tokens[1..])
  {
    StrippedFirst(tokens);
    var rest := Stripped(tokens[1..]);
    match tokens[0] {
      case Ref(text) =>
        RefAtPrefix(text, rest);
        assert (text + rest)[|text|..] == rest;
      case Run(text) => CollapsedPlain(text, rest);
      case _ =>
    }
  }

  // A reference that begins at a character and runs on behind markup counts as one where
  // its characters were tallied one by one.
  lemma CutRefDisagrees(tokens: seq<Token>, k: nat, n: nat)
    requires tokens != [] && tokens[0].Char? && n == RefAt(Stripped(tokens)) && n > 0
    requires SkipsTo(tokens[1..], n - 1, k) && Stripped(tokens[1..])[n - 1..] == Stripped(tokens)[n..]
    requires VisibleLength(tokens[1..][k..]) <= Tally(tokens[1..][k..])
    ensures Agrees(tokens)
  {
    TallyFirst(tokens);
    WholeRefsFirst(tokens);
  }

  lemma RefIsTail(s: string)
    requires RefAt(s) > 0
    ensures RefTail(s[1..][..RefAt(s) - 1])
  {
    var n := RefChars(s[1..]);
    assert forall i | 0 <= i < n :: s[1..][i] == s[i + 1];
  }

  lemma TailBehindFirst(tokens: seq<Token>, n: nat)
    requires tokens != [] && tokens[0].Char? && n == RefAt(Stripped(tokens)) && n > 0
    ensures n - 1 <= |Stripped(tokens[1..])| && RefTail(Stripped(tokens[1..])[..n - 1])
    ensures Stripped(tokens[1..])[n - 1..] == Stripped(tokens)[n..]
  {
    StrippedFirst(tokens);
    RefIsTail(Stripped(tokens));
  }

  lemma AgreesByWidth(tokens: seq<Token>)
    requires tokens != [] && Lexed(tokens) && Agrees(tokens[1..]) && (tokens[0].Char? ==> RefAt(Stripped(tokens)) == 0)
    ensures Agrees(tokens)
  {
    CollapsedFirst(tokens);
    AgreesFirst(tokens);
  }

  lemma AgreesByRef(tokens: seq<Token>, n: nat, k: nat)
    requires tokens != [] && tokens[0].Char? && n == RefAt(Stripped(tokens)) && n > 0
    requires SkipsTo(tokens[1..], n - 1, k) && Agrees(tokens[1..][k..])
    ensures Agrees(tokens)
  {
    TailBehindFirst(tokens, n);
    CutRefDisagrees(tokens, k, n);
  }

  lemma RefTailFound(tokens: seq<Token>, n: nat) returns (k: nat)
    requires tokens != [] && Lexed(tokens[1..]) && tokens[0].Char? && n == RefAt(Stripped(tokens)) && n > 0
    ensures SkipsTo(tokens[1..], n - 1, k) && Lexed(tokens[1..][k..])
  {
    TailBehindFirst(tokens, n);
    k := RefTailIsChars(tokens[1..], n - 1);
    LexedTail(tokens[1..], k);
  }

  lemma {:induction false} TallyAgrees(tokens: seq<Token>)
    requires Lexed(tokens)
    ensures Agrees(tokens)
    decreases |tokens|
  {
    if tokens != [] {
      LexedTail(tokens, 1);
      var n := RefAt(Stripped(tokens));
      if tokens[0].Char? && n > 0 {
        var k := RefTailFound(tokens, n);
        TallyAgrees(tokens[1..][k..]);
        AgreesByRef(tokens, n, k);
      } else {
        TallyAgrees(tokens[1..]);
        AgreesByWidth(tokens);
      }
    }
  }

  // The running tally of the tokens is the visible length exactly when no reference is
  // cut in two by markup; otherwise the visible length is smaller.
  lemma TallyIsVisibleLength(tokens: seq<Token>)
    requires Lexed(tokens)
    ensures VisibleLength(tokens) <= Tally(tokens)
    ensures VisibleLength(tokens) == Tally(tokens) <==> WholeRefs(tokens)
  {
    TallyAgrees(tokens);
  }

  // ----- break opportunities in one code element

  // `runStart > 0 && visibleOffset < codeLength` for the run at k.
  predicate WantsBreak(content: seq<Token>, k: nat)
    requires k < |content|
  {
    content[k].Run? && Tally(content[..k]) > 0 && Tally(content[..k + 1]) < VisibleLength(content)
  }

  function Marks(content: seq<Token>, upTo: nat): seq<Marked>
    requires upTo <= |content|
  {
    if upTo == 0 then []
    else
      Marks(content, upTo - 1) + [Source(content[upTo - 1])] + if WantsBreak(content, upTo - 1) then [BreakOpportunity] else []
  }

  lemma TallyPush(tokens: seq<Token>, k: nat)
    requires k < |tokens|
    ensures Tally(tokens[..k + 1]) == Tally(tokens[..k]) + Width(tokens[k])
  {
    assert tokens[..k + 1][..k] == tokens[..k];
  }

  lemma {:induction false} TallyOfChars(tokens: seq<Token>, a: nat, b: nat)
    requires a <= b <= |tokens| && forall i | a <= i < b :: tokens[i].Char?
    ensures Tally(tokens[..b]) == Tally(tokens[..a]) + (b - a)
    decreases b
  {
    if a < b {
      TallyOfChars(tokens, a, b - 1);
      TallyPush(tokens, b - 1);
    }
  }

  // The replace callback with its two counters: visibleOffset is always the visible width
  // of what was scanned.
  method WithBreakOpportunities(content: seq<Token>) returns (marked: seq<Marked>)
    ensures marked == Marks(content, |content|)
  {
    var codeLength := VisibleLength(content);
    var visibleOffset, scannedUpTo: nat := 0, 0;
    marked := [];
    for k := 0 to |content|
      invariant scannedUpTo <= k && visibleOffset == Tally(content[..scannedUpTo])
      invariant forall i | scannedUpTo <= i < k :: content[i].Char?
      invariant marked == Marks(content, k)
    {
      var token := content[k];
      marked := marked + [Source(token)];
      if token.Char? { continue; }
      TallyOfChars(content, scannedUpTo, k);
      TallyPush(content, k);
      visibleOffset := visibleOffset + (k - scannedUpTo);
      scannedUpTo := k + 1;
      if IsMarkup(token) { continue; }
      if token.Ref? {
        visibleOffset := visibleOffset + 1;
        continue;
      }
      var runStart := visibleOffset;
      visibleOffset := visibleOffset + |token.text|;
      if runStart > 0 && visibleOffset < codeLength {
        marked := marked + [BreakOpportunity];
      }
    }
  }

  predicate VisibleBefore(content: seq<Token>, k: nat)
    requires k < |content|
  {
    exists i :: 0 <= i < k && Width(content[i]) > 0
  }

  predicate VisibleAfter(content: seq<Token>, k: nat)
    requires k < |content|
  {
    exists i :: k < i < |content| && Width(content[i]) > 0
  }

  lemma {:induction false} TallyIsPositive(tokens: seq<Token>)
    ensures Tally(tokens) > 0 <==> exists i :: 0 <= i < |tokens| && Width(tokens[i]) > 0
  {
    if tokens != [] {
      var last := |tokens| - 1;
      TallyIsPositive(tokens[..last]);
      assert forall i | 0 <= i < last :: tokens[..last][i] == tokens[i];
    }
  }

  // How many characters the tally counts beyond the visible length: those of references
  // cut in two by markup.
  function Excess(content: seq<Token>): int {
    Tally(content) - VisibleLength(content)
  }

  // A break goes after exactly those runs that have visible text before them and more
  // tallied text behind them than the excess; so there is visible text on both sides of
  // every break. With no reference cut in two these are all the runs with visible text
  // on both sides.
  lemma BreaksAreInner(content: seq<Token>, k: nat)
    requires Lexed(content) && k < |content|
    ensures WantsBreak(content, k) <==> content[k].Run? && VisibleBefore(content, k) && Tally(content[k + 1..]) > Excess(content)
    ensures WantsBreak(content, k) ==> VisibleBefore(content, k) && VisibleAfter(content, k)
    ensures Excess(content) >= 0 && (Excess(content) == 0 <==> WholeRefs(content))
    ensures WholeRefs(content) ==> (WantsBreak(content, k) <==> content[k].Run? && VisibleBefore(content, k) && VisibleAfter(content, k))
  {
    TallyIsVisibleLength(content);
    TallyInTwo(content, k + 1);
    BeforeIsTally(content, k);
    AfterIsTally(content, k);
  }

  lemma TallyInTwo(content: seq<Token>, k: nat)
    requires k <= |content|
    ensures Tally(content) == Tally(content[..k]) + Tally(content[k..])
  {
    TallyConcat(content[..k], content[k..]);
    assert content == content[..k] + content[k..];
  }

  lemma BeforeIsTally(content: seq<Token>, k: nat)
    requires k < |content|
    ensures VisibleBefore(content, k) <==> Tally(content[..k]) > 0
  {
    TallyIsPositive(content[..k]);
    assert forall i | 0 <= i < k :: content[..k][i] == content[i];
  }

  lemma AfterIsTally(content: seq<Token>, k: nat)
    requires k < |content|
    ensures VisibleAfter(content, k) <==> Tally(content[k + 1..]) > 0
  {
    var after := content[k + 1..];
    TallyIsPositive(after);
    if VisibleAfter(content, k) {
      var i :| k < i < |content| && Width(content[i]) > 0;
      assert after[i - k - 1] == content[i];
    }
    if Tally(after) > 0 {
      var i :| 0 <= i < |after| && Width(after[i]) > 0;
      assert content[k + 1 + i] == after[i];
    }
  }

  // With a reference cut in two by a tag an inner run can go without its break: the text
  // &<b>l;_x is tallied as five characters and has a visible length of three.
  lemma CutReferenceLosesABreak()
    ensures var content := [Char('&'), Open("b"), Char('l'), Char(';'), Run("_"), Char('x')];
            Lexed(content) && VisibleBefore(content, 4) && VisibleAfter(content, 4) && !WantsBreak(content, 4)
  {
    var content := [Char('&'), Open("b"), Char('l'), Char(';'), Run("_"), Char('x')];
    CutIsInner(content);
    CutTally(content);
    CutStripped(content);
    CutTextIsShort();
  }

  lemma CutIsInner(content: seq<Token>)
    requires content == [Char('&'), Open("b"), Char('l'), Char(';'), Run("_"), Char('x')]
    ensures Lexed(content) && VisibleBefore(content, 4) && VisibleAfter(content, 4)
  {
    assert Width(content[0]) == 1 && Width(content[5]) == 1;
  }

  lemma CutTally(content: seq<Token>)
    requires content == [Char('&'), Open("b"), Char('l'), Char(';'), Run("_"), Char('x')]
    ensures Tally(content[..5]) == 4
  {
    assert content[..0] == [];
    TallyPush(content, 0);
    TallyPush(content, 1);
    TallyPush(content, 2);
    TallyPush(content, 3);
    TallyPush(content, 4);
  }

  lemma CutStripped(content: seq<Token>)
    requires content == [Char('&'), Open("b"), Char('l'), Char(';'), Run("_"), Char('x')]
    ensures Stripped(content) == "&l;_x"
  {
    assert content[5..][1..] == [] && content[4..][1..] == content[5..] && content[3..][1..] == content[4..];
    assert content[2..][1..] == content[3..] && content[1..][1..] == content[2..];
    assert Stripped([]) == "" && Stripped(content[5..]) == "x";
    assert Stripped(content[4..]) == "_x";
    assert Stripped(content[3..]) == ";_x";
    assert Stripped(content[2..]) == "l;_x";
    assert Stripped(content[1..]) == "l;_x";
  }

  lemma CutTextIsShort()
    ensures Collapsed("&l;_x") == 3
  {
    assert "&l;_x"[1..] == "l;_x" && RefChars("l;_x") == 1 by { assert "l;_x"[1..] == ";_x"; }
    assert "&l;_x"[3..] == "_x" && "_x"[1..] == "x" && "x"[1..] == "";
  }

  // ----- the whole document

  // The inline code elements of a stretch of the document: an open tag and the first
  // close tag after it. `breaks` holds the tokens a break goes after.
  function NextCodeOpen(tokens: seq<Token>, from: nat, stop: nat): (pos: nat)
    requires from <= stop <= |tokens|
    ensures from <= pos <= stop
    decreases stop - from
  {
    if from == stop || ((tokens[from].Open? || tokens[from].SelfClosed?) && tokens[from].tag == CODE_TAG) then from
    else NextCodeOpen(tokens, from + 1, stop)
  }

  function NextCodeClose(tokens: seq<Token>, from: nat, stop: nat): (pos: nat)
    requires from <= stop <= |tokens|
    ensures from <= pos <= stop
    decreases stop - from
  {
    if from == stop || tokens[from] == Close(CODE_TAG) then from else NextCodeClose(tokens, from + 1, stop)
  }

  function BreaksInCode(tokens: seq<Token>, from: nat, stop: nat): set<nat>
    requires from <= stop <= |tokens|
  {
    set k: nat | from <= k < stop && BreaksAt(tokens, from, stop, k)
  }

  // A break goes after token k of the code element between from and stop.
  predicate BreaksAt(tokens: seq<Token>, from: nat, stop: nat, k: nat)
    requires from <= k < stop <= |tokens|
  {
    WantsBreak(tokens[from..stop], k - from)
  }

  function InlineBreaks(tokens: seq<Token>, from: nat, stop: nat): set<nat>
    requires from <= stop <= |tokens|
  {
    BreaksByCode(BreaksOfCode(tokens), tokens, from, stop)
  }

  function BreaksOfCode(tokens: seq<Token>): (nat, nat) -> set<nat> {
    (start: nat, end: nat) => if start <= end <= |tokens| then BreaksInCode(tokens, start, end) else {}
  }

  // The breaks of every code element, one after the other.
  function BreaksByCode(breaksOf: (nat, nat) -> set<nat>, tokens: seq<Token>, from: nat, stop: nat): set<nat>
    requires from <= stop <= |tokens|
    decreases stop - from
  {
    var start := NextCodeOpen(tokens, from, stop);
    if start == stop then {}
    else
      var end := NextCodeClose(tokens, start + 1, stop);
      if end == stop then {} else breaksOf(start + 1, end) + BreaksByCode(breaksOf, tokens, end + 1, stop)
  }

  predicate UntouchedAt(tokens: seq<Token>, pos: nat) {
    pos < |tokens| && (tokens[pos].Open? || tokens[pos].SelfClosed?) && tokens[pos].tag in UNTOUCHED_TAGS
  }

  function NextBlock(tokens: seq<Token>, from: nat): (pos: nat)
    requires from <= |tokens|
    ensures from <= pos <= |tokens| && (pos < |tokens| ==> UntouchedAt(tokens, pos))
    ensures forall i | from <= i < pos :: !UntouchedAt(tokens, i)
    decreases |tokens| - from
  {
    if from == |tokens| || UntouchedAt(tokens, from) then from else NextBlock(tokens, from + 1)
  }

  function BlockEnd(tokens: seq<Token>, pos: nat): (end: int)
    requires UntouchedAt(tokens, pos)
    ensures end == -1 || pos < end <= |tokens|
  {
    ElementEndFrom(tokens, pos, tokens[pos].tag, 0)
  }

  // The loop over pre and svg elements; one that does not close ends it.
  function CodeBreaksFrom(tokens: seq<Token>, from: nat): set<nat>
    requires from <= |tokens|
    decreases |tokens| - from
  {
    var block := NextBlock(tokens, from);
    if block == |tokens| || BlockEnd(tokens, block) == -1 then InlineBreaks(tokens, from, |tokens|)
    else InlineBreaks(tokens, from, block) + CodeBreaksFrom(tokens, BlockEnd(tokens, block))
  }

  ghost predicate RunsOf(tokens: seq<Token>, from: nat, stop: nat, breaks: set<nat>) {
    stop <= |tokens| && forall k | k in breaks :: from <= k < stop && tokens[k].Run?
  }

  lemma BreaksInCodeAreRuns(tokens: seq<Token>, from: nat, stop: nat)
    requires from <= stop <= |tokens|
    ensures RunsOf(tokens, from, stop, BreaksOfCode(tokens)(from, stop))
  {
  }

  lemma RunsTogether(tokens: seq<Token>, from: nat, stop: nat, a: nat, b: nat, c: nat, some: set<nat>, others: set<nat>)
    requires from <= a && b <= stop <= |tokens| && from <= c
    requires RunsOf(tokens, a, b, some) && RunsOf(tokens, c, stop, others)
    ensures RunsOf(tokens, from, stop, some + others)
  {
  }

  lemma OneMoreCode(tokens: seq<Token>, from: nat, start: nat, end: nat, stop: nat)
    requires from <= start < end < stop <= |tokens|
    requires start == NextCodeOpen(tokens, from, stop) && end == NextCodeClose(tokens, start + 1, stop)
    requires RunsOf(tokens, end + 1, stop, InlineBreaks(tokens, end + 1, stop))
    ensures RunsOf(tokens, from, stop, InlineBreaks(tokens, from, stop))
  {
    InlineBreaksAre(tokens, from, start, end, stop);
    BreaksInCodeAreRuns(tokens, start + 1, end);
    RunsTogether(tokens, from, stop, start + 1, end, end + 1, BreaksOfCode(tokens)(start + 1, end), InlineBreaks(tokens, end + 1, stop));
  }

  lemma {:induction false} InlineBreaksAreRuns(tokens: seq<Token>, from: nat, stop: nat)
    requires from <= stop <= |tokens|
    ensures RunsOf(tokens, from, stop, InlineBreaks(tokens, from, stop))
    decreases stop - from
  {
    var start := NextCodeOpen(tokens, from, stop);
    if start < stop {
      var end := NextCodeClose(tokens, start + 1, stop);
      if end < stop {
        InlineBreaksAreRuns(tokens, end + 1, stop);
        OneMoreCode(tokens, from, start, end, stop);
      }
    }
  }

  lemma {:induction false} CodeBreaksAreRuns(tokens: seq<Token>, from: nat)
    requires from <= |tokens|
    ensures RunsOf(tokens, from, |tokens|, CodeBreaksFrom(tokens, from))
    decreases |tokens| - from
  {
    var block := NextBlock(tokens, from);
    if block == |tokens| || BlockEnd(tokens, block) == -1 {
      InlineBreaksAreRuns(tokens, from, |tokens|);
    } else {
      InlineBreaksAreRuns(tokens, from, block);
      CodeBreaksAreRuns(tokens, BlockEnd(tokens, block));
    }
  }

  // The tokens of a stretch, with a break after those of the set.
  function Inserted(tokens: seq<Token>, from: nat, stop: nat, breaks: set<nat>): seq<Marked>
    requires from <= stop <= |tokens|
    decreases stop - from
  {
    if from == stop then []
    else Inserted(tokens, from, stop - 1, breaks) + [Source(tokens[stop - 1])] + if stop - 1 in breaks then [BreakOpportunity] else []
  }

  lemma {:induction false} InsertedConcat(tokens: seq<Token>, a: nat, b: nat, c: nat, breaks: set<nat>)
    requires a <= b <= c <= |tokens|
    ensures Inserted(tokens, a, b, breaks) + Inserted(tokens, b, c, breaks) == Inserted(tokens, a, c, breaks)
    decreases c
  {
    if b < c {
      InsertedConcat(tokens, a, b, c - 1, breaks);
    }
  }

  ghost predicate SameIn(breaks: set<nat>, others: set<nat>, from: nat, stop: nat) {
    forall k | from <= k < stop :: k in breaks <==> k in others
  }

  ghost predicate CodeIn(tokens: seq<Token>, breaks: set<nat>, from: nat, stop: nat)
    requires from <= stop <= |tokens|
  {
    forall k | from <= k < stop :: k in breaks <==> BreaksAt(tokens, from, stop, k)
  }

  lemma {:induction false} SameInserted(tokens: seq<Token>, from: nat, stop: nat, breaks: set<nat>, others: set<nat>)
    requires from <= stop <= |tokens| && SameIn(breaks, others, from, stop)
    ensures Inserted(tokens, from, stop, breaks) == Inserted(tokens, from, stop, others)
    decreases stop
  {
    if from < stop {
      SameInserted(tokens, from, stop - 1, breaks, others);
    }
  }

  lemma OneMark(tokens: seq<Token>, from: nat, stop: nat, upTo: nat, breaks: set<nat>)
    requires from <= stop <= |tokens| && upTo < stop - from && CodeIn(tokens, breaks, from, stop)
    ensures tokens[from..stop][upTo] == tokens[from + upTo]
    ensures WantsBreak(tokens[from..stop], upTo) <==> from + upTo in breaks
  {
    assert BreaksAt(tokens, from, stop, from + upTo) <==> from + upTo in breaks;
  }

  lemma {:induction false} MarksAreInserted(tokens: seq<Token>, from: nat, stop: nat, upTo: nat, breaks: set<nat>)
    requires from <= stop <= |tokens| && upTo <= stop - from && CodeIn(tokens, breaks, from, stop)
    ensures Marks(tokens[from..stop], upTo) == Inserted(tokens, from, from + upTo, breaks)
    decreases upTo
  {
    if upTo > 0 {
      MarksAreInserted(tokens, from, stop, upTo - 1, breaks);
      OneMark(tokens, from, stop, upTo - 1, breaks);
    }
  }

  // Deleting the breaks gives back the document.
  function Unmarked(marked: seq<Marked>): seq<Token> {
    if marked == [] then []
    else var last := |marked| - 1; Unmarked(marked[..last]) + if marked[last].Source? then [marked[last].token] else []
  }

  // One token more, with the break behind it.
  lemma UnmarkedOneMore(before: seq<Marked>, token: Token, breaks: bool)
    ensures Unmarked(before + [Source(token)] + if breaks then [BreakOpportunity] else []) == Unmarked(before) + [token]
  {
    var marked := before + [Source(token)];
    UnmarkedPush(before, Source(token));
    UnmarkedPush(marked, BreakOpportunity);
    assert marked + [] == marked;
    assert Unmarked(marked) + [] == Unmarked(marked);
  }

  lemma InsertedPush(tokens: seq<Token>, from: nat, stop: nat, breaks: set<nat>)
    requires from < stop <= |tokens|
    ensures Inserted(tokens, from, stop, breaks)
            == Inserted(tokens, from, stop - 1, breaks) + [Source(tokens[stop - 1])] + if stop - 1 in breaks then [BreakOpportunity] else []
    ensures tokens[from..stop] == tokens[from..stop - 1] + [tokens[stop - 1]]
  {
  }

  lemma {:induction false} UnmarkedInserted(tokens: seq<Token>, from: nat, stop: nat, breaks: set<nat>)
    requires from <= stop <= |tokens|
    ensures Unmarked(Inserted(tokens, from, stop, breaks)) == tokens[from..stop]
    decreases stop
  {
    if from < stop {
      UnmarkedInserted(tokens, from, stop - 1, breaks);
      InsertedPush(tokens, from, stop, breaks);
      UnmarkedOneMore(Inserted(tokens, from, stop - 1, breaks), tokens[stop - 1], stop - 1 in breaks);
    }
  }

  lemma UnmarkedPush(marked: seq<Marked>, mark: Marked)
    ensures Unmarked(marked + [mark]) == Unmarked(marked) + if mark.Source? then [mark.token] else []
  {
    assert (marked + [mark])[..|marked|] == marked;
  }

  lemma InlineBreaksUnfold(tokens: seq<Token>, a: nat, b: nat, c: nat, d: nat, e: nat, breaks: set<nat>, later: set<nat>,
                        inside: seq<Marked>, rest: seq<Marked>)
    requires a <= b <= c <= d <= e <= |tokens| && RunsOf(tokens, d, e, later) && breaks == BreaksOfCode(tokens)(b, c) + later
    requires inside == Marks(tokens[b..c], c - b) && rest == Inserted(tokens, d, e, later)
    ensures Inserted(tokens, a, b, {}) + inside + Inserted(tokens, c, d, {}) + rest == Inserted(tokens, a, e, breaks)
  {
    UnionByPart(tokens, a, b, c, d, e, breaks, later);
    FourPieces(tokens, a, b, c, d, e, breaks, later);
  }

  // The replacement callback: the content of one code element gets its breaks.
  method BeforeRest(tokens: seq<Token>, from: nat, start: nat, end: nat, stop: nat, rest: seq<Marked>, ghost later: set<nat>)
    returns (marked: seq<Marked>)
    requires from <= start < end < stop <= |tokens| && RunsOf(tokens, end + 1, stop, later)
    requires rest == Inserted(tokens, end + 1, stop, later)
    ensures marked == Inserted(tokens, from, stop, BreaksOfCode(tokens)(start + 1, end) + later)
  {
    var inside := WithBreakOpportunities(tokens[start + 1..end]);
    InlineBreaksUnfold(tokens, from, start + 1, end, end + 1, stop, BreaksOfCode(tokens)(start + 1, end) + later, later, inside, rest);
    marked := Inserted(tokens, from, start + 1, {}) + inside + Inserted(tokens, end, end + 1, {}) + rest;
  }

  method WithInlineCodeBreaks(tokens: seq<Token>, from: nat, stop: nat) returns (marked: seq<Marked>)
    requires from <= stop <= |tokens|
    ensures marked == Inserted(tokens, from, stop, InlineBreaks(tokens, from, stop))
    decreases stop - from
  {
    var start := NextCodeOpen(tokens, from, stop);
    var end := if start == stop then stop else NextCodeClose(tokens, start + 1, stop);
    if end == stop {
      NoInlineBreaks(tokens, from, stop);
      return Inserted(tokens, from, stop, {});
    }
    var later := WithInlineCodeBreaks(tokens, end + 1, stop);
    InlineBreaksAre(tokens, from, start, end, stop);
    InlineBreaksAreRuns(tokens, end + 1, stop);
    marked := BeforeRest(tokens, from, start, end, stop, later, InlineBreaks(tokens, end + 1, stop));
  }

  // The breaks of a stretch with one code element from b to c, and of what follows at d.
  ghost predicate ByPart(tokens: seq<Token>, a: nat, b: nat, c: nat, d: nat, e: nat, breaks: set<nat>, later: set<nat>)
    requires a <= b <= c <= d <= e <= |tokens|
  {
    SameIn(breaks, {}, a, b) && CodeIn(tokens, breaks, b, c) && SameIn(breaks, {}, c, d) && SameIn(breaks, later, d, e)
  }

  lemma FourPieces(tokens: seq<Token>, a: nat, b: nat, c: nat, d: nat, e: nat, breaks: set<nat>, later: set<nat>)
    requires a <= b <= c <= d <= e <= |tokens| && ByPart(tokens, a, b, c, d, e, breaks, later)
    ensures Inserted(tokens, a, b, {}) + Marks(tokens[b..c], c - b) + Inserted(tokens, c, d, {}) + Inserted(tokens, d, e, later)
            == Inserted(tokens, a, e, breaks)
  {
    SameInserted(tokens, a, b, breaks, {});
    MarksAreInserted(tokens, b, c, c - b, breaks);
    SameInserted(tokens, c, d, breaks, {});
    SameInserted(tokens, d, e, breaks, later);
    InsertedInFour(tokens, a, b, c, d, e, breaks);
  }

  // A stretch with one code element: what is copied, what is broken, and the rest.

  // Without a whole code element a stretch is copied.
  lemma NoInlineBreaks(tokens: seq<Token>, from: nat, stop: nat)
    requires from <= stop <= |tokens|
    requires var start := NextCodeOpen(tokens, from, stop); start == stop || NextCodeClose(tokens, start + 1, stop) == stop
    ensures InlineBreaks(tokens, from, stop) == {}
  {
  }

  lemma UnionByPart(tokens: seq<Token>, a: nat, b: nat, c: nat, d: nat, e: nat, breaks: set<nat>, later: set<nat>)
    requires a <= b <= c <= d <= e <= |tokens| && RunsOf(tokens, d, e, later)
    requires breaks == BreaksOfCode(tokens)(b, c) + later
    ensures ByPart(tokens, a, b, c, d, e, breaks, later)
  {
  }

  lemma BreaksByCodeAre(breaksOf: (nat, nat) -> set<nat>, tokens: seq<Token>, from: nat, start: nat, end: nat, stop: nat)
    requires from <= start < end < stop <= |tokens|
    requires start == NextCodeOpen(tokens, from, stop) && end == NextCodeClose(tokens, start + 1, stop)
    ensures BreaksByCode(breaksOf, tokens, from, stop) == breaksOf(start + 1, end) + BreaksByCode(breaksOf, tokens, end + 1, stop)
  {
  }

  lemma InlineBreaksAre(tokens: seq<Token>, from: nat, start: nat, end: nat, stop: nat)
    requires from <= start < end < stop <= |tokens|
    requires start == NextCodeOpen(tokens, from, stop) && end == NextCodeClose(tokens, start + 1, stop)
    ensures InlineBreaks(tokens, from, stop) == BreaksOfCode(tokens)(start + 1, end) + InlineBreaks(tokens, end + 1, stop)
  {
    BreaksByCodeAre(BreaksOfCode(tokens), tokens, from, start, end, stop);
  }

  lemma InsertedInFour(tokens: seq<Token>, a: nat, b: nat, c: nat, d: nat, e: nat, breaks: set<nat>)
    requires a <= b <= c <= d <= e <= |tokens|
    ensures Inserted(tokens, a, b, breaks) + Inserted(tokens, b, c, breaks) + Inserted(tokens, c, d, breaks) + Inserted(tokens, d, e, breaks)
            == Inserted(tokens, a, e, breaks)
  {
    InsertedConcat(tokens, a, b, c, breaks);
    InsertedConcat(tokens, a, c, d, breaks);
    InsertedConcat(tokens, a, d, e, breaks);
  }

  // `html.slice(block.index, blockEnd)`: a stretch without breaks.
  method WithCodeBreakOpportunities(tokens: seq<Token>) returns (marked: seq<Marked>)
    ensures marked == Inserted(tokens, 0, |tokens|, CodeBreaksFrom(tokens, 0))
  {
    ghost var all := CodeBreaksFrom(tokens, 0);
    marked := [];
    var copiedUpTo: nat := 0;
    var block := NextBlock(tokens, 0);
    while block < |tokens|
      invariant copiedUpTo <= |tokens| && block == NextBlock(tokens, copiedUpTo)
      invariant marked == Inserted(tokens, 0, copiedUpTo, all)
      invariant forall k | copiedUpTo <= k < |tokens| :: k in all <==> k in CodeBreaksFrom(tokens, copiedUpTo)
      decreases |tokens| - copiedUpTo
    {
      var blockEnd := ElementEnd(tokens, block, tokens[block].tag);
      if blockEnd == -1 { break; }
      var broken := WithInlineCodeBreaks(tokens, copiedUpTo, block);
      BlockTurn(tokens, copiedUpTo, block, blockEnd, all);
      marked := marked + broken + Inserted(tokens, block, blockEnd, {});
      copiedUpTo := blockEnd;
      block := NextBlock(tokens, copiedUpTo);
    }
    var rest := WithInlineCodeBreaks(tokens, copiedUpTo, |tokens|);
    SameInserted(tokens, copiedUpTo, |tokens|, all, InlineBreaks(tokens, copiedUpTo, |tokens|));
    InsertedConcat(tokens, 0, copiedUpTo, |tokens|, all);
    marked := marked + rest;
  }

  lemma BlockTurn(tokens: seq<Token>, from: nat, block: nat, end: nat, all: set<nat>)
    requires from <= block < end <= |tokens| && block == NextBlock(tokens, from) && BlockEnd(tokens, block) == end
    requires forall k | from <= k < |tokens| :: k in all <==> k in CodeBreaksFrom(tokens, from)
    ensures Inserted(tokens, 0, from, all) + Inserted(tokens, from, block, InlineBreaks(tokens, from, block)) + Inserted(tokens, block, end, {})
            == Inserted(tokens, 0, end, all)
    ensures forall k | end <= k < |tokens| :: k in all <==> k in CodeBreaksFrom(tokens, end)
  {
    InlineBreaksAreRuns(tokens, from, block);
    CodeBreaksAreRuns(tokens, end);
    SameInserted(tokens, from, block, all, InlineBreaks(tokens, from, block));
    SameInserted(tokens, block, end, all, {});
    InsertedConcat(tokens, 0, from, block, all);
    InsertedConcat(tokens, 0, block, end, all);
  }

  // The output of the whole rewrite: deleting the breaks restores the document, and a
  // break goes only after a run.
  lemma CodeBreaksOnlyInsert(tokens: seq<Token>)
    ensures Unmarked(Inserted(tokens, 0, |tokens|, CodeBreaksFrom(tokens, 0))) == tokens
    ensures forall k | k in CodeBreaksFrom(tokens, 0) :: k < |tokens| && tokens[k].Run?
  {
    UnmarkedInserted(tokens, 0, |tokens|, CodeBreaksFrom(tokens, 0));
    CodeBreaksAreRuns(tokens, 0);
    assert tokens[0..|tokens|] == tokens;
  }
}
