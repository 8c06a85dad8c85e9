/** figura/scripts/erd-source-typeorm.mjs: bracket matching over tokens and the values of
    decorator arguments. Text, numbers, names, lists and objects are read back as written. */
module TypeormTokens {
  import opened Optional
  import opened TypeormEntities

  datatype Token =
    | Punctuation(value: string)
    | StringToken(value: string)
    | NumberToken(value: string)
    | NameToken(value: string)
    | OtherToken(value: string)

  const OPENERS := {"(", "[", "{"}
  const CLOSERS := {")", "]", "}"}

  predicate Opens(token: Token) {
    token.Punctuation? && token.value in OPENERS
  }

  predicate Closes(token: Token) {
    token.Punctuation? && token.value in CLOSERS
  }

  // How much deeper a token takes the nesting; the three kinds of bracket count alike.
  function Turn(token: Token): int {
    if Opens(token) then 1 else if Closes(token) then -1 else 0
  }

  function Depth(tokens: seq<Token>): int {
    if tokens == [] then 0 else Depth(tokens[..|tokens| - 1]) + Turn(tokens[|tokens| - 1])
  }

  lemma {:induction false} DepthConcat(a: seq<Token>, b: seq<Token>)
    ensures Depth(a + b) == Depth(a) + Depth(b)
  {
    if b == [] {
      assert a + b == a;
    } else {
      assert (a + b)[..|a + b| - 1] == a + b[..|b| - 1];
      DepthConcat(a, b[..|b| - 1]);
    }
  }

  // ----- the helpers

  // The bracket that closes the one at openIndex.
  function ClosingFrom(tokens: seq<Token>, index: nat, depth: int): (close: nat)
    requires index <= |tokens|
    ensures close <= |tokens|
    decreases |tokens| - index
  {
    if index == |tokens| then |tokens|
    else if Closes(tokens[index]) && depth == 1 then index
    else ClosingFrom(tokens, index + 1, depth + Turn(tokens[index]))
  }

  method ClosingIndex(tokens: seq<Token>, openIndex: nat) returns (close: nat)
    requires openIndex <= |tokens|
    ensures close == ClosingFrom(tokens, openIndex, 0)
  {
    var depth := 0;
    for index := openIndex to |tokens|
      invariant ClosingFrom(tokens, openIndex, 0) == ClosingFrom(tokens, index, depth)
    {
      if Opens(tokens[index]) {
        depth := depth + 1;
      } else if Closes(tokens[index]) {
        depth := depth - 1;
        if depth == 0 {
          return index;
        }
      }
    }
    return |tokens|;
  }

  function Extended(slices: seq<seq<Token>>, more: seq<Token>): (extended: seq<seq<Token>>)
    requires slices != []
    ensures |extended| == |slices|
  {
    slices[|slices| - 1 := slices[|slices| - 1] + more]
  }

  // All slices, empty ones too.
  function Slices(tokens: seq<Token>): (slices: seq<seq<Token>>)
    ensures slices != [] && forall i | 0 <= i < |slices| :: |slices[i]| <= |tokens|
  {
    if tokens == [] then [[]]
    else
      var n := |tokens| - 1;
      var before := Slices(tokens[..n]);
      if tokens[n] == Punctuation(",") && Depth(tokens) == 0 then before + [[]]
      else Extended(before, [tokens[n]])
  }

  function NonEmpty(slices: seq<seq<Token>>): (kept: seq<seq<Token>>)
    ensures forall s | s in kept :: s in slices
  {
    if slices == [] then []
    else
      var last, before := slices[|slices| - 1], NonEmpty(slices[..|slices| - 1]);
      if last == [] then before else before + [last]
  }

  method TopLevelSlices(tokens: seq<Token>) returns (slices: seq<seq<Token>>)
    ensures slices == NonEmpty(Slices(tokens))
  {
    var all: seq<seq<Token>> := [[]];
    var depth := 0;
    for i := 0 to |tokens|
      invariant all == Slices(tokens[..i]) && depth == Depth(tokens[..i])
    {
      assert tokens[..i + 1][..i] == tokens[..i];
      depth := depth + Turn(tokens[i]);
      if tokens[i] == Punctuation(",") && depth == 0 {
        all := all + [[]];
      } else {
        all := Extended(all, [tokens[i]]);
      }
    }
    assert tokens[..|tokens|] == tokens;
    slices := NonEmpty(all);
  }

  function ArrowFrom(tokens: seq<Token>, i: nat): (found: Option<nat>)
    requires i <= |tokens|
    ensures found.Some? ==> i <= found.value < |tokens|
    decreases |tokens| - i
  {
    if i == |tokens| then None
    else if tokens[i] == Punctuation("=>") && Depth(tokens[..i + 1]) == 0 then Some(i)
    else ArrowFrom(tokens, i + 1)
  }

  method TopLevelArrow(tokens: seq<Token>) returns (index: Option<nat>)
    ensures index == ArrowFrom(tokens, 0)
  {
    var depth := 0;
    for i := 0 to |tokens|
      invariant depth == Depth(tokens[..i]) && ArrowFrom(tokens, 0) == ArrowFrom(tokens, i)
    {
      assert tokens[..i + 1][..i] == tokens[..i];
      depth := depth + Turn(tokens[i]);
      if tokens[i] == Punctuation("=>") && depth == 0 {
        return Some(i);
      }
    }
    return None;
  }

  // ----- values

  function FirstName(tokens: seq<Token>): Option<string> {
    if tokens == [] then None else if tokens[0].NameToken? then Some(tokens[0].value) else FirstName(tokens[1..])
  }

  function DottedNames(tokens: seq<Token>): seq<string> {
    if |tokens| < 2 then []
    else
      var n := |tokens| - 1;
      DottedNames(tokens[..n]) + if tokens[n].NameToken? && tokens[n - 1] == Punctuation(".") then [tokens[n].value] else []
  }

  function NameValue(name: string): Value {
    if name == "true" then Flag(true)
    else if name == "false" then Flag(false)
    else if name == "null" then Null
    else if name == "undefined" then Undefined
    else Identifier(name)
  }

  predicate IsKey(token: Token) {
    token.NameToken? || token.StringToken? || token.NumberToken?
  }

  predicate Encloses(tokens: seq<Token>, opener: string) {
    tokens != [] && tokens[0] == Punctuation(opener) && ClosingFrom(tokens, 0, 0) == |tokens| - 1
  }

  function Inner(tokens: seq<Token>): (inner: seq<Token>)
    requires |tokens| >= 2
  {
    tokens[1..|tokens| - 1]
  }

  function TokenValue(tokens: seq<Token>): Value
    decreases |tokens|, 0
  {
    var arrow := ArrowFrom(tokens, 0);
    if arrow.Some? then Arrow(FirstName(tokens[arrow.value + 1..]), DottedNames(tokens[arrow.value + 1..]))
    else if |tokens| == 1 && tokens[0].StringToken? then Text(tokens[0].value)
    else if |tokens| == 1 && tokens[0].NumberToken? then Number(tokens[0].value, false)
    else if |tokens| == 1 && tokens[0].NameToken? then NameValue(tokens[0].value)
    else if |tokens| == 2 && tokens[0] == Punctuation("-") && tokens[1].NumberToken? then Number(tokens[1].value, true)
    else if |tokens| >= 2 && Encloses(tokens, "{") then
      Object(Entries(NonEmpty(Slices(Inner(tokens))), |tokens| - 1))
    else if |tokens| >= 2 && Encloses(tokens, "[") then
      List(Values(NonEmpty(Slices(Inner(tokens))), |tokens| - 1))
    else Other
  }

  function Values(slices: seq<seq<Token>>, limit: nat): (values: seq<Value>)
    requires forall s | s in slices :: |s| < limit
    decreases limit, |slices|
  {
    if slices == [] then [] else Values(slices[..|slices| - 1], limit) + [TokenValue(slices[|slices| - 1])]
  }

  // A later entry of the same key replaces an earlier one.
  function Entries(slices: seq<seq<Token>>, limit: nat): map<string, Value>
    requires forall s | s in slices :: |s| < limit
    decreases limit, |slices|
  {
    if slices == [] then map[]
    else
      var entry, before := slices[|slices| - 1], Entries(slices[..|slices| - 1], limit);
      if |entry| >= 2 && IsKey(entry[0]) && entry[1] == Punctuation(":") then before[entry[0].value := TokenValue(entry[2..])]
      else if |entry| == 1 && entry[0].NameToken? then before[entry[0].value := Identifier(entry[0].value)]
      else before
  }

  // ----- writing a literal

  datatype Key = NameKey(name: string) | QuotedKey(name: string) | NumberKey(name: string)

  datatype Property = Property(key: Key, value: Literal)

  // The arguments decorators take in practice. A name is not one of the four literals.
  datatype Literal =
    | TextLiteral(text: string)
    | NumberLiteral(digits: string, negative: bool)
    | WordLiteral(word: string)
    | ListLiteral(items: seq<Literal>)
    | ObjectLiteral(properties: seq<Property>)

  function KeyToken(key: Key): Token {
    match key
    case NameKey(name) => NameToken(name)
    case QuotedKey(name) => StringToken(name)
    case NumberKey(name) => NumberToken(name)
  }

  function Written(literal: Literal): seq<Token> {
    match literal
    case TextLiteral(text) => [StringToken(text)]
    case NumberLiteral(digits, negative) => (if negative then [Punctuation("-")] else []) + [NumberToken(digits)]
    case WordLiteral(word) => [NameToken(word)]
    case ListLiteral(items) => Bracketed("[", Joined(WrittenItems(items)), "]")
    case ObjectLiteral(properties) => Bracketed("{", Joined(WrittenProperties(properties)), "}")
  }

  function WrittenItems(items: seq<Literal>): (written: seq<seq<Token>>)
    ensures |written| == |items|
  {
    if items == [] then [] else WrittenItems(items[..|items| - 1]) + [Written(items[|items| - 1])]
  }

  function WrittenProperty(property: Property): seq<Token> {
    [KeyToken(property.key), Punctuation(":")] + Written(property.value)
  }

  function WrittenProperties(properties: seq<Property>): (written: seq<seq<Token>>)
    ensures |written| == |properties|
  {
    if properties == [] then [] else WrittenProperties(properties[..|properties| - 1]) + [WrittenProperty(properties[|properties| - 1])]
  }

  function Bracketed(open: string, inner: seq<Token>, close: string): seq<Token> {
    [Punctuation(open)] + inner + [Punctuation(close)]
  }

  // Every part with a comma behind it.
  function Listed(parts: seq<seq<Token>>): seq<Token> {
    if parts == [] then [] else Listed(parts[..|parts| - 1]) + parts[|parts| - 1] + [Punctuation(",")]
  }

  function Joined(parts: seq<seq<Token>>): seq<Token> {
    if parts == [] then [] else Listed(parts[..|parts| - 1]) + parts[|parts| - 1]
  }

  function Denoted(literal: Literal): Value {
    match literal
    case TextLiteral(text) => Text(text)
    case NumberLiteral(digits, negative) => Number(digits, negative)
    case WordLiteral(word) => NameValue(word)
    case ListLiteral(items) => List(DenotedItems(items))
    case ObjectLiteral(properties) => Object(DenotedProperties(properties))
  }

  function DenotedItems(items: seq<Literal>): seq<Value> {
    if items == [] then [] else DenotedItems(items[..|items| - 1]) + [Denoted(items[|items| - 1])]
  }

  function DenotedProperty(property: Property): Value {
    Denoted(property.value)
  }

  function DenotedProperties(properties: seq<Property>): map<string, Value> {
    if properties == [] then map[]
    else
      var last := properties[|properties| - 1];
      DenotedProperties(properties[..|properties| - 1])[last.key.name := DenotedProperty(last)]
  }

  // ----- nesting

  // No prefix closes more than it opened, and the whole closes all of it.
  ghost predicate Nested(tokens: seq<Token>) {
    Depth(tokens) == 0 && forall i | 0 <= i <= |tokens| :: Depth(tokens[..i]) >= 0
  }

  predicate Separates(token: Token) {
    token == Punctuation(",") || token == Punctuation("=>")
  }

  // Nested, and separators only inside brackets.
  ghost predicate Solid(tokens: seq<Token>) {
    Nested(tokens) && tokens != [] && forall i | 0 <= i < |tokens| && Separates(tokens[i]) :: Depth(tokens[..i]) > 0
  }

  lemma PrefixOfConcat(a: seq<Token>, b: seq<Token>, i: nat)
    requires i <= |a| + |b|
    ensures i <= |a| ==> (a + b)[..i] == a[..i]
    ensures i >= |a| ==> (a + b)[..i] == a + b[..i - |a|]
  {
  }

  lemma NestedConcat(a: seq<Token>, b: seq<Token>)
    requires Nested(a) && Nested(b)
    ensures Nested(a + b)
  {
    DepthConcat(a, b);
    forall i | 0 <= i <= |a + b| ensures Depth((a + b)[..i]) >= 0 {
      PrefixOfConcat(a, b, i);
      if i > |a| {
        DepthConcat(a, b[..i - |a|]);
      }
    }
  }

  lemma NestedSingle(token: Token)
    requires Turn(token) == 0
    ensures Nested([token]) && (!Separates(token) ==> Solid([token]))
  {
    assert [token][..0] == [];
    forall i | 0 <= i <= 1 ensures Depth([token][..i]) == 0 {
      assert i == 1 ==> [token][..i] == [token];
    }
  }

  lemma SolidConcat(a: seq<Token>, b: seq<Token>)
    requires Solid(a) && Solid(b)
    ensures Solid(a + b)
  {
    NestedConcat(a, b);
    forall i | 0 <= i < |a + b| && Separates((a + b)[i]) ensures Depth((a + b)[..i]) > 0 {
      PrefixOfConcat(a, b, i);
      if i >= |a| {
        DepthConcat(a, b[..i - |a|]);
      }
    }
  }

  // Depth inside a pair of brackets.
  lemma InsideBrackets(open: string, inner: seq<Token>, close: string, i: nat)
    requires open in OPENERS && i <= |inner|
    ensures Depth(Bracketed(open, inner, close)[..i + 1]) == 1 + Depth(inner[..i])
  {
    assert Bracketed(open, inner, close)[..i + 1] == [Punctuation(open)] + inner[..i];
    DepthConcat([Punctuation(open)], inner[..i]);
    assert [Punctuation(open)][..0] == [];
  }

  lemma BracketedIsNested(open: string, inner: seq<Token>, close: string)
    requires open in OPENERS && close in CLOSERS && Nested(inner)
    ensures Nested(Bracketed(open, inner, close))
  {
    var whole := Bracketed(open, inner, close);
    var n := |inner| + 1;
    InsideBrackets(open, inner, close, |inner|);
    assert inner[..|inner|] == inner && whole[..n + 1] == whole && whole[..n] == whole[..n + 1][..n];
    assert Depth(whole) == 0;
    forall i | 0 <= i <= |whole| ensures Depth(whole[..i]) >= 0 {
      if 0 < i <= n {
        InsideBrackets(open, inner, close, i - 1);
      }
    }
  }

  lemma BracketedIsSolid(open: string, inner: seq<Token>, close: string)
    requires open in OPENERS && close in CLOSERS && Nested(inner)
    ensures Solid(Bracketed(open, inner, close))
  {
    var whole := Bracketed(open, inner, close);
    BracketedIsNested(open, inner, close);
    forall i | 0 <= i < |whole| && Separates(whole[i]) ensures Depth(whole[..i]) > 0 {
      assert 0 < i < |inner| + 1;
      InsideBrackets(open, inner, close, i - 1);
    }
  }

  // Counting all brackets alike finds the bracket that closes a nested text.
  lemma {:induction false} ClosingOfBracketed(open: string, inner: seq<Token>, close: string, i: nat)
    requires open in OPENERS && close in CLOSERS && Nested(inner) && i <= |inner|
    ensures ClosingFrom(Bracketed(open, inner, close), i + 1, 1 + Depth(inner[..i])) == |inner| + 1
    decreases |inner| - i
  {
    var whole := Bracketed(open, inner, close);
    if i == |inner| {
      assert inner[..i] == inner && whole[i + 1] == Punctuation(close);
    } else {
      assert whole[i + 1] == inner[i] && inner[..i + 1][..i] == inner[..i];
      ClosingOfBracketed(open, inner, close, i + 1);
    }
  }

  lemma {:induction false} NoArrow(tokens: seq<Token>, i: nat)
    requires Solid(tokens) && i <= |tokens|
    ensures ArrowFrom(tokens, i) == None
    decreases |tokens| - i
  {
    if i < |tokens| {
      assert tokens[..i + 1][..i] == tokens[..i];
      NoArrow(tokens, i + 1);
    }
  }

  // ----- slices

  predicate IsComma(token: Token) {
    token == Punctuation(",")
  }

  lemma ExtendedTwice(slices: seq<seq<Token>>, a: seq<Token>, b: seq<Token>)
    requires slices != []
    ensures Extended(Extended(slices, a), b) == Extended(slices, a + b)
    ensures Extended(slices, []) == slices
  {
    var last := slices[|slices| - 1];
    assert (last + a) + b == last + (a + b) && last + [] == last;
  }

  lemma NoSplitInside(a: seq<Token>, b: seq<Token>, k: nat)
    requires Depth(a) == 0 && Solid(b) && k < |b|
    ensures a + b[..k + 1] == (a + b[..k]) + [b[k]] && !(IsComma(b[k]) && Depth(a + b[..k + 1]) == 0)
  {
    assert b[..k + 1] == b[..k] + [b[k]] && b[..k + 1][..k] == b[..k];
    DepthConcat(a, b[..k + 1]);
    assert Separates(b[k]) ==> Depth(b[..k]) > 0;
  }

  // Solid tokens go to the last slice as they are.
  lemma {:induction false} SolidExtends(a: seq<Token>, b: seq<Token>, k: nat)
    requires Depth(a) == 0 && Solid(b) && k <= |b|
    ensures Slices(a + b[..k]) == Extended(Slices(a), b[..k])
  {
    if k == 0 {
      assert a + b[..0] == a && b[..0] == [];
      ExtendedTwice(Slices(a), [], []);
    } else {
      var whole := a + b[..k];
      SolidExtends(a, b, k - 1);
      NoSplitInside(a, b, k - 1);
      assert whole[..|whole| - 1] == a + b[..k - 1];
      ExtendedTwice(Slices(a), b[..k - 1], [b[k - 1]]);
      assert b[..k] == b[..k - 1] + [b[k - 1]];
    }
  }

  lemma CommaSplits(a: seq<Token>)
    requires Depth(a) == 0
    ensures Slices(a + [Punctuation(",")]) == Slices(a) + [[]] && Depth(a + [Punctuation(",")]) == 0
  {
    var whole := a + [Punctuation(",")];
    assert whole[..|whole| - 1] == a;
  }

  ghost predicate AllSolid(parts: seq<seq<Token>>) {
    forall i | 0 <= i < |parts| :: Solid(parts[i])
  }

  lemma SolidFills(tokens: seq<Token>, part: seq<Token>)
    requires Depth(tokens) == 0 && Solid(part)
    ensures Slices(tokens + part) == Extended(Slices(tokens), part)
  {
    SolidExtends(tokens, part, |part|);
    assert part[..|part|] == part;
  }

  lemma ExtendedEmpty(parts: seq<seq<Token>>, part: seq<Token>)
    ensures Extended(parts + [[]], part) == parts + [part]
  {
    assert [] + part == part;
  }

  // Behind the last comma a slice begins: the next part fills it.
  lemma PartFillsSlice(tokens: seq<Token>, parts: seq<seq<Token>>, part: seq<Token>)
    requires Nested(tokens) && Slices(tokens) == parts + [[]] && Solid(part)
    ensures Nested(tokens + part) && Slices(tokens + part) == parts + [part]
  {
    NestedConcat(tokens, part);
    SolidFills(tokens, part);
    ExtendedEmpty(parts, part);
  }

  lemma CommaEndsPart(tokens: seq<Token>, parts: seq<seq<Token>>)
    requires Nested(tokens) && Slices(tokens) == parts
    ensures Nested(tokens + [Punctuation(",")]) && Slices(tokens + [Punctuation(",")]) == parts + [[]]
  {
    CommaSplits(tokens);
    NestedSingle(Punctuation(","));
    NestedConcat(tokens, [Punctuation(",")]);
  }

  lemma {:induction false} ListedSplits(parts: seq<seq<Token>>)
    requires AllSolid(parts)
    ensures Nested(Listed(parts)) && Slices(Listed(parts)) == parts + [[]]
  {
    if parts == [] {
      assert Listed(parts)[..0] == [];
    } else {
      var n := |parts| - 1;
      var before := Listed(parts[..n]);
      ListedSplits(parts[..n]);
      PartFillsSlice(before, parts[..n], parts[n]);
      LastPart(parts);
      CommaEndsPart(before + parts[n], parts);
    }
  }

  lemma LastPart(parts: seq<seq<Token>>)
    requires parts != []
    ensures parts[..|parts| - 1] + [parts[|parts| - 1]] == parts
  {
  }

  lemma JoinedSplits(parts: seq<seq<Token>>)
    requires AllSolid(parts) && parts != []
    ensures Nested(Joined(parts)) && Slices(Joined(parts)) == parts
  {
    var n := |parts| - 1;
    ListedSplits(parts[..n]);
    PartFillsSlice(Listed(parts[..n]), parts[..n], parts[n]);
    LastPart(parts);
  }

  lemma {:induction false} NoneIsEmpty(parts: seq<seq<Token>>)
    requires AllSolid(parts)
    ensures NonEmpty(parts) == parts
  {
    if parts != [] {
      NoneIsEmpty(parts[..|parts| - 1]);
      assert parts == parts[..|parts| - 1] + [parts[|parts| - 1]];
    }
  }

  // Slicing undoes joining with commas.
  lemma SlicesUndoJoin(parts: seq<seq<Token>>)
    requires AllSolid(parts)
    ensures NonEmpty(Slices(Joined(parts))) == parts && Nested(Joined(parts))
  {
    if parts == [] {
      assert Joined(parts)[..0] == [];
    } else {
      JoinedSplits(parts);
      NoneIsEmpty(parts);
    }
  }

  // ----- round trip

  lemma {:induction false} WrittenIsSolid(literal: Literal)
    ensures Solid(Written(literal))
  {
    match literal
    case TextLiteral(text) => NestedSingle(StringToken(text));
    case NumberLiteral(digits, negative) =>
      NestedSingle(NumberToken(digits));
      NestedSingle(Punctuation("-"));
      SolidConcat([Punctuation("-")], [NumberToken(digits)]);
      assert [] + [NumberToken(digits)] == [NumberToken(digits)];
    case WordLiteral(word) => NestedSingle(NameToken(word));
    case ListLiteral(items) =>
      ItemsAreSolid(items);
      SlicesUndoJoin(WrittenItems(items));
      BracketedIsSolid("[", Joined(WrittenItems(items)), "]");
    case ObjectLiteral(properties) =>
      PropertiesAreSolid(properties);
      SlicesUndoJoin(WrittenProperties(properties));
      BracketedIsSolid("{", Joined(WrittenProperties(properties)), "}");
  }

  lemma {:induction false} ItemsAreSolid(items: seq<Literal>)
    ensures AllSolid(WrittenItems(items))
  {
    if items != [] {
      ItemsAreSolid(items[..|items| - 1]);
      WrittenIsSolid(items[|items| - 1]);
    }
  }

  lemma {:induction false} PropertiesAreSolid(properties: seq<Property>)
    ensures AllSolid(WrittenProperties(properties))
  {
    if properties != [] {
      PropertiesAreSolid(properties[..|properties| - 1]);
      PropertyIsSolid(properties[|properties| - 1]);
    }
  }

  lemma {:induction false} PropertyIsSolid(property: Property)
    ensures Solid(WrittenProperty(property))
  {
    WrittenIsSolid(property.value);
    NestedSingle(KeyToken(property.key));
    NestedSingle(Punctuation(":"));
    SolidConcat([KeyToken(property.key)], [Punctuation(":")]);
    assert [KeyToken(property.key)] + [Punctuation(":")] == [KeyToken(property.key), Punctuation(":")];
    SolidConcat([KeyToken(property.key), Punctuation(":")], Written(property.value));
  }

  lemma BracketedIsEnclosed(open: string, inner: seq<Token>, close: string)
    requires open in OPENERS && close in CLOSERS && Nested(inner)
    ensures var whole := Bracketed(open, inner, close);
            Encloses(whole, open) && Inner(whole) == inner && ArrowFrom(whole, 0) == None
  {
    ClosingOfBracketed(open, inner, close, 0);
    assert inner[..0] == [];
    BracketedIsSolid(open, inner, close);
    NoArrow(Bracketed(open, inner, close), 0);
  }

  lemma EnclosedIsRead(tokens: seq<Token>)
    requires |tokens| >= 2 && ArrowFrom(tokens, 0) == None
    ensures Encloses(tokens, "[") ==> TokenValue(tokens) == List(Values(NonEmpty(Slices(Inner(tokens))), |tokens| - 1))
    ensures Encloses(tokens, "{") ==> TokenValue(tokens) == Object(Entries(NonEmpty(Slices(Inner(tokens))), |tokens| - 1))
  {
    assert "["[0] != "-"[0] && "["[0] != "{"[0] && "{"[0] != "-"[0];
  }

  lemma PartsAreShort(inner: seq<Token>, parts: seq<seq<Token>>)
    requires NonEmpty(Slices(inner)) == parts
    ensures forall s | s in parts :: |s| <= |inner|
  {
  }

  // A list of solid parts is read part by part.
  lemma ListIsRead(parts: seq<seq<Token>>)
    requires AllSolid(parts)
    ensures var whole := Bracketed("[", Joined(parts), "]");
            && (forall s | s in parts :: |s| < |whole| - 1)
            && TokenValue(whole) == List(Values(parts, |whole| - 1))
  {
    SlicesUndoJoin(parts);
    PartsAreShort(Joined(parts), parts);
    BracketedIsEnclosed("[", Joined(parts), "]");
    EnclosedIsRead(Bracketed("[", Joined(parts), "]"));
  }

  lemma ObjectIsRead(parts: seq<seq<Token>>)
    requires AllSolid(parts)
    ensures var whole := Bracketed("{", Joined(parts), "}");
            && (forall s | s in parts :: |s| < |whole| - 1)
            && TokenValue(whole) == Object(Entries(parts, |whole| - 1))
  {
    SlicesUndoJoin(parts);
    PartsAreShort(Joined(parts), parts);
    BracketedIsEnclosed("{", Joined(parts), "}");
    EnclosedIsRead(Bracketed("{", Joined(parts), "}"));
  }

  lemma OneTokenIsRead(token: Token)
    requires Turn(token) == 0 && !Separates(token)
    ensures token.StringToken? ==> TokenValue([token]) == Text(token.value)
    ensures token.NumberToken? ==> TokenValue([token]) == Number(token.value, false)
    ensures token.NameToken? ==> TokenValue([token]) == NameValue(token.value)
  {
    NestedSingle(token);
    NoArrow([token], 0);
  }

  lemma NegativeIsRead(digits: string)
    ensures TokenValue([Punctuation("-"), NumberToken(digits)]) == Number(digits, true)
  {
    NestedSingle(NumberToken(digits));
    NestedSingle(Punctuation("-"));
    SolidConcat([Punctuation("-")], [NumberToken(digits)]);
    assert [Punctuation("-")] + [NumberToken(digits)] == [Punctuation("-"), NumberToken(digits)];
    NoArrow([Punctuation("-"), NumberToken(digits)], 0);
  }

  lemma NumberIsRead(digits: string, negative: bool)
    ensures TokenValue(Written(NumberLiteral(digits, negative))) == Number(digits, negative)
  {
    NegativeIsRead(digits);
    OneTokenIsRead(NumberToken(digits));
    assert Written(NumberLiteral(digits, negative)) == if negative then [Punctuation("-"), NumberToken(digits)] else [NumberToken(digits)];
  }

  // The value read from a written literal is the value the literal denotes.
  lemma {:induction false} ValueOfWritten(literal: Literal)
    ensures TokenValue(Written(literal)) == Denoted(literal)
  {
    match literal
    case TextLiteral(text) => OneTokenIsRead(StringToken(text));
    case NumberLiteral(digits, negative) => NumberIsRead(digits, negative);
    case WordLiteral(word) => OneTokenIsRead(NameToken(word));
    case ListLiteral(items) => ListOfWritten(items);
    case ObjectLiteral(properties) => ObjectOfWritten(properties);
  }

  lemma {:induction false} ListOfWritten(items: seq<Literal>)
    ensures TokenValue(Written(ListLiteral(items))) == List(DenotedItems(items))
    decreases items, 1
  {
    ItemsAreSolid(items);
    ListIsRead(WrittenItems(items));
    ItemsAreRead(items, |Written(ListLiteral(items))| - 1);
  }

  lemma {:induction false} ObjectOfWritten(properties: seq<Property>)
    ensures TokenValue(Written(ObjectLiteral(properties))) == Object(DenotedProperties(properties))
    decreases properties, 1
  {
    PropertiesAreSolid(properties);
    BracketedEntries(WrittenProperties(properties), DenotedProperties(properties), properties);
  }

  lemma {:induction false} BracketedEntries(parts: seq<seq<Token>>, entries: map<string, Value>, properties: seq<Property>)
    requires AllSolid(parts) && parts == WrittenProperties(properties) && entries == DenotedProperties(properties)
    ensures TokenValue(Bracketed("{", Joined(parts), "}")) == Object(entries)
    decreases properties, 0, 1
  {
    ObjectIsRead(parts);
    PropertiesAreRead(properties, |Bracketed("{", Joined(parts), "}")| - 1);
  }

  lemma {:induction false} ItemsAreRead(items: seq<Literal>, limit: nat)
    requires forall s | s in WrittenItems(items) :: |s| < limit
    ensures Values(WrittenItems(items), limit) == DenotedItems(items)
    decreases items, 0
  {
    if items != [] {
      var n := |items| - 1;
      assert WrittenItems(items)[..n] == WrittenItems(items[..n]);
      ItemsAreRead(items[..n], limit);
      ValueOfWritten(items[n]);
    }
  }

  lemma {:induction false} PropertiesAreRead(properties: seq<Property>, limit: nat)
    requires forall s | s in WrittenProperties(properties) :: |s| < limit
    ensures Entries(WrittenProperties(properties), limit) == DenotedProperties(properties)
    decreases properties, 0, 0
  {
    if properties != [] {
      var n := |properties| - 1;
      assert WrittenProperties(properties)[..n] == WrittenProperties(properties[..n]);
      PropertiesAreRead(properties[..n], limit);
      PropertyIsRead(properties[n]);
    }
  }

  lemma {:induction false} PropertyIsRead(property: Property)
    ensures var entry := WrittenProperty(property);
            && |entry| >= 2 && IsKey(entry[0]) && entry[0].value == property.key.name && entry[1] == Punctuation(":")
            && TokenValue(entry[2..]) == Denoted(property.value)
    decreases property
  {
    assert WrittenProperty(property)[2..] == Written(property.value);
    ValueOfWritten(property.value);
  }
}
