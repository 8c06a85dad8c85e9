/** figura/scripts/erd-source-typeorm.mjs: what tokenValue makes of words, arrows, shorthand
    entries and lists with a comma at the end. */
module TypeormValues {
  import opened Optional
  import opened TypeormEntities
  import opened TypeormTokens

  // The four literals, and any other name.
  lemma WordsMean(name: string)
    ensures TokenValue([NameToken("true")]) == Flag(true) && TokenValue([NameToken("false")]) == Flag(false)
    ensures TokenValue([NameToken("null")]) == Null && TokenValue([NameToken("undefined")]) == Undefined
    ensures name != "true" && name != "false" && name != "null" && name != "undefined" ==> TokenValue([NameToken(name)]) == Identifier(name)
  {
    OneTokenIsRead(NameToken("true"));
    OneTokenIsRead(NameToken("false"));
    OneTokenIsRead(NameToken("null"));
    OneTokenIsRead(NameToken("undefined"));
    OneTokenIsRead(NameToken(name));
    assert "true"[0] != "false"[0] && "true"[0] != "null"[0] && "true"[0] != "undefined"[0];
    assert "false"[0] != "null"[0] && "false"[0] != "undefined"[0] && "null"[0] != "undefined"[0];
  }

  // ----- arrows

  const ARROW := Punctuation("=>")

  // Nested, and arrows only inside brackets.
  ghost predicate NoOuterArrow(tokens: seq<Token>) {
    Nested(tokens) && forall i | 0 <= i < |tokens| && tokens[i] == ARROW :: Depth(tokens[..i]) > 0
  }

  lemma DepthOfNext(tokens: seq<Token>, i: nat)
    requires i < |tokens| && Turn(tokens[i]) == 0
    ensures Depth(tokens[..i + 1]) == Depth(tokens[..i])
  {
    assert tokens[..i + 1][..i] == tokens[..i];
  }

  lemma {:induction false} ArrowIsFound(head: seq<Token>, body: seq<Token>, i: nat)
    requires NoOuterArrow(head) && i <= |head|
    ensures ArrowFrom(head + [ARROW] + body, i) == Some(|head|)
    decreases |head| - i
  {
    var whole := head + [ARROW] + body;
    assert whole[..i] == head[..i];
    assert whole[|head|] == ARROW && head[..|head|] == head;
    if whole[i] == ARROW { DepthOfNext(whole, i); }
    if i < |head| {
      assert whole[i] == head[i];
      ArrowIsFound(head, body, i + 1);
    }
  }

  // The first name of the body.
  ghost predicate IsFirstName(body: seq<Token>, first: Option<string>) {
    match first
    case None => forall i | 0 <= i < |body| :: !body[i].NameToken?
    case Some(name) => exists i :: 0 <= i < |body| && body[i] == NameToken(name) && forall k | 0 <= k < i :: !body[k].NameToken?
  }

  lemma {:induction false} FirstNameIs(body: seq<Token>)
    ensures IsFirstName(body, FirstName(body))
  {
    if body != [] && !body[0].NameToken? {
      var rest := body[1..];
      FirstNameIs(rest);
      assert forall k | 0 < k < |body| :: body[k] == rest[k - 1];
      var first := FirstName(rest);
      if first.Some? {
        var i :| 0 <= i < |rest| && rest[i] == NameToken(first.value) && forall k | 0 <= k < i :: !rest[k].NameToken?;
        assert body[i + 1] == NameToken(first.value);
      }
    }
  }

  predicate IsDotted(body: seq<Token>, p: nat) {
    0 < p < |body| && body[p].NameToken? && body[p - 1] == Punctuation(".")
  }

  // The names behind a dot, in their order.
  ghost predicate AreDotted(body: seq<Token>, fields: seq<string>, places: seq<nat>) {
    && |places| == |fields| && (forall k, l | 0 <= k < l < |places| :: places[k] < places[l])
    && (forall k | 0 <= k < |places| :: IsDotted(body, places[k]) && fields[k] == body[places[k]].value)
    && (forall p: nat | IsDotted(body, p) :: p in places)
  }

  lemma DottedInFront(body: seq<Token>, p: nat)
    requires body != [] && p < |body| - 1
    ensures IsDotted(body, p) <==> IsDotted(body[..|body| - 1], p)
  {
  }

  lemma OneMoreDotted(body: seq<Token>, fields: seq<string>, places: seq<nat>)
    requires body != [] && AreDotted(body[..|body| - 1], fields, places)
    ensures var n := |body| - 1;
            if IsDotted(body, n) then AreDotted(body, fields + [body[n].value], places + [n]) else AreDotted(body, fields, places)
  {
    var n := |body| - 1;
    forall p: nat | p < n ensures IsDotted(body, p) <==> IsDotted(body[..n], p) {
      DottedInFront(body, p);
    }
    assert forall k | 0 <= k < |places| :: IsDotted(body[..n], places[k]) && body[..n][places[k]] == body[places[k]];
  }

  lemma {:induction false} DottedNamesAre(body: seq<Token>) returns (places: seq<nat>)
    ensures AreDotted(body, DottedNames(body), places)
  {
    places := [];
    if |body| >= 2 {
      var n := |body| - 1;
      places := DottedNamesAre(body[..n]);
      OneMoreDotted(body, DottedNames(body[..n]), places);
      if IsDotted(body, n) {
        places := places + [n];
      } else {
        assert DottedNames(body) == DottedNames(body[..n]);
      }
    }
  }

  // An arrow function is read as the first name of its body and the names behind dots, from
  // the first arrow that stands outside of all brackets.
  lemma ArrowMeans(head: seq<Token>, body: seq<Token>) returns (places: seq<nat>)
    requires NoOuterArrow(head)
    ensures var value := TokenValue(head + [ARROW] + body);
            value.Arrow? && IsFirstName(body, value.first) && AreDotted(body, value.fields, places)
  {
    ArrowIsFound(head, body, 0);
    assert (head + [ARROW] + body)[|head| + 1..] == body;
    FirstNameIs(body);
    places := DottedNamesAre(body);
  }

  // ----- commas at the end, and shorthand entries

  lemma TrailingSlice(parts: seq<seq<Token>>)
    requires AllSolid(parts)
    ensures NonEmpty(Slices(Listed(parts))) == parts && Nested(Listed(parts))
  {
    ListedSplits(parts);
    NoneIsEmpty(parts);
    assert (parts + [[]])[..|parts|] == parts;
  }

  lemma {:induction false} ValuesIgnoreLimit(slices: seq<seq<Token>>, a: nat, b: nat)
    requires forall s | s in slices :: |s| < a && |s| < b
    ensures Values(slices, a) == Values(slices, b)
  {
    if slices != [] {
      ValuesIgnoreLimit(slices[..|slices| - 1], a, b);
    }
  }

  lemma {:induction false} EntriesIgnoreLimit(slices: seq<seq<Token>>, a: nat, b: nat)
    requires forall s | s in slices :: |s| < a && |s| < b
    ensures Entries(slices, a) == Entries(slices, b)
  {
    if slices != [] {
      EntriesIgnoreLimit(slices[..|slices| - 1], a, b);
    }
  }

  // A comma behind the last item changes nothing.
  lemma TrailingCommaIsIgnored(parts: seq<seq<Token>>)
    requires AllSolid(parts)
    ensures TokenValue(Bracketed("[", Listed(parts), "]")) == TokenValue(Bracketed("[", Joined(parts), "]"))
    ensures TokenValue(Bracketed("{", Listed(parts), "}")) == TokenValue(Bracketed("{", Joined(parts), "}"))
  {
    ListIsRead(parts);
    ObjectIsRead(parts);
    ListedIsRead(parts, "[", "]");
    ListedIsRead(parts, "{", "}");
    var inner := |Bracketed("[", Joined(parts), "]")| - 1;
    ValuesIgnoreLimit(parts, |Bracketed("[", Listed(parts), "]")| - 1, inner);
    EntriesIgnoreLimit(parts, |Bracketed("{", Listed(parts), "}")| - 1, inner);
  }

  lemma ListedIsRead(parts: seq<seq<Token>>, open: string, close: string)
    requires AllSolid(parts) && ((open == "[" && close == "]") || (open == "{" && close == "}"))
    ensures var whole := Bracketed(open, Listed(parts), close);
            && (forall s | s in parts :: |s| < |whole| - 1)
            && (open == "[" ==> TokenValue(whole) == List(Values(parts, |whole| - 1)))
            && (open == "{" ==> TokenValue(whole) == Object(Entries(parts, |whole| - 1)))
  {
    TrailingSlice(parts);
    PartsAreShort(Listed(parts), parts);
    BracketedIsEnclosed(open, Listed(parts), close);
    EnclosedIsRead(Bracketed(open, Listed(parts), close));
  }

  // `{ name }` is read as the name of a value elsewhere.
  lemma ShorthandIsRead(name: string)
    ensures TokenValue(Bracketed("{", [NameToken(name)], "}")) == Object(map[name := Identifier(name)])
  {
    var parts := [[NameToken(name)]];
    NestedSingle(NameToken(name));
    assert AllSolid(parts);
    assert parts[..0] == [] && Joined(parts) == [NameToken(name)];
    ObjectIsRead(parts);
    assert Entries(parts[..0], |Bracketed("{", Joined(parts), "}")| - 1) == map[];
  }
}
