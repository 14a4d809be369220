/**
  What an edit does to the tokens of an argument string: exactly when it changes one token and
  nothing else, and that the feature is then requested.
 */
module FeatureEdits {
  import opened Common
  import opened FeatureEditor

  // ---------------------------------------------------------------- tokens of composed strings

  lemma {:induction false} TokenLengthIs(l: Lex, t: string, rest: string)
    requires Whole(l, t)
    requires rest != [] ==> Space(rest[0]) && !ReadAll(l, t).quoted
    ensures TokenLength(l, t + rest) == |t|
    decreases |t|
  {
    if t == [] {
      assert t + rest == rest;
    } else {
      assert (t + rest)[1..] == t[1..] + rest;
      TokenLengthIs(Read(l, t[0]), t[1..], rest);
    }
  }

  predicate AllSpace(s: string) { forall i :: 0 <= i < |s| ==> Space(s[i]) }

  /** White space, a token and what follows it are what the tokenizer takes apart. */
  lemma NextOf(spaces: string, t: string, rest: string)
    requires AllSpace(spaces) && t != [] && !Space(t[0]) && Whole(L0, t)
    requires rest != [] ==> Space(rest[0]) && !ReadAll(L0, t).quoted
    ensures Next(spaces + t + rest) == Some(Piece(spaces, t, rest))
  {
    hide TokenLength, Spaces, Whole, ReadAll;
    var s := spaces + t + rest;
    SpacesAre(s, |spaces|);
    assert s[|spaces|..] == t + rest;
    TokenLengthIs(L0, t, rest);
    assert (t + rest)[..|t|] == t && (t + rest)[|t|..] == rest;
    assert s[..|spaces|] == spaces;
  }

  /** What the tokenizer takes apart has the shape above. */
  lemma NextShape(s: string)
    ensures Next(s).None? <==> AllSpace(s)
    ensures Next(s).Some? ==>
              var p := Next(s).value;
              && AllSpace(p.spaces) && p.text != [] && !Space(p.text[0]) && Whole(L0, p.text)
              && (p.rest != [] ==> Space(p.rest[0]) && !ReadAll(L0, p.text).quoted)
  {
    hide TokenLength, Whole, ReadAll;
    if Next(s).None? {
      assert Spaces(s) == |s|;
    } else {
      assert s[Spaces(s)..][0] == s[Spaces(s)];
    }
  }

  lemma TokensOf(spaces: string, t: string, rest: string)
    requires AllSpace(spaces) && t != [] && !Space(t[0]) && Whole(L0, t)
    requires rest != [] ==> Space(rest[0]) && !ReadAll(L0, t).quoted
    ensures Tokens(spaces + t + rest) == [TokenOf(t)] + Tokens(rest)
  {
    hide Next, Whole, ReadAll;
    NextOf(spaces, t, rest);
  }

  /** Only the last token of a string can be unterminated. */
  lemma {:induction false} OnlyLastIsOpen(s: string)
    ensures forall i :: 0 <= i < |Tokens(s)| - 1 ==> Tokens(s)[i].closed
    decreases |s|
  {
    hide Next, Whole, ReadAll;
    NextShape(s);
    if Next(s).Some? {
      var p := Next(s).value;
      OnlyLastIsOpen(p.rest);
      if p.rest == [] {
        NextShape([]);
        assert Tokens(p.rest) == [];
      }
    }
  }

  // ---------------------------------------------------------------- values on token lists

  function TokenValue(tok: Token, switch: SwitchName): Option<string> {
    var v := TokenSpan(tok.text, switch);
    if v.Some? then Some(tok.text[v.value.start..v.value.end]) else None
  }

  /** The value the last token with the switch carries. */
  function LastText(toks: seq<Token>, switch: SwitchName): Option<string> {
    if toks == [] then None
    else
      var rest := LastText(toks[1..], switch);
      if rest.Some? then rest else TokenValue(toks[0], switch)
  }

  /** What `last_value` finds is the value of the last token with the switch. */
  lemma {:induction false} SpanIsText(s: string, switch: SwitchName)
    ensures LastSpan(s, switch).Some? <==> LastText(Tokens(s), switch).Some?
    ensures LastSpan(s, switch).Some? ==>
              var v := LastSpan(s, switch).value;
              s[v.start..v.end] == LastText(Tokens(s), switch).value
    decreases |s|
  {
    hide Next, TokenSpan;
    var p := Next(s);
    if p.Some? {
      SpanIsText(p.value.rest, switch);
      assert Tokens(s)[1..] == Tokens(p.value.rest);
    }
  }

  /** Whether the feature is listed depends on the tokens alone. */
  lemma ContainsByTokens(s: string, switch: SwitchName)
    ensures Contains(s, switch) <==> LastText(Tokens(s), switch).Some? && Lists(LastText(Tokens(s), switch).value)
  {
    hide Lists, LastSpan, LastText, Tokens;
    SpanIsText(s, switch);
  }

  // ---------------------------------------------------------------- editing one token

  predicate PlainText(p: string) { p != [] && forall i :: 0 <= i < |p| ==> Plain(p[i]) }

  function EditToken(t: string, switch: SwitchName, text: string): string
    requires TokenSpan(t, switch).Some?
  {
    Insert(t, TokenSpan(t, switch).value.end, text)
  }

  /** No escaped quote directly after the place where the value ends. */
  predicate SafeToken(t: string, switch: SwitchName)
    requires TokenSpan(t, switch).Some?
  {
    var e := TokenSpan(t, switch).value.end;
    e == |t| || SlashesBefore(t, e) % 2 == 0
  }

  /** After the value of a token come at most two quotes. */
  lemma ValueTail(t: string, switch: SwitchName)
    requires TokenSpan(t, switch).Some?
    ensures var tail := t[TokenSpan(t, switch).value.end..]; tail == "" || tail == "\"" || tail == "\"\""
  {
    hide ReadAll, Whole;
    var v := TokenSpan(t, switch).value;
    var s := Inner(t);
    assert v.end == s.end || v.end == s.end - 1;
  }

  /** Editing a token keeps it complete exactly when the edit point is not before an escaped quote. */
  lemma EditClosedIff(t: string, switch: SwitchName, text: string)
    requires TokenSpan(t, switch).Some? && PlainText(text)
    ensures Whole(L0, EditToken(t, switch, text)) && EditToken(t, switch, text) != []
    ensures !ReadAll(L0, EditToken(t, switch, text)).quoted <==> SafeToken(t, switch)
  {
    hide Inner, ValueSpan, Whole, ReadAll, TokenSpan, SlashesBefore, Quotes;
    ValueTail(t, switch);
    SpanIsClosed(t, switch);
    var e := TokenSpan(t, switch).value.end;
    ReadsCharacters(t[..e]);
    SlashesOfPrefix(t, e, e);
    var head, tail := t[..e], t[e..];
    assert t == head + tail;
    ReadAllSplit(L0, head, tail);
    ReadAllSplit(L0, head + text, tail);
    ReadAllSplit(L0, head, text);
    WholeSplit(L0, head, tail);
    WholeSplit(L0, head + text, tail);
    WholeSplit(L0, head, text);
    var l := ReadAll(L0, head);
    ReadPlain(l, text);
    ReadQuotes(l);
    ReadQuotes(Lex(l.quoted, 0));
    QuotesAreWhole(Lex(l.quoted, 0));
  }

  lemma SpanIsClosed(t: string, switch: SwitchName)
    requires TokenSpan(t, switch).Some?
    ensures Whole(L0, t) && !ReadAll(L0, t).quoted && t != []
  {
  }

  lemma QuotesAreWhole(l: Lex)
    ensures Whole(l, "") && Whole(l, "\"") && Whole(l, "\"\"")
  {
    assert "\""[1..] == "";
    assert "\"\""[1..] == "\"";
  }

  lemma EditEnds(t: string, e: nat, text: string)
    requires e <= |t| && text != []
    ensures var t' := Insert(t, e, text);
            && |t'| == |t| + |text|
            && (forall i :: 0 <= i < e ==> t'[i] == t[i])
            && (forall i :: e <= i < |t| ==> t'[i + |text|] == t[i])
            && t'[e + |text| - 1] == text[|text| - 1]
  {
  }

  lemma EditInner(t: string, switch: SwitchName, text: string)
    requires TokenSpan(t, switch).Some? && PlainText(text) && Closed(EditToken(t, switch, text))
    ensures Inner(EditToken(t, switch, text)) == Span(Inner(t).start, Inner(t).end + |text|)
    ensures Matches(EditToken(t, switch, text), switch)
  {
    hide ReadAll, Whole, Lower, SameIgnoringCase;
    var e := TokenSpan(t, switch).value.end;
    var t' := EditToken(t, switch, text);
    EditEnds(t, e, text);
    assert Plain(text[|text| - 1]);
    var s := Inner(t);
    assert t'[s.start..s.start + |switch|] == t[s.start..s.start + |switch|];
  }

  lemma EditValueSpan(t: string, switch: SwitchName, text: string)
    requires TokenSpan(t, switch).Some? && PlainText(text) && Closed(EditToken(t, switch, text))
    ensures Matches(EditToken(t, switch, text), switch)
    ensures var v := ValueSpan(t, switch);
            ValueSpan(EditToken(t, switch, text), switch) == Span(v.start, v.end + |text|)
  {
    hide ReadAll, Whole, Lower, SameIgnoringCase;
    EditInner(t, switch, text);
    var e := TokenSpan(t, switch).value.end;
    EditEnds(t, e, text);
    assert Plain(text[|text| - 1]);
    var t' := EditToken(t, switch, text);
    var s := Inner(t);
    var a := s.start + |switch|;
    if s.end > a && Quoted(t, a, s.end) {
      assert e == s.end - 1 && Quoted(t', a, s.end + |text|);
    } else {
      assert e == s.end && !Quoted(t', a, s.end + |text|);
    }
  }

  /** After a safe edit the token carries the same switch and the longer value. */
  lemma EditValue(t: string, switch: SwitchName, text: string)
    requires TokenSpan(t, switch).Some? && PlainText(text) && SafeToken(t, switch)
    ensures var v := TokenSpan(t, switch).value;
            var t' := EditToken(t, switch, text);
            && TokenSpan(t', switch) == Some(Span(v.start, v.end + |text|))
            && t'[v.start..v.end + |text|] == t[v.start..v.end] + text
  {
    hide ReadAll, Whole, Inner, ValueSpan, Matches;
    EditClosedIff(t, switch, text);
    EditValueSpan(t, switch, text);
  }

  // ---------------------------------------------------------------- editing the string

  /** The token list with the last token that carries the switch edited, complete, and nothing else changed. */
  function EditedTokens(toks: seq<Token>, switch: SwitchName, text: string): seq<Token>
    requires LastText(toks, switch).Some?
  {
    if LastText(toks[1..], switch).Some? then [toks[0]] + EditedTokens(toks[1..], switch, text)
    else [Token(EditToken(toks[0].text, switch, text), true)] + toks[1..]
  }

  predicate SafeTokens(toks: seq<Token>, switch: SwitchName)
    requires LastText(toks, switch).Some?
  {
    if LastText(toks[1..], switch).Some? then SafeTokens(toks[1..], switch) else SafeToken(toks[0].text, switch)
  }

  lemma InsertInRest(front: string, rest: string, at: nat, text: string)
    requires at <= |rest|
    ensures Insert(front + rest, |front| + at, text) == front + Insert(rest, at, text)
  {
  }

  lemma InsertInToken(spaces: string, t: string, rest: string, at: nat, text: string)
    requires at <= |t|
    ensures Insert(spaces + t + rest, |spaces| + at, text) == spaces + Insert(t, at, text) + rest
  {
  }

  /** Inserting into the first token: the token list changes in its first place only, exactly when that is safe. */
  lemma FirstTokenEditIff(spaces: string, t: string, rest: string, switch: SwitchName, text: string)
    requires AllSpace(spaces) && TokenSpan(t, switch).Some? && !Space(t[0]) && PlainText(text)
    requires rest != [] ==> Space(rest[0])
    ensures var t' := EditToken(t, switch, text);
            Tokens(spaces + t' + rest) == [Token(t', true)] + Tokens(rest) <==> SafeToken(t, switch)
  {
    hide Next, ReadAll, Whole, TokenSpan, SafeToken;
    var t' := EditToken(t, switch, text);
    EditClosedIff(t, switch, text);
    assert t'[0] == t[0];
    if SafeToken(t, switch) {
      TokensOf(spaces, t', rest);
    } else {
      var s := spaces + t' + rest;
      if Next(s).Some? {
        assert Tokens(s)[0] == TokenOf(Next(s).value.text);
      }
    }
  }

  lemma SameTail(x: Token, a: seq<Token>, b: seq<Token>)
    ensures [x] + a == [x] + b <==> a == b
  {
    assert ([x] + a)[1..] == a && ([x] + b)[1..] == b;
  }

  /**
    Inserting at the end of the last value changes exactly one token, and leaves it complete,
    if and only if the edit point is not directly before an escaped quote.
   */
  lemma {:induction false} InsertKeepsTokensIff(s: string, switch: SwitchName, text: string)
    requires LastSpan(s, switch).Some? && PlainText(text)
    ensures LastText(Tokens(s), switch).Some?
    ensures Tokens(Insert(s, LastSpan(s, switch).value.end, text)) == EditedTokens(Tokens(s), switch, text)
       <==> SafeTokens(Tokens(s), switch)
    decreases |s|
  {
    hide Next, TokenSpan, ReadAll, Whole, SafeToken;
    SpanIsText(s, switch);
    var p := Next(s).value;
    NextShape(s);
    var toks := Tokens(s);
    assert toks[0] == TokenOf(p.text) && toks[1..] == Tokens(p.rest);
    SpanIsText(p.rest, switch);
    var later := LastSpan(p.rest, switch);
    if later.Some? {
      InsertKeepsTokensIff(p.rest, switch, text);
      var rest' := Insert(p.rest, later.value.end, text);
      InsertInRest(p.spaces + p.text, p.rest, later.value.end, text);
      assert p.rest != [] && rest'[0] == p.rest[0];
      TokensOf(p.spaces, p.text, rest');
      SameTail(TokenOf(p.text), Tokens(rest'), EditedTokens(Tokens(p.rest), switch, text));
    } else {
      FirstTokenEditIff(p.spaces, p.text, p.rest, switch, text);
      InsertInToken(p.spaces, p.text, p.rest, TokenSpan(p.text, switch).value.end, text);
    }
  }

  predicate AllClosed(toks: seq<Token>) { forall i :: 0 <= i < |toks| ==> toks[i].closed }

  lemma ClosedEndsSolid(t: string)
    requires t != [] && Whole(L0, t) && !ReadAll(L0, t).quoted
    ensures !Space(t[|t| - 1])
  {
    hide ReadAll, Whole;
    var init, c := t[..|t| - 1], t[|t| - 1];
    assert t == init + [c];
    ReadAllSplit(L0, init, [c]);
    WholeSplit(L0, init, [c]);
    OneMore(ReadAll(L0, init), c);
  }

  lemma OneMore(l: Lex, c: char)
    ensures ReadAll(l, [c]) == Read(l, c)
    ensures Whole(l, [c]) <==> !(Space(c) && !l.quoted)
  {
    assert [c][1..] == [];
  }

  /** Appending a separated plain token to complete tokens adds one token. */
  lemma {:induction false} AppendKeepsTokens(s: string, sep: string, text: string)
    requires AllClosed(Tokens(s)) && AllSpace(sep) && PlainText(text)
    requires sep == [] ==> s == [] || Space(s[|s| - 1])
    ensures Tokens(s + (sep + text)) == Tokens(s) + [Token(text, true)]
    decreases |s|
  {
    hide Next, ReadAll, Whole;
    NextShape(s);
    if Next(s).None? {
      ReadPlain(L0, text);
      assert s + (sep + text) == (s + sep) + text + "";
      NextShape("");
      TokensOf(s + sep, text, "");
    } else {
      var p := Next(s).value;
      assert Tokens(s)[0] == TokenOf(p.text) && Tokens(s)[1..] == Tokens(p.rest);
      var rest' := p.rest + (sep + text);
      if p.rest == [] {
        ClosedEndsSolid(p.text);
        assert s[|s| - 1] == p.text[|p.text| - 1];
      } else {
        assert s[|s| - 1] == p.rest[|p.rest| - 1];
      }
      AppendKeepsTokens(p.rest, sep, text);
      assert s + (sep + text) == p.spaces + p.text + rest';
      TokensOf(p.spaces, p.text, rest');
    }
  }

  /** Appending adds one token exactly when no token is unterminated. */
  lemma AppendKeepsTokensIff(s: string, sep: string, text: string)
    requires AllSpace(sep) && PlainText(text)
    requires sep == [] ==> s == [] || Space(s[|s| - 1])
    ensures Tokens(s + (sep + text)) == Tokens(s) + [Token(text, true)] <==> AllClosed(Tokens(s))
  {
    hide Tokens;
    if AllClosed(Tokens(s)) {
      AppendKeepsTokens(s, sep, text);
    } else {
      var i :| 0 <= i < |Tokens(s)| && !Tokens(s)[i].closed;
      OnlyLastIsOpen(s + (sep + text));
      assert (Tokens(s) + [Token(text, true)])[i] == Tokens(s)[i];
    }
  }

  // ---------------------------------------------------------------- add_feature

  /** The tokens a careful edit would leave. */
  function Expected(args: string, switch: SwitchName): seq<Token> {
    var value := LastText(Tokens(args), switch);
    if Contains(args, switch) then Tokens(args)
    else if value.Some? then EditedTokens(Tokens(args), switch, Addition(value.value))
    else Tokens(args) + [Token(switch + FEATURE, true)]
  }

  /** What a caller can look at before the edit. */
  predicate SafeEdit(args: string, switch: SwitchName) {
    var toks := Tokens(args);
    || Contains(args, switch)
    || (LastText(toks, switch).Some? && SafeTokens(toks, switch))
    || (LastText(toks, switch).None? && AllClosed(toks))
  }

  lemma FeatureIsPlain()
    ensures PlainText(FEATURE) && PlainText("," + FEATURE)
  {
  }

  lemma SwitchAndFeatureArePlain(switch: SwitchName)
    ensures PlainText(switch + FEATURE)
  {
    FeatureIsPlain();
  }

  /**
    `add_feature` changes exactly one token, or adds exactly one, and leaves it complete, if and
    only if the edit is safe. This holds for every argument string.
   */
  lemma EditIsExactIff(args: string, switch: SwitchName)
    ensures Tokens(AddFeature(args, switch)) == Expected(args, switch) <==> SafeEdit(args, switch)
  {
    hide Tokens, LastText, LastSpan, EditedTokens, SafeTokens, Lists, Trim;
    SpanIsText(args, switch);
    FeatureIsPlain();
    var v := LastSpan(args, switch);
    if !Contains(args, switch) {
      if v.Some? {
        InsertKeepsTokensIff(args, switch, Addition(args[v.value.start..v.value.end]));
      } else {
        SwitchAndFeatureArePlain(switch);
        assert args + Separator(args) + switch + FEATURE == args + (Separator(args) + (switch + FEATURE));
        AppendKeepsTokensIff(args, Separator(args), switch + FEATURE);
      }
    }
  }

  // ---------------------------------------------------------------- what the edit achieves

  lemma {:induction false} TrimmedEmptyIsWhite(s: string)
    requires Trim(s) == []
    ensures forall i :: 0 <= i < |s| ==> White(s[i])
    decreases |s|
  {
    if s != [] {
      if White(s[0]) {
        assert Trim(s) == Trim(s[1..]);
        TrimmedEmptyIsWhite(s[1..]);
      } else {
        TrimEndKeepsFront(s);
        assert false;
      }
    }
  }

  lemma {:induction false} TrimEndKeepsFront(s: string)
    requires s != [] && !White(s[0])
    ensures TrimEnd(s) != []
  {
    if White(s[|s| - 1]) {
      TrimEndKeepsFront(s[..|s| - 1]);
    }
  }

  lemma {:induction false} TrimWhiteFront(white: string, text: string)
    requires forall i :: 0 <= i < |white| ==> White(white[i])
    requires text != [] && !White(text[0]) && !White(text[|text| - 1])
    ensures Trim(white + text) == text
  {
    if white == [] {
      assert white + text == text;
    } else {
      assert (white + text)[1..] == white[1..] + text;
      TrimWhiteFront(white[1..], text);
    }
  }

  lemma NoCommaIsOnePiece(s: string)
    requires forall i :: 0 <= i < |s| ==> s[i] != ','
    ensures FirstComma(s) == |s|
  {
  }

  /** One piece without commas is listed when it is the feature after trimming. */
  lemma OnePieceListed(s: string)
    requires Trim(s) == FEATURE && forall i :: 0 <= i < |s| ==> s[i] != ','
    ensures Lists(s)
  {
    hide Trim;
    NoCommaIsOnePiece(s);
    assert s[..|s|] == s;
  }

  lemma FeatureIsListed()
    ensures Lists(FEATURE)
    ensures Trim(FEATURE) == FEATURE
  {
    hide Lists;
    TrimWhiteFront("", FEATURE);
    assert "" + FEATURE == FEATURE;
    OnePieceListed(FEATURE);
  }

  lemma ListedBehindComma(s: string)
    requires FirstComma(s) < |s| && Lists(s[FirstComma(s) + 1..])
    ensures Lists(s)
  {
    hide IsFeature, FirstComma;
  }

  lemma {:induction false} AppendedPieceIsListed(value: string, piece: string)
    requires Lists(piece)
    ensures Lists(value + ("," + piece))
    decreases |value|
  {
    hide Trim, Lists;
    var s := value + ("," + piece);
    var n := FirstComma(s);
    assert s[|value|] == ',';
    if n == |value| {
      assert s[n + 1..] == piece;
    } else {
      AppendedPieceIsListed(value[n + 1..], piece);
      assert s[n + 1..] == value[n + 1..] + ("," + piece);
    }
    ListedBehindComma(s);
  }

  lemma WhiteThenFeatureIsListed(value: string)
    requires Trim(value) == []
    ensures Lists(value + FEATURE)
  {
    hide Lists;
    TrimmedEmptyIsWhite(value);
    TrimWhiteFront(value, FEATURE);
    hide Trim;
    OnePieceListed(value + FEATURE);
  }

  /** The value after an edit lists the feature. */
  lemma AdditionIsListed(value: string)
    ensures Lists(value + Addition(value))
  {
    hide Trim, Lists;
    FeatureIsListed();
    if Trim(value) == [] {
      WhiteThenFeatureIsListed(value);
      assert "" + FEATURE == FEATURE;
    } else {
      AppendedPieceIsListed(value, FEATURE);
    }
  }

  lemma {:induction false} EditedText(toks: seq<Token>, switch: SwitchName, text: string)
    requires LastText(toks, switch).Some? && SafeTokens(toks, switch) && PlainText(text)
    ensures LastText(EditedTokens(toks, switch, text), switch) == Some(LastText(toks, switch).value + text)
  {
    hide TokenSpan, SafeToken;
    var rest := toks[1..];
    var edited := EditedTokens(toks, switch, text);
    if LastText(rest, switch).Some? {
      EditedText(rest, switch, text);
      assert edited[1..] == EditedTokens(rest, switch, text);
    } else {
      EditValue(toks[0].text, switch, text);
      assert edited[1..] == rest;
    }
  }

  /** Two switches no token can carry at once. */
  predicate Apart(a: SwitchName, b: SwitchName) {
    exists i :: 0 <= i < |a| && i < |b| && Lower(a[i]) != Lower(b[i])
  }

  lemma PrefixesDiffer(t: string, n: nat, a: SwitchName, b: SwitchName)
    requires Apart(a, b) && n + |a| <= |t| && n + |b| <= |t|
    ensures !(SameIgnoringCase(t[n..n + |a|], a) && SameIgnoringCase(t[n..n + |b|], b))
  {
    var i :| 0 <= i < |a| && i < |b| && Lower(a[i]) != Lower(b[i]);
    assert t[n..n + |a|][i] == t[n + i] == t[n..n + |b|][i];
  }

  lemma OneSwitchPerToken(t: string, a: SwitchName, b: SwitchName)
    requires Apart(a, b) && TokenSpan(t, a).Some?
    ensures TokenSpan(t, b).None?
  {
    hide ReadAll, Whole, Lower, ValueSpan;
    var s := Inner(t);
    if s.end - s.start >= |b| {
      PrefixesDiffer(t, s.start, a, b);
    }
  }

  lemma {:induction false} EditedOther(toks: seq<Token>, switch: SwitchName, text: string, other: SwitchName)
    requires LastText(toks, switch).Some? && SafeTokens(toks, switch) && PlainText(text) && Apart(switch, other)
    ensures LastText(EditedTokens(toks, switch, text), other) == LastText(toks, other)
  {
    hide TokenSpan, SafeToken;
    var rest := toks[1..];
    var edited := EditedTokens(toks, switch, text);
    if LastText(rest, switch).Some? {
      EditedOther(rest, switch, text, other);
      assert edited[1..] == EditedTokens(rest, switch, text);
    } else {
      EditValue(toks[0].text, switch, text);
      OneSwitchPerToken(toks[0].text, switch, other);
      OneSwitchPerToken(edited[0].text, switch, other);
      assert edited[1..] == rest;
    }
  }

  lemma {:induction false} LastTextSnoc(toks: seq<Token>, tok: Token, switch: SwitchName)
    ensures LastText(toks + [tok], switch)
         == if TokenValue(tok, switch).Some? then TokenValue(tok, switch) else LastText(toks, switch)
  {
    hide TokenValue;
    if toks == [] {
      assert toks + [tok] == [tok] && [tok][1..] == [];
      assert LastText([tok][1..], switch) == None;
    } else {
      assert (toks + [tok])[1..] == toks[1..] + [tok];
      LastTextSnoc(toks[1..], tok, switch);
    }
  }

  /** The appended token carries the switch with the feature as its value. */
  lemma NewTokenValue(switch: SwitchName)
    ensures TokenValue(Token(switch + FEATURE, true), switch) == Some(FEATURE)
  {
    hide ReadAll, Whole;
    var t := switch + FEATURE;
    SwitchAndFeatureArePlain(switch);
    ReadPlain(L0, t);
    assert Plain(t[0]);
    assert Inner(t) == Span(0, |t|);
    assert t[0..|switch|] == switch;
    assert Plain(FEATURE[0]) && t[|switch|] == FEATURE[0];
    assert ValueSpan(t, switch) == Span(|switch|, |t|);
    assert t[|switch|..|t|] == FEATURE;
  }

  /** A safe edit makes the feature listed, and leaves every other switch with the value it had. */
  lemma SafeEditWorks(args: string, switch: SwitchName, other: SwitchName)
    requires SafeEdit(args, switch) && Apart(switch, other)
    ensures Contains(AddFeature(args, switch), switch)
    ensures LastText(Tokens(AddFeature(args, switch)), other) == LastText(Tokens(args), other)
    ensures Contains(AddFeature(args, switch), other) == Contains(args, other)
  {
    hide Tokens, LastText, LastSpan, EditedTokens, SafeTokens, Lists, TokenValue, AddFeature, Addition;
    var edited := AddFeature(args, switch);
    EditIsExactIff(args, switch);
    ContainsByTokens(edited, switch);
    ContainsByTokens(edited, other);
    ContainsByTokens(args, other);
    var value := LastText(Tokens(args), switch);
    if Contains(args, switch) {
      ContainsByTokens(args, switch);
    } else if value.Some? {
      var text := Addition(value.value);
      AdditionIsPlain(value.value);
      EditedText(Tokens(args), switch, text);
      EditedOther(Tokens(args), switch, text, other);
      AdditionIsListed(value.value);
    } else {
      var tok := Token(switch + FEATURE, true);
      NewTokenValue(switch);
      LastTextSnoc(Tokens(args), tok, switch);
      LastTextSnoc(Tokens(args), tok, other);
      NewTokenOther(switch, other);
      FeatureIsListed();
    }
  }

  lemma AdditionIsPlain(value: string)
    ensures PlainText(Addition(value))
  {
    FeatureIsPlain();
  }

  lemma NewTokenOther(switch: SwitchName, other: SwitchName)
    requires Apart(switch, other)
    ensures TokenValue(Token(switch + FEATURE, true), other) == None
  {
    hide TokenSpan;
    NewTokenValue(switch);
    OneSwitchPerToken(switch + FEATURE, switch, other);
  }

  // ---------------------------------------------------------------- configure

  lemma SwitchesAreApart()
    ensures Apart(ENABLE, DISABLE) && Apart(DISABLE, ENABLE)
  {
    assert Lower(ENABLE[2]) != Lower(DISABLE[2]);
  }

  /** What the caller needs for the Win7 build. */
  predicate SafeToConfigure(args: string, disabled: bool) {
    if disabled then SafeEdit(args, DISABLE) else Contains(args, DISABLE) || SafeEdit(args, ENABLE)
  }

  /**
    After `configure` on the Win7 build the feature is requested exactly when it is neither
    disabled by the caller nor by the arguments, and configuring again changes nothing.
   */
  lemma ConfigureDecides(args: string, disabled: bool)
    requires SafeToConfigure(args, disabled)
    ensures var r := Configure(args, true, disabled);
            && (Requested(r) <==> !disabled && !Contains(args, DISABLE))
            && Configure(r, true, disabled) == r
  {
    hide Contains, SafeEdit;
    SwitchesAreApart();
    if disabled {
      SafeEditWorks(args, DISABLE, ENABLE);
    } else if !Contains(args, DISABLE) {
      SafeEditWorks(args, ENABLE, DISABLE);
    }
  }

  /** The result is the original with text inserted at one place. */
  ghost predicate OneInsertion(args: string, result: string) {
    exists at, text :: 0 <= at <= |args| && result == Insert(args, at, text)
  }

  lemma InsertionIs(args: string, at: nat, text: string)
    requires at <= |args|
    ensures OneInsertion(args, Insert(args, at, text))
  {
  }

  lemma NoInsertionIs(args: string)
    ensures OneInsertion(args, args)
  {
    InsertionIs(args, 0, "");
    assert args == Insert(args, 0, "");
  }

  lemma AddIsOneInsertion(args: string, switch: SwitchName)
    ensures OneInsertion(args, AddFeature(args, switch))
  {
    hide LastSpan, Contains, OneInsertion, Addition, Separator;
    var v := LastSpan(args, switch);
    NoInsertionIs(args);
    if v.Some? {
      InsertionIs(args, v.value.end, Addition(args[v.value.start..v.value.end]));
    } else {
      var text := Separator(args) + switch + FEATURE;
      InsertionIs(args, |args|, text);
      assert args + Separator(args) + switch + FEATURE == Insert(args, |args|, text);
    }
  }

  /** `configure` inserts text at one place at most, and does nothing outside the Win7 build. */
  lemma ConfigureIsOneInsertion(args: string, win7Build: bool, disabled: bool)
    ensures OneInsertion(args, Configure(args, win7Build, disabled))
    ensures !win7Build ==> Configure(args, win7Build, disabled) == args
  {
    hide Contains, OneInsertion, AddFeature;
    NoInsertionIs(args);
    AddIsOneInsertion(args, ENABLE);
    AddIsOneInsertion(args, DISABLE);
  }

  // ---------------------------------------------------------------- which strings are safe

  /** No backslash directly before a quote. */
  predicate NoEscapedQuote(s: string) {
    forall i :: 0 <= i < |s| - 1 ==> !(s[i] == '\\' && s[i + 1] == '\"')
  }

  lemma CleanTokenIsSafe(t: string, switch: SwitchName)
    requires TokenSpan(t, switch).Some? && NoEscapedQuote(t)
    ensures SafeToken(t, switch)
  {
    hide Inner, ValueSpan, Whole, ReadAll, TokenSpan;
    ValueTail(t, switch);
    var e := TokenSpan(t, switch).value.end;
    if e < |t| {
      assert t[e..][0] == t[e];
    }
  }

  lemma {:induction false} CleanTokensAreSafe(s: string, switch: SwitchName)
    requires NoEscapedQuote(s) && LastText(Tokens(s), switch).Some?
    ensures SafeTokens(Tokens(s), switch)
    decreases |s|
  {
    hide Next, TokenSpan, SafeToken;
    var p := Next(s).value;
    assert Tokens(s)[1..] == Tokens(p.rest);
    PartsAreClean(p.spaces, p.text, p.rest);
    if LastText(Tokens(p.rest), switch).Some? {
      CleanTokensAreSafe(p.rest, switch);
    } else {
      CleanTokenIsSafe(p.text, switch);
    }
  }

  lemma PartsAreClean(a: string, t: string, b: string)
    requires NoEscapedQuote(a + t + b)
    ensures NoEscapedQuote(t) && NoEscapedQuote(b)
  {
    var s := a + t + b;
    forall i | 0 <= i < |t| - 1 ensures !(t[i] == '\\' && t[i + 1] == '\"') {
      assert s[|a| + i] == t[i] && s[|a| + i + 1] == t[i + 1];
    }
    forall i | 0 <= i < |b| - 1 ensures !(b[i] == '\\' && b[i + 1] == '\"') {
      assert s[|a| + |t| + i] == b[i] && s[|a| + |t| + i + 1] == b[i + 1];
    }
  }

  /** Every string with closed quotes and no backslash before a quote can be configured safely. */
  lemma CleanIsSafe(args: string, disabled: bool)
    requires AllClosed(Tokens(args)) && NoEscapedQuote(args)
    ensures SafeToConfigure(args, disabled)
  {
    hide Tokens, LastText, SafeTokens, Contains;
    if LastText(Tokens(args), ENABLE).Some? {
      CleanTokensAreSafe(args, ENABLE);
    }
    if LastText(Tokens(args), DISABLE).Some? {
      CleanTokensAreSafe(args, DISABLE);
    }
  }
}
