/**
  Whether the feature is requested after the edit, for every argument string: quotes that are left open
  or escaped can swallow the edit.
 */
module FeatureRequests {
  import opened Common
  import opened FeatureEditor
  import opened FeatureEdits

  predicate ListedIn(toks: seq<Token>, switch: SwitchName) {
    LastText(toks, switch).Some? && Lists(LastText(toks, switch).value)
  }

  // ---------------------------------------------------------------- appending to an open token

  predicate NoQuote(s: string) { forall i :: 0 <= i < |s| ==> s[i] != '\"' }

  lemma {:induction false} ReadInQuotes(l: Lex, t: string)
    requires l.quoted && NoQuote(t)
    ensures ReadAll(l, t).quoted && Whole(l, t)
    decreases |t|
  {
    if t != [] {
      ReadInQuotes(Read(l, t[0]), t[1..]);
    }
  }

  /** Text without quotes makes an open token longer and leaves it open. */
  lemma OpenGrows(t: string, text: string)
    requires Whole(L0, t) && ReadAll(L0, t).quoted && NoQuote(text)
    ensures Whole(L0, t + text) && ReadAll(L0, t + text).quoted
  {
    hide ReadAll, Whole;
    ReadAllSplit(L0, t, text);
    WholeSplit(L0, t, text);
    ReadInQuotes(ReadAll(L0, t), text);
  }

  lemma OpenHasNoValue(t: string, switch: SwitchName)
    requires ReadAll(L0, t).quoted
    ensures LastText([TokenOf(t)], switch) == None
  {
    hide ReadAll, Whole;
    OpenTokenHasNoValue(t, switch);
    assert [TokenOf(t)][1..] == [];
    assert LastText([], switch) == None;
  }

  lemma LastTextHead(tok: Token, rest: seq<Token>, switch: SwitchName)
    ensures LastText([tok] + rest, switch)
         == if LastText(rest, switch).Some? then LastText(rest, switch) else TokenValue(tok, switch)
  {
    assert ([tok] + rest)[1..] == rest;
  }

  /** Text without quotes behind an unterminated quote is swallowed: no token with a value appears or changes. */
  lemma {:induction false} OpenSwallows(s: string, text: string, switch: SwitchName)
    requires !AllClosed(Tokens(s)) && NoQuote(text)
    ensures LastText(Tokens(s + text), switch) == LastText(Tokens(s), switch)
    decreases |s|
  {
    hide Next, ReadAll, Whole, LastText, TokenValue, Tokens;
    var p := OpenShape(s);
    var n := TokenOf(p.text);
    if p.rest == [] {
      OpenGrows(p.text, text);
      assert s + text == p.spaces + (p.text + text) + "";
      TokensOf(p.spaces, p.text + text, "");
      NoTokens();
      assert [TokenOf(p.text + text)] + [] == [TokenOf(p.text + text)] && [n] + [] == [n];
      OpenHasNoValue(p.text, switch);
      OpenHasNoValue(p.text + text, switch);
    } else {
      OpenSwallows(p.rest, text, switch);
      assert s + text == p.spaces + p.text + (p.rest + text);
      TokensOf(p.spaces, p.text, p.rest + text);
      LastTextHead(n, Tokens(p.rest), switch);
      LastTextHead(n, Tokens(p.rest + text), switch);
    }
  }

  lemma NoTokens()
    ensures Tokens("") == []
  {
    hide Next;
    NextShape("");
  }

  /** The first token of a string with an open one: it is the open one and the last, or there is more. */
  lemma OpenShape(s: string) returns (p: Piece)
    requires !AllClosed(Tokens(s))
    ensures s == p.spaces + p.text + p.rest && |p.rest| < |s| && Tokens(s) == [TokenOf(p.text)] + Tokens(p.rest)
    ensures AllSpace(p.spaces) && p.text != [] && !Space(p.text[0]) && Whole(L0, p.text)
    ensures if p.rest == [] then ReadAll(L0, p.text).quoted
            else Space(p.rest[0]) && !ReadAll(L0, p.text).quoted && !AllClosed(Tokens(p.rest))
  {
    hide Next, ReadAll, Whole;
    NextShape(s);
    p := Next(s).value;
    NoTokens();
    ClosedHead(TokenOf(p.text), Tokens(p.rest));
  }

  lemma ClosedHead(tok: Token, rest: seq<Token>)
    ensures AllClosed([tok] + rest) <==> tok.closed && AllClosed(rest)
  {
    var all := [tok] + rest;
    assert forall i :: 0 <= i < |rest| ==> all[i + 1] == rest[i];
    assert forall i :: 1 <= i < |all| ==> all[i] == rest[i - 1];
    assert all[0] == tok;
  }

  // ---------------------------------------------------------------- inserting into a token

  /** The tokens before the one that an edit goes into. */
  function Before(toks: seq<Token>, switch: SwitchName): seq<Token>
    requires LastText(toks, switch).Some?
  {
    if LastText(toks[1..], switch).Some? then [toks[0]] + Before(toks[1..], switch) else []
  }

  function Carrier(toks: seq<Token>, switch: SwitchName): (t: string)
    requires LastText(toks, switch).Some?
    ensures TokenSpan(t, switch).Some?
  {
    if LastText(toks[1..], switch).Some? then Carrier(toks[1..], switch) else toks[0].text
  }

  /** The text behind the token that an edit goes into. */
  function Behind(s: string, switch: SwitchName): string
    requires LastSpan(s, switch).Some?
    decreases |s|
  {
    var rest := Next(s).value.rest;
    if LastSpan(rest, switch).Some? then Behind(rest, switch) else rest
  }

  lemma NoSpaces(spaces: string, rest: string, x: string)
    requires AllSpace(spaces) && x == spaces + rest && x != [] && !Space(x[0])
    ensures spaces == ""
  {
  }

  lemma SpacesSkipped(spaces: string, t: string, rest: string)
    requires AllSpace(spaces) && t != [] && !Space(t[0]) && Whole(L0, t)
    requires rest != [] ==> Space(rest[0]) && !ReadAll(L0, t).quoted
    ensures Tokens(spaces + (t + rest)) == [TokenOf(t)] + Tokens(rest)
  {
    hide Tokens, Whole, ReadAll;
    assert spaces + (t + rest) == spaces + t + rest;
    TokensOf(spaces, t, rest);
  }

  /** A string that starts with a token. */
  lemma FirstPiece(x: string) returns (t: string, rest: string)
    requires x != [] && !Space(x[0])
    ensures x == t + rest && t != [] && !Space(t[0]) && Whole(L0, t)
    ensures rest != [] ==> Space(rest[0]) && !ReadAll(L0, t).quoted
  {
    hide Next, ReadAll, Whole;
    NextShape(x);
    var p := Next(x).value;
    t, rest := p.text, p.rest;
    assert x == p.spaces + (t + rest);
    NoSpaces(p.spaces, t + rest, x);
  }

  lemma LeadingSpaces(spaces: string, x: string)
    requires AllSpace(spaces) && x != [] && !Space(x[0])
    ensures Tokens(spaces + x) == Tokens(x)
  {
    hide Tokens, ReadAll, Whole;
    var t, rest := FirstPiece(x);
    SpacesSkipped(spaces, t, rest);
    SpacesSkipped("", t, rest);
    assert "" + (t + rest) == x;
  }

  lemma BeforeStep(tok: Token, rest: seq<Token>, switch: SwitchName)
    requires LastText(rest, switch).Some? || TokenValue(tok, switch).Some?
    ensures LastText([tok] + rest, switch).Some?
    ensures LastText(rest, switch).Some? ==>
              && Before([tok] + rest, switch) == [tok] + Before(rest, switch)
              && Carrier([tok] + rest, switch) == Carrier(rest, switch)
    ensures LastText(rest, switch).None? ==>
            Before([tok] + rest, switch) == [] && Carrier([tok] + rest, switch) == tok.text
  {
    hide TokenSpan;
    assert ([tok] + rest)[1..] == rest;
  }

  lemma InsertedHere(spaces: string, t: string, rest: string, switch: SwitchName, text: string)
    requires AllSpace(spaces) && TokenSpan(t, switch).Some? && !Space(t[0])
    ensures Tokens(Insert(spaces + t + rest, |spaces| + TokenSpan(t, switch).value.end, text))
         == Tokens(EditToken(t, switch, text) + rest)
  {
    hide TokenSpan, Tokens;
    var t' := EditToken(t, switch, text);
    EditStart(t, switch, text);
    InsertInToken(spaces, t, rest, TokenSpan(t, switch).value.end, text);
    assert spaces + t' + rest == spaces + (t' + rest);
    LeadingSpaces(spaces, t' + rest);
  }

  lemma InsertedLater(p: Piece, at: nat, text: string)
    requires AllSpace(p.spaces) && p.text != [] && !Space(p.text[0]) && Whole(L0, p.text)
    requires p.rest != [] && Space(p.rest[0]) && !ReadAll(L0, p.text).quoted && 0 < at <= |p.rest|
    ensures Tokens(Insert(p.spaces + p.text + p.rest, |p.spaces + p.text| + at, text))
         == [TokenOf(p.text)] + Tokens(Insert(p.rest, at, text))
  {
    hide Tokens, Whole, ReadAll;
    InsertInRest(p.spaces + p.text, p.rest, at, text);
    assert Insert(p.rest, at, text)[0] == p.rest[0];
    TokensOf(p.spaces, p.text, Insert(p.rest, at, text));
  }

  /**
    What an insertion leaves, safe or not: the tokens before, and those of the edited token run together with what
    follows.
   */
  lemma {:induction false} InsertedTokens(s: string, switch: SwitchName, text: string)
    requires LastSpan(s, switch).Some?
    ensures LastText(Tokens(s), switch).Some?
    ensures Tokens(Insert(s, LastSpan(s, switch).value.end, text))
         == Before(Tokens(s), switch) + Tokens(EditToken(Carrier(Tokens(s), switch), switch, text) + Behind(s, switch))
    decreases |s|
  {
    SpanIsText(s, switch);
    NextShape(s);
    hide Next, TokenSpan, ReadAll, Whole, Before, Carrier, LastText;
    var p := Next(s).value;
    SpanIsText(p.rest, switch);
    var tok, later := TokenOf(p.text), LastSpan(p.rest, switch);
    assert Tokens(s) == [tok] + Tokens(p.rest);
    if later.Some? {
      BeforeStep(tok, Tokens(p.rest), switch);
      InsertedTokens(p.rest, switch, text);
      hide Tokens;
      InsertedLater(p, later.value.end, text);
    } else {
      assert TokenValue(tok, switch).Some?;
      BeforeStep(tok, Tokens(p.rest), switch);
      hide Tokens;
      InsertedHere(p.spaces, p.text, p.rest, switch, text);
    }
  }

  lemma EditStart(t: string, switch: SwitchName, text: string)
    requires TokenSpan(t, switch).Some?
    ensures EditToken(t, switch, text) != [] && EditToken(t, switch, text)[0] == t[0]
  {
  }

  // ---------------------------------------------------------------- what is listed after the edit

  /** Appending behind an unterminated quote changes nothing that is listed. */
  lemma AppendOutcome(args: string, edited: SwitchName, switch: SwitchName)
    requires LastText(Tokens(args), edited).None? && !AllClosed(Tokens(args))
    ensures Contains(AddFeature(args, edited), switch) == Contains(args, switch)
  {
    hide Tokens, LastText, LastSpan, Lists, AllClosed;
    SpanIsText(args, edited);
    SwitchAndFeatureArePlain(edited);
    var text := Separator(args) + (edited + FEATURE);
    assert args + Separator(args) + edited + FEATURE == args + text;
    OpenSwallows(args, text, switch);
    ContainsByTokens(args + text, switch);
    ContainsByTokens(args, switch);
  }

  /** The tokens after the feature is inserted into the value of a switch. */
  function Inserted(args: string, edited: SwitchName): seq<Token>
    requires LastSpan(args, edited).Some? && LastText(Tokens(args), edited).Some?
  {
    var toks := Tokens(args);
    var text := Addition(LastText(toks, edited).value);
    Before(toks, edited) + Tokens(EditToken(Carrier(toks, edited), edited, text) + Behind(args, edited))
  }

  lemma InsertOutcome(args: string, edited: SwitchName, switch: SwitchName)
    requires LastSpan(args, edited).Some? && !Contains(args, edited)
    ensures LastText(Tokens(args), edited).Some?
    ensures Contains(AddFeature(args, edited), switch) <==> ListedIn(Inserted(args, edited), switch)
  {
    hide Tokens, LastText, LastSpan, Lists, Before, Carrier, Behind, Addition, EditToken;
    SpanIsText(args, edited);
    InsertedTokens(args, edited, Addition(LastText(Tokens(args), edited).value));
    ContainsByTokens(AddFeature(args, edited), switch);
  }

  lemma {:induction false} CarrierIsSafeIff(toks: seq<Token>, switch: SwitchName)
    requires LastText(toks, switch).Some?
    ensures SafeTokens(toks, switch) <==> SafeToken(Carrier(toks, switch), switch)
  {
    hide SafeToken, TokenSpan;
    if LastText(toks[1..], switch).Some? {
      CarrierIsSafeIff(toks[1..], switch);
    }
  }

  lemma LastTextBehind(toks: seq<Token>, tok: Token, switch: SwitchName)
    requires TokenValue(tok, switch).None?
    ensures LastText(toks + [tok], switch) == LastText(toks, switch)
  {
    hide TokenValue;
    LastTextSnoc(toks, tok, switch);
  }

  lemma {:induction false} CarrierStarts(s: string, switch: SwitchName)
    requires LastSpan(s, switch).Some?
    ensures LastText(Tokens(s), switch).Some? && !Space(Carrier(Tokens(s), switch)[0])
    decreases |s|
  {
    SpanIsText(s, switch);
    NextShape(s);
    hide Next, TokenSpan, ReadAll, Whole, Before, Carrier, LastText;
    var p := Next(s).value;
    SpanIsText(p.rest, switch);
    assert Tokens(s) == [TokenOf(p.text)] + Tokens(p.rest);
    if LastSpan(p.rest, switch).Some? {
      CarrierStarts(p.rest, switch);
    } else {
      assert TokenValue(TokenOf(p.text), switch).Some?;
    }
    BeforeStep(TokenOf(p.text), Tokens(p.rest), switch);
  }

  /**
    An unsafe insertion with no quote behind it opens its token, which swallows the rest: what the tokens before list
    is what is listed.
   */
  lemma SwallowedOutcome(args: string, edited: SwitchName, switch: SwitchName)
    requires LastSpan(args, edited).Some? && !Contains(args, edited) && NoQuote(Behind(args, edited))
    requires LastText(Tokens(args), edited).Some? && !SafeTokens(Tokens(args), edited)
    ensures Contains(AddFeature(args, edited), switch) <==> ListedIn(Before(Tokens(args), edited), switch)
  {
    hide Tokens, LastText, LastSpan, Lists, Before, Carrier, Behind, EditToken, SafeTokens, SafeToken, TokenValue,
      Contains,
      AddFeature, ReadAll, Whole, TokenSpan;
    var toks := Tokens(args);
    var t, rest, text := Carrier(toks, edited), Behind(args, edited), Addition(LastText(toks, edited).value);
    InsertOutcome(args, edited, switch);
    CarrierIsSafeIff(toks, edited);
    CarrierStarts(args, edited);
    AdditionIsPlain(LastText(toks, edited).value);
    EditClosedIff(t, edited, text);
    EditStart(t, edited, text);
    var t' := EditToken(t, edited, text);
    OpenGrows(t', rest);
    OneToken(t' + rest);
    OpenValue(t' + rest, switch);
    LastTextBehind(Before(toks, edited), TokenOf(t' + rest), switch);
  }

  lemma OpenValue(t: string, switch: SwitchName)
    requires ReadAll(L0, t).quoted
    ensures TokenValue(TokenOf(t), switch) == None
  {
    hide ReadAll, Whole;
    OpenTokenHasNoValue(t, switch);
  }

  lemma OneToken(t: string)
    requires t != [] && !Space(t[0]) && Whole(L0, t)
    ensures Tokens(t) == [TokenOf(t)]
  {
    hide Next, Whole, ReadAll;
    assert t == "" + t + "";
    TokensOf("", t, "");
    NoTokens();
  }

  // ---------------------------------------------------------------- the exact conditions

  /**
    For every argument string: after `configure` without the caller's disabling, the feature is requested if
    and only if the arguments do not disable it and it is listed already, or no quote is left open (when the
    switch is appended), or the tokens the insertion leaves list it and do not disable it.
   */
  lemma RequestIff(args: string)
    ensures LastSpan(args, ENABLE).Some? <==> LastText(Tokens(args), ENABLE).Some?
    ensures Requested(Configure(args, true, false))
       <==> && !Contains(args, DISABLE)
            && (Contains(args, ENABLE)
                || if LastSpan(args, ENABLE).None? then AllClosed(Tokens(args))
                   else ListedIn(Inserted(args, ENABLE), ENABLE) && !ListedIn(Inserted(args, ENABLE), DISABLE))
  {
    hide Tokens, LastText, LastSpan, Contains, AddFeature, AllClosed, Inserted, ListedIn;
    SpanIsText(args, ENABLE);
    if !Contains(args, DISABLE) && !Contains(args, ENABLE) {
      if LastSpan(args, ENABLE).Some? {
        InsertOutcome(args, ENABLE, ENABLE);
        InsertOutcome(args, ENABLE, DISABLE);
      } else if AllClosed(Tokens(args)) {
        SwitchesAreApart();
        SafeEditWorks(args, ENABLE, DISABLE);
      } else {
        AppendOutcome(args, ENABLE, ENABLE);
      }
    }
    AddsNothingIff(args, ENABLE);
  }

  /**
    Where no quote stands behind the insertion: it is safe, or the tokens before list the feature and do not disable
    it.
   */
  lemma InsertionRequestIff(args: string)
    requires !Contains(args, DISABLE) && !Contains(args, ENABLE) && LastSpan(args, ENABLE).Some?
             && NoQuote(Behind(args, ENABLE))
    ensures LastText(Tokens(args), ENABLE).Some?
    ensures var toks := Tokens(args);
            Requested(Configure(args, true, false))
            <==> || SafeTokens(toks, ENABLE)
                 || (ListedIn(Before(toks, ENABLE), ENABLE) && !ListedIn(Before(toks, ENABLE), DISABLE))
  {
    hide Tokens, LastText, LastSpan, Contains, AddFeature, Before, ListedIn, SafeTokens, Behind;
    SpanIsText(args, ENABLE);
    if SafeTokens(Tokens(args), ENABLE) {
      SwitchesAreApart();
      SafeEditWorks(args, ENABLE, DISABLE);
    } else {
      SwallowedOutcome(args, ENABLE, ENABLE);
      SwallowedOutcome(args, ENABLE, DISABLE);
    }
  }

  /**
    With the caller's disabling the feature stays requested exactly when it was listed and the disabling switch is
    swallowed.
   */
  lemma DisableIff(args: string)
    ensures LastSpan(args, DISABLE).Some? <==> LastText(Tokens(args), DISABLE).Some?
    ensures Requested(Configure(args, true, true))
       <==> && !Contains(args, DISABLE)
            && if LastSpan(args, DISABLE).None? then Contains(args, ENABLE) && !AllClosed(Tokens(args))
               else ListedIn(Inserted(args, DISABLE), ENABLE) && !ListedIn(Inserted(args, DISABLE), DISABLE)
  {
    hide Tokens, LastText, LastSpan, Contains, AddFeature, AllClosed, Inserted, ListedIn;
    SpanIsText(args, DISABLE);
    AddsNothingIff(args, DISABLE);
    if !Contains(args, DISABLE) {
      if LastSpan(args, DISABLE).Some? {
        InsertOutcome(args, DISABLE, ENABLE);
        InsertOutcome(args, DISABLE, DISABLE);
      } else if AllClosed(Tokens(args)) {
        SwitchesAreApart();
        SafeEditWorks(args, DISABLE, ENABLE);
      } else {
        AppendOutcome(args, DISABLE, ENABLE);
        AppendOutcome(args, DISABLE, DISABLE);
      }
    }
  }

  lemma AddsNothingIff(args: string, switch: SwitchName)
    ensures AddFeature(args, switch) == args <==> Contains(args, switch)
  {
    hide Contains, LastSpan, Trim;
    FeatureIsPlain();
    var v := LastSpan(args, switch);
    if v.Some? {
      assert |Insert(args, v.value.end, Addition(args[v.value.start..v.value.end]))| > |args|;
    }
  }

  /** Configuring changes nothing exactly when the feature is disabled already, or listed and not to be disabled. */
  lemma UnchangedIff(args: string, disabled: bool)
    ensures Configure(args, true, disabled) == args
            <==> Contains(args, DISABLE) || (!disabled && Contains(args, ENABLE))
  {
    hide Contains, AddFeature;
    AddsNothingIff(args, DISABLE);
    AddsNothingIff(args, ENABLE);
  }

  /** A quote left open in any token swallows the appended switch: such strings are not safe, and the request fails. */
  lemma UnterminatedQuoteBreaksIt(args: string)
    requires !AllClosed(Tokens(args)) && LastText(Tokens(args), ENABLE).None? && !Contains(args, DISABLE)
    ensures !SafeToConfigure(args, false) && !Requested(Configure(args, true, false))
  {
    hide Tokens, LastText, LastSpan, AllClosed, Lists;
    ContainsByTokens(args, ENABLE);
    RequestIff(args);
  }

  // ---------------------------------------------------------------- escaped quotes

  /** A quoted value followed by an escaped quote. */
  const ESCAPED := "\"a\"\\\""

  lemma ReadEscaped(l: Lex)
    requires l == L0
    ensures ReadAll(l, ESCAPED) == L0 && Whole(l, ESCAPED) && ReadAll(l, ESCAPED[..4]) == Lex(false, 1)
  {
    var a, b, c, d, e := ESCAPED[1..], ESCAPED[2..], ESCAPED[3..], ESCAPED[4..], ESCAPED[..4];
    assert a == "a\"\\\"" && b == "\"\\\"" && c == "\\\"" && d == "\"" && d[1..] == "";
    assert a[1..] == b && b[1..] == c && c[1..] == d;
    assert e == "\"a\"\\" && e[1..] == "a\"\\" && e[1..][1..] == "\"\\" && e[1..][1..][1..] == "\\"
        && e[1..][1..][1..][1..] == "";
    assert ReadAll(Lex(false, 0), "\\") == Lex(false, 1);
    assert ReadAll(Lex(true, 0), "\"\\") == Lex(false, 1);
    assert ReadAll(Lex(true, 0), "a\"\\") == Lex(false, 1);
  }

  lemma OneSlash(t: string, i: nat)
    requires 2 <= i <= |t| && t[i - 1] == '\\' && t[i - 2] != '\\'
    ensures SlashesBefore(t, i) == 1
  {
    assert SlashesBefore(t, i - 1) == 0;
  }

  /** Every switch has a token whose value ends before an escaped quote. */
  lemma EscapedToken(switch: SwitchName)
    ensures var t := switch + ESCAPED;
            && TokenSpan(t, switch) == Some(Span(|switch| + 1, |t| - 1)) && t[|switch| + 1..|t| - 1] == "a\"\\"
            && !SafeToken(t, switch) && Whole(L0, t) && !ReadAll(L0, t).quoted && !Space(t[0])
  {
    var t := switch + ESCAPED;
    assert forall i :: 0 <= i < |switch| ==> Plain(switch[i]);
    ReadPlain(L0, switch);
    ReadAllSplit(L0, switch, ESCAPED);
    WholeSplit(L0, switch, ESCAPED);
    ReadEscaped(L0);
    ReadAllSplit(L0, switch, ESCAPED[..4]);
    hide ReadAll, Whole;
    assert t[..|t| - 1] == switch + ESCAPED[..4];
    assert Closed(t) && t[0] == switch[0] && Plain(switch[0]);
    assert Inner(t) == Span(0, |t|);
    assert t[0..|switch|] == switch;
    assert Matches(t, switch) && Quoted(t, |switch|, |t|);
    assert ValueSpan(t, switch) == Span(|switch| + 1, |t| - 1);
    assert t[|switch| + 1..|t| - 1] == ESCAPED[1..4];
    assert ESCAPED[1..4] == "a\"\\";
    assert t[|t| - 2] == ESCAPED[3] && t[|t| - 3] == ESCAPED[2];
    OneSlash(t, |t| - 1);
  }

  lemma {:induction false} TrimIsShorter(s: string)
    ensures |TrimEnd(s)| <= |s| && |TrimStart(s)| <= |s|
    decreases |s|
  {
    if s != [] {
      TrimIsShorter(s[1..]);
      TrimIsShorter(s[..|s| - 1]);
    }
  }

  lemma {:induction false} ShortIsNotListed(s: string)
    requires |s| < |FEATURE|
    ensures !Lists(s)
    decreases |s|
  {
    var n := FirstComma(s);
    TrimIsShorter(s[..n]);
    TrimIsShorter(TrimStart(s[..n]));
    if n < |s| {
      ShortIsNotListed(s[n + 1..]);
    }
  }

  lemma SpanOfNothing(switch: SwitchName)
    ensures LastSpan("", switch) == None
  {
    hide Next;
    NextShape("");
  }

  /** Space and a last token with a value. */
  lemma LastPiece(spaces: string, t: string, switch: SwitchName)
    requires AllSpace(spaces) && TokenSpan(t, switch).Some? && !Space(t[0]) && Whole(L0, t)
    ensures Tokens(spaces + t) == [TokenOf(t)] && LastSpan(spaces + t, switch).Some? && Behind(spaces + t, switch) == ""
  {
    hide Next, Whole, ReadAll, TokenSpan;
    assert spaces + t == spaces + t + "";
    NextOf(spaces, t, "");
    NoTokens();
    SpanOfNothing(switch);
  }

  /** A plain token before it. */
  lemma TwoPieces(u: string, t: string, switch: SwitchName)
    requires PlainText(u) && TokenSpan(t, switch).Some? && !Space(t[0]) && Whole(L0, t)
    ensures var s := u + (" " + t);
            Tokens(s) == [TokenOf(u), TokenOf(t)] && LastSpan(s, switch).Some? && Behind(s, switch) == ""
  {
    hide Next, Whole, ReadAll, TokenSpan;
    ReadPlain(L0, u);
    LastPiece(" ", t, switch);
    assert u + (" " + t) == "" + u + (" " + t);
    NextOf("", u, " " + t);
  }

  lemma LastOfOne(t: string, switch: SwitchName)
    requires TokenSpan(t, switch).Some?
    ensures LastText([TokenOf(t)], switch) == TokenValue(TokenOf(t), switch)
    ensures Before([TokenOf(t)], switch) == [] && SafeTokens([TokenOf(t)], switch) == SafeToken(t, switch)
  {
    hide TokenSpan, SafeToken;
    assert [TokenOf(t)][1..] == [];
  }

  lemma LastOfTwo(u: Token, t: string, switch: SwitchName)
    requires TokenSpan(t, switch).Some?
    ensures LastText([u, TokenOf(t)], switch) == TokenValue(TokenOf(t), switch)
    ensures Before([u, TokenOf(t)], switch) == [u] && SafeTokens([u, TokenOf(t)], switch) == SafeToken(t, switch)
  {
    hide TokenSpan, SafeToken;
    LastOfOne(t, switch);
    assert [u, TokenOf(t)][1..] == [TokenOf(t)];
  }

  /** The enabling switch with such a value: closed before the edit, and lost by it. */
  lemma EscapedQuoteBreaksIt()
    ensures var t := ENABLE + ESCAPED;
            AllClosed(Tokens(t)) && !SafeToConfigure(t, false) && !Requested(Configure(t, true, false))
  {
    var t := ENABLE + ESCAPED;
    hide ReadAll, Whole, Lists, Requested, Configure, TokenSpan, SafeToken, Tokens, LastText, LastSpan, Before,
      SafeTokens, Behind, Contains;
    EscapedToken(ENABLE);
    LastPiece("", t, ENABLE);
    assert "" + t == t;
    LastOfOne(t, ENABLE);
    ShortIsNotListed("a\"\\");
    ContainsByTokens(t, ENABLE);
    SwitchesAreApart();
    OneSwitchPerToken(t, ENABLE, DISABLE);
    NothingElse(t);
    ContainsByTokens(t, DISABLE);
    InsertionRequestIff(t);
    NothingListed(ENABLE);
  }

  lemma NothingElse(t: string)
    requires TokenSpan(t, DISABLE).None?
    ensures LastText([TokenOf(t)], DISABLE) == None
  {
    hide TokenSpan;
    assert [TokenOf(t)][1..] == [];
  }

  lemma NothingListed(switch: SwitchName)
    ensures !ListedIn([], switch)
  {
  }

  /** A listed feature before such a token: the edit is not safe, and the feature is requested all the same. */
  lemma UnsafeIsNotAlwaysLost()
    ensures var args := (ENABLE + FEATURE) + (" " + (ENABLE + ESCAPED));
            !SafeToConfigure(args, false) && Requested(Configure(args, true, false))
  {
    hide ReadAll, Whole, Lists, Requested, Configure, TokenSpan, SafeToken, Tokens, LastText, LastSpan, Before,
      SafeTokens, Behind, Contains;
    var u, t := ENABLE + FEATURE, ENABLE + ESCAPED;
    var args := u + (" " + t);
    EscapedToken(ENABLE);
    SwitchAndFeatureArePlain(ENABLE);
    TwoPieces(u, t, ENABLE);
    LastOfTwo(TokenOf(u), t, ENABLE);
    ShortIsNotListed("a\"\\");
    ContainsByTokens(args, ENABLE);
    PlainIsClosed(u);
    ListedAlone();
    SwitchesAreApart();
    OneSwitchPerToken(t, ENABLE, DISABLE);
    NothingElse(t);
    LastTextHead(TokenOf(u), [TokenOf(t)], DISABLE);
    assert [TokenOf(u)] + [TokenOf(t)] == [TokenOf(u), TokenOf(t)];
    ContainsByTokens(args, DISABLE);
    InsertionRequestIff(args);
  }

  lemma PlainIsClosed(u: string)
    requires PlainText(u)
    ensures TokenOf(u) == Token(u, true)
  {
    hide ReadAll;
    ReadPlain(L0, u);
  }

  lemma ListedAlone()
    ensures var tok := Token(ENABLE + FEATURE, true);
            && ListedIn([tok], ENABLE) && !ListedIn([tok], DISABLE) && TokenValue(tok, DISABLE) == None
  {
    hide Lists, TokenValue;
    var tok := Token(ENABLE + FEATURE, true);
    NewTokenValue(ENABLE);
    SwitchesAreApart();
    NewTokenOther(ENABLE, DISABLE);
    FeatureIsListed();
    assert [tok][1..] == [];
    assert LastText([tok], ENABLE) == TokenValue(tok, ENABLE) && LastText([tok], DISABLE) == TokenValue(tok, DISABLE);
  }
}
