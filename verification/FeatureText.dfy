/**
  The argument string by its characters: how arguments without quotes are split, how a switch is recognised, what a
  feature list holds, and the exact text that an edit leaves.
 */
module FeatureText {
  import opened Common
  import opened FeatureEditor
  import opened FeatureEdits
  import opened FeatureRequests

  // ---------------------------------------------------------------- splitting without quotes

  /** Tab, line feed, form feed, carriage return and space separate arguments. */
  predicate Separates(c: char) { c as int in {9, 10, 12, 13, 32} }

  /** The words of a text, character by character from its end. */
  function Words(s: string): (ws: seq<string>)
    ensures s != "" && !Separates(s[0]) ==> ws != []
  {
    if s == "" then []
    else
      var rest := Words(s[1..]);
      if Separates(s[0]) then rest
      else if |s| == 1 || Separates(s[1]) then [[s[0]]] + rest
      else [[s[0]] + rest[0]] + rest[1..]
  }

  lemma {:induction false} WordsSkip(spaces: string, s: string)
    requires AllSpace(spaces)
    ensures Words(spaces + s) == Words(s)
    decreases |spaces|
  {
    if spaces == "" {
      assert spaces + s == s;
    } else {
      assert (spaces + s)[1..] == spaces[1..] + s;
      WordsSkip(spaces[1..], s);
    }
  }

  predicate Solid(t: string) { forall i :: 0 <= i < |t| ==> !Space(t[i]) }

  lemma {:induction false} WordsFirst(t: string, rest: string)
    requires t != "" && Solid(t) && (rest == "" || Space(rest[0]))
    ensures Words(t + rest) == [t] + Words(rest)
    decreases |t|
  {
    var s := t + rest;
    assert s[1..] == t[1..] + rest;
    if |t| == 1 {
      assert t[1..] == "" && t == [t[0]] && s[1..] == rest;
    } else {
      WordsFirst(t[1..], rest);
      var w := [t[1..]] + Words(rest);
      assert w[0] == t[1..] && w[1..] == Words(rest) && t == [t[0]] + t[1..];
    }
  }

  lemma {:induction false} UnquotedRead(l: Lex, t: string)
    requires !l.quoted && NoQuote(t)
    ensures !ReadAll(l, t).quoted
    ensures Whole(l, t) <==> Solid(t)
    decreases |t|
  {
    if t != "" {
      UnquotedRead(Read(l, t[0]), t[1..]);
      assert Solid(t) <==> !Space(t[0]) && Solid(t[1..]);
    }
  }

  function Texts(toks: seq<Token>): seq<string> {
    if toks == [] then [] else [toks[0].text] + Texts(toks[1..])
  }

  /** Arguments without quotes are split into their words, and none is left open. */
  lemma {:induction false} UnquotedTokens(s: string)
    requires NoQuote(s)
    ensures Texts(Tokens(s)) == Words(s) && AllClosed(Tokens(s))
    decreases |s|
  {
    hide Next, Words, ReadAll, Whole;
    NextShape(s);
    var p := Next(s);
    if p.None? {
      WordsSkip(s, "");
      assert s + "" == s;
      NoWords();
    } else {
      var spaces, t, rest := p.value.spaces, p.value.text, p.value.rest;
      assert NoQuote(t) && NoQuote(rest) by {
        assert forall i :: 0 <= i < |t| ==> t[i] == s[|spaces| + i];
        assert forall i :: 0 <= i < |rest| ==> rest[i] == s[|spaces + t| + i];
      }
      UnquotedTokens(rest);
      UnquotedRead(L0, t);
      assert s == spaces + (t + rest);
      WordsSkip(spaces, t + rest);
      WordsFirst(t, rest);
      var toks := Tokens(s);
      assert toks[0] == TokenOf(t) && toks[1..] == Tokens(rest);
    }
  }

  lemma NoWords()
    ensures Words("") == []
  {
  }

  // ---------------------------------------------------------------- recognising a switch

  /** An upper-case letter stands for the lower-case one, as it does for ASCII letters only. */
  predicate Folds(c: char, lower: char) {
    c == lower || ('A' <= c <= 'Z' && c as int + 32 == lower as int)
  }

  /** An argument without quotes carries a switch exactly when it starts with its name, in any case. */
  lemma UnquotedValueIff(t: string, switch: SwitchName)
    requires t != "" && NoQuote(t) && Solid(t) && forall i :: 0 <= i < |switch| ==> !('A' <= switch[i] <= 'Z')
    ensures TokenValue(TokenOf(t), switch)
         == if |t| >= |switch| && forall i :: 0 <= i < |switch| ==> Folds(t[i], switch[i]) then Some(t[|switch|..])
            else None
  {
    hide ReadAll, Whole;
    UnquotedRead(L0, t);
    assert Closed(t);
    assert Inner(t) == Span(0, |t|) by { assert t[0] != '\"'; }
    if |t| >= |switch| {
      var name := t[0..|switch|];
      assert forall i :: 0 <= i < |switch| ==> name[i] == t[i];
      assert SameIgnoringCase(name, switch) <==> forall i :: 0 <= i < |switch| ==> Folds(t[i], switch[i]) by {
        assert forall i :: 0 <= i < |switch| ==> (Lower(t[i]) == Lower(switch[i]) <==> Folds(t[i], switch[i]));
      }
      assert t[|switch|..] == t[|switch|..|t|];
    }
  }

  /** Text inside quotes: no quote and no backslash. */
  predicate Quotable(v: string) { forall i :: 0 <= i < |v| ==> v[i] != '\"' && v[i] != '\\' }

  lemma {:induction false} QuotedRead(l: Lex, v: string)
    requires l == Lex(true, 0) && Quotable(v)
    ensures ReadAll(l, v) == l && Whole(l, v)
    decreases |v|
  {
    if v != "" {
      QuotedRead(Read(l, v[0]), v[1..]);
    }
  }

  lemma QuoteEnds(v: string)
    requires Quotable(v)
    ensures ReadAll(L0, "\"" + v + "\"") == L0 && Whole(L0, "\"" + v + "\"")
  {
    hide ReadAll, Whole;
    var q := "\"";
    ReadQuotes(L0);
    ReadQuotes(Lex(true, 0));
    QuotedRead(Lex(true, 0), v);
    ReadAllSplit(L0, q, v);
    ReadAllSplit(L0, q + v, q);
    WholeSplit(L0, q, v);
    WholeSplit(L0, q + v, q);
    QuoteIsWhole(L0);
    QuoteIsWhole(Lex(true, 0));
  }

  lemma QuoteIsWhole(l: Lex)
    ensures Whole(l, "\"")
  {
    assert "\""[1..] == "";
  }

  /** Quotes around the value or around the whole argument are not part of the value, which may hold white space. */
  lemma QuotedValue(switch: SwitchName, v: string)
    requires Quotable(v)
    ensures TokenValue(TokenOf(switch + ("\"" + v + "\"")), switch) == Some(v)
    ensures TokenValue(TokenOf("\"" + (switch + v) + "\""), switch) == Some(v)
  {
    QuotedAfterName(switch, v);
    QuotedWhole(switch, v);
  }

  lemma QuotedAfterName(switch: SwitchName, v: string)
    requires Quotable(v)
    ensures TokenValue(TokenOf(switch + ("\"" + v + "\"")), switch) == Some(v)
  {
    hide ReadAll, Whole;
    var body := "\"" + v + "\"";
    var t := switch + body;
    ReadPlain(L0, switch);
    QuoteEnds(v);
    ReadAllSplit(L0, switch, body);
    WholeSplit(L0, switch, body);
    assert Closed(t);
    assert Plain(switch[0]) && t[0] == switch[0];
    assert Inner(t) == Span(0, |t|);
    assert t[0..|switch|] == switch;
    assert t[|switch|] == '\"' && t[|t| - 1] == '\"';
    assert t[|switch| + 1..|t| - 1] == v;
  }

  lemma QuotedWhole(switch: SwitchName, v: string)
    requires Quotable(v)
    ensures TokenValue(TokenOf("\"" + (switch + v) + "\""), switch) == Some(v)
  {
    hide ReadAll, Whole;
    var t := "\"" + (switch + v) + "\"";
    assert Quotable(switch + v) by { assert forall i :: 0 <= i < |switch| ==> Plain(switch[i]); }
    QuoteEnds(switch + v);
    assert Closed(t);
    assert Inner(t) == Span(1, |t| - 1);
    assert t[1..1 + |switch|] == switch;
    if v != "" {
      assert t[1 + |switch|] == v[0];
    }
    assert t[1 + |switch|..|t| - 1] == v;
  }

  // ---------------------------------------------------------------- feature lists

  predicate Blank(s: string) { forall i :: 0 <= i < |s| ==> White(s[i]) }

  /** The characters `trim` removes are the 25 that Unicode calls white space. */
  lemma WhiteIff(c: char)
    ensures White(c) <==> c as int in {
              0x09, 0x0A, 0x0B, 0x0C, 0x0D, 0x20, 0x85, 0xA0, 0x1680, 0x2000, 0x2001, 0x2002, 0x2003, 0x2004, 0x2005,
              0x2006, 0x2007, 0x2008, 0x2009, 0x200A, 0x2028, 0x2029, 0x202F, 0x205F, 0x3000}
  {
  }

  lemma {:induction false} BlankTrimsAway(s: string)
    requires Blank(s)
    ensures TrimStart(s) == ""
  {
    if s != "" {
      BlankTrimsAway(s[1..]);
    }
  }

  lemma TrimEmptyIff(s: string)
    ensures Trim(s) == "" <==> Blank(s)
  {
    if Blank(s) {
      BlankTrimsAway(s);
    }
    if Trim(s) == "" {
      TrimmedEmptyIsWhite(s);
    }
  }

  lemma {:induction false} StartIsBlank(s: string) returns (a: string)
    ensures s == a + TrimStart(s) && Blank(a)
    ensures TrimStart(s) != "" ==> !White(TrimStart(s)[0])
  {
    if s != "" && White(s[0]) {
      var b := StartIsBlank(s[1..]);
      a := [s[0]] + b;
      assert s == [s[0]] + s[1..];
    } else {
      a := "";
    }
  }

  lemma {:induction false} EndIsBlank(s: string) returns (b: string)
    ensures s == TrimEnd(s) + b && Blank(b)
  {
    if s != "" && White(s[|s| - 1]) {
      var c := EndIsBlank(s[..|s| - 1]);
      b := c + [s[|s| - 1]];
      assert s == s[..|s| - 1] + [s[|s| - 1]];
    } else {
      b := "";
    }
  }

  lemma {:induction false} BlankEndTrims(text: string, b: string)
    requires Blank(b) && text != "" && !White(text[|text| - 1])
    ensures TrimEnd(text + b) == text
    decreases |b|
  {
    if b == "" {
      assert text + b == text;
    } else {
      assert (text + b)[..|text + b| - 1] == text + b[..|b| - 1];
      BlankEndTrims(text, b[..|b| - 1]);
    }
  }

  lemma {:induction false} BlankStartTrims(a: string, text: string)
    requires Blank(a) && text != "" && !White(text[0])
    ensures TrimStart(a + text) == text
    decreases |a|
  {
    if a == "" {
      assert a + text == text;
    } else {
      assert (a + text)[1..] == a[1..] + text;
      BlankStartTrims(a[1..], text);
    }
  }

  /** The feature with nothing but blanks around it, which start at `n` characters. */
  predicate NamesFeatureAt(piece: string, n: nat) {
    && n + 9 <= |piece| && piece[n..n + 9] == "CSSColor4"
    && Blank(piece[..n]) && Blank(piece[n + 9..])
  }

  lemma IsFeatureIff(piece: string)
    ensures IsFeature(piece) <==> exists n: nat :: NamesFeatureAt(piece, n)
  {
    hide TrimStart, TrimEnd;
    if IsFeature(piece) {
      var a := StartIsBlank(piece);
      var b := EndIsBlank(TrimStart(piece));
      assert piece == a + (FEATURE + b);
      assert piece[|a|..|a| + 9] == FEATURE && piece[..|a|] == a && piece[|a| + 9..] == b;
      assert NamesFeatureAt(piece, |a|);
    }
    if n: nat :| NamesFeatureAt(piece, n) {
      var a, b := piece[..n], piece[n + 9..];
      assert piece == a + (FEATURE + b);
      assert (FEATURE + b)[0] == FEATURE[0];
      BlankStartTrims(a, FEATURE + b);
      BlankEndTrims(FEATURE, b);
    }
  }

  /** The entries between commas. */
  function Split(value: string): (ps: seq<string>)
    ensures ps != []
  {
    if value == "" then [""]
    else
      var rest := Split(value[1..]);
      if value[0] == ',' then [""] + rest else [[value[0]] + rest[0]] + rest[1..]
  }

  lemma {:induction false} SplitAtComma(value: string)
    ensures var n := FirstComma(value);
            Split(value) == [value[..n]] + if n < |value| then Split(value[n + 1..]) else []
    decreases |value|
  {
    if value != "" && value[0] != ',' {
      SplitAtComma(value[1..]);
      var m := FirstComma(value[1..]);
      assert value[..m + 1] == [value[0]] + value[1..][..m];
      if m < |value[1..]| {
        assert value[1..][m + 1..] == value[m + 2..];
      }
    }
  }

  lemma {:induction false} ListsEntry(value: string)
    ensures Lists(value) <==> exists i :: 0 <= i < |Split(value)| && IsFeature(Split(value)[i])
    decreases |value|
  {
    hide IsFeature, Split, FirstComma;
    SplitAtComma(value);
    var n, ps := FirstComma(value), Split(value);
    assert ps[0] == value[..n];
    if n < |value| {
      var rest := Split(value[n + 1..]);
      ListsEntry(value[n + 1..]);
      assert ps == [value[..n]] + rest;
      assert forall i :: 0 <= i < |rest| ==> ps[i + 1] == rest[i];
      assert forall i :: 1 <= i < |ps| ==> ps[i] == rest[i - 1];
    }
  }

  /** A list names the feature exactly when one entry between its commas is the feature with blanks around it. */
  lemma ListsIff(value: string)
    ensures Lists(value) <==> exists i, n: nat :: 0 <= i < |Split(value)| && NamesFeatureAt(Split(value)[i], n)
  {
    hide Lists, Split, IsFeature, NamesFeatureAt;
    ListsEntry(value);
    forall i | 0 <= i < |Split(value)|
      ensures IsFeature(Split(value)[i]) <==> exists n: nat :: NamesFeatureAt(Split(value)[i], n)
    {
      IsFeatureIff(Split(value)[i]);
    }
  }

  /** Text behind a comma is one more entry. */
  lemma {:induction false} SplitGrows(value: string, piece: string)
    requires ',' !in piece
    ensures Split(value + ("," + piece)) == Split(value) + [piece]
    decreases |value|
  {
    var s := value + ("," + piece);
    if value == "" {
      assert s == "," + piece && s[1..] == piece;
      OneEntry(piece);
    } else {
      assert s[1..] == value[1..] + ("," + piece);
      SplitGrows(value[1..], piece);
    }
  }

  lemma {:induction false} OneEntry(piece: string)
    requires ',' !in piece
    ensures Split(piece) == [piece]
  {
    if piece != "" {
      OneEntry(piece[1..]);
      assert piece == [piece[0]] + piece[1..];
    }
  }

  // ---------------------------------------------------------------- the text an edit leaves

  /**
    The exact text after `add_feature`, for every argument string in which the feature is not listed yet: behind the
    value of the last argument with the switch, after a comma unless the value is blank; or, without such an
    argument, a new one at the end, after a space unless white space is there already.
   */
  lemma EditText(args: string, switch: SwitchName) returns (front: string, back: string)
    requires !Contains(args, switch)
    ensures match LastText(Tokens(args), switch)
            case Some(value) =>
              && args == front + value + back
              && AddFeature(args, switch)
                 == front + value + (if Blank(value) then "CSSColor4" else ",CSSColor4") + back
            case None =>
              AddFeature(args, switch)
              == args + (if args == "" || Separates(args[|args| - 1]) then "" else " ") + switch + "CSSColor4"
  {
    hide Tokens, LastText, LastSpan, Contains, Trim;
    SpanIsText(args, switch);
    var v := LastSpan(args, switch);
    if v.Some? {
      front, back := args[..v.value.start], args[v.value.end..];
      var value := args[v.value.start..v.value.end];
      TrimEmptyIff(value);
      assert args == front + value + back && args[..v.value.end] == front + value;
    } else {
      front, back := args, "";
    }
  }

  /** A list that is not blank gains the feature as its last entry and keeps its entries; a blank one becomes it. */
  lemma EditedList(value: string)
    ensures !Blank(value) ==> Split(value + Addition(value)) == Split(value) + ["CSSColor4"]
    ensures Blank(value) ==> Split(value + Addition(value)) == [value + "CSSColor4"]
  {
    hide Trim;
    TrimEmptyIff(value);
    if Blank(value) {
      assert value + Addition(value) == value + "CSSColor4";
      OneEntry(value + "CSSColor4");
    } else {
      SplitGrows(value, "CSSColor4");
    }
  }

  /**
    The exact text after `configure` in a Win7 build, wherever it changes anything: the switch it edits, and the
    edit of `add_feature`.
   */
  lemma ConfigureText(args: string, disabled: bool) returns (front: string, back: string)
    requires !Contains(args, "--disable-blink-features=")
    requires disabled || !Contains(args, "--enable-blink-features=")
    ensures var switch := if disabled then "--disable-blink-features=" else "--enable-blink-features=";
            match LastText(Tokens(args), switch)
            case Some(value) =>
              && args == front + value + back
              && Configure(args, true, disabled)
                 == front + value + (if Blank(value) then "CSSColor4" else ",CSSColor4") + back
            case None =>
              Configure(args, true, disabled)
              == args + (if args == "" || Separates(args[|args| - 1]) then "" else " ") + switch + "CSSColor4"
  {
    hide Tokens, LastText, Contains, AddFeature, Blank, Separates;
    front, back := EditText(args, if disabled then DISABLE else ENABLE);
  }
}
