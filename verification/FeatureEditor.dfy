/**
  The editor that requests one Blink feature in a browser argument string. The same quote- and
  backslash-aware tokenizer decides what is requested and where to edit, so the theorems compare
  the tokens of the edited string with the tokens of the original one.
 */
module FeatureEditor {
  import opened Common

  const FEATURE: string := "CSSColor4"
  const ENABLE: SwitchName := "--enable-blink-features="
  const DISABLE: SwitchName := "--disable-blink-features="

  /** ASCII white space. */
  predicate Space(c: char) {
    c == ' ' || c == '\t' || c == '\n' || c == '\r' || c as int == 12
  }

  /** The white space `str::trim` removes (Unicode property White_Space). */
  predicate White(c: char) {
    var n := c as int;
    || 9 <= n <= 13 || n == 0x20 || n == 0x85 || n == 0xA0 || n == 0x1680 || 0x2000 <= n <= 0x200A
    || n == 0x2028 || n == 0x2029 || n == 0x202F || n == 0x205F || n == 0x3000
  }

  // ---------------------------------------------------------------- tokenizer

  /** Whether the tokenizer is inside quotes, and how many backslashes it has just read. */
  datatype Lex = Lex(quoted: bool, slashes: nat)

  const L0 := Lex(false, 0)

  function Read(l: Lex, c: char): Lex {
    Lex(if c == '\"' && l.slashes % 2 == 0 then !l.quoted else l.quoted, if c == '\\' then l.slashes + 1 else 0)
  }

  function ReadAll(l: Lex, t: string): Lex
    decreases |t|
  {
    if t == [] then l else ReadAll(Read(l, t[0]), t[1..])
  }

  /** No unquoted white space inside `t`. */
  predicate Whole(l: Lex, t: string)
    decreases |t|
  {
    t == [] || (!(Space(t[0]) && !l.quoted) && Whole(Read(l, t[0]), t[1..]))
  }

  function TokenLength(l: Lex, s: string): (n: nat)
    ensures n <= |s|
    ensures s != [] && !Space(s[0]) ==> n > 0
    ensures Whole(l, s[..n])
    ensures n < |s| ==> Space(s[n]) && !ReadAll(l, s[..n]).quoted
    decreases |s|
  {
    if s == [] || (Space(s[0]) && !l.quoted) then 0
    else
      var n := TokenLength(Read(l, s[0]), s[1..]);
      assert s[..n + 1][1..] == s[1..][..n];
      n + 1
  }

  function Spaces(s: string): (n: nat)
    ensures n <= |s|
    ensures forall i :: 0 <= i < n ==> Space(s[i])
    ensures n < |s| ==> !Space(s[n])
  {
    if s == [] || !Space(s[0]) then 0 else 1 + Spaces(s[1..])
  }

  datatype Token = Token(text: string, closed: bool)

  function TokenOf(t: string): Token { Token(t, !ReadAll(L0, t).quoted) }

  /** The first token, with the white space before it and the text after it. */
  datatype Piece = Piece(spaces: string, text: string, rest: string)

  function Next(s: string): (p: Option<Piece>)
    ensures p.Some? ==>
              && s == p.value.spaces + p.value.text + p.value.rest
              && |p.value.rest| < |s| && p.value.text != []
  {
    var k := Spaces(s);
    var r := s[k..];
    if r == [] then None
    else
      var n := TokenLength(L0, r);
      Some(Piece(s[..k], r[..n], r[n..]))
  }

  /** The tokens of a string; only the last one can be unterminated. */
  function Tokens(s: string): seq<Token>
    decreases |s|
  {
    var p := Next(s);
    if p.None? then [] else [TokenOf(p.value.text)] + Tokens(p.value.rest)
  }

  // ---------------------------------------------------------------- values of a switch

  function Lower(c: char): char {
    if 'A' <= c <= 'Z' then (c as int + 32) as char else c
  }

  predicate SameIgnoringCase(a: string, b: string) {
    |a| == |b| && forall i :: 0 <= i < |a| ==> Lower(a[i]) == Lower(b[i])
  }

  /** A switch name: not empty, without quotes, backslashes and white space. */
  predicate PlainSwitch(switch: string) {
    switch != [] && forall i :: 0 <= i < |switch| ==> Plain(switch[i])
  }

  type SwitchName = s: string | PlainSwitch(s) witness "-"

  predicate Plain(c: char) { c != '\"' && c != '\\' && !Space(c) }

  /** A complete token: no unquoted white space, quotes closed. */
  predicate Closed(t: string) {
    t != [] && Whole(L0, t) && !ReadAll(L0, t).quoted
  }

  datatype Span = Span(start: nat, end: nat)

  predicate Quoted(t: string, a: nat, b: nat)
    requires a < b <= |t|
  {
    t[a] == '\"' && t[b - 1] == '\"'
  }

  /** The part of a token that is inspected: without one pair of outer quotes. */
  function Inner(t: string): (s: Span)
    requires Closed(t)
    ensures s.start <= s.end <= |t|
    ensures s == Span(0, |t|) || (s == Span(1, |t| - 1) && Quoted(t, 0, |t|))
  {
    if Quoted(t, 0, |t|) then
      LoneQuoteIsOpen(t);
      Span(1, |t| - 1)
    else Span(0, |t|)
  }

  predicate Matches(t: string, switch: SwitchName)
    requires Closed(t)
  {
    var s := Inner(t);
    s.end - s.start >= |switch| && SameIgnoringCase(t[s.start..s.start + |switch|], switch)
  }

  /** Where the value of the switch lies in a matching token: without one more pair of quotes. */
  function ValueSpan(t: string, switch: SwitchName): (v: Span)
    requires Closed(t) && Matches(t, switch)
    ensures Inner(t).start + |switch| <= v.start <= v.end <= Inner(t).end
  {
    var s := Inner(t);
    var a := s.start + |switch|;
    if s.end > a && Quoted(t, a, s.end) then
      ValueQuotesArePaired(t, switch);
      Span(a + 1, s.end - 1)
    else Span(a, s.end)
  }

  /** Reading up to two quotes. */
  lemma ReadQuotes(l: Lex)
    ensures ReadAll(l, []) == l
    ensures ReadAll(l, "\"") == Lex(if l.slashes % 2 == 0 then !l.quoted else l.quoted, 0)
    ensures ReadAll(l, "\"\"") == Lex(if l.slashes % 2 == 0 then l.quoted else !l.quoted, 0)
  {
    assert "\""[1..] == [];
    assert "\"\""[1..] == "\"";
  }

  lemma LoneQuoteIsOpen(t: string)
    requires Closed(t)
    ensures t != "\""
  {
    ReadQuotes(L0);
  }

  lemma {:induction false} ReadAllSplit(l: Lex, a: string, b: string)
    ensures ReadAll(l, a + b) == ReadAll(ReadAll(l, a), b)
    decreases |a|
  {
    if a == [] {
      assert a + b == b;
    } else {
      assert (a + b)[1..] == a[1..] + b;
      ReadAllSplit(Read(l, a[0]), a[1..], b);
    }
  }

  lemma {:induction false} WholeSplit(l: Lex, a: string, b: string)
    ensures Whole(l, a + b) <==> Whole(l, a) && Whole(ReadAll(l, a), b)
    decreases |a|
  {
    if a == [] {
      assert a + b == b;
    } else {
      assert (a + b)[1..] == a[1..] + b;
      WholeSplit(Read(l, a[0]), a[1..], b);
    }
  }

  // ---------------------------------------------------------------- the tokenizer in terms of characters

  /** How many backslashes stand directly before a place. */
  function SlashesBefore(t: string, i: nat): (n: nat)
    requires i <= |t|
    ensures n <= i
  {
    if i > 0 && t[i - 1] == '\\' then 1 + SlashesBefore(t, i - 1) else 0
  }

  /** The quotes that open or close: those behind an even number of backslashes. */
  function Quotes(t: string): set<nat> {
    set i: nat | i < |t| && t[i] == '\"' && SlashesBefore(t, i) % 2 == 0
  }

  lemma {:induction false} SlashesOfPrefix(t: string, i: nat, j: nat)
    requires j <= i <= |t|
    ensures SlashesBefore(t[..i], j) == SlashesBefore(t, j)
    decreases j
  {
    if j > 0 {
      SlashesOfPrefix(t, i, j - 1);
    }
  }

  lemma SlashesStep(t: string)
    requires t != []
    ensures var n := |t| - 1;
            && SlashesBefore(t, n) == SlashesBefore(t[..n], n)
            && SlashesBefore(t, n + 1) == if t[n] == '\\' then SlashesBefore(t, n) + 1 else 0
  {
    SlashesOfPrefix(t, |t| - 1, |t| - 1);
  }

  lemma ReadOne(t: string, c: char)
    ensures ReadAll(L0, t + [c]) == Read(ReadAll(L0, t), c)
  {
    ReadAllSplit(L0, t, [c]);
    assert [c][1..] == [];
  }

  lemma QuotesStep(t: string)
    requires t != []
    ensures var n := |t| - 1;
            && Quotes(t[..n]) == Quotes(t) - {n}
            && (n in Quotes(t) <==> t[n] == '\"' && SlashesBefore(t, n) % 2 == 0)
  {
    hide SlashesBefore;
    forall i: nat | i < |t| - 1 ensures i in Quotes(t[..|t| - 1]) <==> i in Quotes(t) {
      SlashesOfPrefix(t, |t| - 1, i);
    }
  }

  lemma CountStep(t: string)
    requires t != []
    ensures var n := |t| - 1;
            |Quotes(t)| == |Quotes(t[..n])| + if t[n] == '\"' && SlashesBefore(t, n) % 2 == 0 then 1 else 0
  {
    hide Quotes, SlashesBefore;
    QuotesStep(t);
    var n := |t| - 1;
    assert Quotes(t) == if n in Quotes(t) then Quotes(t[..n]) + {n} else Quotes(t[..n]);
  }

  lemma Parity(n: nat)
    ensures (n + 1) % 2 == 1 <==> n % 2 != 1
  {
  }

  /**
    What the tokenizer knows after a text: the number of backslashes at its end, and whether an odd number of quotes
    that open or close stands in it.
   */
  lemma {:induction false} ReadsCharacters(t: string)
    ensures ReadAll(L0, t).slashes == SlashesBefore(t, |t|)
    ensures ReadAll(L0, t).quoted <==> |Quotes(t)| % 2 == 1
    decreases |t|
  {
    if t == [] {
      assert Quotes(t) == {};
    } else {
      hide Quotes, ReadAll, SlashesBefore;
      var n := |t| - 1;
      ReadsCharacters(t[..n]);
      ReadOne(t[..n], t[n]);
      assert t == t[..n] + [t[n]];
      SlashesStep(t);
      CountStep(t);
      Parity(|Quotes(t[..n])|);
    }
  }

  /** A text is one piece exactly when each of its white space has an odd number of such quotes before it. */
  lemma {:induction false} WholeIff(t: string)
    ensures Whole(L0, t) <==> forall i :: 0 <= i < |t| && Space(t[i]) ==> |Quotes(t[..i])| % 2 == 1
    decreases |t|
  {
    if t != [] {
      var n := |t| - 1;
      var init, last := t[..n], t[n];
      WholeIff(init);
      WholeSplit(L0, init, [last]);
      ReadsCharacters(init);
      assert t == init + [last] && [last][1..] == [];
      hide Quotes, ReadAll;
      assert forall i :: 0 <= i < n ==> init[..i] == t[..i];
    }
  }

  // ---------------------------------------------------------------- plain text and quotes

  /** Plain text changes nothing but the backslash count. */
  lemma {:induction false} ReadPlain(l: Lex, p: string)
    requires p != [] && forall i :: 0 <= i < |p| ==> Plain(p[i])
    ensures ReadAll(l, p) == Lex(l.quoted, 0)
    ensures Whole(l, p)
    decreases |p|
  {
    if |p| > 1 {
      ReadPlain(Read(l, p[0]), p[1..]);
    } else {
      assert p[1..] == [];
    }
  }

  lemma SwitchIsPlain(p: string, switch: SwitchName)
    requires SameIgnoringCase(p, switch)
    ensures p != [] && forall i :: 0 <= i < |p| ==> Plain(p[i])
  {
    forall i | 0 <= i < |p| ensures Plain(p[i]) {
      assert Lower(p[i]) == Lower(switch[i]) && Plain(switch[i]);
    }
  }

  lemma SingleQuoteValueIsOpen(p: string)
    requires p != [] && forall i :: 0 <= i < |p| ==> Plain(p[i])
    ensures ReadAll(L0, p + "\"").quoted
    ensures ReadAll(L0, "\"" + p + "\"\"").quoted
  {
    ReadAllSplit(L0, p, "\"");
    ReadPlain(L0, p);
    ReadQuotes(Lex(false, 0));
    ReadAllSplit(L0, "\"" + p, "\"\"");
    ReadAllSplit(L0, "\"", p);
    ReadPlain(Lex(true, 0), p);
    ReadQuotes(Lex(true, 0));
  }

  /**
    The second stripping of quotes never meets itself: a value that is a single quote would leave
    the token with an odd number of unescaped quotes.
   */
  lemma ValueQuotesArePaired(t: string, switch: SwitchName)
    requires Closed(t) && Matches(t, switch)
    requires var s := Inner(t); s.end > s.start + |switch| && t[s.start + |switch|] == '\"'
    ensures Inner(t).start + |switch| + 1 < Inner(t).end
  {
    var s := Inner(t);
    var a := s.start + |switch|;
    if s.end == a + 1 {
      var p := t[s.start..a];
      SwitchIsPlain(p, switch);
      assert t == if s.start == 1 then "\"" + p + "\"\"" else p + "\"";
      SingleQuoteValueIsOpen(p);
      assert false;
    }
  }

  // ---------------------------------------------------------------- last_value

  function Later(v: Span, n: nat): Span { Span(v.start + n, v.end + n) }

  /** The value range a token contributes. */
  function TokenSpan(t: string, switch: SwitchName): (v: Option<Span>)
    ensures v.Some? ==> 0 < v.value.start <= v.value.end <= |t|
  {
    if Closed(t) && Matches(t, switch) then Some(ValueSpan(t, switch)) else None
  }

  /** The value of the last complete token that carries the switch. */
  function LastSpan(s: string, switch: SwitchName): (v: Option<Span>)
    ensures v.Some? ==> 0 < v.value.start <= v.value.end <= |s|
    decreases |s|
  {
    var p := Next(s);
    if p.None? then None
    else
      var here := TokenSpan(p.value.text, switch);
      Prefer(LastSpan(p.value.rest, switch), |p.value.spaces + p.value.text|,
             Prefer(here, |p.value.spaces|, None))
  }

  function Prefer(rest: Option<Span>, n: nat, otherwise: Option<Span>): Option<Span> {
    if rest.Some? then Some(Later(rest.value, n)) else otherwise
  }

  lemma SkipSpaces(s: string, k: nat)
    requires k <= |s| && forall i :: 0 <= i < k ==> Space(s[i])
    ensures Spaces(s) == k + Spaces(s[k..])
  {
    if k > 0 {
      SkipSpaces(s[1..], k - 1);
      assert s[1..][k - 1..] == s[k..];
    } else {
      assert s[0..] == s;
    }
  }

  lemma SpacesAre(s: string, k: nat)
    requires k <= |s| && forall i :: 0 <= i < k ==> Space(s[i])
    requires k < |s| ==> !Space(s[k])
    ensures Spaces(s) == k
  {
    SkipSpaces(s, k);
  }

  lemma SlicesOfSuffix(args: string, begin: nat, start: nat, end: nat)
    requires begin <= start <= end <= |args|
    ensures args[begin..][start - begin..] == args[start..]
    ensures args[begin..][..start - begin] == args[begin..start]
    ensures args[start..][..end - start] == args[start..end]
    ensures args[start..][end - start..] == args[end..]
  {
  }

  lemma NextSplits(s: string, k: nat, n: nat)
    requires Spaces(s) == k <= |s| && TokenLength(L0, s[k..]) == n <= |s| - k
    ensures Next(s) == if k == |s| then None else Some(Piece(s[..k], s[k..][..n], s[k..][n..]))
  {
    hide TokenLength, Spaces, Space;
    assert k == |s| <==> s[k..] == [];
  }

  /** What one round of the tokenizer finds. */
  lemma NextIs(args: string, begin: nat, start: nat, end: nat)
    requires begin <= start <= end <= |args|
    requires forall i :: begin <= i < start ==> Space(args[i])
    requires start < |args| ==> !Space(args[start])
    requires end - start == TokenLength(L0, args[start..])
    ensures Next(args[begin..])
         == if start == |args| then None else Some(Piece(args[begin..start], args[start..end], args[end..]))
  {
    hide TokenLength, Spaces, Space, Next;
    SlicesOfSuffix(args, begin, start, end);
    SpacesAre(args[begin..], start - begin);
    NextSplits(args[begin..], start - begin, end - start);
  }

  /** The value range of one complete token. */
  method TokenRange(token: string, switch: SwitchName) returns (result: Option<Span>)
    requires Closed(token)
    ensures result == TokenSpan(token, switch)
  {
    hide ReadAll, Whole, Lower;
    var start, end := 0, |token|;
    if token[start] == '\"' && token[end - 1] == '\"' {
      LoneQuoteIsOpen(token);
      start := start + 1;
      end := end - 1;
    }
    if end - start < |switch| || !SameIgnoringCase(token[start..start + |switch|], switch) {
      return None;
    }
    start := start + |switch|;
    if end > start && token[start] == '\"' && token[end - 1] == '\"' {
      ValueQuotesArePaired(token, switch);
      start := start + 1;
      end := end - 1;
    }
    result := Some(Span(start, end));
  }

  /** One round of the outer loop: skip white space, scan one token, look at it. */
  method Round(args: string, begin: nat, switch: SwitchName) returns (cursor: nat, found: Option<Span>)
    requires begin < |args|
    ensures begin < cursor <= |args|
    ensures found.Some? ==> begin < found.value.start <= found.value.end <= |args|
    ensures LastSpan(args[begin..], switch)
         == Prefer(LastSpan(args[cursor..], switch), cursor - begin, if found.None? then None
             else Some(Earlier(found.value, begin)))
  {
    hide Next, TokenSpan, TokenLength, Spaces;
    cursor := begin;
    while cursor < |args| && Space(args[cursor])
      invariant begin <= cursor <= |args|
      invariant forall i :: begin <= i < cursor ==> Space(args[i])
    {
      cursor := cursor + 1;
    }
    var start := cursor;
    var end, quoted := ScanToken(args, start);
    cursor := end;
    found := None;
    NextIs(args, begin, start, end);
    if start == end {
      assert args[cursor..] == [];
      return;
    }
    assert args[begin..start] + args[start..end] == args[begin..end];
    var token := args[start..end];
    TokenIsWhole(args, start, end);
    if quoted {
      OpenTokenHasNoValue(token, switch);
      return;
    }
    var range := TokenRange(token, switch);
    found := Prefer(range, start, None);
  }

  lemma TokenIsWhole(args: string, start: nat, end: nat)
    requires start <= end <= |args| && end - start == TokenLength(L0, args[start..])
    ensures Whole(L0, args[start..end])
  {
    assert args[start..][..end - start] == args[start..end];
  }

  lemma OpenTokenHasNoValue(t: string, switch: SwitchName)
    requires ReadAll(L0, t).quoted
    ensures TokenSpan(t, switch) == None
  {
  }

  function Earlier(v: Span, n: nat): Span
    requires n <= v.start <= v.end
  {
    Span(v.start - n, v.end - n)
  }

  /** `last_value`. The slices it takes are in range on every input, and so is the span it returns. */
  method LastValue(args: string, switch: SwitchName) returns (result: Option<Span>)
    ensures result == LastSpan(args, switch)
    ensures result.Some? ==> result.value.start <= result.value.end <= |args|
  {
    hide Next, TokenSpan;
    var cursor := 0;
    result := None;
    assert args[0..] == args;
    while cursor < |args|
      invariant cursor <= |args|
      invariant LastSpan(args, switch) == Prefer(LastSpan(args[cursor..], switch), cursor, result)
    {
      var end, found := Round(args, cursor, switch);
      cursor := end;
      if found.Some? {
        result := found;
      }
    }
    assert args[cursor..] == [];
  }

  method ScanToken(args: string, start: nat) returns (end: nat, quoted: bool)
    requires start <= |args|
    ensures start <= end <= |args| && end - start == TokenLength(L0, args[start..])
    ensures quoted == ReadAll(L0, args[start..end]).quoted
  {
    end, quoted := start, false;
    var slashes := 0;
    assert args[start..start] == [];
    while end < |args|
      invariant start <= end <= |args| && slashes >= 0
      invariant ReadAll(L0, args[start..end]) == Lex(quoted, slashes)
      invariant TokenLength(L0, args[start..]) == end - start + TokenLength(Lex(quoted, slashes), args[end..])
    {
      var byte := args[end];
      if Space(byte) && !quoted {
        break;
      }
      assert args[start..end + 1] == args[start..end] + [byte];
      ReadAllSplit(L0, args[start..end], [byte]);
      assert [byte][1..] == [];
      assert args[end..][1..] == args[end + 1..];
      if byte == '\"' && slashes % 2 == 0 {
        quoted := !quoted;
      }
      slashes := if byte == '\\' then slashes + 1 else 0;
      end := end + 1;
    }
  }

  // ---------------------------------------------------------------- feature lists

  function TrimStart(s: string): string {
    if s != [] && White(s[0]) then TrimStart(s[1..]) else s
  }

  function TrimEnd(s: string): string {
    if s != [] && White(s[|s| - 1]) then TrimEnd(s[..|s| - 1]) else s
  }

  function Trim(s: string): string { TrimEnd(TrimStart(s)) }

  function FirstComma(s: string): (n: nat)
    ensures n <= |s|
    ensures forall i :: 0 <= i < n ==> s[i] != ','
    ensures n < |s| ==> s[n] == ','
  {
    if s == [] || s[0] == ',' then 0 else 1 + FirstComma(s[1..])
  }

  predicate IsFeature(piece: string) { Trim(piece) == FEATURE }

  /** One of the comma-separated pieces is the feature, after trimming. */
  predicate Lists(value: string)
    decreases |value|
  {
    var n := FirstComma(value);
    IsFeature(value[..n]) || (n < |value| && Lists(value[n + 1..]))
  }

  predicate Contains(args: string, switch: SwitchName)
  {
    var v := LastSpan(args, switch);
    v.Some? && Lists(args[v.value.start..v.value.end])
  }

  function Insert(s: string, at: nat, text: string): string
    requires at <= |s|
  {
    s[..at] + text + s[at..]
  }

  /** The text an edit adds to a value. */
  function Addition(value: string): string {
    (if Trim(value) == [] then "" else ",") + FEATURE
  }

  function Separator(args: string): string {
    if args != [] && !Space(args[|args| - 1]) then " " else ""
  }

  /** `add_feature`: at most one insertion. */
  function AddFeature(args: string, switch: SwitchName): (r: string)
  {
    var v := LastSpan(args, switch);
    if Contains(args, switch) then args
    else if v.Some? then Insert(args, v.value.end, Addition(args[v.value.start..v.value.end]))
    else args + Separator(args) + switch + FEATURE
  }

  function Configure(args: string, win7Build: bool, disabled: bool): string {
    if !win7Build then args
    else if disabled then AddFeature(args, DISABLE)
    else if Contains(args, DISABLE) then args
    else AddFeature(args, ENABLE)
  }

  predicate Requested(args: string) {
    Contains(args, ENABLE) && !Contains(args, DISABLE)
  }
}
