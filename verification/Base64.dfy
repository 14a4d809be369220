/** Base64 as section 4 of RFC 4648 defines it, and its strict decoding, which skips white space. */
module Base64 {
  import opened Common

  type Six = n: int | 0 <= n < 64

  const PAD := '='

  function Symbol(v: Six): char {
    if v < 26 then ('A' as int + v) as char
    else if v < 52 then ('a' as int + v - 26) as char
    else if v < 62 then ('0' as int + v - 52) as char
    else if v == 62 then '+' else '/'
  }

  function Value(c: char): Option<Six> {
    if 'A' <= c <= 'Z' then Some(c as int - 'A' as int)
    else if 'a' <= c <= 'z' then Some(c as int - 'a' as int + 26)
    else if '0' <= c <= '9' then Some(c as int - '0' as int + 52)
    else if c == '+' then Some(62)
    else if c == '/' then Some(63)
    else None
  }

  const UPPER := "ABCDEFGHIJKLMNOPQRSTUVWXYZ"
  const LOWER := "abcdefghijklmnopqrstuvwxyz"
  const DIGITS := "0123456789"
  const ALPHABET := UPPER + LOWER + DIGITS + "+/"

  lemma Letters(v: nat)
    requires v < 26
    ensures |UPPER| == |LOWER| == 26
    ensures UPPER[v] == ('A' as int + v) as char && LOWER[v] == ('a' as int + v) as char
  {
  }

  lemma TenDigits(v: nat)
    requires v < 10
    ensures |DIGITS| == 10 && DIGITS[v] == ('0' as int + v) as char
  {
  }

  predicate Space(c: char) { c == ' ' || c == '\t' || c == '\r' || c == '\n' }

  lemma SymbolBack(v: Six)
    ensures Value(Symbol(v)) == Some(v)
    ensures Symbol(v) != PAD && !Space(Symbol(v))
  {
  }

  lemma Joined(a: string, b: string, c: string, d: string, v: nat)
    requires v < |a| + |b| + |c| + |d|
    ensures (a + b + c + d)[v] == if v < |a| then a[v] else if v < |a| + |b| then b[v - |a|]
            else if v < |a| + |b| + |c| then c[v - |a| - |b|] else d[v - |a| - |b| - |c|]
  {
  }

  lemma SymbolPlace(v: Six)
    ensures |ALPHABET| == 64 && Symbol(v) == ALPHABET[v]
  {
    Letters(0);
    TenDigits(0);
    Joined(UPPER, LOWER, DIGITS, "+/", v);
    if v < 26 {
      Letters(v);
    } else if v < 52 {
      Letters(v - 26);
    } else if v < 62 {
      TenDigits(v - 52);
    }
  }

  lemma ValueBack(c: char, v: Six)
    requires Value(c) == Some(v)
    ensures Symbol(v) == c
  {
  }

  /** The alphabet of section 4 of RFC 4648: a value is the place of its character, and other characters have none. */
  lemma AlphabetIs(v: Six, c: char)
    ensures |ALPHABET| == 64 && Symbol(v) == ALPHABET[v]
    ensures Value(c) == Some(v) <==> c == ALPHABET[v]
  {
    SymbolPlace(v);
    SymbolBack(v);
    if Value(c) == Some(v) {
      ValueBack(c, v);
    }
  }

  lemma HasValueIff(c: char)
    ensures Value(c).Some? <==> c in ALPHABET
    ensures Value(c).Some? ==> c != PAD && !Space(c)
  {
    SymbolPlace(0);
    if Value(c).Some? {
      AlphabetIs(Value(c).value, c);
    }
    if c in ALPHABET {
      var v :| 0 <= v < |ALPHABET| && ALPHABET[v] == c;
      AlphabetIs(v, c);
    }
  }

  // ---------------------------------------------------------------- encoding

  /** The four symbol values of three bytes; missing bytes count as zero. */
  function First(a: Byte): Six { a / 4 }
  function Second(a: Byte, b: Byte): Six { a % 4 * 16 + b / 16 }
  function Third(b: Byte, c: Byte): Six { b % 16 * 4 + c / 64 }
  function Fourth(c: Byte): Six { c % 64 }

  function Encode(data: seq<Byte>): (r: string)
    ensures '\n' !in r
    ensures data != [] ==> r != ""
  {
    if data == [] then ""
    else if |data| == 1 then Text([First(data[0]), Second(data[0], 0)]) + [PAD, PAD]
    else if |data| == 2 then Text([First(data[0]), Second(data[0], data[1]), Third(data[1], 0)]) + [PAD]
    else
      Text([First(data[0]), Second(data[0], data[1]), Third(data[1], data[2]), Fourth(data[2])]) + Encode(data[3..])
  }

  function Text(values: seq<Six>): (r: string)
    ensures |r| == |values| && '\n' !in r
  {
    if values == [] then ""
    else
      SymbolBack(values[|values| - 1]);
      Text(values[..|values| - 1]) + [Symbol(values[|values| - 1])]
  }

  // ---------------------------------------------------------------- strict decoding

  /** What the decoder has seen: symbol values and the number of padding characters. */
  datatype Seen = Seen(values: seq<Six>, padding: nat)

  /** One character; data after padding and foreign characters fail. */
  function Look(s: Option<Seen>, c: char): Option<Seen> {
    if s.None? then None
    else if c == PAD then Some(Seen(s.value.values, s.value.padding + 1))
    else if Space(c) then s
    else if Value(c).None? || s.value.padding > 0 then None
    else Some(Seen(s.value.values + [Value(c).value], 0))
  }

  function Scan(text: string): Option<Seen> {
    if text == "" then Some(Seen([], 0)) else Look(Scan(text[..|text| - 1]), text[|text| - 1])
  }

  /** The three bytes of four symbol values. */
  function Byte1(p: Six, q: Six): Byte { var a: int, b: int := p, q; a * 4 + b / 16 }
  function Byte2(q: Six, r: Six): Byte { var b: int, c: int := q, r; b % 16 * 16 + c / 4 }
  function Byte3(r: Six, s: Six): Byte { var c: int, d: int := r, s; c % 4 * 64 + d }

  /** The bytes of the symbol values, four at a time; bits beyond the last whole byte are dropped. */
  function Bytes(v: seq<Six>): seq<Byte> {
    if |v| <= 1 then []
    else if |v| == 2 then [Byte1(v[0], v[1])]
    else if |v| == 3 then [Byte1(v[0], v[1]), Byte2(v[1], v[2])]
    else [Byte1(v[0], v[1]), Byte2(v[1], v[2]), Byte3(v[2], v[3])] + Bytes(v[4..])
  }

  function Decode(text: string): Option<seq<Byte>> {
    match Scan(text)
    case None => None
    case Some(s) =>
      var n := |s.values|;
      if n % 4 == 1 then None
      else if s.padding > 0 && (s.padding > 2 || (n + s.padding) % 4 != 0) then None
      else Some(Bytes(s.values))
  }

  // ---------------------------------------------------------------- round trip

  /** The symbol values of the data, and the padding that completes the last group. */
  function Sixes(data: seq<Byte>): Seen {
    if data == [] then Seen([], 0)
    else if |data| == 1 then Seen([First(data[0]), Second(data[0], 0)], 2)
    else if |data| == 2 then Seen([First(data[0]), Second(data[0], data[1]), Third(data[1], 0)], 1)
    else
      var rest := Sixes(data[3..]);
      var group := [First(data[0]), Second(data[0], data[1]), Third(data[1], data[2]), Fourth(data[2])];
      Seen(group + rest.values, rest.padding)
  }

  lemma FourMore(n: nat)
    ensures (4 + n) % 4 == n % 4
  {
  }

  lemma {:induction false} SixesFillGroups(data: seq<Byte>)
    ensures (|Sixes(data).values| + Sixes(data).padding) % 4 == 0 && Sixes(data).padding <= 2
    decreases |data|
  {
    hide First, Second, Third, Fourth;
    if |data| > 2 {
      SixesFillGroups(data[3..]);
      var rest := Sixes(data[3..]);
      assert |Sixes(data).values| == 4 + |rest.values|;
      FourMore(|rest.values| + rest.padding);
    }
  }

  lemma ScanOne(text: string, c: char)
    ensures Scan(text + [c]) == Look(Scan(text), c)
  {
    hide Look;
    assert (text + [c])[..|text + [c]| - 1] == text;
  }

  lemma {:induction false} ScanText(values: seq<Six>)
    ensures Scan(Text(values)) == Some(Seen(values, 0))
  {
    if values != [] {
      hide Scan;
      var init, last := values[..|values| - 1], values[|values| - 1];
      ScanText(init);
      SymbolBack(last);
      ScanOne(Text(init), Symbol(last));
      assert values == init + [last];
    }
  }

  /** Looking at a character does not depend on the values seen long before. */
  lemma LookJoins(front: seq<Six>, s: Seen, c: char)
    requires Look(Some(s), c).Some?
    ensures var r := Look(Some(s), c).value;
            Look(Some(Seen(front + s.values, s.padding)), c) == Some(Seen(front + r.values, r.padding))
  {
    if Value(c).Some? {
      assert front + s.values + [Value(c).value] == front + (s.values + [Value(c).value]);
    }
  }

  lemma LookSome(s: Option<Seen>, c: char)
    requires Look(s, c).Some?
    ensures s.Some?
  {
  }

  lemma ScanNothing()
    ensures Scan("") == Some(Seen([], 0))
  {
  }

  lemma {:induction false} ScanJoins(a: string, b: string)
    requires Scan(a).Some? && Scan(a).value.padding == 0 && Scan(b).Some?
    ensures Scan(a + b) == Some(Seen(Scan(a).value.values + Scan(b).value.values, Scan(b).value.padding))
    decreases |b|
  {
    hide Scan, Look;
    var va := Scan(a).value.values;
    if b == "" {
      ScanNothing();
      assert a + b == a && va + [] == va;
    } else {
      var init, c := b[..|b| - 1], b[|b| - 1];
      assert b == init + [c];
      assert a + b == a + init + [c];
      ScanOne(init, c);
      ScanOne(a + init, c);
      LookSome(Scan(init), c);
      ScanJoins(a, init);
      LookJoins(va, Scan(init).value, c);
    }
  }

  lemma ScanPad(text: string)
    requires Scan(text).Some?
    ensures Scan(text + [PAD]) == Some(Seen(Scan(text).value.values, Scan(text).value.padding + 1))
  {
    ScanOne(text, PAD);
  }

  lemma {:induction false} ScanPads(values: seq<Six>, pads: string)
    requires forall i :: 0 <= i < |pads| ==> pads[i] == PAD
    ensures Scan(Text(values) + pads) == Some(Seen(values, |pads|))
  {
    hide Scan, Text;
    if pads == "" {
      ScanText(values);
      assert Text(values) + pads == Text(values);
    } else {
      ScanPads(values, pads[..|pads| - 1]);
      ScanPad(Text(values) + pads[..|pads| - 1]);
      assert Text(values) + pads == Text(values) + pads[..|pads| - 1] + [PAD];
    }
  }

  lemma {:induction false} ScanEncoded(data: seq<Byte>)
    ensures Scan(Encode(data)) == Some(Sixes(data))
  {
    hide Scan, Text, First, Second, Third, Fourth;
    if data == [] {
      ScanText([]);
    } else if |data| == 1 {
      ScanPads([First(data[0]), Second(data[0], 0)], [PAD, PAD]);
    } else if |data| == 2 {
      ScanPads([First(data[0]), Second(data[0], data[1]), Third(data[1], 0)], [PAD]);
    } else {
      var group := [First(data[0]), Second(data[0], data[1]), Third(data[1], data[2]), Fourth(data[2])];
      ScanText(group);
      ScanEncoded(data[3..]);
      ScanJoins(Text(group), Encode(data[3..]));
    }
  }

  lemma SymbolsBack(a: Byte, b: Byte, c: Byte)
    ensures Byte1(First(a), Second(a, b)) == a
    ensures Byte2(Second(a, b), Third(b, c)) == b
    ensures Byte3(Third(b, c), Fourth(c)) == c
  {
  }

  lemma {:induction false} BytesBack(data: seq<Byte>)
    ensures Bytes(Sixes(data).values) == data
  {
    hide First, Second, Third, Fourth, Byte1, Byte2, Byte3;
    if |data| == 1 {
      SymbolsBack(data[0], 0, 0);
    } else if |data| == 2 {
      SymbolsBack(data[0], data[1], 0);
    } else if |data| > 2 {
      var rest := Sixes(data[3..]).values;
      BytesBack(data[3..]);
      SymbolsBack(data[0], data[1], data[2]);
      GroupBack([First(data[0]), Second(data[0], data[1]), Third(data[1], data[2]), Fourth(data[2])], rest);
      assert data == [data[0], data[1], data[2]] + data[3..];
    }
  }

  lemma GroupBack(group: seq<Six>, rest: seq<Six>)
    requires |group| == 4
    ensures Bytes(group + rest)
         == [Byte1(group[0], group[1]), Byte2(group[1], group[2]), Byte3(group[2], group[3])] + Bytes(rest)
  {
    hide Byte1, Byte2, Byte3;
    assert (group + rest)[4..] == rest;
  }

  // ---------------------------------------------------------------- what is refused

  /** A prefix that fails stays failed, and padding that was seen stays seen. */
  lemma {:induction false} ScanStays(text: string, i: nat)
    requires i <= |text|
    ensures Scan(text).Some? ==> Scan(text[..i]).Some? && Scan(text[..i]).value.padding <= Scan(text).value.padding
    decreases |text|
  {
    if i == |text| {
      assert text[..i] == text;
    } else {
      var init := text[..|text| - 1];
      assert init[..i] == text[..i];
      ScanStays(init, i);
    }
  }

  lemma {:induction false} ScanSkips(a: string, c: char, b: string)
    requires c in " \t\r\n"
    ensures Scan(a + [c] + b) == Scan(a + b)
    decreases |b|
  {
    hide Value;
    if b == "" {
      ScanOne(a, c);
      assert a + [c] + b == a + [c] && a + b == a;
    } else {
      var init, last := b[..|b| - 1], b[|b| - 1];
      ScanSkips(a, c, init);
      ScanOne(a + [c] + init, last);
      ScanOne(a + init, last);
      assert a + [c] + b == a + [c] + init + [last] && a + b == a + init + [last];
    }
  }

  /** White space makes no difference, wherever it stands, between padding characters too. */
  lemma WhiteSpaceIsSkipped(a: string, c: char, b: string)
    requires c in " \t\r\n"
    ensures Decode(a + [c] + b) == Decode(a + b)
  {
    hide Scan;
    ScanSkips(a, c, b);
  }

  /** A character outside the alphabet that is neither padding nor white space is refused, wherever it stands. */
  lemma ForeignIsRefused(text: string, i: nat)
    requires i < |text| && text[i] !in ALPHABET && text[i] != '=' && text[i] !in " \t\r\n"
    ensures Decode(text).None?
  {
    HasValueIff(text[i]);
    hide Value, Scan;
    assert text[..i + 1] == text[..i] + [text[i]];
    ScanOne(text[..i], text[i]);
    ScanStays(text, i + 1);
  }

  lemma ValueBehindPadding(text: string, i: nat, j: nat)
    requires i < j < |text| && text[i] == '=' && Value(text[j]).Some?
    ensures Decode(text).None?
  {
    hide Scan;
    assert text[..i + 1] == text[..i] + [text[i]] && text[..j + 1] == text[..j] + [text[j]];
    ScanOne(text[..i], text[i]);
    ScanOne(text[..j], text[j]);
    assert text[..j][..i + 1] == text[..i + 1];
    ScanStays(text[..j], i + 1);
    ScanStays(text, j + 1);
  }

  /** A symbol behind padding is refused. */
  lemma NothingFollowsPadding(text: string, i: nat, j: nat)
    requires i < j < |text| && text[i] == '=' && text[j] in ALPHABET
    ensures Decode(text).None?
  {
    HasValueIff(text[j]);
    ValueBehindPadding(text, i, j);
  }

  /** Padding may be left out, but where it is given it completes the last group; a lone symbol is never enough. */
  lemma PaddingIsRightIff(values: seq<Six>, pads: string)
    requires forall i :: 0 <= i < |pads| ==> pads[i] == '='
    ensures Decode(Text(values) + pads).Some? <==>
            match |values| % 4
            case 0 => |pads| == 0
            case 1 => false
            case 2 => |pads| == 0 || |pads| == 2
            case _ => |pads| == 0 || |pads| == 1
    ensures Decode(Text(values) + pads).Some? ==> Decode(Text(values) + pads) == Decode(Text(values))
  {
    hide Scan, Text, Bytes;
    ScanPads(values, pads);
    ScanText(values);
  }

  lemma {:induction false} FilledBytes(v: seq<Six>, k: nat)
    requires |v| % 4 != 1 && k < 4 && (|v| + k) % 4 == 0
    ensures var full := Bytes(v + seq(k, _ => 0));
            |full| == 3 * (|v| + k) / 4 && Bytes(v) == full[..3 * |v| / 4]
  {
    var filled := v + seq(k, _ => 0);
    if |v| > 3 {
      FilledBytes(v[4..], k);
      assert filled[4..] == v[4..] + seq(k, _ => 0);
    } else {
      assert filled != [] ==> filled[4..] == [];
    }
  }

  /** A last group that is not complete gives the whole bytes of the group completed by zero values. */
  lemma PartialGroup(values: seq<Six>, k: nat)
    requires |values| % 4 != 1 && k < 4 && (|values| + k) % 4 == 0
    ensures var full := Decode(Text(values + seq(k, _ => 0)));
            && full.Some? && |full.value| == 3 * (|values| + k) / 4
            && Decode(Text(values)) == Some(full.value[..3 * |values| / 4])
  {
    hide Scan, Text, Bytes;
    ScanText(values);
    ScanText(values + seq(k, _ => 0));
    FilledBytes(values, k);
  }

  /** Decoding an encoding gives the data back. */
  lemma RoundTrip(data: seq<Byte>)
    ensures Decode(Encode(data)) == Some(data)
  {
    hide Scan, Encode, Bytes, Sixes;
    ScanEncoded(data);
    SixesFillGroups(data);
    BytesBack(data);
  }
}
