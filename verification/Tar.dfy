/**
  The tar reader for driver packages: ustar members with split names, GNU long names, and the
  member kinds it skips or refuses ("ustar Interchange Format" of the POSIX pax utility).
 */
module Tar {
  import opened Common

  const BLOCK := 512

  datatype TarError = InvalidSize | Truncated | Unsupported(kind: int)

  type Files = map<string, seq<Byte>>

  // ---------------------------------------------------------------- fields

  /** `octal`: digits up to a NUL or a space. */
  function OctalFrom(s: seq<Byte>, value: nat): Result<nat, TarError>
    decreases |s|
  {
    if s == [] || s[0] == 0 || s[0] == 32 then Ok(value)
    else if s[0] < 48 || s[0] > 55 then Err(InvalidSize)
    else OctalFrom(s[1..], value * 8 + (s[0] - 48))
  }

  method Octal(s: seq<Byte>) returns (r: Result<nat, TarError>)
    ensures r == OctalFrom(s, 0)
  {
    var value := 0;
    assert s[0..] == s;
    for i := 0 to |s|
      invariant value >= 0 && OctalFrom(s, 0) == OctalFrom(s[i..], value)
    {
      var byte := s[i];
      if byte == 0 || byte == 32 {
        return Ok(value);
      }
      if byte < 48 || byte > 55 {
        return Err(InvalidSize);
      }
      assert s[i..][1..] == s[i + 1..];
      var digit: int := byte - 48;
      value := value * 8 + digit;
    }
    assert s[|s|..] == [];
    r := Ok(value);
  }

  /** One character per byte. */
  function Latin(s: seq<Byte>): (r: string)
    ensures |r| == |s| && forall i :: 0 <= i < |s| ==> r[i] == s[i] as char
  {
    seq(|s|, i requires 0 <= i < |s| => s[i] as char)
  }

  predicate LineEnd(c: char) { c == '\n' || c == '\r' }

  /** Cuts at the first NUL that no line end follows: the dot of the source's pattern does not match line ends. */
  function CutAtNul(s: string): string {
    if s == [] then []
    else if s[0] as int == 0 && (forall i :: 0 <= i < |s| ==> !LineEnd(s[i])) then []
    else [s[0]] + CutAtNul(s[1..])
  }

  function Text(field: seq<Byte>): string { CutAtNul(Latin(field)) }

  function UpToNul(s: seq<Byte>): (r: seq<Byte>)
    ensures r <= s
  {
    if s == [] || s[0] == 0 then [] else [s[0]] + UpToNul(s[1..])
  }

  predicate AllZero(s: seq<Byte>) { forall i :: 0 <= i < |s| ==> s[i] == 0 }

  const USTAR: seq<Byte> := [117, 115, 116, 97, 114]

  function KindOf(h: seq<Byte>): Byte
    requires |h| == BLOCK
  {
    if h[156] == 0 then 48 else h[156]
  }

  /** The name a regular file gets: the pending long name or the header's own, below the ustar prefix. */
  function NameOf(h: seq<Byte>, longName: Option<string>): string
    requires |h| == BLOCK
  {
    var base := if longName.Some? then longName.value else Text(h[0..100]);
    var prefix := Text(h[345..500]);
    if h[257..262] == USTAR && prefix != [] then prefix + "/" + base else base
  }

  /** The offset of the header after a member: data is padded to whole blocks. */
  function Padded(size: nat): (n: nat)
    ensures size <= n < size + BLOCK && n % BLOCK == 0
  {
    var blocks := (size + BLOCK - 1) / BLOCK;
    assert size + BLOCK - 1 == blocks * BLOCK + (size + BLOCK - 1) % BLOCK;
    blocks * BLOCK
  }

  // ---------------------------------------------------------------- reader

  datatype State = State(longName: Option<string>, files: Files)

  predicate Skipped(kind: Byte) { kind == 53 || kind == 120 || kind == 103 }

  /** What one member does to the reader's state. */
  function Apply(st: State, h: seq<Byte>, data: seq<Byte>, decode: seq<Byte> -> string): Result<State, TarError>
    requires |h| == BLOCK
  {
    if KindOf(h) == 76 then Ok(st.(longName := Some(decode(UpToNul(data)))))
    else if KindOf(h) == 48 then
      var name := NameOf(h, st.longName);
      Ok(State(None, if name == [] then st.files else st.files[name := data]))
    else if Skipped(KindOf(h)) then Ok(st)
    else Err(Unsupported(KindOf(h)))
  }

  function ParseFrom(bytes: seq<Byte>, offset: nat, st: State, decode: seq<Byte> -> string): Result<Files, TarError>
    decreases |bytes| - offset
  {
    if offset + BLOCK > |bytes| || AllZero(bytes[offset..offset + BLOCK]) then Ok(st.files)
    else
      var h := bytes[offset..offset + BLOCK];
      var size := OctalFrom(h[124..136], 0);
      if size.Err? then Err(size.error)
      else
        var start := offset + BLOCK;
        if start + size.value > |bytes| then Err(Truncated)
        else
          var next := Apply(st, h, bytes[start..start + size.value], decode);
          if next.Err? then Err(next.error) else ParseFrom(bytes, start + Padded(size.value), next.value, decode)
  }

  lemma ParseEnds(bytes: seq<Byte>, offset: nat, st: State, decode: seq<Byte> -> string)
    requires offset + BLOCK > |bytes| || AllZero(bytes[offset..offset + BLOCK])
    ensures ParseFrom(bytes, offset, st, decode) == Ok(st.files)
  {
  }

  lemma ParseMember(bytes: seq<Byte>, offset: nat, st: State, decode: seq<Byte> -> string)
    requires offset + BLOCK <= |bytes| && !AllZero(bytes[offset..offset + BLOCK])
    ensures var h := bytes[offset..offset + BLOCK];
            var size, start := OctalFrom(h[124..136], 0), offset + BLOCK;
            ParseFrom(bytes, offset, st, decode) ==
            if size.Err? then Err(size.error)
            else if start + size.value > |bytes| then Err(Truncated)
            else
              var next := Apply(st, h, bytes[start..start + size.value], decode);
              if next.Err? then Err(next.error)
              else ParseFrom(bytes, start + Padded(size.value), next.value, decode)
  {
    hide OctalFrom, Apply, Padded;
  }

  /** The name of a regular file. */
  method MemberName(header: seq<Byte>, longName: Option<string>) returns (name: string)
    requires |header| == BLOCK
    ensures name == NameOf(header, longName)
  {
    hide Text;
    name := if longName.Some? then longName.value else Text(header[0..100]);
    if header[257..262] == USTAR {
      var prefix := Text(header[345..500]);
      if prefix != [] {
        name := prefix + "/" + name;
      }
    }
  }

  /** `parseTarEntries`. It ends on every input and every slice it takes lies inside the buffer. */
  method ParseTar(bytes: seq<Byte>, decode: seq<Byte> -> string) returns (r: Result<Files, TarError>)
    ensures r == ParseFrom(bytes, 0, State(None, map[]), decode)
  {
    hide ParseFrom, OctalFrom, NameOf, Padded, AllZero, UpToNul;
    var files: Files := map[];
    var longName: Option<string> := None;
    var offset := 0;
    while offset + BLOCK <= |bytes|
      invariant offset >= 0
      invariant ParseFrom(bytes, 0, State(None, map[]), decode)
             == ParseFrom(bytes, offset, State(longName, files), decode)
    {
      var header := bytes[offset..offset + BLOCK];
      if AllZero(header) {
        break;
      }
      ParseMember(bytes, offset, State(longName, files), decode);
      var size := Octal(header[124..136]);
      if size.Err? {
        return Err(size.error);
      }
      var dataStart := offset + BLOCK;
      var dataEnd := dataStart + size.value;
      if dataEnd > |bytes| {
        return Err(Truncated);
      }
      var data := bytes[dataStart..dataEnd];
      var kind := KindOf(header);
      if kind == 76 {
        longName := Some(decode(UpToNul(data)));
      } else if kind == 48 {
        var name := MemberName(header, longName);
        longName := None;
        if name != [] {
          files := files[name := data];
        }
      } else if !Skipped(kind) {
        return Err(Unsupported(kind));
      }
      offset := dataStart + Padded(size.value);
    }
    ParseEnds(bytes, offset, State(longName, files), decode);
    r := Ok(files);
  }

  // ---------------------------------------------------------------- archives

  datatype Member = Member(header: seq<Byte>, data: seq<Byte>, padding: seq<Byte>)

  function Power8(n: nat): nat { if n == 0 then 1 else 8 * Power8(n - 1) }

  /** n octal digits of a size, highest first. */
  function Digits(size: nat, n: nat): (s: seq<Byte>)
    ensures |s| == n
    ensures forall i :: 0 <= i < n ==> 48 <= s[i] <= 55
  {
    if n == 0 then [] else Digits(size / 8, n - 1) + [48 + size % 8]
  }

  /**
    A member as a ustar writer lays it out: eleven octal digits and a terminator for the size, data padded to a block.
   */
  predicate Sized(m: Member) {
    && |m.header| == BLOCK
    && |m.data| < Power8(11)
    && m.header[124..135] == Digits(|m.data|, 11)
    && (m.header[135] == 0 || m.header[135] == 32)
    && |m.padding| == Padded(|m.data|) - |m.data|
  }

  /** A member of a kind that the reader takes. */
  predicate Written(m: Member) {
    && Sized(m)
    && (KindOf(m.header) == 48 || KindOf(m.header) == 76 || Skipped(KindOf(m.header)))
  }

  function Bytes(m: Member): seq<Byte> { m.header + m.data + m.padding }

  function Image(ms: seq<Member>): seq<Byte> {
    if ms == [] then [] else Bytes(ms[0]) + Image(ms[1..])
  }

  /** What follows the members: nothing that fills a block, or a zero block. */
  predicate EndOfArchive(tail: seq<Byte>) {
    |tail| < BLOCK || AllZero(tail[..BLOCK])
  }

  function Replay(ms: seq<Member>, st: State, decode: seq<Byte> -> string): State
    requires forall i :: 0 <= i < |ms| ==> Written(ms[i])
  {
    if ms == [] then st
    else
      assert Written(ms[0]);
      Replay(ms[1..], Apply(st, ms[0].header, ms[0].data, decode).value, decode)
  }

  lemma OneDigit(d: Byte, rest: seq<Byte>, v: nat)
    requires 48 <= d <= 55
    ensures OctalFrom([d] + rest, v) == OctalFrom(rest, v * 8 + (d - 48))
  {
    assert ([d] + rest)[1..] == rest;
  }

  lemma Regroup(value: nat, p: nat, size: nat)
    ensures (value * p + size / 8) * 8 + size % 8 == value * (8 * p) + size
  {
  }

  lemma DigitsStep(size: nat, n: nat, rest: seq<Byte>)
    requires n > 0
    ensures Digits(size, n) + rest == Digits(size / 8, n - 1) + ([48 + size % 8] + rest)
  {
  }

  lemma OneDigitLess(size: nat, n: nat)
    requires size < Power8(n) && n > 0
    ensures size / 8 < Power8(n - 1) && Power8(n) == 8 * Power8(n - 1)
  {
  }

  lemma {:induction false} DigitsBack(size: nat, n: nat, rest: seq<Byte>, value: nat)
    requires size < Power8(n)
    ensures OctalFrom(Digits(size, n) + rest, value) == OctalFrom(rest, value * Power8(n) + size)
  {
    if n == 0 {
      assert Digits(size, n) + rest == rest;
    } else {
      hide OctalFrom, Digits, Power8;
      var d: Byte := 48 + size % 8;
      OneDigitLess(size, n);
      DigitsStep(size, n, rest);
      DigitsBack(size / 8, n - 1, [d] + rest, value);
      OneDigit(d, rest, value * Power8(n - 1) + size / 8);
      Regroup(value, Power8(n - 1), size);
    }
  }

  /** The size field of a written member reads back as the size of its data. */
  lemma SizeBack(m: Member)
    requires Sized(m)
    ensures OctalFrom(m.header[124..136], 0) == Ok(|m.data|)
  {
    var last := [m.header[135]];
    assert m.header[124..136] == Digits(|m.data|, 11) + last;
    DigitsBack(|m.data|, 11, last, 0);
  }

  lemma HeaderIsNotZero(m: Member)
    requires Sized(m)
    ensures !AllZero(m.header)
  {
    assert m.header[124] == m.header[124..135][0];
  }

  lemma ImageStep(m: Member, rest: seq<Byte>, before: seq<Byte>)
    requires Sized(m)
    ensures var b := before + (Bytes(m) + rest);
            var o := |before|;
            && o + BLOCK + |m.data| <= |b|
            && b[o..o + BLOCK] == m.header && b[o + BLOCK..o + BLOCK + |m.data|] == m.data
            && o + BLOCK + Padded(|m.data|) == |before + Bytes(m)|
            && b == (before + Bytes(m)) + rest
  {
    hide Padded, Digits;
  }

  /** Parsing an archive from a member boundary on replays the members that follow. */
  lemma {:induction false} ParseReplays(before: seq<Byte>, ms: seq<Member>, tail: seq<Byte>, st: State,
      decode: seq<Byte> -> string)
    requires (forall i :: 0 <= i < |ms| ==> Written(ms[i])) && EndOfArchive(tail)
    ensures ParseFrom(before + (Image(ms) + tail), |before|, st, decode) == Ok(Replay(ms, st, decode).files)
    decreases |ms|
  {
    hide Sized, Apply, OctalFrom, Padded, AllZero;
    if ms == [] {
      assert Image(ms) + tail == tail;
      EndStops(before, tail, st, decode);
    } else {
      var m := ms[0];
      var rest := Image(ms[1..]) + tail;
      assert Written(m);
      assert Image(ms) + tail == Bytes(m) + rest;
      ImageStep(m, rest, before);
      MemberStep(before, m, rest, st, decode);
      ParseReplays(before + Bytes(m), ms[1..], tail, Apply(st, m.header, m.data, decode).value, decode);
    }
  }

  lemma EndStops(before: seq<Byte>, tail: seq<Byte>, st: State, decode: seq<Byte> -> string)
    requires EndOfArchive(tail)
    ensures ParseFrom(before + tail, |before|, st, decode) == Ok(st.files)
  {
    if |tail| >= BLOCK {
      assert (before + tail)[|before|..|before| + BLOCK] == tail[..BLOCK];
    }
  }

  lemma MemberStep(before: seq<Byte>, m: Member, rest: seq<Byte>, st: State, decode: seq<Byte> -> string)
    requires Written(m)
    ensures Apply(st, m.header, m.data, decode).Ok?
    ensures ParseFrom(before + (Bytes(m) + rest), |before|, st, decode)
         == ParseFrom((before + Bytes(m)) + rest, |before + Bytes(m)|, Apply(st, m.header, m.data, decode).value,
                      decode)
  {
    hide OctalFrom, Padded, AllZero, Digits, NameOf;
    ImageStep(m, rest, before);
    SizeBack(m);
    HeaderIsNotZero(m);
  }

  // ---------------------------------------------------------------- what a written archive holds

  datatype Stored = Stored(name: string, data: seq<Byte>)

  /** The regular files of an archive with their full names, in order. */
  function Listing(ms: seq<Member>, longName: Option<string>, decode: seq<Byte> -> string): seq<Stored>
    requires forall i :: 0 <= i < |ms| ==> |ms[i].header| == BLOCK
  {
    if ms == [] then []
    else
      var m := ms[0];
      if KindOf(m.header) == 76 then Listing(ms[1..], Some(decode(UpToNul(m.data))), decode)
      else if KindOf(m.header) == 48 then
        var name := NameOf(m.header, longName);
        (if name == [] then [] else [Stored(name, m.data)]) + Listing(ms[1..], None, decode)
      else Listing(ms[1..], longName, decode)
  }

  function FindLast(list: seq<Stored>, name: string): Option<seq<Byte>> {
    if list == [] then None
    else
      var later := FindLast(list[1..], name);
      if later.Some? then later else if list[0].name == name then Some(list[0].data) else None
  }

  function Lookup(files: Files, name: string): Option<seq<Byte>> {
    if name in files then Some(files[name]) else None
  }

  lemma {:induction false} ReplayHoldsLast(ms: seq<Member>, st: State, decode: seq<Byte> -> string, name: string)
    requires forall i :: 0 <= i < |ms| ==> Written(ms[i])
    ensures forall i :: 0 <= i < |ms| ==> |ms[i].header| == BLOCK
    ensures Lookup(Replay(ms, st, decode).files, name)
         == var last := FindLast(Listing(ms, st.longName, decode), name);
            if last.Some? then last else Lookup(st.files, name)
    decreases |ms|
  {
    hide NameOf, Digits, Padded;
    forall i | 0 <= i < |ms| ensures |ms[i].header| == BLOCK { assert Written(ms[i]); }
    if ms != [] {
      var m := ms[0];
      assert Written(m);
      var next := Apply(st, m.header, m.data, decode).value;
      ReplayHoldsLast(ms[1..], next, decode, name);
      var list := Listing(ms, st.longName, decode);
      if KindOf(m.header) == 48 {
        var rest := Listing(ms[1..], None, decode);
        if NameOf(m.header, st.longName) == [] {
          assert list == [] + rest == rest;
        } else {
          assert list[1..] == rest;
        }
      }
    }
  }

  /**
    For every archive written in ustar layout, the reader returns exactly the last data stored
    under each full name.
   */
  lemma TarRoundTrip(ms: seq<Member>, tail: seq<Byte>, decode: seq<Byte> -> string)
    requires (forall i :: 0 <= i < |ms| ==> Written(ms[i])) && EndOfArchive(tail)
    ensures forall i :: 0 <= i < |ms| ==> |ms[i].header| == BLOCK
    ensures var r := ParseFrom(Image(ms) + tail, 0, State(None, map[]), decode);
            r.Ok? && forall name :: Lookup(r.value, name) == FindLast(Listing(ms, None, decode), name)
  {
    hide ParseFrom, Replay, Listing, FindLast, Written, Image;
    var st := State(None, map[]);
    ParseReplays([], ms, tail, st, decode);
    assert [] + (Image(ms) + tail) == Image(ms) + tail;
    ReplayHoldsLast(ms, st, decode, "");
    forall name ensures Lookup(Replay(ms, st, decode).files, name) == FindLast(Listing(ms, None, decode), name) {
      ReplayHoldsLast(ms, st, decode, name);
    }
  }

  // ---------------------------------------------------------------- split names

  predicate NoNul(s: seq<Byte>) { forall i :: 0 <= i < |s| ==> s[i] != 0 }

  /** A name field gives back the name it was filled with, up to the full width of the field. */
  lemma {:induction false} TextBack(name: seq<Byte>, n: nat)
    requires NoNul(name)
    ensures Text(name + Zeroed(n)) == Latin(name)
    decreases |name|
  {
    var field := name + Zeroed(n);
    if name == [] {
      assert field == Zeroed(n);
      assert forall i :: 0 <= i < n ==> !LineEnd(Latin(field)[i]);
    } else {
      TextBack(name[1..], n);
      assert field[1..] == name[1..] + Zeroed(n);
      assert Latin(field)[1..] == Latin(field[1..]);
      assert Latin(name) == [Latin(name)[0]] + Latin(name[1..]);
    }
  }

  lemma MagicIff(s: seq<Byte>)
    ensures s == USTAR <==> Latin(s) == "ustar"
  {
    assert Latin(USTAR) == "ustar";
    if Latin(s) == "ustar" {
      forall i | 0 <= i < |s| ensures s[i] == USTAR[i] {
        assert Latin(s)[i] == s[i] as char && Latin(USTAR)[i] == USTAR[i] as char;
      }
      assert s == USTAR;
    }
  }

  /** The full name of a regular file whose header splits it into prefix and name. */
  lemma SplitNameBack(h: seq<Byte>, name: seq<Byte>, prefix: seq<Byte>)
    requires |h| == BLOCK && |name| <= 100 && |prefix| <= 155 && NoNul(name) && NoNul(prefix)
    requires h[0..100] == name + Zeroed(100 - |name|)
    requires h[345..500] == prefix + Zeroed(155 - |prefix|)
    ensures NameOf(h, None) == if Latin(h[257..262]) == "ustar" && prefix != [] then Latin(prefix) + "/" + Latin(name)
            else Latin(name)
  {
    hide Text;
    MagicIff(h[257..262]);
    TextBack(name, 100 - |name|);
    TextBack(prefix, 155 - |prefix|);
  }

  // ---------------------------------------------------------------- lists of files

  /** A file as a writer is given it: with a name that fits the header, split or not, or with a long name. */
  datatype File = Split(prefix: seq<Byte>, name: seq<Byte>, data: seq<Byte>)
                | Long(prefix: seq<Byte>, path: string, data: seq<Byte>)

  function FullName(f: File): string {
    match f
    case Split(prefix, name, _) => if prefix == [] then Latin(name) else Latin(prefix) + "/" + Latin(name)
    case Long(prefix, path, _) => if prefix == [] then path else Latin(prefix) + "/" + path
  }

  /** Files without a name are not stored. */
  function FilesOf(fs: seq<File>): seq<Stored> {
    if fs == [] then []
    else (if FullName(fs[0]) == "" then [] else [Stored(FullName(fs[0]), fs[0].data)]) + FilesOf(fs[1..])
  }

  predicate HoldsName(h: seq<Byte>, name: seq<Byte>) {
    |h| == BLOCK && |name| <= 100 && NoNul(name) && h[0..100] == name + Zeroed(100 - |name|)
  }

  predicate HoldsPrefix(h: seq<Byte>, prefix: seq<Byte>) {
    && |h| == BLOCK && |prefix| <= 155 && NoNul(prefix)
    && h[345..500] == prefix + Zeroed(155 - |prefix|)
    && (prefix != [] ==> h[257..262] == USTAR)
  }

  /** A header of a regular file, with the long name that was announced for it. */
  predicate Lays(m: Member, f: File, announced: Option<string>) {
    m.data == f.data && HoldsPrefix(m.header, f.prefix) &&
    match f
    case Split(_, name, _) => announced == None && HoldsName(m.header, name)
    case Long(_, path, _) => announced == Some(path)
  }

  /** A member that announces a long name: its encoding, ended by NULs. */
  predicate Announces(m: Member, path: string, encode: string -> seq<Byte>) {
    NoNul(encode(path)) && exists n: nat | n <= |m.data| :: m.data == encode(path) + Zeroed(n)
  }

  /** The members that a writer lays out for the files, with skipped members anywhere between them. */
  predicate Archives(ms: seq<Member>, fs: seq<File>, announced: Option<string>, encode: string -> seq<Byte>)
    requires forall i :: 0 <= i < |ms| ==> Written(ms[i])
    decreases |ms|
  {
    if ms == [] then fs == []
    else
      assert Written(ms[0]);
      var kind := KindOf(ms[0].header);
      if Skipped(kind) then Archives(ms[1..], fs, announced, encode)
      else if fs == [] then false
      else if kind == 76 then fs[0].Long? && Announces(ms[0], fs[0].path, encode)
          && Archives(ms[1..], fs, Some(fs[0].path), encode)
      else Lays(ms[0], fs[0], announced) && Archives(ms[1..], fs[1..], None, encode)
  }

  lemma {:induction false} UpToNulBack(s: seq<Byte>, rest: seq<Byte>)
    requires NoNul(s) && (rest != [] ==> rest[0] == 0)
    ensures UpToNul(s + rest) == s
    decreases |s|
  {
    var field := s + rest;
    if s != [] {
      assert field[1..] == s[1..] + rest;
      UpToNulBack(s[1..], rest);
      assert s == [s[0]] + s[1..];
    }
  }

  lemma LaidName(m: Member, f: File, announced: Option<string>)
    requires Lays(m, f, announced)
    ensures |m.header| == BLOCK && NameOf(m.header, announced) == FullName(f)
  {
    match f
    case Split(prefix, name, _) =>
      hide Text;
      SplitNameBack(m.header, name, prefix);
    case Long(prefix, path, _) =>
      hide Text;
      TextBack(prefix, 155 - |prefix|);
  }

  lemma {:induction false} ListingIsFiles(ms: seq<Member>, fs: seq<File>, announced: Option<string>,
      encode: string -> seq<Byte>, decode: seq<Byte> -> string)
    requires (forall i :: 0 <= i < |ms| ==> Written(ms[i])) && Archives(ms, fs, announced, encode)
    requires forall i :: 0 <= i < |fs| && fs[i].Long? ==> decode(encode(fs[i].path)) == fs[i].path
    ensures forall i :: 0 <= i < |ms| ==> |ms[i].header| == BLOCK
    ensures Listing(ms, announced, decode) == FilesOf(fs)
    decreases |ms|
  {
    hide NameOf, Digits, Padded, Power8, Lays, FullName;
    forall i | 0 <= i < |ms| ensures |ms[i].header| == BLOCK { assert Written(ms[i]); }
    if ms != [] {
      var m := ms[0];
      assert Written(m);
      if Skipped(KindOf(m.header)) {
        ListingIsFiles(ms[1..], fs, announced, encode, decode);
      } else if KindOf(m.header) == 76 {
        var n: nat :| n <= |m.data| && m.data == encode(fs[0].path) + Zeroed(n);
        UpToNulBack(encode(fs[0].path), Zeroed(n));
        ListingIsFiles(ms[1..], fs, Some(fs[0].path), encode, decode);
      } else {
        LaidName(m, fs[0], announced);
        LaidData(m, fs[0], announced);
        ListingIsFiles(ms[1..], fs[1..], None, encode, decode);
      }
    }
  }

  lemma LaidData(m: Member, f: File, announced: Option<string>)
    requires Lays(m, f, announced)
    ensures m.data == f.data
  {
  }

  /**
    Whatever files a writer is given, with names split over the header or announced as long names, and
    whatever directories and pax headers stand between them, the reader returns under each full name
    exactly the data of the last file of that name.
   */
  lemma FilesRoundTrip(fs: seq<File>, ms: seq<Member>, tail: seq<Byte>, encode: string -> seq<Byte>,
      decode: seq<Byte> -> string)
    requires (forall i :: 0 <= i < |ms| ==> Written(ms[i])) && EndOfArchive(tail)
    requires Archives(ms, fs, None, encode)
    requires forall i :: 0 <= i < |fs| && fs[i].Long? ==> decode(encode(fs[i].path)) == fs[i].path
    ensures var r := ParseFrom(Image(ms) + tail, 0, State(None, map[]), decode);
            r.Ok? && forall name :: Lookup(r.value, name) == FindLast(FilesOf(fs), name)
  {
    hide ParseFrom, Listing, FindLast, Written, Image, Archives, FilesOf;
    TarRoundTrip(ms, tail, decode);
    ListingIsFiles(ms, fs, None, encode, decode);
  }

  // ---------------------------------------------------------------- a writer

  /** A ustar header; the fields the reader does not look at are zero. */
  function Header(prefix: seq<Byte>, name: seq<Byte>, kind: Byte, size: nat): (h: seq<Byte>)
    requires |name| <= 100 && |prefix| <= 155
    ensures |h| == BLOCK
  {
    Front(name, size) + Middle(kind) + Back(prefix)
  }

  function Front(name: seq<Byte>, size: nat): (h: seq<Byte>)
    requires |name| <= 100
    ensures |h| == 136 && h[0..100] == name + Zeroed(100 - |name|) && h[124..135] == Digits(size, 11) && h[135] == 0
  {
    (name + Zeroed(100 - |name|)) + Zeroed(24) + Digits(size, 11) + [0]
  }

  function Middle(kind: Byte): (h: seq<Byte>)
    ensures |h| == 126 && h[20] == kind && h[121..126] == USTAR
  {
    Zeroed(20) + [kind] + Zeroed(100) + USTAR
  }

  function Back(prefix: seq<Byte>): (h: seq<Byte>)
    requires |prefix| <= 155
    ensures |h| == 250 && h[83..238] == prefix + Zeroed(155 - |prefix|)
  {
    Zeroed(83) + (prefix + Zeroed(155 - |prefix|)) + Zeroed(12)
  }

  lemma HeaderFields(prefix: seq<Byte>, name: seq<Byte>, kind: Byte, size: nat)
    requires |name| <= 100 && |prefix| <= 155
    ensures var h := Header(prefix, name, kind, size);
            && h[0..100] == name + Zeroed(100 - |name|) && h[124..135] == Digits(size, 11) && h[135] == 0
            && h[156] == kind && h[257..262] == USTAR && h[345..500] == prefix + Zeroed(155 - |prefix|)
  {
    hide Front, Middle, Back, Digits;
    var h, a, b, c := Header(prefix, name, kind, size), Front(name, size), Middle(kind), Back(prefix);
    assert h[..136] == a && h[136..262] == b && h[262..] == c;
    assert h[0..100] == a[0..100] && h[124..135] == a[124..135] && h[135] == a[135];
    assert h[156] == b[20] && h[257..262] == b[121..126];
    assert h[345..500] == c[83..238];
  }

  function Lay(prefix: seq<Byte>, name: seq<Byte>, kind: Byte, data: seq<Byte>): Member
    requires |name| <= 100 && |prefix| <= 155
  {
    Member(Header(prefix, name, kind, |data|), data, Zeroed(Padded(|data|) - |data|))
  }

  lemma LayIsWritten(prefix: seq<Byte>, name: seq<Byte>, kind: Byte, data: seq<Byte>)
    requires |name| <= 100 && |prefix| <= 155 && |data| < Power8(11)
    requires kind == 48 || kind == 76 || kind == 53 || kind == 120 || kind == 103
    ensures Written(Lay(prefix, name, kind, data)) && KindOf(Lay(prefix, name, kind, data).header) == kind
  {
    hide Header, Digits, Power8, Padded;
    HeaderFields(prefix, name, kind, |data|);
  }

  /** Names and sizes the format can hold. */
  predicate Writable(f: File, encode: string -> seq<Byte>) {
    |f.data| < Power8(11) &&
    match f
    case Split(prefix, name, _) => |name| <= 100 && |prefix| <= 155 && NoNul(name) && NoNul(prefix)
    case Long(prefix, path, _) =>
      |prefix| <= 155 && NoNul(prefix) && NoNul(encode(path)) && |encode(path)| + 1 < Power8(11)
  }

  /** What a writer puts into an archive: a file, or a directory (53), a pax header (120) or a global one (103). */
  datatype Piece = Write(file: File) | Extra(kind: Byte, name: seq<Byte>, data: seq<Byte>)

  predicate WritablePiece(p: Piece, encode: string -> seq<Byte>) {
    match p
    case Write(f) => Writable(f, encode)
    case Extra(kind, name, data) => (kind == 53 || kind == 120 || kind == 103) && |name| <= 100 && |data| < Power8(11)
  }

  function FilesIn(ps: seq<Piece>): seq<File> {
    if ps == [] then [] else (if ps[0].Write? then [ps[0].file] else []) + FilesIn(ps[1..])
  }

  /** One member for a split name, two for a long one. */
  function Members(p: Piece, encode: string -> seq<Byte>): seq<Member>
    requires WritablePiece(p, encode)
  {
    match p
    case Write(Split(prefix, name, data)) => [Lay(prefix, name, 48, data)]
    case Write(Long(prefix, path, data)) => [Lay([], [], 76, encode(path) + [0]), Lay(prefix, [], 48, data)]
    case Extra(kind, name, data) => [Lay([], name, kind, data)]
  }

  function AllMembers(ps: seq<Piece>, encode: string -> seq<Byte>): seq<Member>
    requires forall i :: 0 <= i < |ps| ==> WritablePiece(ps[i], encode)
  {
    if ps == [] then [] else Members(ps[0], encode) + AllMembers(ps[1..], encode)
  }

  lemma MembersArchive(f: File, rest: seq<Member>, fs: seq<File>, encode: string -> seq<Byte>)
    requires Writable(f, encode) && (forall i :: 0 <= i < |rest| ==> Written(rest[i]))
             && Archives(rest, fs, None, encode)
    ensures var ms := Members(Write(f), encode) + rest;
            (forall i :: 0 <= i < |ms| ==> Written(ms[i])) && Archives(ms, [f] + fs, None, encode)
  {
    hide Header, Written, Power8, Digits, Padded;
    var ms := Members(Write(f), encode) + rest;
    assert ([f] + fs)[1..] == fs;
    match f
    case Split(prefix, name, data) =>
      LayIsWritten(prefix, name, 48, data);
      HeaderFields(prefix, name, 48, |data|);
      assert ms[1..] == rest;
    case Long(prefix, path, data) =>
      LayIsWritten([], [], 76, encode(path) + [0]);
      LayIsWritten(prefix, [], 48, data);
      HeaderFields(prefix, [], 48, |data|);
      assert encode(path) + [0] == encode(path) + Zeroed(1);
      assert ms[1..] == [Lay(prefix, [], 48, data)] + rest && ms[1..][1..] == rest;
      assert Lays(ms[1], f, Some(path));
      assert Archives(ms[1..], [f] + fs, Some(path), encode);
      assert Announces(ms[0], path, encode);
  }

  lemma ExtraArchive(p: Piece, rest: seq<Member>, fs: seq<File>, encode: string -> seq<Byte>)
    requires p.Extra? && WritablePiece(p, encode) && (forall i :: 0 <= i < |rest| ==> Written(rest[i]))
             && Archives(rest, fs, None, encode)
    ensures var ms := Members(p, encode) + rest;
            (forall i :: 0 <= i < |ms| ==> Written(ms[i])) && Archives(ms, fs, None, encode)
  {
    hide Header, Written, Power8, Digits, Padded;
    LayIsWritten([], p.name, p.kind, p.data);
    assert (Members(p, encode) + rest)[1..] == rest;
  }

  lemma {:induction false} AllMembersArchive(ps: seq<Piece>, encode: string -> seq<Byte>)
    requires forall i :: 0 <= i < |ps| ==> WritablePiece(ps[i], encode)
    ensures forall i :: 0 <= i < |AllMembers(ps, encode)| ==> Written(AllMembers(ps, encode)[i])
    ensures Archives(AllMembers(ps, encode), FilesIn(ps), None, encode)
    decreases |ps|
  {
    hide Writable, Members, Written;
    if ps != [] {
      AllMembersArchive(ps[1..], encode);
      var rest, files := AllMembers(ps[1..], encode), FilesIn(ps[1..]);
      if ps[0].Write? {
        MembersArchive(ps[0].file, rest, files, encode);
      } else {
        ExtraArchive(ps[0], rest, files, encode);
        assert [] + files == files;
      }
    }
  }

  /**
    Writing any list of files that the format can hold, with directories and pax headers among them, and reading it
    back gives the last data of each name.
   */
  lemma WriteThenRead(ps: seq<Piece>, encode: string -> seq<Byte>, decode: seq<Byte> -> string)
    requires forall i :: 0 <= i < |ps| ==> WritablePiece(ps[i], encode)
    requires var fs := FilesIn(ps);
             forall i :: 0 <= i < |fs| && fs[i].Long? ==> decode(encode(fs[i].path)) == fs[i].path
    ensures var r := ParseFrom(Image(AllMembers(ps, encode)) + Zeroed(2 * BLOCK), 0, State(None, map[]), decode);
            r.Ok? && forall name :: Lookup(r.value, name) == FindLast(FilesOf(FilesIn(ps)), name)
  {
    hide ParseFrom, FindLast, Written, Image, Archives, FilesOf, FilesIn, AllMembers, WritablePiece;
    AllMembersArchive(ps, encode);
    FilesRoundTrip(FilesIn(ps), AllMembers(ps, encode), Zeroed(2 * BLOCK), encode, decode);
  }
}
