/**
  What the tar reader does with every kind of member and with headers it cannot read, by the bytes of the archive:
  the type byte stands at offset 156 of a header and the size at offset 124.
 */
module TarKinds {
  import opened Common
  import opened Tar

  /** Reading an archive from its start. */
  function Read(bytes: seq<Byte>, decode: seq<Byte> -> string): Result<Files, TarError> {
    ParseFrom(bytes, 0, State(None, map[]), decode)
  }

  /** What is read from a place on depends on what follows, not on what stands before. */
  lemma {:induction false} ParseShift(x: seq<Byte>, y: seq<Byte>, rest: seq<Byte>, at: nat, st: State,
      decode: seq<Byte> -> string)
    requires at <= |rest| + BLOCK
    ensures ParseFrom(x + rest, |x| + at, st, decode) == ParseFrom(y + rest, |y| + at, st, decode)
    decreases |rest| + BLOCK - at
  {
    hide ParseFrom, OctalFrom, Apply, Padded, AllZero;
    var p, q := x + rest, y + rest;
    if at + BLOCK > |rest| {
      ParseEnds(p, |x| + at, st, decode);
      ParseEnds(q, |y| + at, st, decode);
    } else {
      var h := rest[at..at + BLOCK];
      assert p[|x| + at..|x| + at + BLOCK] == h && q[|y| + at..|y| + at + BLOCK] == h;
      if AllZero(h) {
        ParseEnds(p, |x| + at, st, decode);
        ParseEnds(q, |y| + at, st, decode);
      } else {
        ParseMember(p, |x| + at, st, decode);
        ParseMember(q, |y| + at, st, decode);
        var size := OctalFrom(h[124..136], 0);
        if size.Ok? && at + BLOCK + size.value <= |rest| {
          var start, end := at + BLOCK, at + BLOCK + size.value;
          assert p[|x| + start..|x| + end] == rest[start..end] == q[|y| + start..|y| + end];
          var next := Apply(st, h, rest[start..end], decode);
          if next.Ok? {
            ParseShift(x, y, rest, start + Padded(size.value), next.value, decode);
          }
        }
      }
    }
  }

  /** Members that the reader takes leave it at the member boundary behind them. */
  lemma {:induction false} ParsePrefix(before: seq<Byte>, ms: seq<Member>, rest: seq<Byte>, st: State,
      decode: seq<Byte> -> string)
    requires forall i :: 0 <= i < |ms| ==> Written(ms[i])
    ensures var front := before + Image(ms);
            ParseFrom(before + (Image(ms) + rest), |before|, st, decode)
            == ParseFrom(front + rest, |front|, Replay(ms, st, decode), decode)
    decreases |ms|
  {
    hide Sized, Apply, ParseFrom;
    if ms == [] {
      assert Image(ms) + rest == rest && before + Image(ms) == before;
    } else {
      var m, tail := ms[0], Image(ms[1..]);
      assert Written(m);
      BlockOf(m);
      assert Image(ms) + rest == Bytes(m) + (tail + rest);
      MemberStep(before, m, tail + rest, st, decode);
      ParsePrefix(before + Bytes(m), ms[1..], rest, Apply(st, m.header, m.data, decode).value, decode);
      assert before + Image(ms) == (before + Bytes(m)) + tail;
    }
  }

  lemma FromBoundary(ms: seq<Member>, rest: seq<Byte>, decode: seq<Byte> -> string)
    requires forall i :: 0 <= i < |ms| ==> Written(ms[i])
    ensures Read(Image(ms) + rest, decode)
         == ParseFrom(Image(ms) + rest, |Image(ms)|, Replay(ms, State(None, map[]), decode), decode)
  {
    hide ParseFrom, Image, Replay, Written;
    ParsePrefix([], ms, rest, State(None, map[]), decode);
    assert [] + (Image(ms) + rest) == Image(ms) + rest && [] + Image(ms) == Image(ms);
  }

  /** At a boundary a well-formed member is applied, whatever its kind. */
  lemma SizedStep(before: seq<Byte>, m: Member, rest: seq<Byte>, st: State, decode: seq<Byte> -> string)
    requires Sized(m)
    ensures var next := Apply(st, m.header, m.data, decode);
            ParseFrom(before + (Bytes(m) + rest), |before|, st, decode)
            == if next.Err? then Err(next.error)
               else ParseFrom((before + Bytes(m)) + rest, |before + Bytes(m)|, next.value, decode)
  {
    hide OctalFrom, Padded, AllZero, Digits, NameOf, Apply;
    ImageStep(m, rest, before);
    SizeBack(m);
    HeaderIsNotZero(m);
  }

  /**
    A directory (type byte 53), a pax header (120) or a global pax header (103) is as if it were not there, whatever
    follows it.
   */
  lemma SkippedMemberIsIgnored(ms: seq<Member>, m: Member, rest: seq<Byte>, decode: seq<Byte> -> string)
    requires (forall i :: 0 <= i < |ms| ==> Written(ms[i])) && Sized(m)
    requires m.header[156] == 53 || m.header[156] == 120 || m.header[156] == 103
    ensures Read(Image(ms) + (Bytes(m) + rest), decode) == Read(Image(ms) + rest, decode)
  {
    hide ParseFrom, Image, Replay, Written, Sized;
    var st := Replay(ms, State(None, map[]), decode);
    FromBoundary(ms, Bytes(m) + rest, decode);
    FromBoundary(ms, rest, decode);
    BlockOf(m);
    SizedStep(Image(ms), m, rest, st, decode);
    ParseShift(Image(ms) + Bytes(m), Image(ms), rest, 0, st, decode);
  }

  lemma BlockOf(m: Member)
    requires Sized(m)
    ensures |m.header| == BLOCK
  {
  }

  /** A type byte 0 means the same as 48, a regular file. */
  lemma ZeroIsRegular(ms: seq<Member>, m: Member, rest: seq<Byte>, decode: seq<Byte> -> string)
    requires (forall i :: 0 <= i < |ms| ==> Written(ms[i])) && Sized(m) && m.header[156] == 0
    ensures Read(Image(ms) + (Bytes(m) + rest), decode)
         == Read(Image(ms) + (Bytes(m.(header := m.header[156 := 48])) + rest), decode)
  {
    hide ParseFrom, Image, Replay, Written, Text;
    var st, n := Replay(ms, State(None, map[]), decode), m.(header := m.header[156 := 48]);
    FromBoundary(ms, Bytes(m) + rest, decode);
    FromBoundary(ms, Bytes(n) + rest, decode);
    assert n.header[124..135] == m.header[124..135];
    SizedStep(Image(ms), m, rest, st, decode);
    SizedStep(Image(ms), n, rest, st, decode);
    assert n.header[0..100] == m.header[0..100] && n.header[257..262] == m.header[257..262];
    assert n.header[345..500] == m.header[345..500];
    var next := Apply(st, m.header, m.data, decode);
    assert next == Apply(st, n.header, n.data, decode);
    ParseShift(Image(ms) + Bytes(m), Image(ms) + Bytes(n), rest, 0, next.value, decode);
  }

  /** Every other kind is refused, and named in the error. */
  lemma OtherKindsAreRefused(ms: seq<Member>, m: Member, rest: seq<Byte>, decode: seq<Byte> -> string)
    requires (forall i :: 0 <= i < |ms| ==> Written(ms[i])) && Sized(m)
    requires m.header[156] !in {0, 48, 53, 76, 103, 120}
    ensures Read(Image(ms) + (Bytes(m) + rest), decode) == Err(Unsupported(m.header[156]))
  {
    hide ParseFrom, Image, Replay, Written, Sized;
    var st := Replay(ms, State(None, map[]), decode);
    FromBoundary(ms, Bytes(m) + rest, decode);
    BlockOf(m);
    SizedStep(Image(ms), m, rest, st, decode);
  }

  /** A block ends the archive only if it is all zeros: one name byte makes it the header of an empty file. */
  lemma LoneByteIsAFile(c: Byte, decode: seq<Byte> -> string)
    requires c != 0
    ensures Read([c] + seq(511, _ => 0), decode) == Ok(map[[c as char] := []])
  {
    hide Apply, CutAtNul;
    var b := [c] + seq(511, _ => 0);
    assert b[0] != 0 && b[0..512] == b;
    var st := State(None, map[]);
    ParseMember(b, 0, st, decode);
    assert OctalFrom(b[124..136], 0) == Ok(0);
    assert b[512..512] == [];
    LoneName(b, c, st, decode);
    ParseEnds(b, 512 + Padded(0), State(None, map[[c as char] := []]), decode);
  }

  lemma LoneName(h: seq<Byte>, c: Byte, st: State, decode: seq<Byte> -> string)
    requires |h| == 512 && h[0] == c != 0 && (forall i :: 0 < i < 512 ==> h[i] == 0) && st == State(None, map[])
    ensures Apply(st, h, [], decode) == Ok(State(None, map[[c as char] := []]))
  {
    var name := Latin(h[0..100]);
    assert CutAtNul(name[1..]) == [];
    assert Text(h[0..100]) == [c as char];
    assert h[257] != USTAR[0] && h[257..262][0] == h[257];
  }

  lemma LongNameOf(st: State, h: seq<Byte>, a: seq<Byte>, rest: seq<Byte>, decode: seq<Byte> -> string)
    requires |h| == BLOCK && h[156] == 76 && NoNul(a) && (rest != [] ==> rest[0] == 0)
    ensures Apply(st, h, a + rest, decode) == Ok(st.(longName := Some(decode(a))))
  {
    UpToNulBack(a, rest);
    hide UpToNul;
  }

  /** A long name ends at its first NUL, whatever follows it: what stands behind makes no difference to the result. */
  lemma LongNameEndsAtNul(ms: seq<Member>, m: Member, n: Member, a: seq<Byte>, b: seq<Byte>, rest: seq<Byte>,
      decode: seq<Byte> -> string)
    requires (forall i :: 0 <= i < |ms| ==> Written(ms[i])) && Sized(m) && Sized(n)
    requires m.header[156] == 76 == n.header[156] && NoNul(a) && m.data == a + [0] + b && n.data == a
    ensures Read(Image(ms) + (Bytes(m) + rest), decode) == Read(Image(ms) + (Bytes(n) + rest), decode)
    ensures forall st :: Apply(st, m.header, m.data, decode) == Ok(st.(longName := Some(decode(a))))
  {
    hide ParseFrom, Image, Replay, Written, Sized, Apply;
    BlockOf(m);
    BlockOf(n);
    forall st ensures Apply(st, m.header, m.data, decode) == Ok(st.(longName := Some(decode(a)))) {
      LongNameOf(st, m.header, a, [0] + b, decode);
      assert a + [0] + b == a + ([0] + b);
    }
    var st := Replay(ms, State(None, map[]), decode);
    FromBoundary(ms, Bytes(m) + rest, decode);
    FromBoundary(ms, Bytes(n) + rest, decode);
    SizedStep(Image(ms), m, rest, st, decode);
    SizedStep(Image(ms), n, rest, st, decode);
    LongNameOf(st, n.header, a, [], decode);
    assert a + [] == a;
    ParseShift(Image(ms) + Bytes(m), Image(ms) + Bytes(n), rest, 0, st.(longName := Some(decode(a))), decode);
  }

  predicate EndsLine(c: char) { c as int == 10 || c as int == 13 }

  /**
    A name field is cut at its first NUL behind which no line feed and no carriage return stands; every NUL before
    that one stays in the name.
   */
  lemma {:induction false} CutMeans(s: string)
    ensures CutAtNul(s) <= s
    ensures var n := |CutAtNul(s)|;
            && (forall i :: 0 <= i < n && s[i] as int == 0 ==> exists j :: i < j < |s| && EndsLine(s[j]))
            && (n < |s| ==> s[n] as int == 0 && forall j :: n < j < |s| ==> !EndsLine(s[j]))
  {
    if s != [] && CutAtNul(s) != [] {
      var t := s[1..];
      CutMeans(t);
      var n := |CutAtNul(t)|;
      assert CutAtNul(s) == [s[0]] + CutAtNul(t);
      forall i | 0 <= i < n + 1 && s[i] as int == 0 ensures exists j :: i < j < |s| && EndsLine(s[j]) {
        if i == 0 {
          var j :| 0 <= j < |s| && LineEnd(s[j]);
          assert EndsLine(s[j]);
        } else {
          assert t[i - 1] as int == 0;
          var j :| i - 1 < j < |t| && EndsLine(t[j]);
          assert EndsLine(s[j + 1]);
        }
      }
      if n + 1 < |s| {
        assert t[n] as int == 0;
        forall j | n + 1 < j < |s| ensures !EndsLine(s[j]) {
          assert !EndsLine(t[j - 1]);
        }
      }
    }
  }

  /** A size field whose digits are followed by anything but a NUL or a space cannot be read. */
  lemma {:induction false} OctalRefuses(s: seq<Byte>, value: nat, i: nat)
    requires i < |s| && s[i] !in {0, 32} && !(48 <= s[i] <= 55) && forall k :: 0 <= k < i ==> 48 <= s[k] <= 55
    ensures OctalFrom(s, value) == Err(InvalidSize)
    decreases i
  {
    if i > 0 {
      OctalRefuses(s[1..], value * 8 + (s[0] - 48), i - 1);
    }
  }

  lemma BadSizeIsRefused(ms: seq<Member>, rest: seq<Byte>, i: nat, decode: seq<Byte> -> string)
    requires (forall i :: 0 <= i < |ms| ==> Written(ms[i])) && |rest| >= BLOCK && 124 <= i < 136
    requires rest[i] !in {0, 32} && !(48 <= rest[i] <= 55) && forall k :: 124 <= k < i ==> 48 <= rest[k] <= 55
    ensures Read(Image(ms) + rest, decode) == Err(InvalidSize)
  {
    hide ParseFrom, Image, Replay, Written, Apply, Padded;
    FromBoundary(ms, rest, decode);
    var b, o := Image(ms) + rest, |Image(ms)|;
    var h := b[o..o + BLOCK];
    assert h == rest[..BLOCK];
    assert h[i] == rest[i];
    OctalRefuses(h[124..136], 0, i - 124);
    ParseMember(b, o, Replay(ms, State(None, map[]), decode), decode);
  }

  /** A member whose data the archive does not hold in full is refused. */
  lemma CutMemberIsRefused(ms: seq<Member>, m: Member, n: nat, decode: seq<Byte> -> string)
    requires (forall i :: 0 <= i < |ms| ==> Written(ms[i])) && Sized(m) && n < |m.data|
    ensures Read(Image(ms) + (m.header + m.data[..n]), decode) == Err(Truncated)
  {
    hide ParseFrom, Image, Replay, Written, Apply, Padded, Digits;
    var rest := m.header + m.data[..n];
    FromBoundary(ms, rest, decode);
    var b, o := Image(ms) + rest, |Image(ms)|;
    assert b[o..o + BLOCK] == m.header;
    SizeBack(m);
    HeaderIsNotZero(m);
    ParseMember(b, o, Replay(ms, State(None, map[]), decode), decode);
  }
}
