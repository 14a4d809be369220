/** Fixed-layout binary records: little-endian fields written into and read from byte buffers. */
module Records {
  import opened Common

  const LIMIT16 := 0x1_0000
  const LIMIT32 := 0x1_0000_0000

  /** A little-endian field of two or four bytes; larger values are truncated when stored. */
  datatype Field = Field16(offset: nat, value: nat) | Field32(offset: nat, value: nat) {
    function Width(): nat { if Field16? then 2 else 4 }
    function End(): nat { offset + Width() }
    function Stored(): nat { value % if Field16? then LIMIT16 else LIMIT32 }
  }

  function Encode(f: Field): (s: seq<Byte>)
    ensures |s| == f.Width()
  {
    match f
    case Field16(_, v) => [v % 256, v / 256 % 256]
    case Field32(_, v) => [v % 256, v / 256 % 256, v / 65536 % 256, v / 16777216 % 256]
  }

  /** The lowest `n` bytes of a number, least significant first. */
  function LittleEndian(v: nat, n: nat): (s: seq<Byte>)
    ensures |s| == n
  {
    if n == 0 then [] else [v % 256] + LittleEndian(v / 256, n - 1)
  }

  lemma EncodeIsLittleEndian(f: Field)
    ensures Encode(f) == LittleEndian(f.value, f.Width())
  {
    var v := f.value;
    assert v / 256 / 256 == v / 65536;
    assert v / 65536 / 256 == v / 16777216;
    LittleEndianPair(v);
    LittleEndianPair(v / 65536);
    assert LittleEndian(v, 4) == [v % 256] + ([v / 256 % 256] + LittleEndian(v / 65536, 2));
  }

  lemma LittleEndianPair(v: nat)
    ensures LittleEndian(v, 2) == [v % 256, v / 256 % 256]
  {
    assert LittleEndian(v / 256, 1) == [v / 256 % 256] + LittleEndian(v / 256 / 256, 0);
  }

  function Get16(s: seq<Byte>, i: nat): nat
    requires i + 2 <= |s|
  {
    var a: int, b: int := s[i], s[i + 1];
    a + 256 * b
  }

  function Get32(s: seq<Byte>, i: nat): nat
    requires i + 4 <= |s|
  {
    Get16(s, i) + LIMIT16 * Get16(s, i + 2)
  }

  function Get(s: seq<Byte>, f: Field): nat
    requires f.End() <= |s|
  {
    if f.Field16? then Get16(s, f.offset) else Get32(s, f.offset)
  }

  /** A field written little-endian into a buffer. */
  function Put(s: seq<Byte>, f: Field): (r: seq<Byte>)
    requires f.End() <= |s|
    ensures |r| == |s|
    ensures forall i :: 0 <= i < |s| && !(f.offset <= i < f.End()) ==> r[i] == s[i]
    ensures r[f.offset..f.End()] == Encode(f)
  {
    s[..f.offset] + Encode(f) + s[f.End()..]
  }

  lemma Low32(v: nat)
    ensures v % LIMIT32 == v % 256 + 256 * (v / 256 % 0x100_0000)
  {
    var q := v / 256;
    var k, r := q / 0x100_0000, v % 256 + 256 * (q % 0x100_0000);
    assert q == 0x100_0000 * k + q % 0x100_0000;
    assert v == LIMIT32 * k + r && 0 <= r < LIMIT32;
  }

  lemma Low24(v: nat)
    ensures v % 0x100_0000 == v % 256 + 256 * (v / 256 % 65536)
  {
    var q := v / 256;
    var k, r := q / 65536, v % 256 + 256 * (q % 65536);
    assert q == 65536 * k + q % 65536;
    assert v == 0x100_0000 * k + r && 0 <= r < 0x100_0000;
  }

  lemma Low16(v: nat)
    ensures v % 65536 == v % 256 + 256 * (v / 256 % 256)
  {
    var q := v / 256;
    var k, r := q / 256, v % 256 + 256 * (q % 256);
    assert q == 256 * k + q % 256;
    assert v == 65536 * k + r && 0 <= r < 65536;
  }

  lemma Truncates32(v: nat)
    ensures v % 256 + 256 * (v / 256 % 256) + 65536 * (v / 65536 % 256) + 16777216 * (v / 16777216 % 256) == v % LIMIT32
  {
    assert v / 65536 == v / 256 / 256;
    assert v / 16777216 == v / 65536 / 256;
    Low32(v);
    Low24(v / 256);
    Low16(v / 65536);
  }

  lemma EncodeGet(f: Field, s: seq<Byte>)
    requires f.End() <= |s| && s[f.offset..f.End()] == Encode(f)
    ensures Get(s, f) == f.Stored()
  {
    var e := s[f.offset..f.End()];
    assert forall i :: 0 <= i < |e| ==> s[f.offset + i] == e[i];
    assert s[f.offset] == e[0] && s[f.offset + 1] == e[1];
    if f.Field32? {
      assert s[f.offset + 2] == e[2] && s[f.offset + 3] == e[3];
      Truncates32(f.value);
    }
  }

  /** The fields lie one after the other, inside the first `size` bytes. */
  predicate Ordered(fs: seq<Field>, size: nat) {
    && (forall i :: 0 <= i < |fs| ==> fs[i].End() <= size)
    && (forall i :: 1 <= i < |fs| ==> fs[i - 1].End() <= fs[i].offset)
  }

  lemma OrderedJoin(a: seq<Field>, b: seq<Field>, size: nat)
    requires Ordered(a, size) && Ordered(b, size) && a != [] && b != [] && a[|a| - 1].End() <= b[0].offset
    ensures Ordered(a + b, size)
  {
    var fs := a + b;
    forall i | 1 <= i < |fs| ensures fs[i - 1].End() <= fs[i].offset {
      if i > |a| {
        assert b[i - |a| - 1].End() <= b[i - |a|].offset;
      }
    }
  }

  lemma {:induction false} OrderedPairs(fs: seq<Field>, size: nat, i: nat, j: nat)
    requires Ordered(fs, size) && i < j < |fs|
    ensures fs[i].End() <= fs[j].offset
  {
    if i + 1 < j {
      OrderedPairs(fs, size, i, j - 1);
    }
  }

  function PutAll(s: seq<Byte>, fs: seq<Field>): (r: seq<Byte>)
    requires Ordered(fs, |s|)
    ensures |r| == |s|
  {
    if fs == [] then s else Put(PutAll(s, fs[..|fs| - 1]), fs[|fs| - 1])
  }

  lemma PutElsewhere(s: seq<Byte>, f: Field, g: Field)
    requires f.End() <= |s| && g.End() <= f.offset
    ensures Put(s, f)[g.offset..g.End()] == s[g.offset..g.End()]
  {
    hide Encode;
  }

  /** Every field can be read back. */
  lemma {:induction false} PutAllGet(s: seq<Byte>, fs: seq<Field>, i: nat)
    requires Ordered(fs, |s|) && i < |fs|
    ensures PutAll(s, fs)[fs[i].offset..fs[i].End()] == Encode(fs[i])
  {
    hide Encode, Put;
    var init := fs[..|fs| - 1];
    if i < |init| {
      PutAllGet(s, init, i);
      OrderedPairs(fs, |s|, i, |fs| - 1);
      PutElsewhere(PutAll(s, init), fs[|fs| - 1], fs[i]);
    }
  }

  /** Bytes outside all fields keep their value. */
  lemma {:induction false} PutAllKeeps(s: seq<Byte>, fs: seq<Field>, k: nat)
    requires Ordered(fs, |s|) && k < |s| && forall i :: 0 <= i < |fs| ==> !(fs[i].offset <= k < fs[i].End())
    ensures PutAll(s, fs)[k] == s[k]
  {
    hide Encode;
    if fs != [] {
      PutAllKeeps(s, fs[..|fs| - 1], k);
    }
  }

  /** A record: a fixed part with its fields, followed by a name. */
  function Record(size: nat, fs: seq<Field>, name: seq<Byte>): (r: seq<Byte>)
    requires Ordered(fs, size)
    ensures |r| == size + |name|
  {
    PutAll(Zeroed(size), fs) + name
  }

  lemma RecordGet(size: nat, fs: seq<Field>, name: seq<Byte>, i: nat)
    requires Ordered(fs, size) && i < |fs|
    ensures fs[i].End() <= |Record(size, fs, name)|
    ensures Get(Record(size, fs, name), fs[i]) == fs[i].Stored()
  {
    var r := Record(size, fs, name);
    PutAllGet(Zeroed(size), fs, i);
    assert r[fs[i].offset..fs[i].End()] == PutAll(Zeroed(size), fs)[fs[i].offset..fs[i].End()];
    EncodeGet(fs[i], r);
  }

  lemma RecordName(size: nat, fs: seq<Field>, name: seq<Byte>)
    requires Ordered(fs, size)
    ensures Record(size, fs, name)[size..] == name
  {
  }

  /** A field of a part is the field of the whole at the shifted offset. */
  lemma GetShifted(whole: seq<Byte>, at: nat, part: seq<Byte>, f: Field)
    requires at + |part| <= |whole| && whole[at..at + |part|] == part && f.End() <= |part|
    ensures f.Field16? ==> Get16(whole, at + f.offset) == Get(part, f)
    ensures f.Field32? ==> Get32(whole, at + f.offset) == Get(part, f)
  {
    assert forall i :: 0 <= i < |part| ==> whole[at + i] == part[i];
  }

  /** A buffer that holds the field in its place and is otherwise as before. */
  lemma PutIs(before: seq<Byte>, after: seq<Byte>, f: Field)
    requires f.End() <= |before| == |after|
    requires forall k :: f.offset <= k < f.End() ==> after[k] == Encode(f)[k - f.offset]
    requires forall k :: 0 <= k < |before| && !(f.offset <= k < f.End()) ==> after[k] == before[k]
    ensures after == Put(before, f)
  {
    hide Encode;
    forall k | 0 <= k < |before| ensures after[k] == Put(before, f)[k] {
      if f.offset <= k < f.End() {
        assert Put(before, f)[f.offset..f.End()][k - f.offset] == Encode(f)[k - f.offset];
      }
    }
  }

  /** Writing one field into a buffer in place. */
  method Store(a: array<Byte>, f: Field)
    requires f.End() <= a.Length
    modifies a
    ensures a[..] == Put(old(a[..]), f)
  {
    var e := Encode(f);
    var i := 0;
    while i < f.Width()
      invariant 0 <= i <= f.Width()
      invariant forall k :: f.offset <= k < f.offset + i ==> a[k] == e[k - f.offset]
      invariant forall k :: 0 <= k < a.Length && !(f.offset <= k < f.offset + i) ==> a[k] == old(a[k])
    {
      a[f.offset + i] := e[i];
      i := i + 1;
    }
    PutIs(old(a[..]), a[..], f);
  }

  /** A record built the way the writers do it: a zeroed buffer, one store per field, then the name. */
  method BuildRecord(size: nat, fs: seq<Field>, name: seq<Byte>) returns (r: seq<Byte>)
    requires Ordered(fs, size)
    ensures r == Record(size, fs, name)
  {
    var a := new Byte[size](i => 0);
    assert a[..] == Zeroed(size);
    for n := 0 to |fs|
      invariant Ordered(fs[..n], size)
      invariant a[..] == PutAll(Zeroed(size), fs[..n])
    {
      Store(a, fs[n]);
      assert fs[..n + 1][..n] == fs[..n];
    }
    assert fs[..|fs|] == fs;
    r := a[..] + name;
  }
}
