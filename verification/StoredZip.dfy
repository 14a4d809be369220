/**
  The STORED zip32 writer of the bundle builder, and a strict reader for the format (sections
  4.3.7, 4.3.12 and 4.3.16 of PKWARE APPNOTE.TXT): it finds the end record, requires the central
  directory to end where that record starts, walks it, follows every local header offset and
  checks headers and checksums against each other. It refuses an entry that asks for a later
  version of the format or sets a flag, such as the one for encryption.
 */
module StoredZip {
  import opened Common
  import opened Records
  import Crc32

  const LOCAL_SIGNATURE := 0x04034b50
  const CENTRAL_SIGNATURE := 0x02014b50
  const END_SIGNATURE := 0x06054b50

  /** The version of the format that knows no more than directories and deflate, times ten. */
  const KNOWN_VERSION := 20

  /** An entry; the name is already encoded as bytes. */
  datatype Entry = Entry(name: seq<Byte>, data: seq<Byte>)

  /** The MS-DOS time and date of all entries. */
  datatype Stamp = Stamp(time: nat, date: nat)

  // ---------------------------------------------------------------- layout

  function LocalFields(e: Entry, s: Stamp): (fs: seq<Field>)
    ensures Ordered(fs, 30)
  {
    [Field32(0, LOCAL_SIGNATURE), Field16(4, 20), Field16(6, 0), Field16(8, 0), Field16(10, s.time),
     Field16(12, s.date), Field32(14, Crc32.Crc(e.data)), Field32(18, |e.data|), Field32(22, |e.data|),
     Field16(26, |e.name|), Field16(28, 0)]
  }

  function CentralFields(e: Entry, s: Stamp, offset: nat): (fs: seq<Field>)
    ensures Ordered(fs, 46)
  {
    OrderedJoin(CentralStart(e, s), CentralRest(e, offset), 46);
    CentralStart(e, s) + CentralRest(e, offset)
  }

  function CentralStart(e: Entry, s: Stamp): (fs: seq<Field>)
    ensures Ordered(fs, 46)
  {
    [Field32(0, CENTRAL_SIGNATURE), Field16(4, 20), Field16(6, 20), Field16(8, 0), Field16(10, 0), Field16(12, s.time),
     Field16(14, s.date), Field32(16, Crc32.Crc(e.data)), Field32(20, |e.data|)]
  }

  function CentralRest(e: Entry, offset: nat): (fs: seq<Field>)
    ensures Ordered(fs, 46)
  {
    [Field32(24, |e.data|), Field16(28, |e.name|), Field16(30, 0), Field16(32, 0), Field16(34, 0), Field16(36, 0),
     Field32(38, 0), Field32(42, offset)]
  }

  function EndFields(count: nat, centralSize: nat, offset: nat): (fs: seq<Field>)
    ensures Ordered(fs, 22)
  {
    [Field32(0, END_SIGNATURE), Field16(8, count), Field16(10, count), Field32(12, centralSize), Field32(16, offset)]
  }

  function LocalHeader(e: Entry, s: Stamp): (r: seq<Byte>)
    ensures |r| == 30 + |e.name|
  {
    Record(30, LocalFields(e, s), e.name)
  }

  function CentralHeader(e: Entry, s: Stamp, offset: nat): (r: seq<Byte>)
    ensures |r| == 46 + |e.name|
  {
    Record(46, CentralFields(e, s, offset), e.name)
  }

  function EndRecord(count: nat, centralSize: nat, offset: nat): (r: seq<Byte>)
    ensures |r| == 22
  {
    Record(22, EndFields(count, centralSize, offset), [])
  }

  /** All local headers, each followed by its data. */
  function Body(es: seq<Entry>, s: Stamp): seq<Byte> {
    if es == [] then []
    else Body(es[..|es| - 1], s) + LocalHeader(es[|es| - 1], s) + es[|es| - 1].data
  }

  function Central(es: seq<Entry>, s: Stamp): seq<Byte> {
    if es == [] then []
    else Central(es[..|es| - 1], s) + CentralHeader(es[|es| - 1], s, |Body(es[..|es| - 1], s)|)
  }

  function Archive(es: seq<Entry>, s: Stamp): seq<Byte> {
    Body(es, s) + Central(es, s) + EndRecord(|es|, |Central(es, s)|, |Body(es, s)|)
  }

  // ---------------------------------------------------------------- writer

  predicate GoodName(name: seq<Byte>) {
    0 < |name| < LIMIT16 && forall i :: 0 <= i < |name| ==> name[i] < 0x80
  }

  predicate Accepted(es: seq<Entry>) {
    0 < |es| < LIMIT16 && forall i :: 0 <= i < |es| ==> GoodName(es[i].name)
  }

  /** The size check of the writer: it looks at the offset and the data size of each entry, not at the headers. */
  predicate PassesSizeCheck(es: seq<Entry>, s: Stamp) {
    forall i :: 0 <= i < |es| ==> |Body(es[..i], s)| + |es[i].data| < LIMIT32
  }

  datatype Zip = Zip(parts: seq<seq<Byte>>, totalSize: nat)

  function Flatten(parts: seq<seq<Byte>>): seq<Byte> {
    if parts == [] then [] else Flatten(parts[..|parts| - 1]) + parts[|parts| - 1]
  }

  lemma FlattenSnoc(parts: seq<seq<Byte>>, part: seq<Byte>)
    ensures Flatten(parts + [part]) == Flatten(parts) + part
  {
    assert (parts + [part])[..|parts + [part]| - 1] == parts;
  }

  lemma {:induction false} FlattenSplit(a: seq<seq<Byte>>, b: seq<seq<Byte>>)
    ensures Flatten(a + b) == Flatten(a) + Flatten(b)
    decreases |b|
  {
    if b == [] {
      assert a + b == a;
    } else {
      hide Flatten;
      var init, part := b[..|b| - 1], b[|b| - 1];
      assert b == init + [part] && a + b == (a + init) + [part];
      FlattenSplit(a, init);
      FlattenSnoc(init, part);
      FlattenSnoc(a + init, part);
    }
  }

  lemma FlattenPair(a: seq<Byte>, b: seq<Byte>)
    ensures Flatten([a, b]) == a + b && Flatten([a]) == a
  {
    assert [a, b][..1] == [a] && [a][..0] == [];
    assert Flatten([a]) == Flatten([]) + a;
    assert Flatten([a, b]) == Flatten([a]) + b;
  }

  datatype Refusal = NoEntries | TooManyEntries | BadName | TooLarge

  method CheckNames(es: seq<Entry>) returns (ok: bool)
    ensures ok <==> forall i :: 0 <= i < |es| ==> GoodName(es[i].name)
    ensures !ok <==>
            exists i :: 0 <= i < |es| &&
              (|es[i].name| == 0 || |es[i].name| > 65535 || exists k :: 0 <= k < |es[i].name| && es[i].name[k] > 127)
  {
    for i := 0 to |es|
      invariant forall k :: 0 <= k < i ==> GoodName(es[k].name)
    {
      if !GoodName(es[i].name) {
        return false;
      }
    }
    ok := true;
  }

  lemma BodyStep(es: seq<Entry>, s: Stamp, i: nat)
    requires i < |es|
    ensures Body(es[..i + 1], s) == Body(es[..i], s) + LocalHeader(es[i], s) + es[i].data
    ensures Central(es[..i + 1], s) == Central(es[..i], s) + CentralHeader(es[i], s, |Body(es[..i], s)|)
  {
    hide LocalHeader, CentralHeader;
    assert es[..i + 1][..i] == es[..i];
  }

  /** `buildStoredZipParts`: the parts spell the archive and `totalSize` is its length. */
  method BuildStoredZip(es: seq<Entry>, s: Stamp) returns (r: Result<Zip, Refusal>)
    ensures r.Ok? <==> Accepted(es) && PassesSizeCheck(es, s)
    ensures r.Ok? ==> Flatten(r.value.parts) == Archive(es, s) && r.value.totalSize == |Archive(es, s)|
    ensures r == Err(NoEntries) <==> es == []
    ensures r == Err(TooManyEntries) <==> |es| > 65535
    ensures r == Err(BadName) <==>
            0 < |es| <= 65535 &&
            exists i :: 0 <= i < |es| &&
              (|es[i].name| == 0 || |es[i].name| > 65535 || exists k :: 0 <= k < |es[i].name| && es[i].name[k] > 127)
    ensures r == Err(TooLarge) <==> Accepted(es) && !PassesSizeCheck(es, s)
  {
    hide LocalHeader, CentralHeader, EndRecord, Body, Central, GoodName, Flatten;
    if |es| == 0 {
      return Err(NoEntries);
    }
    if |es| >= LIMIT16 {
      return Err(TooManyEntries);
    }
    var named := CheckNames(es);
    if !named {
      return Err(BadName);
    }
    var parts: seq<seq<Byte>> := [];
    var central: seq<seq<Byte>> := [];
    var offset, centralSize := 0, 0;
    EmptyBody(es, s);
    for i := 0 to |es|
      invariant Flatten(parts) == Body(es[..i], s) && offset == |Body(es[..i], s)|
      invariant Flatten(central) == Central(es[..i], s) && centralSize == |Central(es[..i], s)|
      invariant forall k :: 0 <= k < i ==> |Body(es[..k], s)| + |es[k].data| < LIMIT32
    {
      var e := es[i];
      if offset + |e.data| >= LIMIT32 {
        return Err(TooLarge);
      }
      BodyStep(es, s, i);
      var local := BuildLocalHeader(e, s);
      FlattenSplit(parts, [local, e.data]);
      FlattenPair(local, e.data);
      var header := BuildCentralHeader(e, s, offset);
      FlattenSplit(central, [header]);
      FlattenPair(header, []);
      parts := parts + [local, e.data];
      central := central + [header];
      centralSize := centralSize + |header|;
      offset := offset + |local| + |e.data|;
    }
    assert es[..|es|] == es;
    var end := BuildEndRecord(|es|, centralSize, offset);
    AllParts(parts, central, end);
    r := Ok(Zip(parts + (central + [end]), offset + centralSize + 22));
  }

  lemma EmptyBody(es: seq<Entry>, s: Stamp)
    ensures Body(es[..0], s) == [] && Central(es[..0], s) == [] && Flatten([]) == []
  {
    assert es[..0] == [];
  }

  lemma AllParts(parts: seq<seq<Byte>>, central: seq<seq<Byte>>, end: seq<Byte>)
    ensures Flatten(parts + (central + [end])) == Flatten(parts) + Flatten(central) + end
  {
    hide Flatten;
    FlattenSplit(parts, central + [end]);
    FlattenSplit(central, [end]);
    FlattenPair(end, []);
  }

  method BuildLocalHeader(e: Entry, s: Stamp) returns (r: seq<Byte>)
    ensures r == LocalHeader(e, s)
  {
    r := BuildRecord(30, LocalFields(e, s), e.name);
  }

  method BuildCentralHeader(e: Entry, s: Stamp, offset: nat) returns (r: seq<Byte>)
    ensures r == CentralHeader(e, s, offset)
  {
    r := BuildRecord(46, CentralFields(e, s, offset), e.name);
  }

  method BuildEndRecord(count: nat, centralSize: nat, offset: nat) returns (r: seq<Byte>)
    ensures r == EndRecord(count, centralSize, offset)
  {
    r := BuildRecord(22, EndFields(count, centralSize, offset), []);
  }

  // ---------------------------------------------------------------- reader

  datatype Item = Item(name: seq<Byte>, crc: nat, data: seq<Byte>)

  /** The last position at which an end record with a fitting comment length starts. */
  function FindEnd(z: seq<Byte>, p: int): (r: Option<nat>)
    ensures r.Some? ==> r.value + 22 <= |z|
    decreases p
  {
    if p < 0 then None
    else if p + 22 <= |z| && Get32(z, p) == END_SIGNATURE && p + 22 + Get16(z, p + 20) == |z| then Some(p)
    else FindEnd(z, p - 1)
  }

  /** The entry a local header describes, if it agrees with the central directory. */
  function ReadLocal(z: seq<Byte>, at: nat, name: seq<Byte>, crc: nat, size: nat): Option<Item> {
    if at + 30 > |z| || Get32(z, at) != LOCAL_SIGNATURE || Get16(z, at + 8) != 0 then None
    else if Get16(z, at + 4) > KNOWN_VERSION || Get16(z, at + 6) != 0 then None
    else if Get32(z, at + 14) != crc || Get32(z, at + 18) != size || Get32(z, at + 22) != size then None
    else
      var n := Get16(z, at + 26);
      var start := at + 30 + n + Get16(z, at + 28);
      if start + size > |z| || z[at + 30..at + 30 + n] != name then None
      else if Crc32.Crc(z[start..start + size]) != crc then None
      else Some(Item(name, crc, z[start..start + size]))
  }

  function Walk(z: seq<Byte>, at: nat, count: nat, end: nat): Option<seq<Item>>
    requires end <= |z|
    decreases count
  {
    if count == 0 then if at == end then Some([]) else None
    else if at + 46 > end || Get32(z, at) != CENTRAL_SIGNATURE || Get16(z, at + 10) != 0 then None
    else if Get16(z, at + 6) > KNOWN_VERSION || Get16(z, at + 8) != 0 then None
    else
      var n := Get16(z, at + 28);
      var next := at + 46 + n + Get16(z, at + 30) + Get16(z, at + 32);
      if next > end || Get32(z, at + 20) != Get32(z, at + 24) then None
      else
        var item := ReadLocal(z, Get32(z, at + 42), z[at + 46..at + 46 + n], Get32(z, at + 16), Get32(z, at + 24));
        var rest := Walk(z, next, count - 1, end);
        if item.None? || rest.None? then None else Some([item.value] + rest.value)
  }

  function ReadZip(z: seq<Byte>): Option<seq<Item>> {
    var p := FindEnd(z, |z| - 22);
    if p.None? then None
    else
      var count, size, offset := Get16(z, p.value + 10), Get32(z, p.value + 12), Get32(z, p.value + 16);
      if Get16(z, p.value + 8) != count || offset + size != p.value then None
      else Walk(z, offset, count, p.value)
  }

  // ---------------------------------------------------------------- where things are

  predicate PartAt(z: seq<Byte>, at: nat, part: seq<Byte>) {
    at + |part| <= |z| && z[at..at + |part|] == part
  }

  lemma {:induction false} BodyPrefix(es: seq<Entry>, s: Stamp, i: nat)
    requires i <= |es|
    ensures Body(es[..i], s) <= Body(es, s) && Central(es[..i], s) <= Central(es, s)
  {
    hide LocalHeader, CentralHeader;
    if i == |es| {
      assert es[..i] == es;
    } else {
      BodyPrefix(es[..|es| - 1], s, i);
      assert es[..|es| - 1][..i] == es[..i];
    }
  }

  lemma PartOfPrefix(z: seq<Byte>, front: seq<Byte>, at: nat, part: seq<Byte>)
    requires front <= z && PartAt(front, at, part)
    ensures PartAt(z, at, part)
  {
    assert z[..|front|] == front;
    assert z[at..at + |part|] == front[at..at + |part|];
  }

  /** Every local header, its data and every central header stand where the offsets say. */
  lemma EntryInPlace(es: seq<Entry>, s: Stamp, i: nat)
    requires i < |es|
    ensures var z := Archive(es, s);
            var at := |Body(es[..i], s)|;
            && PartAt(z, at, LocalHeader(es[i], s))
            && PartAt(z, at + |LocalHeader(es[i], s)|, es[i].data)
            && PartAt(z, |Body(es, s)| + |Central(es[..i], s)|, CentralHeader(es[i], s, at))
  {
    hide LocalHeader, CentralHeader, EndRecord, Body, Central;
    var z := Archive(es, s);
    BodyStep(es, s, i);
    BodyPrefix(es, s, i + 1);
    var before, body := Body(es[..i], s), Body(es[..i + 1], s);
    PartOfPrefix(Body(es, s), body, |before|, LocalHeader(es[i], s));
    PartOfPrefix(Body(es, s), body, |before + LocalHeader(es[i], s)|, es[i].data);
    PartOfPrefix(z, Body(es, s), |before|, LocalHeader(es[i], s));
    PartOfPrefix(z, Body(es, s), |before + LocalHeader(es[i], s)|, es[i].data);
    var header := CentralHeader(es[i], s, |before|);
    PartOfPrefix(Central(es, s), Central(es[..i + 1], s), |Central(es[..i], s)|, header);
    CentralInArchive(es, s, |Central(es[..i], s)|, header);
  }

  lemma CentralInArchive(es: seq<Entry>, s: Stamp, at: nat, part: seq<Byte>)
    requires PartAt(Central(es, s), at, part)
    ensures PartAt(Archive(es, s), |Body(es, s)| + at, part)
  {
    hide EndRecord, Body, Central;
    var z, c, n := Archive(es, s), Central(es, s), |Body(es, s)|;
    assert z[n + at..n + at + |part|] == c[at..at + |part|];
  }

  // ---------------------------------------------------------------- reading back the headers

  predicate Small(e: Entry) { |e.name| < LIMIT16 && |e.data| < LIMIT32 }

  function ItemOf(e: Entry): Item { Item(e.name, Crc32.Crc(e.data), e.data) }

  lemma LocalGet(z: seq<Byte>, at: nat, e: Entry, s: Stamp)
    requires Small(e) && PartAt(z, at, LocalHeader(e, s))
    ensures at + 30 + |e.name| <= |z|
    ensures Get32(z, at) == LOCAL_SIGNATURE && Get16(z, at + 8) == 0 && Get32(z, at + 14) == Crc32.Crc(e.data)
    ensures Get16(z, at + 4) <= KNOWN_VERSION && Get16(z, at + 6) == 0
    ensures Get32(z, at + 18) == |e.data| && Get32(z, at + 22) == |e.data|
    ensures Get16(z, at + 26) == |e.name| && Get16(z, at + 28) == 0
    ensures z[at + 30..at + 30 + |e.name|] == e.name
  {
    hide Record, Get, Get16, Get32;
    var fs := LocalFields(e, s);
    FieldAt(z, at, 30, fs, e.name, 0);
    FieldAt(z, at, 30, fs, e.name, 1);
    FieldAt(z, at, 30, fs, e.name, 2);
    FieldAt(z, at, 30, fs, e.name, 3);
    FieldAt(z, at, 30, fs, e.name, 6);
    FieldAt(z, at, 30, fs, e.name, 7);
    FieldAt(z, at, 30, fs, e.name, 8);
    FieldAt(z, at, 30, fs, e.name, 9);
    FieldAt(z, at, 30, fs, e.name, 10);
    NameAt(z, at, 30, fs, e.name);
  }

  lemma FieldAt(z: seq<Byte>, at: nat, size: nat, fs: seq<Field>, name: seq<Byte>, i: nat)
    requires Ordered(fs, size) && i < |fs| && PartAt(z, at, Record(size, fs, name))
    ensures at + fs[i].End() <= |z|
    ensures fs[i].Field16? ==> Get16(z, at + fs[i].offset) == fs[i].Stored()
    ensures fs[i].Field32? ==> Get32(z, at + fs[i].offset) == fs[i].Stored()
  {
    hide Record, Get, Get16, Get32;
    RecordGet(size, fs, name, i);
    GetShifted(z, at, Record(size, fs, name), fs[i]);
  }

  lemma NameAt(z: seq<Byte>, at: nat, size: nat, fs: seq<Field>, name: seq<Byte>)
    requires Ordered(fs, size) && PartAt(z, at, Record(size, fs, name))
    ensures at + size + |name| <= |z| && z[at + size..at + size + |name|] == name
  {
    hide Record;
    RecordName(size, fs, name);
    var r := Record(size, fs, name);
    assert z[at..at + |r|][size..] == z[at + size..at + |r|];
  }

  lemma CentralGet(z: seq<Byte>, at: nat, e: Entry, s: Stamp, offset: nat)
    requires Small(e) && offset < LIMIT32 && PartAt(z, at, CentralHeader(e, s, offset))
    ensures at + 46 + |e.name| <= |z|
    ensures Get32(z, at) == CENTRAL_SIGNATURE && Get16(z, at + 10) == 0 && Get32(z, at + 16) == Crc32.Crc(e.data)
    ensures Get16(z, at + 6) <= KNOWN_VERSION && Get16(z, at + 8) == 0
    ensures Get32(z, at + 20) == |e.data| && Get32(z, at + 24) == |e.data| && Get32(z, at + 42) == offset
    ensures Get16(z, at + 28) == |e.name| && Get16(z, at + 30) == 0 && Get16(z, at + 32) == 0
    ensures z[at + 46..at + 46 + |e.name|] == e.name
  {
    hide Record, Get, Get16, Get32, Crc32.Crc;
    var fs := CentralFields(e, s, offset);
    NameAt(z, at, 46, fs, e.name);
    CentralGetStart(z, at, e, s, offset);
    CentralGetRest(z, at, e, s, offset);
  }

  lemma CentralGetStart(z: seq<Byte>, at: nat, e: Entry, s: Stamp, offset: nat)
    requires Small(e) && PartAt(z, at, CentralHeader(e, s, offset))
    ensures at + 46 <= |z|
    ensures Get32(z, at) == CENTRAL_SIGNATURE && Get16(z, at + 10) == 0 && Get32(z, at + 16) == Crc32.Crc(e.data)
    ensures Get16(z, at + 6) <= KNOWN_VERSION && Get16(z, at + 8) == 0
    ensures Get32(z, at + 20) == |e.data|
  {
    hide Record, Get, Get16, Get32, CentralRest;
    var fs := CentralFields(e, s, offset);
    FieldAt(z, at, 46, fs, e.name, 0);
    FieldAt(z, at, 46, fs, e.name, 2);
    FieldAt(z, at, 46, fs, e.name, 3);
    FieldAt(z, at, 46, fs, e.name, 4);
    FieldAt(z, at, 46, fs, e.name, 7);
    FieldAt(z, at, 46, fs, e.name, 8);
  }

  lemma CentralGetRest(z: seq<Byte>, at: nat, e: Entry, s: Stamp, offset: nat)
    requires Small(e) && offset < LIMIT32 && PartAt(z, at, CentralHeader(e, s, offset))
    ensures at + 46 <= |z|
    ensures Get32(z, at + 24) == |e.data| && Get32(z, at + 42) == offset
    ensures Get16(z, at + 28) == |e.name| && Get16(z, at + 30) == 0 && Get16(z, at + 32) == 0
  {
    hide Record, Get, Get16, Get32, Crc32.Crc;
    var fs := CentralFields(e, s, offset);
    FieldAt(z, at, 46, fs, e.name, 9);
    FieldAt(z, at, 46, fs, e.name, 10);
    FieldAt(z, at, 46, fs, e.name, 11);
    FieldAt(z, at, 46, fs, e.name, 12);
    FieldAt(z, at, 46, fs, e.name, 16);
  }

  lemma EndGet(z: seq<Byte>, at: nat, count: nat, centralSize: nat, offset: nat)
    requires PartAt(z, at, EndRecord(count, centralSize, offset))
    ensures at + 22 <= |z|
    ensures Get32(z, at) == END_SIGNATURE && Get16(z, at + 8) == Get16(z, at + 10) == count % LIMIT16
    ensures Get32(z, at + 12) == centralSize % LIMIT32 && Get32(z, at + 16) == offset % LIMIT32
            && Get16(z, at + 20) == 0
  {
    hide Record, Get, Get16, Get32;
    var fs := EndFields(count, centralSize, offset);
    FieldAt(z, at, 22, fs, [], 0);
    FieldAt(z, at, 22, fs, [], 1);
    FieldAt(z, at, 22, fs, [], 2);
    FieldAt(z, at, 22, fs, [], 3);
    FieldAt(z, at, 22, fs, [], 4);
    NoComment(z, at, fs);
  }

  lemma NoComment(z: seq<Byte>, at: nat, fs: seq<Field>)
    requires Ordered(fs, 22) && |fs| > 1 && fs[0].End() <= 4 && fs[1].offset >= 8 && fs[|fs| - 1].End() <= 20
    requires PartAt(z, at, Record(22, fs, []))
    ensures Get16(z, at + 20) == 0
  {
    GapsAreZero(fs);
    var r := Record(22, fs, []);
    assert z[at..at + 22][20] == r[20] && z[at..at + 22][21] == r[21];
  }

  /** What the writer of the end record leaves out is zero: the disk numbers and the comment length. */
  lemma GapsAreZero(fs: seq<Field>)
    requires Ordered(fs, 22) && |fs| > 1 && fs[0].End() <= 4 && fs[1].offset >= 8 && fs[|fs| - 1].End() <= 20
    ensures PartAt(Record(22, fs, []), 4, [0, 0, 0, 0]) && PartAt(Record(22, fs, []), 20, [0, 0])
  {
    hide PutAll;
    var r := Record(22, fs, []);
    forall k | 4 <= k < 8 || 20 <= k < 22 ensures r[k] == 0 {
      forall i | 0 <= i < |fs| ensures !(fs[i].offset <= k < fs[i].End()) {
        if 1 < i {
          OrderedPairs(fs, 22, 1, i);
        }
        if i < |fs| - 1 {
          OrderedPairs(fs, 22, i, |fs| - 1);
        }
      }
      PutAllKeeps(Zeroed(22), fs, k);
    }
    assert r[4..8] == [0, 0, 0, 0] && r[20..22] == [0, 0];
  }

  /** Following a correct offset gives the entry back. */
  lemma ReadLocalBack(z: seq<Byte>, at: nat, e: Entry, s: Stamp)
    requires Small(e) && PartAt(z, at, LocalHeader(e, s)) && PartAt(z, at + |LocalHeader(e, s)|, e.data)
    ensures ReadLocal(z, at, e.name, Crc32.Crc(e.data), |e.data|) == Some(ItemOf(e))
  {
    hide LocalHeader, Get16, Get32;
    LocalGet(z, at, e, s);
  }

  // ---------------------------------------------------------------- the round trip

  /** The offsets and the directory size fit in 32 bits. */
  predicate Fits(es: seq<Entry>, s: Stamp) {
    |Body(es, s)| < LIMIT32 && |Central(es, s)| < LIMIT32
  }

  lemma BodyLength(es: seq<Entry>, s: Stamp, i: nat)
    requires i < |es|
    ensures |Body(es[..i], s)| + 30 + |es[i].name| + |es[i].data| <= |Body(es, s)|
    ensures |Central(es[..i + 1], s)| == |Central(es[..i], s)| + 46 + |es[i].name| <= |Central(es, s)|
  {
    hide LocalHeader, CentralHeader, Body, Central;
    BodyStep(es, s, i);
    BodyPrefix(es, s, i + 1);
  }

  function Items(es: seq<Entry>, i: nat): seq<Item>
    requires i <= |es|
    decreases |es| - i
  {
    if i == |es| then [] else [ItemOf(es[i])] + Items(es, i + 1)
  }

  lemma {:induction false} WalkBack(es: seq<Entry>, s: Stamp, i: nat)
    requires Accepted(es) && Fits(es, s) && i <= |es|
    ensures Walk(Archive(es, s), |Body(es, s)| + |Central(es[..i], s)|, |es| - i, |Body(es, s)| + |Central(es, s)|)
         == Some(Items(es, i))
    decreases |es| - i
  {
    hide LocalHeader, CentralHeader, Body, Central, EndRecord, Get16, Get32, Archive, ReadLocal, GoodName, Walk;
    ArchiveLength(es, s);
    if i == |es| {
      assert es[..i] == es;
      WalkNone(Archive(es, s), |Body(es, s)| + |Central(es, s)|);
    } else {
      WalkBack(es, s, i + 1);
      WalkStep(es, s, i);
      WalkOne(Archive(es, s), |Body(es, s)| + |Central(es[..i], s)|, |es| - i, |Body(es, s)| + |Central(es, s)|,
              |es[i].name|, ItemOf(es[i]), Items(es, i + 1));
    }
  }

  lemma WalkNone(z: seq<Byte>, end: nat)
    requires end <= |z|
    ensures Walk(z, end, 0, end) == Some([])
  {
  }

  lemma WalkOne(z: seq<Byte>, at: nat, count: nat, end: nat, n: nat, item: Item, rest: seq<Item>)
    requires count > 0 && at + 46 + n <= end <= |z|
    requires Get32(z, at) == CENTRAL_SIGNATURE && Get16(z, at + 10) == 0 && Get16(z, at + 28) == n
    requires Get16(z, at + 6) <= KNOWN_VERSION && Get16(z, at + 8) == 0
    requires Get16(z, at + 30) == 0 && Get16(z, at + 32) == 0 && Get32(z, at + 20) == Get32(z, at + 24)
    requires ReadLocal(z, Get32(z, at + 42), z[at + 46..at + 46 + n], Get32(z, at + 16), Get32(z, at + 24))
             == Some(item)
    requires Walk(z, at + 46 + n, count - 1, end) == Some(rest)
    ensures Walk(z, at, count, end) == Some([item] + rest)
  {
    hide ReadLocal, Get16, Get32;
  }

  lemma ArchiveLength(es: seq<Entry>, s: Stamp)
    ensures |Archive(es, s)| == |Body(es, s)| + |Central(es, s)| + 22
    ensures PartAt(Archive(es, s), |Body(es, s)| + |Central(es, s)|, EndRecord(|es|, |Central(es, s)|, |Body(es, s)|))
  {
    hide EndRecord, Body, Central;
  }

  /** What the reader sees at the i-th central header. */
  lemma WalkStep(es: seq<Entry>, s: Stamp, i: nat)
    requires Accepted(es) && Fits(es, s) && i < |es|
    ensures var z := Archive(es, s);
            var at, e := |Body(es, s)| + |Central(es[..i], s)|, es[i];
            && at + 46 + |e.name| == |Body(es, s)| + |Central(es[..i + 1], s)|
            && at + 46 + |e.name| <= |Body(es, s)| + |Central(es, s)| <= |z|
            && Get32(z, at) == CENTRAL_SIGNATURE && Get16(z, at + 10) == 0 && Get16(z, at + 28) == |e.name|
            && Get16(z, at + 6) <= KNOWN_VERSION && Get16(z, at + 8) == 0
            && Get16(z, at + 30) == 0 && Get16(z, at + 32) == 0 && Get32(z, at + 20) == Get32(z, at + 24)
            && ReadLocal(z, Get32(z, at + 42), z[at + 46..at + 46 + |e.name|], Get32(z, at + 16), Get32(z, at + 24))
               == Some(ItemOf(e))
  {
    hide LocalHeader, CentralHeader, Body, Central, EndRecord, Get16, Get32, Archive, ReadLocal;
    ArchiveLength(es, s);
    BodyLength(es, s, i);
    EntryInPlace(es, s, i);
    var z, offset, e := Archive(es, s), |Body(es[..i], s)|, es[i];
    assert GoodName(e.name);
    CentralGet(z, |Body(es, s)| + |Central(es[..i], s)|, e, s, offset);
    ReadLocalBack(z, offset, e, s);
  }

  lemma TruncatedSum(a: nat, b: nat)
    ensures a % LIMIT32 + b % LIMIT32 == a + b <==> a < LIMIT32 && b < LIMIT32
  {
  }

  lemma FindsEnd(es: seq<Entry>, s: Stamp)
    ensures var z, p := Archive(es, s), |Body(es, s)| + |Central(es, s)|;
            && FindEnd(z, |z| - 22) == Some(p) && p + 22 == |z|
            && Get16(z, p + 8) == Get16(z, p + 10) == |es| % LIMIT16
            && Get32(z, p + 12) == |Central(es, s)| % LIMIT32 && Get32(z, p + 16) == |Body(es, s)| % LIMIT32
  {
    hide Body, Central, EndRecord, Get16, Get32, Archive;
    ArchiveLength(es, s);
    EndGet(Archive(es, s), |Body(es, s)| + |Central(es, s)|, |es|, |Central(es, s)|, |Body(es, s)|);
  }

  lemma ReadsDirectory(es: seq<Entry>, s: Stamp)
    requires Accepted(es) && Fits(es, s)
    ensures var body, central := |Body(es, s)|, |Central(es, s)|;
            && body + central <= |Archive(es, s)|
            && ReadZip(Archive(es, s)) == Walk(Archive(es, s), body, |es|, body + central)
  {
    hide Body, Central, EndRecord, Get16, Get32, Archive, Walk, GoodName, FindEnd, ReadZip;
    FindsEnd(es, s);
    ReadZipAt(Archive(es, s), |Body(es, s)| + |Central(es, s)|, |es|, |Central(es, s)|, |Body(es, s)|);
  }

  lemma FittingRoundTrip(es: seq<Entry>, s: Stamp)
    requires Accepted(es) && Fits(es, s)
    ensures ReadZip(Archive(es, s)) == Some(Items(es, 0))
  {
    hide Body, Central, Archive, Walk, ReadZip, Accepted, Fits, Items;
    ReadsDirectory(es, s);
    WalkBack(es, s, 0);
    EmptyBody(es, s);
  }

  lemma TruncatedIsRefused(es: seq<Entry>, s: Stamp)
    requires Accepted(es) && !Fits(es, s)
    ensures ReadZip(Archive(es, s)) == None
  {
    hide Body, Central, EndRecord, Get16, Get32, Archive, Walk, GoodName, FindEnd, ReadZip;
    FindsEnd(es, s);
    var body, central := |Body(es, s)|, |Central(es, s)|;
    TruncatedSum(body, central);
    ReadZipAt(Archive(es, s), body + central, |es|, central % LIMIT32, body % LIMIT32);
  }

  /** The reader gets every entry back, in order, with its checksum, if and only if the offsets fit in 32 bits. */
  lemma RoundTripIff(es: seq<Entry>, s: Stamp)
    requires Accepted(es)
    ensures Fits(es, s) ==> ReadZip(Archive(es, s)) == Some(Items(es, 0))
    ensures !Fits(es, s) ==> ReadZip(Archive(es, s)) == None
  {
    hide ReadZip, Archive, Accepted, Fits;
    if Fits(es, s) {
      FittingRoundTrip(es, s);
    } else {
      TruncatedIsRefused(es, s);
    }
  }

  lemma ReadZipAt(z: seq<Byte>, p: nat, count: nat, size: nat, offset: nat)
    requires p + 22 == |z| && FindEnd(z, |z| - 22) == Some(p)
    requires Get16(z, p + 8) == Get16(z, p + 10) == count && Get32(z, p + 12) == size && Get32(z, p + 16) == offset
    ensures ReadZip(z) == if offset + size != p then None else Walk(z, offset, count, p)
  {
    hide Get16, Get32, Walk, FindEnd;
  }

  /** The writer's size check is not enough: it passes a first entry whose headers push the directory out of range. */
  lemma SizeCheckIsNotEnough(s: Stamp)
    ensures var es := [Entry([65], Zeroed(LIMIT32 - 1))];
            Accepted(es) && PassesSizeCheck(es, s) && !Fits(es, s) && ReadZip(Archive(es, s)) == None
  {
    hide ReadZip, Archive, Central, LocalHeader, Crc32.Crc;
    var es := [Entry([65], Zeroed(LIMIT32 - 1))];
    assert es[..0] == [];
    BodyStep(es, s, 0);
    assert es[..1] == es;
    RoundTripIff(es, s);
  }
}
