/**
  The bytes of an archive, position by position, as sections 4.3.7, 4.3.12 and 4.3.16 of PKWARE APPNOTE.TXT lay
  them out: every field of every header, those included that a reader may skip.
 */
module ZipLayout {
  import opened Common
  import opened Records
  import opened StoredZip
  import Crc32

  /** A number of `width` bytes stands at `at`, least significant byte first. */
  predicate Number(z: seq<Byte>, at: nat, width: nat, value: nat) {
    PartAt(z, at, LittleEndian(value, width))
  }

  lemma FieldBytes(z: seq<Byte>, at: nat, size: nat, fs: seq<Field>, name: seq<Byte>, i: nat)
    requires Ordered(fs, size) && i < |fs| && PartAt(z, at, Record(size, fs, name))
    ensures Number(z, at + fs[i].offset, fs[i].Width(), fs[i].value)
  {
    hide Encode, LittleEndian, PutAll;
    var r, f := Record(size, fs, name), fs[i];
    PutAllGet(Zeroed(size), fs, i);
    EncodeIsLittleEndian(f);
    assert r[f.offset..f.End()] == PutAll(Zeroed(size), fs)[f.offset..f.End()];
    PartOfPart(z, at, r, f.offset, LittleEndian(f.value, f.Width()));
  }

  lemma PartOfPart(z: seq<Byte>, at: nat, whole: seq<Byte>, i: nat, part: seq<Byte>)
    requires PartAt(z, at, whole) && PartAt(whole, i, part)
    ensures PartAt(z, at + i, part)
  {
    forall k | 0 <= k < |part| ensures z[at + i + k] == part[k] {
      assert part[k] == whole[i..i + |part|][k] == whole[i + k] == z[at..at + |whole|][i + k];
    }
  }

  lemma Signature(b: Byte, c: Byte)
    ensures LittleEndian(0x4b50 + 65536 * b + 16777216 * c, 4) == [0x50, 0x4b, b, c]
  {
    var v := 0x4b50 + 65536 * b + 16777216 * c;
    assert v / 65536 == b + 256 * c;
    EncodeIsLittleEndian(Field32(0, v));
  }

  /**
    The first entry starts the archive and each next one follows the data before it; the directory follows the last
    data, in the same order, and the end record ends the archive.
   */
  lemma NothingBetween(es: seq<Entry>, s: Stamp, i: nat)
    requires i < |es|
    ensures |Body(es[..0], s)| == |Central(es[..0], s)| == 0
    ensures |Body(es[..i + 1], s)| == |Body(es[..i], s)| + 30 + |es[i].name| + |es[i].data|
    ensures |Central(es[..i + 1], s)| == |Central(es[..i], s)| + 46 + |es[i].name|
    ensures |Archive(es, s)| == |Body(es, s)| + |Central(es, s)| + 22
  {
    hide Body, Central, LocalHeader, CentralHeader, EndRecord;
    EmptyBody(es, s);
    BodyStep(es, s, i);
  }

  /** The local header of an entry, its name and its data. */
  lemma LocalHeaderBytes(es: seq<Entry>, s: Stamp, i: nat)
    requires i < |es|
    ensures var z, at, e := Archive(es, s), |Body(es[..i], s)|, es[i];
            && PartAt(z, at, [0x50, 0x4b, 0x03, 0x04])
            && Number(z, at + 4, 2, 20) && Number(z, at + 6, 2, 0) && Number(z, at + 8, 2, 0)
            && Number(z, at + 10, 2, s.time) && Number(z, at + 12, 2, s.date)
            && Number(z, at + 14, 4, Crc32.Crc(e.data))
            && Number(z, at + 18, 4, |e.data|) && Number(z, at + 22, 4, |e.data|)
            && Number(z, at + 26, 2, |e.name|) && Number(z, at + 28, 2, 0)
            && PartAt(z, at + 30, e.name) && PartAt(z, at + 30 + |e.name|, e.data)
  {
    hide Body, Central, LocalHeader, CentralHeader, EndRecord, Archive, PartAt, Number, Crc32.Crc;
    EntryInPlace(es, s, i);
    LocalFieldBytes(Archive(es, s), |Body(es[..i], s)|, es[i], s);
  }

  lemma LocalFieldBytes(z: seq<Byte>, at: nat, e: Entry, s: Stamp)
    requires PartAt(z, at, LocalHeader(e, s))
    ensures PartAt(z, at, [0x50, 0x4b, 0x03, 0x04])
    ensures Number(z, at + 4, 2, 20) && Number(z, at + 6, 2, 0) && Number(z, at + 8, 2, 0)
    ensures Number(z, at + 10, 2, s.time) && Number(z, at + 12, 2, s.date)
    ensures Number(z, at + 14, 4, Crc32.Crc(e.data))
    ensures Number(z, at + 18, 4, |e.data|) && Number(z, at + 22, 4, |e.data|)
    ensures Number(z, at + 26, 2, |e.name|) && Number(z, at + 28, 2, 0)
    ensures PartAt(z, at + 30, e.name)
  {
    hide Record, LittleEndian, Crc32.Crc;
    var fs := LocalFields(e, s);
    NameAt(z, at, 30, fs, e.name);
    Signature(0x03, 0x04);
    FieldBytes(z, at, 30, fs, e.name, 0);
    FieldBytes(z, at, 30, fs, e.name, 1);
    FieldBytes(z, at, 30, fs, e.name, 2);
    FieldBytes(z, at, 30, fs, e.name, 3);
    FieldBytes(z, at, 30, fs, e.name, 4);
    FieldBytes(z, at, 30, fs, e.name, 5);
    FieldBytes(z, at, 30, fs, e.name, 6);
    FieldBytes(z, at, 30, fs, e.name, 7);
    FieldBytes(z, at, 30, fs, e.name, 8);
    FieldBytes(z, at, 30, fs, e.name, 9);
    FieldBytes(z, at, 30, fs, e.name, 10);
  }

  /** The central header of an entry and its name. */
  lemma CentralHeaderBytes(es: seq<Entry>, s: Stamp, i: nat)
    requires i < |es|
    ensures var z, at, e := Archive(es, s), |Body(es, s)| + |Central(es[..i], s)|, es[i];
            && PartAt(z, at, [0x50, 0x4b, 0x01, 0x02])
            && Number(z, at + 4, 2, 20) && Number(z, at + 6, 2, 20)
            && Number(z, at + 8, 2, 0) && Number(z, at + 10, 2, 0)
            && Number(z, at + 12, 2, s.time) && Number(z, at + 14, 2, s.date)
            && Number(z, at + 16, 4, Crc32.Crc(e.data))
            && Number(z, at + 20, 4, |e.data|) && Number(z, at + 24, 4, |e.data|)
            && Number(z, at + 28, 2, |e.name|) && Number(z, at + 30, 2, 0) && Number(z, at + 32, 2, 0)
            && Number(z, at + 34, 2, 0) && Number(z, at + 36, 2, 0) && Number(z, at + 38, 4, 0)
            && Number(z, at + 42, 4, |Body(es[..i], s)|)
            && PartAt(z, at + 46, e.name)
  {
    hide Body, Central, LocalHeader, CentralHeader, EndRecord, Archive, PartAt, Number, Crc32.Crc;
    EntryInPlace(es, s, i);
    var z, at := Archive(es, s), |Body(es, s)| + |Central(es[..i], s)|;
    CentralStartBytes(z, at, es[i], s, |Body(es[..i], s)|);
    CentralRestBytes(z, at, es[i], s, |Body(es[..i], s)|);
  }

  lemma CentralStartBytes(z: seq<Byte>, at: nat, e: Entry, s: Stamp, offset: nat)
    requires PartAt(z, at, CentralHeader(e, s, offset))
    ensures PartAt(z, at, [0x50, 0x4b, 0x01, 0x02])
    ensures Number(z, at + 4, 2, 20) && Number(z, at + 6, 2, 20) && Number(z, at + 8, 2, 0) && Number(z, at + 10, 2, 0)
    ensures Number(z, at + 12, 2, s.time) && Number(z, at + 14, 2, s.date)
    ensures Number(z, at + 16, 4, Crc32.Crc(e.data)) && Number(z, at + 20, 4, |e.data|)
  {
    hide Record, LittleEndian, Crc32.Crc, CentralRest;
    var fs := CentralFields(e, s, offset);
    Signature(0x01, 0x02);
    FieldBytes(z, at, 46, fs, e.name, 0);
    FieldBytes(z, at, 46, fs, e.name, 1);
    FieldBytes(z, at, 46, fs, e.name, 2);
    FieldBytes(z, at, 46, fs, e.name, 3);
    FieldBytes(z, at, 46, fs, e.name, 4);
    FieldBytes(z, at, 46, fs, e.name, 5);
    FieldBytes(z, at, 46, fs, e.name, 6);
    FieldBytes(z, at, 46, fs, e.name, 7);
    FieldBytes(z, at, 46, fs, e.name, 8);
  }

  lemma CentralRestBytes(z: seq<Byte>, at: nat, e: Entry, s: Stamp, offset: nat)
    requires PartAt(z, at, CentralHeader(e, s, offset))
    ensures Number(z, at + 24, 4, |e.data|)
    ensures Number(z, at + 28, 2, |e.name|) && Number(z, at + 30, 2, 0) && Number(z, at + 32, 2, 0)
    ensures Number(z, at + 34, 2, 0) && Number(z, at + 36, 2, 0) && Number(z, at + 38, 4, 0)
    ensures Number(z, at + 42, 4, offset) && PartAt(z, at + 46, e.name)
  {
    hide Record, LittleEndian, Crc32.Crc;
    var fs := CentralFields(e, s, offset);
    NameAt(z, at, 46, fs, e.name);
    FieldBytes(z, at, 46, fs, e.name, 9);
    FieldBytes(z, at, 46, fs, e.name, 10);
    FieldBytes(z, at, 46, fs, e.name, 11);
    FieldBytes(z, at, 46, fs, e.name, 12);
    FieldBytes(z, at, 46, fs, e.name, 13);
    FieldBytes(z, at, 46, fs, e.name, 14);
    FieldBytes(z, at, 46, fs, e.name, 15);
    FieldBytes(z, at, 46, fs, e.name, 16);
  }

  /** The end record: one disk, the number of entries twice, size and place of the directory, no comment. */
  lemma EndRecordBytes(es: seq<Entry>, s: Stamp)
    ensures var z, at := Archive(es, s), |Body(es, s)| + |Central(es, s)|;
            && PartAt(z, at, [0x50, 0x4b, 0x05, 0x06]) && PartAt(z, at + 4, [0, 0, 0, 0])
            && Number(z, at + 8, 2, |es|) && Number(z, at + 10, 2, |es|)
            && Number(z, at + 12, 4, |Central(es, s)|) && Number(z, at + 16, 4, |Body(es, s)|)
            && PartAt(z, at + 20, [0, 0])
  {
    hide Body, Central, Record, Archive, LittleEndian;
    ArchiveLength(es, s);
    var z, at := Archive(es, s), |Body(es, s)| + |Central(es, s)|;
    var fs := EndFields(|es|, |Central(es, s)|, |Body(es, s)|);
    Signature(0x05, 0x06);
    FieldBytes(z, at, 22, fs, [], 0);
    FieldBytes(z, at, 22, fs, [], 1);
    FieldBytes(z, at, 22, fs, [], 2);
    FieldBytes(z, at, 22, fs, [], 3);
    FieldBytes(z, at, 22, fs, [], 4);
    GapsAreZero(fs);
    PartOfPart(z, at, EndRecord(|es|, |Central(es, s)|, |Body(es, s)|), 4, [0, 0, 0, 0]);
    PartOfPart(z, at, EndRecord(|es|, |Central(es, s)|, |Body(es, s)|), 20, [0, 0]);
  }
}
