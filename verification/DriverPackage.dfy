/** File names in artifact URLs, and what is taken out of one driver package. */
module DriverPackage {
  import opened Common

  const OFFLINE := "offline://"
  const REGISTRY := "agent-registry.json"
  const FOLDER := "drivers/"

  // ---------------------------------------------------------------- filenameFromUrl

  /** What follows the first separator, if there is one. */
  function AfterFirst(s: string): (r: Option<string>)
    ensures r.Some? ==> |r.value| < |s| && '/' == s[|s| - |r.value| - 1] && s[|s| - |r.value|..] == r.value
  {
    if |s| < |OFFLINE| then None
    else if s[..|OFFLINE|] == OFFLINE then
      assert OFFLINE[|OFFLINE| - 1] == s[..|OFFLINE|][|OFFLINE| - 1];
      Some(s[|OFFLINE|..])
    else AfterFirst(s[1..])
  }

  /** The last part of the split at the separator. */
  function LastPart(s: string): string
    decreases |s|
  {
    match AfterFirst(s)
    case None => s
    case Some(rest) => LastPart(rest)
  }

  /** What follows the last slash. */
  function AfterSlash(s: string): string {
    if s == "" || s[|s| - 1] == '/' then "" else AfterSlash(s[..|s| - 1]) + [s[|s| - 1]]
  }

  function FilenameFromUrl(url: string): string { AfterSlash(LastPart(url)) }

  lemma AfterSlashStep(s: string, c: char)
    ensures AfterSlash(s + [c]) == if c == '/' then "" else AfterSlash(s) + [c]
  {
    assert (s + [c])[..|s + [c]| - 1] == s;
  }

  lemma {:induction false} AfterSlashIsSuffix(s: string)
    ensures var r := AfterSlash(s);
            '/' !in r && |r| <= |s| && r == s[|s| - |r|..] && (|r| < |s| ==> s[|s| - |r| - 1] == '/')
    decreases |s|
  {
    if s != "" {
      hide AfterSlash;
      var init, c := s[..|s| - 1], s[|s| - 1];
      assert s == init + [c];
      AfterSlashIsSuffix(init);
      AfterSlashStep(init, c);
      var r := AfterSlash(init);
      assert s[|init| - |r|..] == init[|init| - |r|..] + [c];
    }
  }

  lemma {:induction false} AfterSlashJoins(base: string, tail: string)
    requires AfterSlash(base) == ""
    ensures AfterSlash(base + tail) == AfterSlash(tail)
    decreases |tail|
  {
    if tail == "" {
      assert base + tail == base;
    } else {
      hide AfterSlash;
      var init, c := tail[..|tail| - 1], tail[|tail| - 1];
      assert tail == init + [c] && base + tail == base + init + [c];
      AfterSlashJoins(base, init);
      AfterSlashStep(init, c);
      AfterSlashStep(base + init, c);
    }
  }

  lemma AfterSlashOfTail(front: string, tail: string)
    ensures AfterSlash(front + "/" + tail) == AfterSlash(tail)
  {
    hide AfterSlash;
    AfterSlashStep(front, '/');
    AfterSlashJoins(front + "/", tail);
  }

  /** Splitting off the scheme first makes no difference: the file name is what follows the last slash of the URL. */
  lemma {:induction false} FilenameIsLastSegment(url: string)
    ensures FilenameFromUrl(url) == AfterSlash(url)
    decreases |url|
  {
    hide AfterSlash, AfterFirst;
    var rest := AfterFirst(url);
    if rest.Some? {
      FilenameIsLastSegment(rest.value);
      var n := |url| - |rest.value|;
      assert url == url[..n - 1] + "/" + rest.value;
      AfterSlashOfTail(url[..n - 1], rest.value);
    }
  }

  lemma {:induction false} NoSlash(s: string)
    requires '/' !in s
    ensures AfterSlash(s) == s
  {
    if s != "" {
      NoSlash(s[..|s| - 1]);
      assert s == s[..|s| - 1] + [s[|s| - 1]];
    }
  }

  lemma NameUnder(front: string, f: string)
    requires '/' !in f
    ensures FilenameFromUrl(front + "/" + f) == f
  {
    hide AfterSlash, AfterFirst;
    FilenameIsLastSegment(front + "/" + f);
    AfterSlashOfTail(front, f);
    NoSlash(f);
  }

  /** The rewritten URL names the same file. */
  lemma RewrittenNamesTheFile(url: string)
    ensures FilenameFromUrl(OFFLINE + FilenameFromUrl(url)) == FilenameFromUrl(url)
  {
    hide FilenameFromUrl, AfterSlash;
    FilenameIsLastSegment(url);
    AfterSlashIsSuffix(url);
    var f := FilenameFromUrl(url);
    NameUnder("offline:/", f);
    assert OFFLINE == "offline:/" + "/";
    assert OFFLINE + f == "offline:/" + "/" + f;
  }

  // ---------------------------------------------------------------- extractDriverPackage

  datatype Artifact = Artifact(url: string, sha256: Option<string>, size: int)

  datatype PackageEntry = PackageEntry(version: string, jar: Option<Artifact>, native: Option<map<string, Artifact>>)

  datatype Kind = Jar | Native

  datatype Extracted = Extracted(
    driverKey: string, entry: PackageEntry, kind: Kind, platforms: seq<string>, filename: string, bytes: seq<Byte>,
        sha256: Option<string>)

  datatype Error =
    | MissingRegistry | UnreadableRegistry | WrongDrivers | NoFilename | NotOneArtifact
    | MissingFile(filename: string) | SizeMismatch(filename: string)

  type Files = map<string, seq<Byte>>

  function Rewrite(a: Artifact): Result<Artifact, Error> {
    var filename := FilenameFromUrl(a.url);
    if filename == "" then Err(NoFilename)
    else Ok(Artifact(OFFLINE + filename, if a.sha256 == Some("") then None else a.sha256, a.size))
  }

  /** The rewritten artifact and its bytes. */
  function Take(files: Files, a: Artifact): Result<(Artifact, seq<Byte>), Error> {
    var filename := FilenameFromUrl(a.url);
    if FOLDER + filename !in files then Err(MissingFile(filename))
    else
      var bytes := files[FOLDER + filename];
      if a.size > 0 && |bytes| != a.size then Err(SizeMismatch(filename))
      else
        match Rewrite(a)
        case Err(e) => Err(e)
        case Ok(rewritten) => Ok((rewritten, bytes))
  }

  lemma SingleKey<K, V>(m: map<K, V>, a: K, b: K)
    requires |m| == 1 && a in m && b in m
    ensures a == b
  {
    assert |m.Keys| == 1;
    assert |m.Keys - {a}| == 0;
    assert m.Keys - {a} == {};
  }

  function Only<V>(m: map<string, V>): (k: string)
    requires |m| == 1
    ensures k in m && m.Keys == {k}
  {
    assert |m.Keys| == 1;
    assert m.Keys != {};
    assert forall a, b :: a in m && b in m ==> a == b by {
      forall a, b | a in m && b in m ensures a == b { SingleKey(m, a, b); }
    }
    var k :| k in m;
    k
  }

  /** Files of the package, a reader for its registry file, and the driver that was asked for. */
  function Extract(files: Files, parse: seq<Byte> -> Option<map<string, PackageEntry>>, key: string)
      : Result<Extracted, Error>
  {
    if REGISTRY !in files then Err(MissingRegistry)
    else
      match parse(files[REGISTRY])
      case None => Err(UnreadableRegistry)
      case Some(drivers) =>
        if |drivers| != 1 || key !in drivers then Err(WrongDrivers)
        else ExtractEntry(files, key, drivers[key])
  }

  function ExtractEntry(files: Files, key: string, entry: PackageEntry): Result<Extracted, Error> {
    if entry.jar.Some? && entry.native.None? then
      var a := entry.jar.value;
      match Take(files, a)
      case Err(e) => Err(e)
      case Ok((rewritten, bytes)) =>
        Ok(Extracted(key, entry.(jar := Some(rewritten)), Jar, [], FilenameFromUrl(a.url), bytes, a.sha256))
    else if entry.native.Some? && |entry.native.value| == 1 && entry.jar.None? then
      var platform := Only(entry.native.value);
      var a := entry.native.value[platform];
      match Take(files, a)
      case Err(e) => Err(e)
      case Ok((rewritten, bytes)) =>
        Ok(Extracted(key, entry.(native := Some(map[platform := rewritten])), Native, [platform],
            FilenameFromUrl(a.url), bytes, a.sha256))
    else Err(NotOneArtifact)
  }

  /** An artifact that records a size names the file, and the file has that size. */
  predicate Describes(a: Artifact, filename: string, bytes: seq<Byte>) {
    filename != "" && FilenameFromUrl(a.url) == filename && (a.size > 0 ==> |bytes| == a.size)
  }

  /** What every extracted package is: one kind of artifact, and each artifact describes the extracted bytes. */
  predicate Consistent(x: Extracted) {
    match x.kind
    case Jar => x.entry.jar.Some? && x.entry.native.None? && Describes(x.entry.jar.value, x.filename, x.bytes)
    case Native =>
      && x.entry.jar.None? && x.entry.native.Some? && |x.platforms| == 1
      && x.entry.native.value.Keys == {x.platforms[0]}
         && Describes(x.entry.native.value[x.platforms[0]], x.filename, x.bytes)
  }

  lemma TakeDescribes(files: Files, a: Artifact)
    requires Take(files, a).Ok?
    ensures var (rewritten, bytes) := Take(files, a).value; Describes(rewritten, FilenameFromUrl(a.url), bytes)
  {
    hide FilenameFromUrl;
    RewrittenNamesTheFile(a.url);
  }

  /**
    Whatever a package holds, what comes out of it is consistent, is for the driver asked for, and comes from its
    files.
   */
  lemma ExtractIsConsistent(files: Files, parse: seq<Byte> -> Option<map<string, PackageEntry>>, key: string)
    requires Extract(files, parse, key).Ok?
    ensures var x := Extract(files, parse, key).value;
            Consistent(x) && x.driverKey == key && FOLDER + x.filename in files && files[FOLDER + x.filename] == x.bytes
  {
    hide FilenameFromUrl, Rewrite, Take;
    var entry := parse(files[REGISTRY]).value[key];
    if entry.jar.Some? {
      TakeDescribes(files, entry.jar.value);
      TakeBytes(files, entry.jar.value);
    } else {
      var a := entry.native.value[Only(entry.native.value)];
      TakeDescribes(files, a);
      TakeBytes(files, a);
    }
  }

  lemma TakeBytes(files: Files, a: Artifact)
    requires Take(files, a).Ok?
    ensures var f := FOLDER + FilenameFromUrl(a.url); f in files && files[f] == Take(files, a).value.1
  {
    hide FilenameFromUrl, Rewrite;
  }

  // ---------------------------------------------------------------- when a package is taken

  /** The one artifact of an entry: a jar and no native artifacts, or one native artifact and no jar. */
  predicate Offers(entry: PackageEntry, kind: Kind, platforms: seq<string>, a: Artifact) {
    match kind
    case Jar => platforms == [] && entry.jar == Some(a) && entry.native == None
    case Native => |platforms| == 1 && entry.jar == None && entry.native == Some(map[platforms[0] := a])
  }

  /** The same entry with another artifact in its place. */
  function Replaced(entry: PackageEntry, platforms: seq<string>, a: Artifact): PackageEntry {
    if platforms == [] then entry.(jar := Some(a)) else entry.(native := Some(map[platforms[0] := a]))
  }

  /**
    A package whose registry describes exactly the driver asked for, with one artifact, is taken if and only if its
    `drivers` folder holds the file the artifact names and the file has the recorded size, if one is recorded. What
    comes out has the file's bytes, the recorded checksum and the artifact under its offline URL.
   */
  lemma ExtractExactly(files: Files, parse: seq<Byte> -> Option<map<string, PackageEntry>>, key: string,
      entry: PackageEntry, kind: Kind, platforms: seq<string>, a: Artifact)
    requires "agent-registry.json" in files && parse(files["agent-registry.json"]) == Some(map[key := entry])
    requires Offers(entry, kind, platforms, a)
    ensures var name := AfterSlash(a.url);
            var path := "drivers/" + name;
            Extract(files, parse, key) ==
            if path !in files then Err(MissingFile(name))
            else if a.size > 0 && |files[path]| != a.size then Err(SizeMismatch(name))
            else if name == "" then Err(NoFilename)
            else
              var offline := Artifact("offline://" + name, if a.sha256 == Some("") then None else a.sha256, a.size);
              Ok(Extracted(key, Replaced(entry, platforms, offline), kind, platforms, name, files[path], a.sha256))
  {
    hide AfterSlash, FilenameFromUrl;
    FilenameIsLastSegment(a.url);
    assert |map[key := entry]| == 1;
    if kind == Native {
      assert |map[platforms[0] := a]| == 1;
      assert Only(entry.native.value) == platforms[0] by { assert Only(entry.native.value) in entry.native.value; }
      assert platforms == [platforms[0]];
    }
  }

  /** Every other package is refused: what is not exactly the driver asked for, or not exactly one artifact. */
  lemma ExtractRefuses(files: Files, parse: seq<Byte> -> Option<map<string, PackageEntry>>, key: string)
    ensures "agent-registry.json" !in files ==> Extract(files, parse, key) == Err(MissingRegistry)
    ensures "agent-registry.json" in files && parse(files["agent-registry.json"]) == None ==>
              Extract(files, parse, key) == Err(UnreadableRegistry)
    ensures "agent-registry.json" in files && parse(files["agent-registry.json"]).Some? ==>
              var drivers := parse(files["agent-registry.json"]).value;
              && (Extract(files, parse, key) == Err(WrongDrivers) <==> drivers.Keys != {key})
              && (drivers.Keys == {key} && Extract(files, parse, key) != Err(NotOneArtifact) ==>
                    exists kind, platforms, a :: Offers(drivers[key], kind, platforms, a))
  {
    hide Take, FilenameFromUrl;
    if "agent-registry.json" in files && parse(files["agent-registry.json"]).Some? {
      var drivers := parse(files["agent-registry.json"]).value;
      assert |drivers| == |drivers.Keys|;
      if |drivers| == 1 && key in drivers {
        assert drivers.Keys == {Only(drivers)} == {key};
        if ExtractEntry(files, key, drivers[key]) != Err(NotOneArtifact) {
          var kind, platforms, a := OneOffer(files, key, drivers[key]);
        }
        NoneIsWrong(files, key, drivers[key]);
      }
    }
  }

  lemma NoneIsWrong(files: Files, key: string, entry: PackageEntry)
    ensures ExtractEntry(files, key, entry) != Err(WrongDrivers)
  {
  }

  lemma OneOffer(files: Files, key: string, entry: PackageEntry)
      returns (kind: Kind, platforms: seq<string>, a: Artifact)
    requires ExtractEntry(files, key, entry) != Err(NotOneArtifact)
    ensures Offers(entry, kind, platforms, a)
  {
    hide Take, FilenameFromUrl;
    if entry.jar.Some? {
      kind, platforms, a := Jar, [], entry.jar.value;
    } else {
      var native := entry.native.value;
      var p := Only(native);
      assert native == map[p := native[p]];
      kind, platforms, a := Native, [p], native[p];
    }
  }
}
