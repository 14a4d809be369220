/** Assembling the bundle: one registry and one list of ZIP entries out of the extracted packages. */
module BundleAssembly {
  import opened Common
  import opened Records
  import opened DriverPackage
  import StoredZip

  const MAX_BUNDLE_BYTES: nat := 3_758_096_384     // 3.5 GiB
  const JRE_FOLDER := "jre/"

  datatype ZipEntry = ZipEntry(name: string, data: seq<Byte>)

  type Drivers = map<string, PackageEntry>

  function ZipOf(x: Extracted): ZipEntry { ZipEntry(FOLDER + x.filename, x.bytes) }

  /** `mergeDriverEntry`; None is the duplicate error. */
  function Merge(d: Drivers, x: Extracted): Option<Drivers> {
    if x.driverKey !in d then Some(d[x.driverKey := x.entry])
    else
      var existing := d[x.driverKey];
      if existing.native.Some? && x.entry.native.Some?
      then Some(d[x.driverKey := existing.(native := Some(existing.native.value + x.entry.native.value))])
      else None
  }

  function Registry(xs: seq<Extracted>): Option<Drivers> {
    if xs == [] then Some(map[])
    else
      match Registry(xs[..|xs| - 1])
      case None => None
      case Some(d) => Merge(d, xs[|xs| - 1])
  }

  predicate AllConsistent(xs: seq<Extracted>) { forall i :: 0 <= i < |xs| ==> Consistent(xs[i]) }

  // ---------------------------------------------------------------- the registry

  /** Where an entry holds an artifact: its jar, or the native artifact of a platform. */
  datatype Slot = JarSlot | NativeSlot(platform: string)

  function InSlot(e: PackageEntry, slot: Slot): Option<Artifact> {
    match slot
    case JarSlot => e.jar
    case NativeSlot(p) => if e.native.Some? && p in e.native.value then Some(e.native.value[p]) else None
  }

  function Recorded(d: Drivers, key: string, slot: Slot): Option<Artifact> {
    if key in d then InSlot(d[key], slot) else None
  }

  function SlotOf(x: Extracted): Slot
    requires Consistent(x)
  {
    if x.kind == Jar then JarSlot else NativeSlot(x.platforms[0])
  }

  function ArtifactOf(x: Extracted): (a: Artifact)
    requires Consistent(x)
    ensures Describes(a, x.filename, x.bytes)
  {
    if x.kind == Jar then x.entry.jar.value else x.entry.native.value[x.platforms[0]]
  }

  predicate GoesTo(x: Extracted, key: string, slot: Slot) { Consistent(x) && x.driverKey == key && SlotOf(x) == slot }

  /** The artifact of the last package for a driver and a slot. */
  function LastArtifact(xs: seq<Extracted>, key: string, slot: Slot): Option<Artifact> {
    if xs == [] then None
    else if GoesTo(xs[|xs| - 1], key, slot) then Some(ArtifactOf(xs[|xs| - 1]))
    else LastArtifact(xs[..|xs| - 1], key, slot)
  }

  lemma MergeRecords(d: Drivers, x: Extracted, key: string, slot: Slot)
    requires Merge(d, x).Some? && Consistent(x)
    ensures Recorded(Merge(d, x).value, key, slot)
         == if GoesTo(x, key, slot) then Some(ArtifactOf(x)) else Recorded(d, key, slot)
  {
    hide Describes;
  }

  /** The registry records, for every driver and slot, the artifact of the last package for it, and nothing else. */
  lemma {:induction false} RegistryRecordsLast(xs: seq<Extracted>, key: string, slot: Slot)
    requires AllConsistent(xs) && Registry(xs).Some?
    ensures Recorded(Registry(xs).value, key, slot) == LastArtifact(xs, key, slot)
  {
    if xs != [] {
      MergeRecords(Registry(xs[..|xs| - 1]).value, xs[|xs| - 1], key, slot);
      hide Merge, Recorded;
      RegistryRecordsLast(xs[..|xs| - 1], key, slot);
    }
  }

  lemma MergeKeys(d: Drivers, x: Extracted)
    requires Merge(d, x).Some?
    ensures var r := Merge(d, x).value;
            && r.Keys == d.Keys + {x.driverKey}
            && (r[x.driverKey].native.Some? <==> x.entry.native.Some?)
            && (forall k :: k in d ==> (r[k].native.Some? <==> d[k].native.Some?))
  {
  }

  /** Every package's driver is in the registry, and stays of its first package's kind. */
  lemma {:induction false} DriverIsThere(xs: seq<Extracted>, i: nat)
    requires Registry(xs).Some? && i < |xs|
    ensures xs[i].driverKey in Registry(xs).value
    ensures Registry(xs).value[xs[i].driverKey].native.Some? <==> xs[i].entry.native.Some?
  {
    var init, x := xs[..|xs| - 1], xs[|xs| - 1];
    MergeKeys(Registry(init).value, x);
    hide Merge;
    if i < |init| {
      DriverIsThere(init, i);
    }
  }

  predicate IsFor(x: Extracted, key: string) { x.driverKey == key }

  /** Every driver of the registry has a package. */
  lemma {:induction false} DriverHasPackage(xs: seq<Extracted>, key: string)
    requires Registry(xs).Some? && key in Registry(xs).value
    ensures exists i :: 0 <= i < |xs| && IsFor(xs[i], key)
  {
    var init, x := xs[..|xs| - 1], xs[|xs| - 1];
    MergeKeys(Registry(init).value, x);
    hide Merge;
    if key == x.driverKey {
      assert IsFor(xs[|xs| - 1], key);
    } else {
      DriverHasPackage(init, key);
      var i :| 0 <= i < |init| && IsFor(init[i], key);
      assert IsFor(xs[i], key);
    }
  }

  /** What an entry says besides its artifacts comes from the first package for the driver. */
  lemma {:induction false} VersionIsFirst(xs: seq<Extracted>, i: nat)
    requires Registry(xs).Some? && i < |xs| && forall j :: 0 <= j < i ==> xs[j].driverKey != xs[i].driverKey
    ensures xs[i].driverKey in Registry(xs).value
    ensures Registry(xs).value[xs[i].driverKey].version == xs[i].entry.version
  {
    var init := xs[..|xs| - 1];
    if i < |init| {
      VersionIsFirst(init, i);
    } else {
      assert forall j :: 0 <= j < |init| ==> !IsFor(init[j], xs[i].driverKey);
      if xs[i].driverKey in Registry(init).value {
        DriverHasPackage(init, xs[i].driverKey);
      }
    }
  }

  predicate Clash(x: Extracted, y: Extracted) {
    x.driverKey == y.driverKey && (x.entry.native.None? || y.entry.native.None?)
  }

  predicate NoClash(xs: seq<Extracted>) { forall i, j :: 0 <= i < j < |xs| ==> !Clash(xs[i], xs[j]) }

  /** Whether one more package can be merged depends on the packages before it. */
  lemma LastMergesIff(xs: seq<Extracted>, x: Extracted)
    requires Registry(xs).Some?
    ensures Merge(Registry(xs).value, x).Some? <==> forall i :: 0 <= i < |xs| ==> !Clash(xs[i], x)
  {
    hide Registry;
    var d := Registry(xs).value;
    if x.driverKey in d {
      DriverHasPackage(xs, x.driverKey);
      var i :| 0 <= i < |xs| && IsFor(xs[i], x.driverKey);
      DriverIsThere(xs, i);
      assert Merge(d, x).None? ==> Clash(xs[i], x);
    }
    forall i | 0 <= i < |xs| ensures Clash(xs[i], x) ==> Merge(d, x).None? {
      DriverIsThere(xs, i);
    }
  }

  lemma NoClashStep(xs: seq<Extracted>, x: Extracted)
    ensures NoClash(xs + [x]) <==> NoClash(xs) && forall i :: 0 <= i < |xs| ==> !Clash(xs[i], x)
  {
    hide Clash;
    var ys := xs + [x];
    assert forall i :: 0 <= i < |xs| ==> ys[i] == xs[i];
    assert NoClash(ys) ==> forall i :: 0 <= i < |xs| ==> !Clash(ys[i], ys[|xs|]);
    assert NoClash(ys) ==> forall i, j :: 0 <= i < j < |xs| ==> !Clash(ys[i], ys[j]);
  }

  /** Merging fails exactly when two packages are for the same driver and one of them is not native. */
  lemma {:induction false} MergesIff(xs: seq<Extracted>)
    ensures Registry(xs).Some? <==> NoClash(xs)
  {
    if xs != [] {
      var init, x := xs[..|xs| - 1], xs[|xs| - 1];
      assert xs == init + [x];
      MergesIff(init);
      NoClashStep(init, x);
      hide Merge, NoClash, Clash;
      if Registry(init).Some? {
        LastMergesIff(init, x);
      }
    }
  }

  /** A jar package is the only one for its driver, and its entry is in the registry as it was extracted. */
  lemma {:induction false} JarIsKept(xs: seq<Extracted>, i: nat)
    requires Registry(xs).Some? && i < |xs| && xs[i].entry.native.None?
    ensures xs[i].driverKey in Registry(xs).value && Registry(xs).value[xs[i].driverKey] == xs[i].entry
  {
    DriverIsThere(xs, i);
    var init := xs[..|xs| - 1];
    if i < |init| {
      DriverIsThere(init, i);
      JarIsKept(init, i);
    }
  }

  // ---------------------------------------------------------------- the assembly loop

  datatype Item = Item(title: string, packageUrl: string)
  datatype Jre = Jre(filename: string, size: int, bytes: seq<Byte>)
  datatype Bundle = Bundle(drivers: Drivers, zip: seq<ZipEntry>)
  datatype Failure = NotDownloaded(title: string) | Duplicate(key: string) | TooLarge

  function TotalBytes(zip: seq<ZipEntry>): nat {
    if zip == [] then 0 else TotalBytes(zip[..|zip| - 1]) + |zip[|zip| - 1].data|
  }

  predicate Downloaded(items: seq<Item>, found: map<string, Extracted>) {
    forall i :: 0 <= i < |items| ==> items[i].packageUrl in found
  }

  function Packages(items: seq<Item>, found: map<string, Extracted>): (xs: seq<Extracted>)
    requires Downloaded(items, found)
    ensures |xs| == |items| && forall i :: 0 <= i < |xs| ==> xs[i] == found[items[i].packageUrl]
  {
    if items == [] then [] else Packages(items[..|items| - 1], found) + [found[items[|items| - 1].packageUrl]]
  }

  function Entries(xs: seq<Extracted>, jre: Option<Jre>): seq<ZipEntry> {
    seq(|xs|, i requires 0 <= i < |xs| => ZipOf(xs[i]))
    + if jre.Some? then [ZipEntry(JRE_FOLDER + jre.value.filename, jre.value.bytes)] else []
  }

  lemma PackagesStep(items: seq<Item>, found: map<string, Extracted>, i: nat)
    requires i < |items| && Downloaded(items[..i + 1], found)
    ensures Downloaded(items[..i], found)
    ensures Packages(items[..i + 1], found) == Packages(items[..i], found) + [found[items[i].packageUrl]]
    ensures Entries(Packages(items[..i + 1], found), None)
            == Entries(Packages(items[..i], found), None) + [ZipOf(found[items[i].packageUrl])]
  {
    assert items[..i + 1][..i] == items[..i];
    assert forall k :: 0 <= k < i ==> items[..i][k] == items[..i + 1][k];
  }

  lemma RegistryStep(xs: seq<Extracted>, x: Extracted)
    requires Registry(xs).Some?
    ensures Registry(xs + [x]) == Merge(Registry(xs).value, x)
  {
    assert (xs + [x])[..|xs + [x]| - 1] == xs;
  }

  lemma TotalStep(zip: seq<ZipEntry>, z: ZipEntry)
    ensures TotalBytes(zip + [z]) == TotalBytes(zip) + |z.data|
  {
    assert (zip + [z])[..|zip + [z]| - 1] == zip;
  }

  /** The items before the index go through, and the one there does not: it is missing, or it clashes. */
  predicate Stops(items: seq<Item>, found: map<string, Extracted>, i: int, f: Failure) {
    && 0 <= i < |items| && Downloaded(items[..i], found) && NoClash(Packages(items[..i], found))
    && if items[i].packageUrl !in found then f == NotDownloaded(items[i].title)
       else && f == Duplicate(found[items[i].packageUrl].driverKey)
            && Downloaded(items[..i + 1], found) && !NoClash(Packages(items[..i + 1], found))
  }

  /** The entries: each driver file under its folder in the order of the packages, then the JRE under its own. */
  lemma EntriesMean(xs: seq<Extracted>, jre: Option<Jre>)
    ensures |Entries(xs, jre)| == |xs| + if jre.Some? then 1 else 0
    ensures forall i :: 0 <= i < |xs| ==> Entries(xs, jre)[i] == ZipEntry("drivers/" + xs[i].filename, xs[i].bytes)
    ensures jre.Some? ==> Entries(xs, jre)[|xs|] == ZipEntry("jre/" + jre.value.filename, jre.value.bytes)
  {
  }

  /** The assembly part of `assembleCustomBundle`, after the downloads. */
  method Assemble(items: seq<Item>, found: map<string, Extracted>, jre: Option<Jre>)
      returns (r: Result<Bundle, Failure>)
    ensures r.Ok? <==>
              && Downloaded(items, found) && NoClash(Packages(items, found))
              && TotalBytes(Entries(Packages(items, found), jre)) <= MAX_BUNDLE_BYTES
    ensures r.Ok? ==>
              && Registry(Packages(items, found)) == Some(r.value.drivers)
              && r.value.zip == Entries(Packages(items, found), jre)
    ensures r == Err(TooLarge) <==>
              && Downloaded(items, found) && NoClash(Packages(items, found))
              && TotalBytes(Entries(Packages(items, found), jre)) > 3_758_096_384
    ensures r.Err? && !r.error.TooLarge? ==> exists i :: Stops(items, found, i, r.error)
  {
    hide Merge, Registry, ZipOf, TotalBytes, NoClash;
    var drivers: Drivers := map[];
    var zip: seq<ZipEntry> := [];
    var rawBytes := 0;
    Empty();
    for i := 0 to |items|
      invariant Downloaded(items[..i], found)
      invariant Registry(Packages(items[..i], found)) == Some(drivers)
      invariant zip == Entries(Packages(items[..i], found), None) && rawBytes == TotalBytes(zip)
    {
      if items[i].packageUrl !in found {
        MergesIff(Packages(items[..i], found));
        assert Stops(items, found, i, NotDownloaded(items[i].title));
        return Err(NotDownloaded(items[i].title));
      }
      var x := found[items[i].packageUrl];
      assert Downloaded(items[..i + 1], found);
      PackagesStep(items, found, i);
      RegistryStep(Packages(items[..i], found), x);
      var merged := Merge(drivers, x);
      if merged.None? {
        ClashFound(items, found, i);
        MergesIff(Packages(items[..i], found));
        MergesIff(Packages(items[..i + 1], found));
        assert Stops(items, found, i, Duplicate(x.driverKey));
        return Err(Duplicate(x.driverKey));
      }
      drivers := merged.value;
      TotalStep(zip, ZipOf(x));
      zip := zip + [ZipOf(x)];
      rawBytes := rawBytes + |ZipOf(x).data|;
    }
    assert items[..|items|] == items;
    if jre.Some? {
      var z := ZipEntry(JRE_FOLDER + jre.value.filename, jre.value.bytes);
      TotalStep(zip, z);
      zip := zip + [z];
      rawBytes := rawBytes + |jre.value.bytes|;
    }
    assert zip == Entries(Packages(items, found), jre);
    MergesIff(Packages(items, found));
    if rawBytes > MAX_BUNDLE_BYTES {
      return Err(TooLarge);
    }
    r := Ok(Bundle(drivers, zip));
  }

  lemma Empty()
    ensures Registry([]) == Some(map[]) && TotalBytes([]) == 0
  {
  }

  lemma ClashFound(items: seq<Item>, found: map<string, Extracted>, i: nat)
    requires i < |items| && Downloaded(items[..i + 1], found) && Registry(Packages(items[..i + 1], found)).None?
    ensures Downloaded(items, found) ==> !NoClash(Packages(items, found))
  {
    hide Registry;
    if Downloaded(items, found) {
      MergesIff(Packages(items, found));
      MergesIff(Packages(items[..i + 1], found));
      assert Packages(items[..i + 1], found) == Packages(items, found)[..i + 1];
    }
  }

  // ---------------------------------------------------------------- the finished bundle

  /** The data a reader gets that looks a name up: the last entry of that name. */
  function LastNamed(zip: seq<ZipEntry>, name: string): Option<seq<Byte>> {
    if zip == [] then None
    else if zip[|zip| - 1].name == name then Some(zip[|zip| - 1].data)
    else LastNamed(zip[..|zip| - 1], name)
  }

  /** The bytes of the last package that ships a file name. */
  function LastShipped(xs: seq<Extracted>, filename: string): Option<seq<Byte>> {
    if xs == [] then None
    else if xs[|xs| - 1].filename == filename then Some(xs[|xs| - 1].bytes)
    else LastShipped(xs[..|xs| - 1], filename)
  }

  lemma FolderNames(f: string, g: string)
    ensures FOLDER + f == FOLDER + g <==> f == g
    ensures JRE_FOLDER + f != FOLDER + g && REGISTRY != FOLDER + g
  {
    assert (FOLDER + f)[|FOLDER|..] == f && (FOLDER + g)[|FOLDER|..] == g;
    assert (JRE_FOLDER + f)[0] == 'j' && (FOLDER + g)[0] == 'd' && REGISTRY[0] == 'a';
  }

  lemma LastNamedStep(zip: seq<ZipEntry>, z: ZipEntry, name: string)
    ensures LastNamed(zip + [z], name) == if z.name == name then Some(z.data) else LastNamed(zip, name)
  {
    assert (zip + [z])[..|zip + [z]| - 1] == zip;
  }

  /** Looking up a driver file finds the last package that ships it; a JRE is never in the way. */
  lemma {:induction false} LookupFindsLast(xs: seq<Extracted>, jre: Option<Jre>, filename: string)
    ensures LastNamed(Entries(xs, jre), FOLDER + filename) == LastShipped(xs, filename)
    decreases |xs|, jre.Some?
  {
    if jre.Some? {
      LookupFindsLast(xs, None, filename);
      FolderNames(jre.value.filename, filename);
      LastNamedStep(Entries(xs, None), ZipEntry(JRE_FOLDER + jre.value.filename, jre.value.bytes), FOLDER + filename);
      assert Entries(xs, jre) == Entries(xs, None) + [ZipEntry(JRE_FOLDER + jre.value.filename, jre.value.bytes)];
    } else if xs == [] {
      assert Entries(xs, jre) == [];
    } else {
      var init, x := xs[..|xs| - 1], xs[|xs| - 1];
      LookupFindsLast(init, jre, filename);
      FolderNames(x.filename, filename);
      LastNamedStep(Entries(init, jre), ZipOf(x), FOLDER + filename);
      assert Entries(xs, jre) == Entries(init, jre) + [ZipOf(x)];
    }
  }

  /** A look-up of the file an artifact names gives data of the recorded size. */
  predicate Fits(a: Artifact, data: Option<seq<Byte>>) { a.size > 0 ==> data.Some? && |data.value| == a.size }

  ghost predicate AllFound(d: Drivers, zip: seq<ZipEntry>) {
    forall key, slot :: Recorded(d, key, slot).Some? ==>
      Fits(Recorded(d, key, slot).value, LastNamed(zip, FOLDER + FilenameFromUrl(Recorded(d, key, slot).value.url)))
  }

  /** The package's artifact is in the registry: no later package goes to the same place. */
  predicate Kept(xs: seq<Extracted>, i: int)
    requires 0 <= i < |xs| && Consistent(xs[i])
  {
    forall j :: i < j < |xs| ==> !GoesTo(xs[j], xs[i].driverKey, SlotOf(xs[i]))
  }

  /** The last package that ships the file name of package i has another length. */
  predicate Shadows(xs: seq<Extracted>, i: int, j: int)
    requires 0 <= i < |xs| && 0 <= j < |xs|
  {
    && i < j && xs[j].filename == xs[i].filename && |xs[j].bytes| != |xs[i].bytes|
    && forall k :: j < k < |xs| ==> xs[k].filename != xs[i].filename
  }

  predicate Shadowed(xs: seq<Extracted>, i: int)
    requires 0 <= i < |xs|
  {
    exists j :: 0 <= j < |xs| && Shadows(xs, i, j)
  }

  /** No package whose artifact is kept and records a size is shadowed. */
  predicate NoneShadowed(xs: seq<Extracted>)
    requires AllConsistent(xs)
  {
    forall i :: 0 <= i < |xs| && Kept(xs, i) && ArtifactOf(xs[i]).size > 0 ==> !Shadowed(xs, i)
  }

  lemma {:induction false} KeptIsLast(xs: seq<Extracted>, i: int)
    requires AllConsistent(xs) && 0 <= i < |xs| && Kept(xs, i)
    ensures LastArtifact(xs, xs[i].driverKey, SlotOf(xs[i])) == Some(ArtifactOf(xs[i]))
  {
    hide Describes;
    if i < |xs| - 1 {
      KeptIsLast(xs[..|xs| - 1], i);
    }
  }

  lemma {:induction false} LastIsKept(xs: seq<Extracted>, key: string, slot: Slot) returns (i: int)
    requires AllConsistent(xs) && LastArtifact(xs, key, slot).Some?
    ensures 0 <= i < |xs| && Kept(xs, i) && GoesTo(xs[i], key, slot)
            && LastArtifact(xs, key, slot).value == ArtifactOf(xs[i])
  {
    hide Describes;
    if GoesTo(xs[|xs| - 1], key, slot) {
      i := |xs| - 1;
    } else {
      i := LastIsKept(xs[..|xs| - 1], key, slot);
    }
  }

  /** The last package with a file name, as an index. */
  lemma {:induction false} LastShippedAt(xs: seq<Extracted>, i: int) returns (j: int)
    requires 0 <= i < |xs|
    ensures i <= j < |xs| && xs[j].filename == xs[i].filename
    ensures forall k :: j < k < |xs| ==> xs[k].filename != xs[i].filename
    ensures LastShipped(xs, xs[i].filename) == Some(xs[j].bytes)
  {
    if xs[|xs| - 1].filename == xs[i].filename {
      j := |xs| - 1;
    } else {
      j := LastShippedAt(xs[..|xs| - 1], i);
    }
  }

  /** The file of one package is found with its recorded size exactly when the package is not shadowed. */
  lemma FoundIff(xs: seq<Extracted>, jre: Option<Jre>, i: int)
    requires AllConsistent(xs) && 0 <= i < |xs|
    ensures var a := ArtifactOf(xs[i]);
            Fits(a, LastNamed(Entries(xs, jre), FOLDER + FilenameFromUrl(a.url))) <==> (a.size > 0 ==> !Shadowed(xs, i))
  {
    hide LastNamed, Entries, LastShipped, FilenameFromUrl;
    LookupFindsLast(xs, jre, xs[i].filename);
    var j := LastShippedAt(xs, i);
    if |xs[j].bytes| != |xs[i].bytes| {
      assert Shadows(xs, i, j);
    } else {
      assert forall k :: 0 <= k < |xs| && Shadows(xs, i, k) ==> k == j;
    }
  }

  /**
    Whoever looks up the files of the registry in the bundle finds all recorded sizes if and only if no
    kept, sized package is followed by a last package of the same file name and another length.
   */
  lemma EveryArtifactIsFoundIff(xs: seq<Extracted>, jre: Option<Jre>)
    requires AllConsistent(xs) && Registry(xs).Some?
    ensures AllFound(Registry(xs).value, Entries(xs, jre)) <==> NoneShadowed(xs)
  {
    hide Registry, Recorded, LastNamed, Entries, LastArtifact, FilenameFromUrl, Fits, Shadowed;
    var d, zip := Registry(xs).value, Entries(xs, jre);
    if NoneShadowed(xs) {
      forall key, slot | Recorded(d, key, slot).Some?
        ensures Fits(Recorded(d, key, slot).value,
                LastNamed(zip, FOLDER + FilenameFromUrl(Recorded(d, key, slot).value.url)))
      {
        RegistryRecordsLast(xs, key, slot);
        var i := LastIsKept(xs, key, slot);
        FoundIff(xs, jre, i);
      }
    }
    if AllFound(d, zip) {
      forall i | 0 <= i < |xs| && Kept(xs, i) && ArtifactOf(xs[i]).size > 0 ensures !Shadowed(xs, i) {
        RegistryRecordsLast(xs, xs[i].driverKey, SlotOf(xs[i]));
        KeptIsLast(xs, i);
        FoundIff(xs, jre, i);
      }
    }
  }

  predicate SameNameSameLength(xs: seq<Extracted>) {
    forall i, j :: 0 <= i < j < |xs| && xs[i].filename == xs[j].filename ==> |xs[i].bytes| == |xs[j].bytes|
  }

  /**
    Where every package is kept and records a size, that is: no two packages ship one file name with different
    lengths.
   */
  lemma NoneShadowedIff(xs: seq<Extracted>)
    requires AllConsistent(xs) && forall i :: 0 <= i < |xs| ==> Kept(xs, i) && ArtifactOf(xs[i]).size > 0
    ensures NoneShadowed(xs) <==> SameNameSameLength(xs)
  {
    hide Kept, ArtifactOf, Consistent;
    if NoneShadowed(xs) {
      forall i, j | 0 <= i < j < |xs| && xs[i].filename == xs[j].filename ensures |xs[i].bytes| == |xs[j].bytes| {
        var k := LastShippedAt(xs, j);
        assert !Shadowed(xs, i) && !Shadowed(xs, j);
        assert !Shadows(xs, i, k) && !Shadows(xs, j, k);
      }
    }
  }

  function JarPackage(key: string, bytes: seq<Byte>): Extracted {
    Extracted(key, PackageEntry("1", Some(Artifact(OFFLINE + "a", None, |bytes|)), None), Jar, [], "a", bytes, None)
  }

  lemma JarPackageIsConsistent(key: string, bytes: seq<Byte>)
    ensures Consistent(JarPackage(key, bytes))
  {
    NameUnder("offline:/", "a");
    assert OFFLINE + "a" == "offline:/" + "/" + "a";
    hide FilenameFromUrl;
  }

  /**
    The assembly does not look at file names: of two drivers that ship one name with different lengths, the first is
    not found.
   */
  lemma SharedNameHidesADriver(x: Extracted, y: Extracted)
    requires Consistent(x) && Consistent(y) && x.driverKey != y.driverKey && x.filename == y.filename
    requires |x.bytes| != |y.bytes| && ArtifactOf(x).size > 0
    ensures NoClash([x, y]) && Registry([x, y]).Some? && !AllFound(Registry([x, y]).value, Entries([x, y], None))
  {
    hide Consistent, ArtifactOf, Registry, AllFound, Entries;
    var xs := [x, y];
    MergesIff(xs);
    assert Kept(xs, 0) && Shadows(xs, 0, 1);
    assert Shadowed(xs, 0);
    EveryArtifactIsFoundIff(xs, None);
  }

  lemma SharedNameExample()
    ensures var xs := [JarPackage("p", [0]), JarPackage("q", [0, 0])];
            AllConsistent(xs) && Registry(xs).Some? && !AllFound(Registry(xs).value, Entries(xs, None))
  {
    hide Consistent, Registry, AllFound, Entries;
    JarPackageIsConsistent("p", [0]);
    JarPackageIsConsistent("q", [0, 0]);
    SharedNameHidesADriver(JarPackage("p", [0]), JarPackage("q", [0, 0]));
  }

  /** The entries handed to the ZIP writer: the registry file first. Names are encoded. */
  function Packed(json: seq<Byte>, zip: seq<ZipEntry>, encode: string -> seq<Byte>): seq<StoredZip.Entry> {
    [StoredZip.Entry(encode(REGISTRY), json)]
        + seq(|zip|, i requires 0 <= i < |zip| => StoredZip.Entry(encode(zip[i].name), zip[i].data))
  }

  lemma {:induction false} ItemsAt(es: seq<StoredZip.Entry>, from: nat, i: nat)
    requires from <= i < |es|
    ensures |StoredZip.Items(es, from)| == |es| - from && StoredZip.Items(es, from)[i - from] == StoredZip.ItemOf(es[i])
    decreases |es| - from
  {
    if from < i {
      ItemsAt(es, from + 1, i);
    } else if from + 1 < |es| {
      ItemsAt(es, from + 1, from + 1);
    }
  }

  /** The same look-up over what a ZIP reader returns. */
  function LastItem(items: seq<StoredZip.Item>, name: seq<Byte>): Option<seq<Byte>> {
    if items == [] then None
    else if items[|items| - 1].name == name then Some(items[|items| - 1].data)
    else LastItem(items[..|items| - 1], name)
  }

  ghost predicate Injective(encode: string -> seq<Byte>) { forall a, b :: encode(a) == encode(b) ==> a == b }

  lemma {:induction false} ItemsLookup(json: seq<Byte>, zip: seq<ZipEntry>, encode: string -> seq<Byte>,
      items: seq<StoredZip.Item>, name: string)
    requires Injective(encode) && name != REGISTRY && |items| == |zip| + 1
    requires forall i :: 0 <= i < |items| ==> items[i] == StoredZip.ItemOf(Packed(json, zip, encode)[i])
    ensures LastItem(items, encode(name)) == LastNamed(zip, name)
    decreases |zip|
  {
    var last := |zip|;
    if zip == [] {
      assert items[0].name == encode(REGISTRY) != encode(name);
      assert items[..0] == [];
    } else {
      assert items[last].name == encode(zip[last - 1].name);
      assert items[last].name == encode(name) <==> zip[last - 1].name == name;
      ItemsLookup(json, zip[..last - 1], encode, items[..last], name);
    }
  }

  lemma {:induction false} FirstItem(items: seq<StoredZip.Item>, name: seq<Byte>)
    requires items != [] && items[0].name == name && forall i :: 0 < i < |items| ==> items[i].name != name
    ensures LastItem(items, name) == Some(items[0].data)
  {
    if |items| > 1 {
      FirstItem(items[..|items| - 1], name);
    }
  }

  /** The registry file is found under its name: no driver file and no JRE can be named like it. */
  lemma RegistryIsFound(xs: seq<Extracted>, jre: Option<Jre>, json: seq<Byte>, encode: string -> seq<Byte>,
      s: StoredZip.Stamp)
    requires Injective(encode)
    requires var es := Packed(json, Entries(xs, jre), encode); StoredZip.Accepted(es) && StoredZip.Fits(es, s)
    ensures var read := StoredZip.ReadZip(StoredZip.Archive(Packed(json, Entries(xs, jre), encode), s));
            read.Some? && LastItem(read.value, encode("agent-registry.json")) == Some(json)
  {
    hide StoredZip.ReadZip, StoredZip.Archive, StoredZip.Accepted, StoredZip.Fits, LastItem, StoredZip.Items;
    var zip := Entries(xs, jre);
    var es := Packed(json, zip, encode);
    StoredZip.FittingRoundTrip(es, s);
    ItemsAt(es, 0, 0);
    forall i | 0 < i < |es| ensures StoredZip.Items(es, 0)[i].name != encode("agent-registry.json") {
      ItemsAt(es, 0, i);
      assert zip[i - 1].name[0] != "agent-registry.json"[0];
    }
    FirstItem(StoredZip.Items(es, 0), encode("agent-registry.json"));
  }

  /** Every recorded size is found by name in what a reader of the archive returns. */
  ghost predicate AllRead(d: Drivers, read: Option<seq<StoredZip.Item>>, encode: string -> seq<Byte>) {
    read.Some? && forall key, slot :: Recorded(d, key, slot).Some? ==>
      Fits(Recorded(d, key, slot).value,
          LastItem(read.value, encode(FOLDER + FilenameFromUrl(Recorded(d, key, slot).value.url))))
  }

  lemma ReadLookup(zip: seq<ZipEntry>, json: seq<Byte>, encode: string -> seq<Byte>, s: StoredZip.Stamp, f: string)
    requires Injective(encode)
    requires var es := Packed(json, zip, encode); StoredZip.Accepted(es) && StoredZip.Fits(es, s)
    ensures var read := StoredZip.ReadZip(StoredZip.Archive(Packed(json, zip, encode), s));
            read.Some? && LastItem(read.value, encode(FOLDER + f)) == LastNamed(zip, FOLDER + f)
  {
    hide StoredZip.ReadZip, StoredZip.Archive, StoredZip.Accepted, StoredZip.Fits, LastItem, LastNamed;
    var es := Packed(json, zip, encode);
    StoredZip.FittingRoundTrip(es, s);
    ItemsAt(es, 0, 0);
    forall i | 0 <= i < |es| ensures StoredZip.Items(es, 0)[i] == StoredZip.ItemOf(es[i]) {
      ItemsAt(es, 0, i);
    }
    FolderNames(f, f);
    ItemsLookup(json, zip, encode, StoredZip.Items(es, 0), FOLDER + f);
  }

  /**
    From the packages to the reader: a fitting archive gives every driver artifact under its name with its size if and
    only if no package is shadowed.
   */
  lemma BundleReadsBackIff(xs: seq<Extracted>, jre: Option<Jre>, json: seq<Byte>, encode: string -> seq<Byte>,
      s: StoredZip.Stamp)
    requires AllConsistent(xs) && Registry(xs).Some? && Injective(encode)
    requires var es := Packed(json, Entries(xs, jre), encode); StoredZip.Accepted(es) && StoredZip.Fits(es, s)
    ensures var read := StoredZip.ReadZip(StoredZip.Archive(Packed(json, Entries(xs, jre), encode), s));
            AllRead(Registry(xs).value, read, encode) <==> NoneShadowed(xs)
  {
    hide Registry, Recorded, LastNamed, LastItem, Entries, FilenameFromUrl, Fits, StoredZip.ReadZip, StoredZip.Archive,
      StoredZip.Accepted, StoredZip.Fits, AllConsistent, Packed, NoneShadowed, Injective;
    var zip := Entries(xs, jre);
    forall f: string
      ensures var read := StoredZip.ReadZip(StoredZip.Archive(Packed(json, zip, encode), s));
              read.Some? && LastItem(read.value, encode(FOLDER + f)) == LastNamed(zip, FOLDER + f)
    {
      ReadLookup(zip, json, encode, s, f);
    }
    ReadLookup(zip, json, encode, s, "");
    EveryArtifactIsFoundIff(xs, jre);
  }

  // ---------------------------------------------------------------- size of the archive

  function DataBytes(es: seq<StoredZip.Entry>): nat {
    if es == [] then 0 else DataBytes(es[..|es| - 1]) + |es[|es| - 1].data|
  }

  function DirectoryBytes(es: seq<StoredZip.Entry>): nat {
    if es == [] then 0 else DirectoryBytes(es[..|es| - 1]) + 46 + |es[|es| - 1].name|
  }

  lemma {:induction false} ArchiveBytes(es: seq<StoredZip.Entry>, s: StoredZip.Stamp)
    ensures |StoredZip.Body(es, s)| == DataBytes(es) + DirectoryBytes(es) - 16 * |es|
    ensures |StoredZip.Central(es, s)| == DirectoryBytes(es)
  {
    hide StoredZip.LocalHeader, StoredZip.CentralHeader;
    if es != [] {
      ArchiveBytes(es[..|es| - 1], s);
    }
  }

  lemma {:induction false} PackedBytes(json: seq<Byte>, zip: seq<ZipEntry>, encode: string -> seq<Byte>)
    ensures DataBytes(Packed(json, zip, encode)) == |json| + TotalBytes(zip)
  {
    var es := Packed(json, zip, encode);
    if zip == [] {
      assert es[..0] == [];
    } else {
      var init := zip[..|zip| - 1];
      PackedBytes(json, init, encode);
      assert es[..|es| - 1] == Packed(json, init, encode);
    }
  }

  /**
    The limit of 3.5 GiB leaves half a GiB for the registry file and all headers: within that, an accepted archive
    reads back.
   */
  lemma LimitLeavesRoom(json: seq<Byte>, zip: seq<ZipEntry>, encode: string -> seq<Byte>, s: StoredZip.Stamp)
    requires TotalBytes(zip) <= MAX_BUNDLE_BYTES
    requires |json| + DirectoryBytes(Packed(json, zip, encode)) < LIMIT32 - MAX_BUNDLE_BYTES
    ensures var es := Packed(json, zip, encode);
            StoredZip.Fits(es, s) && (StoredZip.Accepted(es) ==>
                StoredZip.ReadZip(StoredZip.Archive(es, s)) == Some(StoredZip.Items(es, 0)))
  {
    hide StoredZip.Body, StoredZip.Central, DataBytes, DirectoryBytes, TotalBytes, StoredZip.ReadZip, StoredZip.Archive,
      StoredZip.Accepted, Packed;
    var es := Packed(json, zip, encode);
    ArchiveBytes(es, s);
    PackedBytes(json, zip, encode);
    if StoredZip.Accepted(es) {
      StoredZip.FittingRoundTrip(es, s);
    }
  }
}
