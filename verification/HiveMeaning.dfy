// What a hive is accepted for and what a reader finds in it, said without the writer's own words.
module HiveMeaning {
  import opened Bytes
  import opened Unicode
  import opened Wrappers
  import opened HiveFormat
  import opened HiveLayout
  import opened HiveReader
  import opened HiveImage
  import opened HiveFits

  // ---- time stamps by path -------------------------------------------------------------------

  /** The path of a key: names from the root down, with one backslash between two. */
  function Below(path: Text, isRoot: bool, name: Text): Text {
    if isRoot then name else path + [0x5C] + name
  }

  /** Every key carries the FILETIME given for its path, or else the default one. */
  ghost predicate TimesAre(v: KeyView, above: Text, isRoot: bool, spec: TimestampSpec)
    decreases v
  {
    var path := Below(above, isRoot, v.name);
    && v.filetime == (if path in spec.overrides then spec.overrides[path] else spec.defaultKey)
    && forall i :: 0 <= i < |v.subkeys| ==> TimesAre(v.subkeys[i], path, false, spec)
  }

  lemma JoinBelow(parts: seq<Text>, name: Text)
    ensures JoinPath(parts + [name]) == Below(JoinPath(parts), parts == [], name)
  {
    assert (parts + [name])[..|parts|] == parts;
  }

  lemma {:induction false} StampTimes(t: KeyTree, parts: seq<Text>, spec: TimestampSpec)
    ensures TimesAre(Stamp(t, parts, spec), JoinPath(parts), parts == [], spec)
    decreases t, 1
  {
    hide JoinPath, Below;
    JoinBelow(parts, t.name);
    StampAllTimes(t.subkeys, parts + [t.name], spec);
  }

  lemma {:induction false} StampAllTimes(ts: seq<KeyTree>, parts: seq<Text>, spec: TimestampSpec)
    requires parts != []
    ensures forall i :: 0 <= i < |StampAll(ts, parts, spec)| ==> TimesAre(StampAll(ts, parts, spec)[i], JoinPath(parts), false, spec)
    decreases ts, 0
  {
    hide JoinPath, Stamp, TimesAre;
    if ts != [] {
      StampTimes(ts[0], parts, spec);
      StampAllTimes(ts[1..], parts, spec);
    }
  }

  /** A reader of an accepted file finds the hive's FILETIME in the base block and in the bin, and at every
      key the one given for its path. */
  lemma TimesRecovered(t: KeyTree, fileName: Text, spec: TimestampSpec, nfc: Text -> bool)
    requires ValidTimestamps(spec) && BuildHive(t, fileName, spec, nfc).Ok?
    ensures var image := BuildHive(t, fileName, spec, nfc).value;
            && ReadHive(image).Some?
            && ReadHive(image).value.filetime == spec.hive && TimesAre(ReadHive(image).value.root, [], true, spec)
            && |image| >= 4096 + 32
            && FromLittleEndian(image[12..20]) == spec.hive && FromLittleEndian(image[4096 + 20..4096 + 28]) == spec.hive
  {
    hide BuildHive, Stamp, TimesAre, ReadHive, FromLittleEndian;
    HiveRoundTrip(t, fileName, spec, nfc);
    StampTimes(t, [], spec);
    ReadTimes(BuildHive(t, fileName, spec, nfc).value);
  }

  /** Where a reader takes the hive's FILETIME from, and where it finds it again. */
  lemma ReadTimes(image: Octets)
    requires ReadHive(image).Some?
    ensures |image| >= 4096 + 32
    ensures FromLittleEndian(image[12..20]) == FromLittleEndian(image[4096 + 20..4096 + 28]) == ReadHive(image).value.filetime
  {
    hide ReadKey, Unpack, FromLittleEndian, BlockChecksum, PlainBase;
    BaseLayout();
    var bin := image[4096..];
    assert bin[20..28] == image[4096 + 20..4096 + 28];
    BaseTime(image);
  }

  lemma UnpackFirst(format: Format, s: Octets)
    requires format != [] && FormatSize(format) <= |s|
    ensures Unpack(format, s)[0] == FromLittleEndian(s[..format[0]])
  {
    hide FromLittleEndian;
  }

  /** The fields behind the first are those of the rest. */
  lemma UnpackAt(format: Format, s: Octets, i: nat)
    requires i + 1 < |format| && FormatSize(format) <= |s|
    ensures FormatSize(format[1..]) <= |s[format[0]..]| && Unpack(format, s)[i + 1] == Unpack(format[1..], s[format[0]..])[i]
  {
    hide FromLittleEndian;
  }

  lemma BaseTime(image: Octets)
    requires |image| >= 4096 && FormatSize(BASE_LAYOUT) == 44
    ensures Unpack(BASE_LAYOUT, image[4..])[2] == FromLittleEndian(image[12..20])
  {
    hide FromLittleEndian;
    var s := image[4..];
    var one, two := BASE_LAYOUT[1..], BASE_LAYOUT[1..][1..];
    assert one == [4, 8, 4, 4, 4, 4, 4, 4, 4] && two == [8, 4, 4, 4, 4, 4, 4, 4];
    assert s[4..] == image[8..] && image[8..][4..] == image[12..] && image[12..][..8] == image[12..20];
    UnpackAt(BASE_LAYOUT, s, 1);
    UnpackAt(one, image[8..], 0);
    UnpackFirst(two, image[12..]);
  }

  // ---- what is accepted ------------------------------------------------------------------------

  /** UTF-16 code units. */
  function Units(t: Text): nat {
    if t == [] then 0 else (if t[0] < 0x1_0000 then 1 else 2) + Units(t[1..])
  }

  lemma {:induction false} UnitsAre(t: Text)
    ensures |Utf16(t)| == 2 * Units(t)
  {
    if t != [] { UnitsAre(t[1..]); }
  }

  /** A registry name: not empty, in NFC, at most 255 code units, no control character, no lone surrogate. */
  ghost predicate LegalName(t: Text, nfc: Text -> bool) {
    && 1 <= |t| && Units(t) <= 255 && nfc(t)
    && forall c <- t :: 0x20 <= c && !(0x7F <= c < 0xA0) && !(0xD800 <= c < 0xE000)
  }

  lemma LegalIsValid(t: Text, nfc: Text -> bool)
    ensures ValidName(t, nfc) <==> LegalName(t, nfc)
  {
    hide Utf16, Units;
    UnitsAre(t);
    if ValidName(t, nfc) {
      forall c | c in t ensures 0x20 <= c && !(0x7F <= c < 0xA0) && !(0xD800 <= c < 0xE000) {
        var i :| 0 <= i < |t| && t[i] == c;
        assert !IsControl(t[i]) && !IsSurrogate(t[i]);
      }
    }
    if LegalName(t, nfc) { assert forall i :: 0 <= i < |t| ==> t[i] in t; }
  }

  /** Every key and every value has a legal name. */
  ghost predicate LegalNames(t: KeyTree, nfc: Text -> bool)
    decreases t
  {
    && LegalName(t.name, nfc) && (forall v <- t.values :: LegalName(v.name, nfc))
    && forall i :: 0 <= i < |t.subkeys| ==> LegalNames(t.subkeys[i], nfc)
  }

  lemma {:induction false} LegalTree(t: KeyTree, nfc: Text -> bool)
    ensures NamesValid(t, nfc) <==> LegalNames(t, nfc)
    decreases t, 1
  {
    hide ValidName, LegalName;
    LegalIsValid(t.name, nfc);
    forall v: ValueRecord { LegalIsValid(v.name, nfc); }
    assert ValuesValid(t.values, nfc) <==> forall v <- t.values :: LegalName(v.name, nfc) by {
      forall i | 0 <= i < |t.values| ensures t.values[i] in t.values { }
    }
    LegalForest(t.subkeys, nfc);
  }

  lemma {:induction false} LegalForest(ts: seq<KeyTree>, nfc: Text -> bool)
    ensures AllNamesValid(ts, nfc) <==> forall i :: 0 <= i < |ts| ==> LegalNames(ts[i], nfc)
    decreases ts, 0
  {
    hide NamesValid, LegalNames;
    if ts != [] {
      LegalTree(ts[0], nfc);
      LegalForest(ts[1..], nfc);
      assert forall i :: 1 <= i < |ts| ==> ts[i] == ts[1..][i - 1];
    }
  }

  /** Some key has this path. */
  ghost predicate Named(t: KeyTree, above: Text, isRoot: bool, path: Text)
    decreases t
  {
    var here := Below(above, isRoot, t.name);
    path == here || exists i :: 0 <= i < |t.subkeys| && Named(t.subkeys[i], here, false, path)
  }

  lemma {:induction false} PathNamed(t: KeyTree, parts: seq<Text>, path: Text)
    ensures path in TreePaths(t, parts) <==> Named(t, JoinPath(parts), parts == [], path)
    decreases t, 1
  {
    hide JoinPath, Below;
    JoinBelow(parts, t.name);
    PathsNamed(t.subkeys, parts + [t.name], path);
  }

  lemma {:induction false} PathsNamed(ts: seq<KeyTree>, parts: seq<Text>, path: Text)
    requires parts != []
    ensures path in ForestPaths(ts, parts) <==> exists i :: 0 <= i < |ts| && Named(ts[i], JoinPath(parts), false, path)
    decreases ts, 0
  {
    hide JoinPath, TreePaths, Named;
    if ts != [] {
      PathNamed(ts[0], parts, path);
      PathsNamed(ts[1..], parts, path);
      assert forall i :: 1 <= i < |ts| ==> ts[i] == ts[1..][i - 1];
      if i :| 0 <= i < |ts| && Named(ts[i], JoinPath(parts), false, path) {
        if i > 0 { assert ts[i] == ts[1..][i - 1]; }
      }
      if i :| 0 <= i < |ts[1..]| && Named(ts[1..][i], JoinPath(parts), false, path) { assert ts[i + 1] == ts[1..][i]; }
    }
  }

  /** The conditions of `build_hive`, in the order in which they are tried, and that it fails otherwise
      only where a number does not fit its field. */
  lemma AcceptedExactly(t: KeyTree, fileName: Text, spec: TimestampSpec, nfc: Text -> bool)
    requires ValidTimestamps(spec)
    ensures var r := BuildHive(t, fileName, spec, nfc);
            var named := 1 <= |fileName| && Units(fileName) <= 32 && forall c <- fileName :: !(0xD800 <= c < 0xE000);
            var known := forall path <- spec.overrides :: Named(t, [], true, path);
            && (r == Err(BadFileName) <==> !named)
            && (r == Err(BadName) <==> named && !LegalNames(t, nfc))
            && (r == Err(UnknownOverride) <==> named && LegalNames(t, nfc) && !known)
            && (r.Ok? || r == Err(StructError) <==> named && LegalNames(t, nfc) && known)
  {
    hide NamesValid, LegalNames, TreePaths, Named, HivePacks, HiveImageOf, Utf16, Units;
    UnitsAre(fileName);
    LegalTree(t, nfc);
    forall path: Text ensures path in TreePaths(t, []) <==> Named(t, [], true, path) { PathNamed(t, [], path); }
    assert Encodable(fileName) <==> forall c <- fileName :: !(0xD800 <= c < 0xE000) by {
      forall i | 0 <= i < |fileName| ensures fileName[i] in fileName { }
    }
  }

  /** And for a fitting tree below two gigabytes no number does. */
  lemma SmallNeverStruct(t: KeyTree, fileName: Text, spec: TimestampSpec, nfc: Text -> bool)
    requires ValidTimestamps(spec) && Fitting(t) && BIN_HEADER + TotalRunning(t) <= MAX_CELL - 4096
    ensures BuildHive(t, fileName, spec, nfc) != Err(StructError)
  {
    hide NamesValid, TreePaths, Fitting, HivePacks, HiveImageOf;
    SmallTreesAreBuilt(t, fileName, spec, nfc);
  }
}
