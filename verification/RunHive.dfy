// build_run_hive: autostart rows placed in a SOFTWARE hive, and that a reader of the hive gets the
// rows back.
module RunHive {
  import opened Bytes
  import opened Unicode
  import opened Wrappers
  import opened HiveFormat
  import opened HiveLayout
  import opened HiveReader
  import opened HiveImage
  import opened HiveFits
  import opened HiveMeaning
  import opened WindowsPaths

  const MAX_ROWS: nat := 64
  const REG_SZ: int := 1

  datatype Row = Row(name: Text, path: Text)

  /** What the validation borrows of Unicode: NFC, case folding and upper-casing. */
  datatype TextRules = TextRules(nfc: Text -> bool, casefold: Text -> Text, upper: Text -> Text)

  function Casefold(rules: TextRules, t: Text): Text { rules.casefold(t) }

  predicate PathOk(rules: TextRules, path: Text) {
    && path != [] && rules.nfc(path) && Encodable(path) && |Utf16(path)| <= 2 * 260
    && (forall i :: 0 <= i < |path| ==> !IsControl(path[i]))
    && WindowsPath(path, rules.upper)
  }

  predicate RowOk(rules: TextRules, row: Row) {
    ValidName(row.name, rules.nfc) && PathOk(rules, row.path)
  }

  /** The rows the writer admits: 1 to 64, each well formed, names unique under case folding. */
  predicate RowsOk(rules: TextRules, rows: seq<Row>) {
    && 1 <= |rows| <= MAX_ROWS
    && (forall i :: 0 <= i < |rows| ==> RowOk(rules, rows[i]))
    && forall i, j :: 0 <= i < j < |rows| ==> Casefold(rules, rows[i].name) != Casefold(rules, rows[j].name)
  }

  // ---- the tree ------------------------------------------------------------------------------

  /** `sz`: text with a terminating NUL, in UTF-16LE. */
  function Sz(name: Text, value: Text): ValueRecord {
    ValueRecord(name, REG_SZ, Utf16(value + [0]))
  }

  function RunValues(rows: seq<Row>): (values: seq<ValueRecord>)
    ensures |values| == |rows|
  {
    seq(|rows|, i requires 0 <= i < |rows| => Sz(rows[i].name, rows[i].path))
  }

  function NoticeOrigin(): (s: string)
    ensures |s| == 68
  {
    "SYNTHETIC - generated by ArtifactForge for training and evaluation. "
  }

  function NoticeWarning(): (s: string)
    ensures |s| == 61
  {
    "This is not evidence and must never be presented as genuine. "
  }

  function NoticeRequest(): (s: string)
    ensures |s| == 90
  {
    "Do not submit these hashes or indicators to any blocklist or threat-intelligence platform."
  }

  function MarkerNotice(): Text {
    Literal(NoticeOrigin() + NoticeWarning() + NoticeRequest())
  }

  function MarkerKey(): KeyTree {
    KeyTree(Literal("artifactforge_synthetic"),
            [Sz(Literal("marker"), Literal("ARTIFACTFORGE")), Sz(Literal("notice"), MarkerNotice())], [])
  }

  function RunPath(): seq<Text> {
    [Literal("Microsoft"), Literal("Windows"), Literal("CurrentVersion"), Literal("Run")]
  }

  /** A chain of single subkeys ending in a key with these values. */
  function Chain(names: seq<Text>, values: seq<ValueRecord>): KeyTree
    requires names != []
  {
    if |names| == 1 then KeyTree(names[0], values, []) else KeyTree(names[0], [], [Chain(names[1..], values)])
  }

  function RunTree(rows: seq<Row>): KeyTree {
    KeyTree(Literal("ROOT"), [], [Chain(RunPath(), RunValues(rows)), MarkerKey()])
  }

  function SoftwareFileName(): Text {
    Literal("\\System32\\config\\SOFTWARE")
  }

  // ---- reading rows back ---------------------------------------------------------------------

  /** The first subkey with a name. */
  function Subkey(views: seq<KeyView>, name: Text): Option<KeyView> {
    if views == [] then None
    else if views[0].name == name then Some(views[0])
    else Subkey(views[1..], name)
  }

  function Descend(view: KeyView, names: seq<Text>): Option<KeyView>
    decreases |names|
  {
    if names == [] then Some(view)
    else
      match Subkey(view.subkeys, names[0])
      case None => None
      case Some(inner) => Descend(inner, names[1..])
  }

  /** A text value without its terminating NUL. */
  function ReadSz(v: ValueRecord): Option<Text> {
    match FromUtf16(v.data)
    case Some(t) => if v.kind == REG_SZ && t != [] && t[|t| - 1] == 0 then Some(t[..|t| - 1]) else None
    case None => None
  }

  function ReadRows(values: seq<ValueRecord>): Option<seq<Row>> {
    if values == [] then Some([])
    else
      match (ReadSz(values[0]), ReadRows(values[1..]))
      case (Some(path), Some(rest)) => Some([Row(values[0].name, path)] + rest)
      case _ => None
  }

  /** The autostart rows a reader finds in a hive image. */
  function RunRowsIn(image: Octets): Option<seq<Row>> {
    match ReadHive(image)
    case None => None
    case Some(hive) =>
      match Descend(hive.root, RunPath())
      case None => None
      case Some(run) => ReadRows(run.values)
  }

  lemma SzReads(name: Text, value: Text)
    requires Encodable(value)
    ensures ReadSz(Sz(name, value)) == Some(value)
  {
    Utf16RoundTrip(value + [0]);
    assert (value + [0])[..|value|] == value;
  }

  lemma {:induction false} RowsRead(rows: seq<Row>)
    requires forall i :: 0 <= i < |rows| ==> Encodable(rows[i].path)
    ensures ReadRows(RunValues(rows)) == Some(rows)
  {
    hide ReadSz, Sz;
    if rows != [] {
      SzReads(rows[0].name, rows[0].path);
      SzName(rows[0]);
      RowsRead(rows[1..]);
      assert RunValues(rows)[1..] == RunValues(rows[1..]);
      assert [Row(rows[0].name, rows[0].path)] + rows[1..] == rows;
    }
  }

  lemma SzName(row: Row)
    ensures Sz(row.name, row.path).name == row.name
  {
  }

  /** Descending a stamped chain ends at the key with the values. */
  lemma {:induction false} DescendChain(
    names: seq<Text>, values: seq<ValueRecord>, parts: seq<Text>, spec: TimestampSpec)
    requires names != []
    ensures var view := Stamp(Chain(names, values), parts, spec);
            && view.name == names[0]
            && Descend(view, names[1..]).Some? && Descend(view, names[1..]).value.values == values
    decreases |names|
  {
    hide KeyFiletime, JoinPath;
    if |names| > 1 {
      DescendChain(names[1..], values, parts + [names[0]], spec);
      assert names[1..][0] == names[1];
    }
  }

  /** Every accepted list of rows is what a reader finds in the hive. */
  lemma RunRowsRecovered(rows: seq<Row>, spec: TimestampSpec, rules: TextRules)
    requires ValidTimestamps(spec) && RowsOk(rules, rows)
    requires BuildHive(RunTree(rows), SoftwareFileName(), spec, rules.nfc).Ok?
    ensures RunRowsIn(BuildHive(RunTree(rows), SoftwareFileName(), spec, rules.nfc).value) == Some(rows)
  {
    hide BuildHive, ReadHive, Literal, MarkerKey, KeyFiletime, JoinPath, RunValues, RunPath, ValidName, Chain, ReadRows, Descend;
    HiveRoundTrip(RunTree(rows), SoftwareFileName(), spec, rules.nfc);
    var root := Stamp(RunTree(rows), [], spec);
    var parts := [] + [Literal("ROOT")];
    RunPathNonempty();
    DescendChain(RunPath(), RunValues(rows), parts, spec);
    StampedFirst(RunTree(rows), spec, parts);
    DescendFirst(root, RunPath());
    RowsRead(rows);
  }

  lemma RunPathNonempty()
    ensures |RunPath()| == 4
  {
  }

  lemma StampedFirst(t: KeyTree, spec: TimestampSpec, parts: seq<Text>)
    requires t.subkeys != [] && parts == [] + [t.name]
    ensures var root := Stamp(t, [], spec); root.subkeys != [] && root.subkeys[0] == Stamp(t.subkeys[0], parts, spec)
  {
  }

  lemma DescendFirst(view: KeyView, names: seq<Text>)
    requires names != [] && view.subkeys != [] && view.subkeys[0].name == names[0]
    ensures Descend(view, names) == Descend(view.subkeys[0], names[1..])
  {
  }

  // ---- all that a reader finds in the hive -----------------------------------------------------

  /** A value that is shown as this text. */
  predicate Shows(v: ValueRecord, name: Text, text: Text) {
    v.name == name && v.kind == 1 && FromUtf16(v.data) == Some(text + [0])
  }

  /** A key that only leads to another one. */
  predicate LeadsOn(view: KeyView, name: string) {
    view.name == Literal(name) && view.values == [] && |view.subkeys| == 1
  }

  predicate ShowsRows(view: KeyView, rows: seq<Row>) {
    && view.name == Literal("Run") && view.subkeys == [] && |view.values| == |rows|
    && forall i :: 0 <= i < |rows| ==> Shows(view.values[i], rows[i].name, rows[i].path)
  }

  /** The key that says the hive is made up. */
  predicate ShowsMarker(view: KeyView) {
    view.name == Literal("artifactforge_synthetic") && view.subkeys == [] && ShowsTexts(view.values)
  }

  predicate ShowsTexts(values: seq<ValueRecord>) {
    && |values| == 2
    && Shows(values[0], Literal("marker"), Literal("ARTIFACTFORGE")) && Shows(values[1], Literal("notice"), MarkerNotice())
  }

  predicate RunRoot(root: KeyView, rows: seq<Row>) {
    && root.name == Literal("ROOT") && root.values == [] && |root.subkeys| == 2
    && LeadsOn(root.subkeys[0], "Microsoft")
    && LeadsOn(root.subkeys[0].subkeys[0], "Windows")
    && LeadsOn(root.subkeys[0].subkeys[0].subkeys[0], "CurrentVersion")
    && ShowsRows(root.subkeys[0].subkeys[0].subkeys[0].subkeys[0], rows)
    && ShowsMarker(root.subkeys[1])
  }

  predicate RunShown(hive: HiveView, rows: seq<Row>) {
    Utf16(SoftwareFileName()) <= hive.fileNameField && RunRoot(hive.root, rows)
  }

  /** A reader finds the rows in their place, the marker beside them, and nothing else. */
  predicate RunImage(image: Octets, rows: seq<Row>) {
    var hive := ReadHive(image);
    hive.Some? && RunShown(hive.value, rows)
  }

  lemma SzShows(name: Text, value: Text)
    requires Encodable(value)
    ensures Shows(Sz(name, value), name, value)
  {
    Utf16RoundTrip(value + [0]);
  }

  lemma StampAllOne(inner: KeyTree, path: seq<Text>, spec: TimestampSpec)
    ensures StampAll([inner], path, spec) == [Stamp(inner, path, spec)]
  {
    hide Stamp;
    var one := [inner];
    assert one[1..] == [];
    assert StampAll(one, path, spec) == [Stamp(one[0], path, spec)] + StampAll(one[1..], path, spec);
  }

  lemma StampOne(name: Text, inner: KeyTree, parts: seq<Text>, spec: TimestampSpec)
    ensures var view := Stamp(KeyTree(name, [], [inner]), parts, spec);
            view.name == name && view.values == [] && view.subkeys == [Stamp(inner, parts + [name], spec)]
  {
    hide KeyFiletime, JoinPath, StampAll;
    StampAllOne(inner, parts + [name], spec);
  }

  lemma StampTwo(name: Text, first: KeyTree, second: KeyTree, parts: seq<Text>, spec: TimestampSpec)
    ensures var view := Stamp(KeyTree(name, [], [first, second]), parts, spec);
            && view.name == name && view.values == []
            && view.subkeys == [Stamp(first, parts + [name], spec), Stamp(second, parts + [name], spec)]
  {
    hide KeyFiletime, JoinPath;
    var two, path := [first, second], parts + [name];
    assert two[1..] == [second];
    StampAllOne(second, path, spec);
    assert StampAll(two, path, spec) == [Stamp(two[0], path, spec)] + StampAll(two[1..], path, spec);
  }

  lemma StampLeaf(name: Text, values: seq<ValueRecord>, parts: seq<Text>, spec: TimestampSpec)
    ensures var view := Stamp(KeyTree(name, values, []), parts, spec);
            view.name == name && view.values == values && view.subkeys == []
  {
    hide KeyFiletime, JoinPath;
  }

  lemma ChainLeads(names: seq<Text>, values: seq<ValueRecord>)
    requires |names| > 1
    ensures Chain(names, values) == KeyTree(names[0], [], [Chain(names[1..], values)])
  {
  }

  lemma ChainEnds(name: Text, values: seq<ValueRecord>)
    ensures Chain([name], values) == KeyTree(name, values, [])
  {
  }

  lemma MarkerShows(parts: seq<Text>, spec: TimestampSpec)
    ensures ShowsMarker(Stamp(MarkerKey(), parts, spec))
  {
    hide Shows, Sz, Stamp, Literal, Encodable, NoticeOrigin, NoticeWarning, NoticeRequest;
    LiteralEncodes("ARTIFACTFORGE");
    LiteralEncodes(NoticeOrigin() + NoticeWarning() + NoticeRequest());
    SzShows(Literal("marker"), Literal("ARTIFACTFORGE"));
    SzShows(Literal("notice"), MarkerNotice());
    StampLeaf(
      Literal("artifactforge_synthetic"),
      [Sz(Literal("marker"), Literal("ARTIFACTFORGE")), Sz(Literal("notice"), MarkerNotice())], parts, spec);
  }

  /** No character of a literal is a surrogate. */
  lemma LiteralEncodes(s: string)
    ensures Encodable(Literal(s))
  {
  }

  lemma RowsShow(rows: seq<Row>, parts: seq<Text>, spec: TimestampSpec)
    requires forall i :: 0 <= i < |rows| ==> Encodable(rows[i].path)
    ensures ShowsRows(Stamp(KeyTree(Literal("Run"), RunValues(rows), []), parts, spec), rows)
  {
    hide Shows, Sz, Stamp, Encodable, Literal;
    StampLeaf(Literal("Run"), RunValues(rows), parts, spec);
    forall i | 0 <= i < |rows| ensures Shows(RunValues(rows)[i], rows[i].name, rows[i].path) {
      SzShows(rows[i].name, rows[i].path);
    }
  }

  lemma RootShows(rows: seq<Row>, spec: TimestampSpec)
    requires forall i :: 0 <= i < |rows| ==> Encodable(rows[i].path)
    ensures RunRoot(Stamp(RunTree(rows), [], spec), rows)
  {
    hide Stamp, Chain, RunValues, MarkerKey, ShowsMarker, ShowsRows, Literal, Encodable, RunPath;
    var values, names := RunValues(rows), RunPath();
    RunPathIs();
    var root := [] + [Literal("ROOT")];
    StampTwo(Literal("ROOT"), Chain(names, values), MarkerKey(), [], spec);
    MarkerShows(root, spec);
    ChainLeads(names, values);
    StampOne(names[0], Chain(names[1..], values), root, spec);
    ChainLeads(names[1..], values);
    StampOne(names[1], Chain(names[2..], values), root + [names[0]], spec);
    ChainLeads(names[2..], values);
    StampOne(names[2], Chain(names[3..], values), root + [names[0]] + [names[1]], spec);
    assert names[3..] == [Literal("Run")];
    ChainEnds(Literal("Run"), values);
    RowsShow(rows, root + [names[0]] + [names[1]] + [names[2]], spec);
  }

  /** What is written holds the rows where Windows looks for them, and says what it is. */
  lemma RunImageShows(rows: seq<Row>, spec: TimestampSpec, rules: TextRules)
    requires ValidTimestamps(spec) && RowsOk(rules, rows)
    requires BuildHive(RunTree(rows), SoftwareFileName(), spec, rules.nfc).Ok?
    ensures RunImage(BuildHive(RunTree(rows), SoftwareFileName(), spec, rules.nfc).value, rows)
  {
    hide BuildHive, ReadHive, RunTree, Stamp, RunRoot, ValidName, WindowsPath, Literal, SoftwareFileName;
    HiveRoundTrip(RunTree(rows), SoftwareFileName(), spec, rules.nfc);
    RootShows(rows, spec);
  }

  // ---- every admitted list of rows is written ------------------------------------------------

  /** ASCII text is in NFC. */
  ghost predicate AsciiIsNfc(rules: TextRules) {
    forall t: Text :: IsAscii(t) ==> rules.nfc(t)
  }

  /** A literal name: printable ASCII, not too long. */
  predicate Plain(s: string) {
    0 < |s| <= 100 && forall i :: 0 <= i < |s| ==> ' ' <= s[i] <= '~'
  }

  lemma PlainPath()
    ensures Plain("ROOT") && Plain("Microsoft") && Plain("Windows") && Plain("CurrentVersion") && Plain("Run")
  {
  }

  lemma PlainMarker()
    ensures Plain("artifactforge_synthetic") && Plain("marker") && Plain("notice")
  {
  }

  lemma PlainFileName()
    ensures Plain("\\System32\\config\\SOFTWARE")
  {
  }

  lemma {:induction false} Utf16Length(t: Text)
    ensures |Utf16(t)| <= 4 * |t|
    ensures (forall i :: 0 <= i < |t| ==> t[i] < 0x1_0000) ==> |Utf16(t)| == 2 * |t|
  {
    if t != [] { Utf16Length(t[1..]); }
  }

  lemma {:induction false} Utf16Terminated(t: Text)
    ensures |Utf16(t + [0])| == |Utf16(t)| + 2
  {
    if t == [] {
      assert t + [0] == [0] && [0 as CodePoint][1..] == [];
    } else {
      Utf16Terminated(t[1..]);
      assert (t + [0])[1..] == t[1..] + [0];
    }
  }

  lemma PlainValid(s: string, rules: TextRules)
    requires Plain(s) && AsciiIsNfc(rules)
    ensures ValidName(Literal(s), rules.nfc) && |RegistryName(Literal(s))| == |s|
    ensures |Utf16(Literal(s))| == 2 * |s|
  {
    Utf16Length(Literal(s));
  }

  lemma NameLength(t: Text, nfc: Text -> bool)
    requires ValidName(t, nfc)
    ensures |RegistryName(t)| <= 510
  {
    if IsAscii(t) { Utf16Length(t); }
  }

  /** A text value takes at most 1080 octets in the hive. */
  lemma SzSmall(name: Text, value: Text, nfc: Text -> bool)
    requires ValidName(name, nfc) && |Utf16(value)| <= 520
    ensures ValueFitting(Sz(name, value)) && ValueSize(Sz(name, value)) <= 1080
  {
    NameLength(name, nfc);
    Utf16Terminated(value);
  }

  lemma {:induction false} RunValuesSmall(rows: seq<Row>, rules: TextRules)
    requires forall i :: 0 <= i < |rows| ==> RowOk(rules, rows[i])
    ensures ValuesSize(RunValues(rows)) <= 1080 * |rows|
    ensures forall i :: 0 <= i < |rows| ==> ValueFitting(RunValues(rows)[i])
    ensures ValuesValid(RunValues(rows), rules.nfc)
  {
    hide ValueSize, ValueFitting, ValidName, WindowsPath, Utf16, Encodable;
    if rows != [] {
      RunValuesSmall(rows[1..], rules);
      SzSmall(rows[0].name, rows[0].path, rules.nfc);
      var values := RunValues(rows);
      assert values[1..] == RunValues(rows[1..]);
      assert forall i :: 1 <= i < |values| ==> values[i] == values[1..][i - 1];
    }
  }

  /** A chain over the values adds little to their size. */
  lemma {:induction false} ChainSmall(names: seq<Text>, values: seq<ValueRecord>, rules: TextRules)
    requires names != [] && |values| <= MAX_ROWS
    requires forall i :: 0 <= i < |names| ==> ValidName(names[i], rules.nfc)
    requires ValuesValid(values, rules.nfc) && forall i :: 0 <= i < |values| ==> ValueFitting(values[i])
    ensures Fitting(Chain(names, values)) && NamesValid(Chain(names, values), rules.nfc)
    ensures KeySize(Chain(names, values)) <= ValuesSize(values) + 300 + 700 * |names|
    decreases |names|
  {
    hide ValueFitting, ValidName, RegistryName, ValuesSize;
    NameLength(names[0], rules.nfc);
    NoValuesSize();
    if |names| > 1 {
      ChainSmall(names[1..], values, rules);
      OneSubkey(Chain(names[1..], values), rules);
    }
  }

  lemma OneSubkey(t: KeyTree, rules: TextRules)
    requires Fitting(t) && NamesValid(t, rules.nfc)
    ensures AllFitting([t]) && AllNamesValid([t], rules.nfc) && KeysSize([t]) == KeySize(t)
  {
    hide Fitting, NamesValid, KeySize;
    var one := [t];
    assert one[1..] == [];
  }

  lemma TwoSubkeys(t: KeyTree, u: KeyTree, rules: TextRules)
    requires Fitting(t) && NamesValid(t, rules.nfc) && Fitting(u) && NamesValid(u, rules.nfc)
    ensures AllFitting([t, u]) && AllNamesValid([t, u], rules.nfc) && KeysSize([t, u]) == KeySize(t) + KeySize(u)
  {
    hide Fitting, NamesValid, KeySize, AllFitting, AllNamesValid, KeysSize;
    OneSubkey(u, rules);
    Prepended(t, u, rules);
  }

  lemma Prepended(t: KeyTree, u: KeyTree, rules: TextRules)
    ensures AllFitting([t, u]) <==> Fitting(t) && AllFitting([u])
    ensures AllNamesValid([t, u], rules.nfc) <==> NamesValid(t, rules.nfc) && AllNamesValid([u], rules.nfc)
    ensures KeysSize([t, u]) == KeySize(t) + KeysSize([u])
  {
    hide Fitting, NamesValid, KeySize;
    var two := [t, u];
    assert two[1..] == [u];
  }

  lemma TwoValues(a: ValueRecord, b: ValueRecord)
    ensures ValuesSize([a, b]) == ValueSize(a) + ValueSize(b)
  {
    hide ValueSize;
    var two := [a, b];
    var last := two[1..];
    assert last[0] == b && last[1..] == [];
    assert ValuesSize(last) == ValueSize(b) + ValuesSize(last[1..]);
  }

  /** A key with two small values and no subkeys. */
  lemma LeafSmall(name: Text, a: ValueRecord, b: ValueRecord, rules: TextRules)
    requires ValidName(name, rules.nfc) && ValidName(a.name, rules.nfc) && ValidName(b.name, rules.nfc)
    requires ValueFitting(a) && ValueFitting(b) && ValueSize(a) + ValueSize(b) <= 3000
    ensures var leaf := KeyTree(name, [a, b], []);
            Fitting(leaf) && NamesValid(leaf, rules.nfc) && KeySize(leaf) <= 4000
  {
    hide ValidName, RegistryName, ValueFitting, ValueSize;
    NameLength(name, rules.nfc);
    TwoValues(a, b);
  }

  lemma MarkerSmall(rules: TextRules)
    requires AsciiIsNfc(rules)
    ensures Fitting(MarkerKey()) && NamesValid(MarkerKey(), rules.nfc) && KeySize(MarkerKey()) <= 4000
  {
    hide ValidName, RegistryName, Sz, ValueFitting, ValueSize, Plain, Fitting, NamesValid, KeySize, Literal, MarkerNotice, AsciiIsNfc;
    PlainMarker();
    PlainValid("artifactforge_synthetic", rules);
    PlainValid("marker", rules);
    PlainValid("notice", rules);
    NoticeSmall(rules);
    SzName(Row(Literal("marker"), Literal("ARTIFACTFORGE")));
    SzName(Row(Literal("notice"), MarkerNotice()));
    LeafSmall(
      Literal("artifactforge_synthetic"), Sz(Literal("marker"), Literal("ARTIFACTFORGE")), Sz(Literal("notice"), MarkerNotice()), rules);
  }

  lemma NoticeSmall(rules: TextRules)
    requires ValidName(Literal("marker"), rules.nfc) && ValidName(Literal("notice"), rules.nfc)
    ensures var marker, notice := Sz(Literal("marker"), Literal("ARTIFACTFORGE")), Sz(Literal("notice"), MarkerNotice());
            ValueFitting(marker) && ValueFitting(notice) && ValueSize(marker) + ValueSize(notice) <= 3000
  {
    hide ValidName, ValueFitting, ValueSize, Sz, Literal, MarkerNotice;
    NoticeLength();
    SzBounded(Literal("marker"), Literal("ARTIFACTFORGE"), rules);
    SzBounded(Literal("notice"), MarkerNotice(), rules);
  }

  lemma NoticeLength()
    ensures |Literal("ARTIFACTFORGE")| <= 250 && |MarkerNotice()| <= 250
  {
    hide Literal, NoticeOrigin, NoticeWarning, NoticeRequest;
  }

  lemma SzBounded(name: Text, value: Text, rules: TextRules)
    requires ValidName(name, rules.nfc) && |value| <= 250
    ensures ValueFitting(Sz(name, value)) && ValueSize(Sz(name, value)) <= 560 + 4 * |value|
  {
    hide ValidName;
    NameLength(name, rules.nfc);
    Utf16Length(value);
    Utf16Terminated(value);
  }

  /** Admitted rows never fail to be written: what remains to refuse is an unknown timestamp path. */
  lemma RunTreeIsBuilt(rows: seq<Row>, spec: TimestampSpec, rules: TextRules)
    requires ValidTimestamps(spec) && RowsOk(rules, rows) && AsciiIsNfc(rules)
    ensures BuildHive(RunTree(rows), SoftwareFileName(), spec, rules.nfc).Ok?
       <==> spec.overrides.Keys <= TreePaths(RunTree(rows), [])
  {
    hide ValidName, RegistryName, Plain, Chain, MarkerKey, KeySize, Fitting, NamesValid, ValuesSize, RowOk, BuildHive, TreePaths,
      AsciiIsNfc, RunValues, KeysSize, AllFitting, AllNamesValid, Literal, RunPath, SoftwareFileName;
    FixedNames(rules);
    FileNameValid();
    RunValuesSmall(rows, rules);
    ChainSmall(RunPath(), RunValues(rows), rules);
    MarkerSmall(rules);
    TwoSubkeys(Chain(RunPath(), RunValues(rows)), MarkerKey(), rules);
    NoValuesSize();
    RootSmall(RunTree(rows), rules);
    SmallTreesAreBuilt(RunTree(rows), SoftwareFileName(), spec, rules.nfc);
  }

  lemma FixedNames(rules: TextRules)
    requires AsciiIsNfc(rules)
    ensures ValidName(Literal("ROOT"), rules.nfc) && |RunPath()| == 4
    ensures forall i :: 0 <= i < |RunPath()| ==> ValidName(RunPath()[i], rules.nfc)
  {
    hide ValidName, Plain, Literal, AsciiIsNfc, RunPath;
    RunPathIs();
    PlainPath();
    PlainValid("ROOT", rules);
    PlainValid("Microsoft", rules);
    PlainValid("Windows", rules);
    PlainValid("CurrentVersion", rules);
    PlainValid("Run", rules);
  }

  lemma RunPathIs()
    ensures RunPath() == [Literal("Microsoft"), Literal("Windows"), Literal("CurrentVersion"), Literal("Run")]
  {
    hide Literal;
  }

  lemma FileNameValid()
    ensures ValidFileName(SoftwareFileName())
  {
    hide Plain, Literal;
    PlainFileName();
    PlainEncoded("\\System32\\config\\SOFTWARE");
  }

  lemma PlainEncoded(s: string)
    requires Plain(s)
    ensures Literal(s) != [] && Encodable(Literal(s)) && |Utf16(Literal(s))| == 2 * |s|
  {
    Utf16Length(Literal(s));
  }

  lemma RootSmall(t: KeyTree, rules: TextRules)
    requires t.values == [] && |t.subkeys| == 2 && ValidName(t.name, rules.nfc)
    requires AllFitting(t.subkeys) && AllNamesValid(t.subkeys, rules.nfc) && KeysSize(t.subkeys) <= 100_000
    ensures Fitting(t) && NamesValid(t, rules.nfc) && BIN_HEADER + TotalRunning(t) <= MAX_CELL - 4096
  {
    hide ValidName, RegistryName;
    NameLength(t.name, rules.nfc);
    NoValuesSize();
  }

  // ---- which rows there are --------------------------------------------------------------------

  /** The path of a file on a drive, in at most 260 code units. */
  ghost predicate LegalPath(path: Text, rules: TextRules) {
    && rules.nfc(path) && Units(path) <= 260
    && (forall c <- path :: 0x20 <= c && !(0x7F <= c < 0xA0) && !(0xD800 <= c < 0xE000))
    && exists drive, parts :: BuiltOf(path, drive, parts, rules.upper)
  }

  ghost predicate BuiltOf(path: Text, drive: CodePoint, parts: seq<Text>, upper: Text -> Text) {
    && Letter(drive) && parts != [] && path == Built(drive, parts)
    && forall i :: 0 <= i < |parts| ==> GoodPart(parts[i], upper)
  }

  lemma PathExactly(path: Text, rules: TextRules)
    ensures PathOk(rules, path) <==> LegalPath(path, rules)
  {
    hide Utf16, Units, WindowsPath, GoodPart, Built, Letter;
    UnitsAre(path);
    if PathOk(rules, path) {
      AcceptedIsBuilt(path, rules.upper);
      assert BuiltOf(path, path[0], Components(path), rules.upper);
      forall c | c in path ensures 0x20 <= c && !(0x7F <= c < 0xA0) && !(0xD800 <= c < 0xE000) {
        var i :| 0 <= i < |path| && path[i] == c;
        assert !IsControl(path[i]) && !IsSurrogate(path[i]);
      }
    }
    if LegalPath(path, rules) {
      var drive, parts :| BuiltOf(path, drive, parts, rules.upper);
      BuiltIsAccepted(drive, parts, rules.upper);
      BuiltNonempty(drive, parts);
      assert forall i :: 0 <= i < |path| ==> path[i] in path;
    }
  }

  lemma BuiltNonempty(drive: CodePoint, parts: seq<Text>)
    ensures Built(drive, parts) != []
  {
  }

  /** Rows are admitted exactly when there are 1 to 64 of them, each with a legal name and the path of a file,
      and no two names are the same but for case. */
  lemma RowsExactly(rows: seq<Row>, rules: TextRules)
    ensures RowsOk(rules, rows)
       <==> && 1 <= |rows| <= 64
            && (forall i :: 0 <= i < |rows| ==> LegalName(rows[i].name, rules.nfc) && LegalPath(rows[i].path, rules))
            && forall i, j :: 0 <= i < j < |rows| ==> Casefold(rules, rows[i].name) != Casefold(rules, rows[j].name)
  {
    hide LegalName, LegalPath, ValidName, PathOk;
    forall i | 0 <= i < |rows|
      ensures RowOk(rules, rows[i]) <==> LegalName(rows[i].name, rules.nfc) && LegalPath(rows[i].path, rules)
    {
      LegalIsValid(rows[i].name, rules.nfc);
      PathExactly(rows[i].path, rules);
    }
  }

  /** `build_run_hive`. */
  method BuildRunHive(rows: seq<Row>, spec: TimestampSpec, rules: TextRules) returns (r: Option<Octets>)
    requires ValidTimestamps(spec)
    requires AsciiIsNfc(rules)
    ensures r.Some? <==> RowsOk(rules, rows) && spec.overrides.Keys <= TreePaths(RunTree(rows), [])
    ensures r.Some? ==> RunRowsIn(r.value) == Some(rows) && RunImage(r.value, rows)
  {
    hide BuildHive, RowOk, RunTree, RunRowsIn, RunImage, SoftwareFileName, TreePaths, AsciiIsNfc;
    if !(1 <= |rows| <= MAX_ROWS) { return None; }
    var names: set<Text>, i := {}, 0;
    while i < |rows|
      invariant 0 <= i <= |rows|
      invariant names == set j | 0 <= j < i :: Casefold(rules, rows[j].name)
      invariant forall j :: 0 <= j < i ==> RowOk(rules, rows[j])
      invariant forall j, k :: 0 <= j < k < i ==> Casefold(rules, rows[j].name) != Casefold(rules, rows[k].name)
    {
      var identity := Casefold(rules, rows[i].name);
      if !RowOk(rules, rows[i]) || identity in names { return None; }
      names := names + {identity};
      i := i + 1;
    }
    RunTreeIsBuilt(rows, spec, rules);
    var image := BuildHive(RunTree(rows), SoftwareFileName(), spec, rules.nfc);
    if image.Err? { return None; }
    RunRowsRecovered(rows, spec, rules);
    RunImageShows(rows, spec, rules);
    r := Some(image.value);
  }
}
