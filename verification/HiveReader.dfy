// A reader that knows only the REGF format: it follows absolute offsets from the root nk and
// shares no layout knowledge with the writer, not even tags and field widths, and it refuses whatever
// the format or the writer's conventions leave no choice about.  The theorems say it recovers what was
// written.
module HiveReader {
  import opened Bytes
  import opened Unicode
  import opened Wrappers
  import opened HiveFormat
  import opened HiveLayout

  /** What a reader of the hive sees of one key. */
  datatype KeyView = KeyView(name: Text, filetime: nat, values: seq<ValueRecord>, subkeys: seq<KeyView>)

  /** The view the writer intends: the input tree with each key's FILETIME. */
  function Stamp(t: KeyTree, parts: seq<Text>, spec: TimestampSpec): KeyView
    decreases t, 1
  {
    var path := parts + [t.name];
    KeyView(t.name, KeyFiletime(spec, JoinPath(path)), t.values, StampAll(t.subkeys, path, spec))
  }

  function StampAll(ts: seq<KeyTree>, parts: seq<Text>, spec: TimestampSpec): (views: seq<KeyView>)
    decreases ts, 0
  {
    if ts == [] then [] else [Stamp(ts[0], parts, spec)] + StampAll(ts[1..], parts, spec)
  }

  // ---- the reader --------------------------------------------------------------------------

  /** Field widths of an nk record behind its tag: flags, FILETIME, fifteen words, name and class length. */
  const NK_LAYOUT: Format := [2, 8, 4, 4, 4, 4, 4, 4, 4, 4, 4, 4, 4, 4, 4, 4, 4, 2, 2]

  /** And of a vk record: name length, data size, data offset, type, flags, spare. */
  const VK_LAYOUT: Format := [2, 4, 4, 4, 2, 2]

  /** A security cell with no neighbours, one reference and no descriptor. */
  const LONE_SECURITY: Octets := [0x73, 0x6B, 0, 0, 0, 0, 0, 0, 0, 0, 0, 0, 1, 0, 0, 0, 0, 0, 0, 0]

  /** An offset that leads nowhere. */
  const NOWHERE: nat := 0xFFFF_FFFF

  predicate ZeroFrom(s: Octets, from: nat) {
    forall i :: from <= i < |s| ==> s[i] == 0
  }

  /** The payload of the allocated cell at `at`, padding included. */
  function ReadCell(bin: Octets, at: nat): Option<Octets> {
    if at + 4 > |bin| then None
    else
      var word := FromLittleEndian(bin[at..at + 4]);
      var total := 0x1_0000_0000 - word;
      if word < 0x8000_0000 || total < 4 || total % 8 != 0 || at + total > |bin| then None
      else Some(bin[at + 4..at + total])
  }

  /** A name is compressed exactly when it is ASCII. */
  function DecodeName(compressed: bool, s: Octets): Option<Text> {
    if compressed then (if exists i :: 0 <= i < |s| && s[i] >= 0x80 then None else Some(s))
    else
      match FromUtf16(s)
      case None => None
      case Some(t) => if forall i :: 0 <= i < |t| ==> t[i] < 0x80 then None else Some(t)
  }

  datatype Record = Record(fields: seq<int>, name: Octets)

  /** A tagged record: fixed fields, then a name whose length is field `lengthField`, then zeros. */
  function ReadRecord(bin: Octets, at: nat, tag: Octets, format: Format, lengthField: nat): (r: Option<Record>)
    requires lengthField < |format|
    ensures r.Some? ==> |r.value.fields| == |format|
    ensures r.Some? ==> forall i :: 0 <= i < |format| ==> r.value.fields[i] >= 0
  {
    match ReadCell(bin, at)
    case None => None
    case Some(cell) =>
      var start := |tag| + FormatSize(format);
      if |cell| < start || cell[..|tag|] != tag then None
      else
        var fields := Unpack(format, cell[|tag|..]);
        var end := start + fields[lengthField];
        if |cell| < end || !ZeroFrom(cell, end) then None else Some(Record(fields, cell[start..end]))
  }

  function ReadValue(bin: Octets, at: nat): Option<ValueRecord> {
    match ReadRecord(bin, at, [0x76, 0x6B], VK_LAYOUT, 0)
    case None => None
    case Some(vk) =>
      var f := vk.fields;
      if f[4] > 1 || f[5] != 0 then None
      else
        match DecodeName(f[4] == 1, vk.name)
        case None => None
        case Some(name) =>
          match ReadData(bin, f[1], f[2])
          case None => None
          case Some(data) =>
            if (f[1] >= 0x8000_0000) != (f[3] == 4 && |data| <= 4) then None else Some(ValueRecord(name, f[3], data))
  }

  /** Inline data lives in the offset word, which is else zero; other data in a cell of its own, padded with
      zeros. */
  function ReadData(bin: Octets, size: nat, offset: nat): Option<Octets> {
    Pow256Values();
    if size >= 0x8000_0000 then
      if size - 0x8000_0000 > 4 || offset >= 0x1_0000_0000 then None
      else
        var word := LittleEndian(offset, 4);
        if !ZeroFrom(word, size - 0x8000_0000) then None else Some(word[..size - 0x8000_0000])
    else
      match ReadCell(bin, offset)
      case None => None
      case Some(cell) => if |cell| < size || !ZeroFrom(cell, size) then None else Some(cell[..size])
  }

  function ReadValues(bin: Octets, offsets: seq<int>): Option<seq<ValueRecord>>
    requires forall i :: 0 <= i < |offsets| ==> offsets[i] >= 0
  {
    if offsets == [] then Some([])
    else
      match ReadValue(bin, offsets[0])
      case None => None
      case Some(first) =>
        match ReadValues(bin, offsets[1..])
        case None => None
        case Some(rest) => Some([first] + rest)
  }

  function ReadValueList(bin: Octets, count: nat, at: nat): Option<seq<ValueRecord>> {
    if count == 0 then if at == NOWHERE then Some([]) else None
    else
      match ReadCell(bin, at)
      case None => None
      case Some(cell) =>
        if FormatSize(Words(count)) > |cell| || !ZeroFrom(cell, 4 * count) then None
        else ReadValues(bin, Unpack(Words(count), cell))
  }

  /** The fields of an nk record of which there is only one choice: no volatile subkeys, no class, no lengths
      cached. */
  predicate PlainNk(f: seq<int>)
    requires |f| == 19
  {
    && f[2] == 0 && f[5] == 0 && f[7] == NOWHERE && f[11] == NOWHERE && f[18] == 0
    && f[12] == 0 && f[13] == 0 && f[14] == 0 && f[15] == 0 && f[16] == 0
  }

  datatype Nk = Nk(name: Text, fields: seq<int>)

  function NkRecord(bin: Octets, at: nat): (r: Option<Record>)
    ensures r.Some? ==> |r.value.fields| == 19 && forall i :: 0 <= i < 19 ==> r.value.fields[i] >= 0
  {
    ReadRecord(bin, at, [0x6E, 0x6B], NK_LAYOUT, 17)
  }

  /** Flags of a plain or a root key, the parent, one choice for what is fixed, and a security cell. */
  predicate NkAllowed(bin: Octets, f: seq<int>, parent: nat, isRoot: bool)
    requires |f| == 19 && f[10] >= 0
  {
    && f[0] == (if f[0] >= 0x20 then 0x20 else 0) + (if isRoot then 0x0C else 0) && f[3] == parent && PlainNk(f)
    && ReadCell(bin, f[10]) == Some(LONE_SECURITY)
  }

  function NkNamed(nk: Record): (r: Option<Nk>)
    requires |nk.fields| == 19
    ensures r.Some? ==> r.value.fields == nk.fields
  {
    match DecodeName(nk.fields[0] >= 0x20, nk.name)
    case None => None
    case Some(name) => Some(Nk(name, nk.fields))
  }

  /** The nk record at `at`; its parent field must be `parent` and its security field must name a security
      cell. */
  function ReadNk(bin: Octets, at: nat, parent: nat, isRoot: bool): (r: Option<Nk>)
    ensures r.Some? ==> |r.value.fields| == 19 && forall i :: 0 <= i < 19 ==> r.value.fields[i] >= 0
  {
    match NkRecord(bin, at)
    case None => None
    case Some(nk) => if NkAllowed(bin, nk.fields, parent, isRoot) then NkNamed(nk) else None
  }

  /** The key whose nk is at `at`, with everything below it.  `fuel` bounds the depth of the walk. */
  function ReadKey(bin: Octets, at: nat, parent: nat, isRoot: bool, fuel: nat): Option<KeyView>
    decreases fuel, 1, 0
  {
    if fuel == 0 then None
    else
      match ReadNk(bin, at, parent, isRoot)
      case None => None
      case Some(nk) =>
        var f := nk.fields;
        match ReadValueList(bin, f[8], f[9])
        case None => None
        case Some(values) =>
          match ReadSubkeyList(bin, f[4], f[6], at, fuel - 1)
          case None => None
          case Some(subkeys) => Some(KeyView(nk.name, f[1], values, subkeys))
  }

  function ReadSubkeyList(bin: Octets, count: nat, at: nat, parent: nat, fuel: nat): Option<seq<KeyView>>
    decreases fuel, 3, 0
  {
    if count == 0 then if at == NOWHERE then Some([]) else None
    else
      match ReadCell(bin, at)
      case None => None
      case Some(cell) =>
        if |cell| < 4 + 8 * count || cell[..2] != [0x6C, 0x66] || FromLittleEndian(cell[2..4]) != count
          || !ZeroFrom(cell, 4 + 8 * count) then None
        else ReadSubkeys(bin, cell[4..], count, parent, fuel)
  }

  /** The hint is the beginning of the name as it is stored, filled up with zeros. */
  predicate Hints(hint: Octets, name: Text) {
    var stored := RegistryName(name);
    |hint| == 4 && forall i :: 0 <= i < 4 ==> hint[i] == if i < |stored| then stored[i] else 0
  }

  function ReadSubkeys(bin: Octets, entries: Octets, count: nat, parent: nat, fuel: nat): Option<seq<KeyView>>
    requires 8 * count <= |entries|
    decreases fuel, 2, count
  {
    if count == 0 then Some([])
    else
      match ReadKey(bin, FromLittleEndian(entries[..4]), parent, false, fuel)
      case None => None
      case Some(first) =>
        if !Hints(entries[4..8], first.name) then None
        else
          match ReadSubkeys(bin, entries[8..], count - 1, parent, fuel)
          case None => None
          case Some(rest) => Some([first] + rest)
  }

  lemma Layouts()
    ensures NkFormat() == NK_LAYOUT && VkFormat() == VK_LAYOUT
  {
  }

  lemma FirstFourHints(name: Text)
    ensures Hints(FirstFour(RegistryName(name)), name)
  {
    hide RegistryName;
  }

  // ---- reading back one cell ---------------------------------------------------------------

  lemma ReadCellAt(bin: Octets, at: nat, body: Octets)
    requires CellAt(bin, at, body) && CellFits(body)
    ensures ReadCell(bin, at).Some?
    ensures ReadCell(bin, at).value == body + Zeros(PaddedTotal(|body|) - 4 - |body|)
  {
    hide LittleEndian, FromLittleEndian, Contains, Zeros;
    Pow256Values();
    var total := PaddedTotal(|body|);
    var word := SizeWord(total);
    var size, pad := LittleEndian(word, 4), Zeros(total - 4 - |body|);
    ConcatAssociative(size, body, pad);
    ContainsSlices(bin, at, size, body + pad);
    LittleEndianRoundTrip(word, 4);
  }

  /** The two's complement of a cell's size. */
  lemma SizeWord(total: nat) returns (word: nat)
    requires 0 < total <= 0x8000_0000
    ensures word == (0 - total) % 0x1_0000_0000 == 0x1_0000_0000 - total
  {
    word := 0x1_0000_0000 - total;
  }

  lemma ContainsSlices(whole: Octets, at: nat, a: Octets, b: Octets)
    requires Contains(whole, at, a + b)
    ensures at + |a| + |b| <= |whole|
    ensures whole[at..at + |a|] == a && whole[at + |a|..at + |a| + |b|] == b
  {
    ContainsSplit(whole, at, a, b);
  }

  lemma DecodeRegistryName(t: Text)
    requires Encodable(t)
    ensures DecodeName(IsAscii(t), RegistryName(t)) == Some(t)
  {
    if IsAscii(t) {
      assert AsciiOctets(t) == t;
    } else {
      Utf16RoundTrip(t);
    }
  }

  lemma ZeroPadded(s: Octets, n: nat)
    ensures ZeroFrom(s + Zeros(n), |s|)
  {
  }

  /** Packing fields behind a tag and before a name is undone by `ReadRecord`. */
  lemma ReadRecordAt(
    bin: Octets, at: nat, tag: Octets, format: Format, fields: seq<int>, name: Octets, lengthField: nat)
    requires Packable(format, fields) && lengthField < |format| && fields[lengthField] == |name|
    requires CellAt(bin, at, tag + Pack(format, fields) + name) && CellFits(tag + Pack(format, fields) + name)
    ensures ReadRecord(bin, at, tag, format, lengthField) == Some(Record(fields, name))
  {
    hide CellAt, CellFits, ReadCell, Pack, Unpack, Packable, FormatSize, ZeroFrom;
    var packed := Pack(format, fields);
    var body := tag + packed + name;
    ReadCellAt(bin, at, body);
    var pad := Zeros(PaddedTotal(|body|) - 4 - |body|);
    var cell := ReadCell(bin, at).value;
    ConcatAssociative(tag + packed, name, pad);
    ConcatAssociative(tag, packed, name + pad);
    SplitConcat(tag, packed + (name + pad));
    SplitConcat(tag + packed, name + pad);
    SplitConcat(name, pad);
    UnpackPack(format, fields, name + pad);
    ZeroPadded(body, PaddedTotal(|body|) - 4 - |body|);
    var start := |tag| + FormatSize(format);
    assert cell[start..start + |name|] == cell[start..][..|name|];
  }

  lemma ReadNkAt(bin: Octets, k: LaidKey, isRoot: bool, security: nat)
    requires Packable(NkFormat(), NkFields(k, isRoot, security))
    requires CellAt(bin, k.nk, NkBody(k, isRoot, security))
    ensures ReadRecord(bin, k.nk, [0x6E, 0x6B], NK_LAYOUT, 17) == Some(Record(NkFields(k, isRoot, security), k.name))
  {
    hide CellAt, ReadRecord, NkFields, NkFormat, Packable, Pack;
    Layouts();
    NkLength(k, isRoot, security);
    NkFitsCell(k, isRoot, security);
    ReadRecordAt(bin, k.nk, NK_TAG, NkFormat(), NkFields(k, isRoot, security), k.name, 17);
  }

  lemma NkLength(k: LaidKey, isRoot: bool, security: nat)
    ensures |NkFormat()| == 19 && NkFormat()[17] == 2 && |NkFields(k, isRoot, security)| == 19
    ensures NkFields(k, isRoot, security)[17] == |k.name|
  {
  }

  lemma NkFitsCell(k: LaidKey, isRoot: bool, security: nat)
    requires Packable(NkFormat(), NkFields(k, isRoot, security))
    ensures CellFits(NkBody(k, isRoot, security))
  {
    hide NkFields, NkFormat, Pack;
    NkLength(k, isRoot, security);
    Pow256Values();
    assert 0 <= NkFields(k, isRoot, security)[17] < Pow256(NkFormat()[17]);
  }

  lemma ReadVkAt(bin: Octets, v: LaidValue)
    requires Packable(VkFormat(), VkFields(v))
    requires CellAt(bin, v.vk, VkBody(v))
    ensures ReadRecord(bin, v.vk, [0x76, 0x6B], VK_LAYOUT, 0) == Some(Record(VkFields(v), v.name))
  {
    hide CellAt, ReadRecord;
    Layouts();
    var fields := VkFields(v);
    Pow256Values();
    assert VkFormat()[0] == 2 && fields[0] == |v.name|;
    ReadRecordAt(bin, v.vk, VK_TAG, VkFormat(), fields, v.name, 0);
  }

  lemma ReadInlineData(bin: Octets, data: Octets)
    requires |data| <= 4
    ensures ReadData(bin, INLINE + |data|, FromLittleEndian(FirstFour(data))) == Some(data)
  {
    Pow256Values();
    FromLittleEndianRoundTrip(FirstFour(data));
    assert FirstFour(data)[..|data|] == data;
  }

  lemma ReadCellData(bin: Octets, at: nat, data: Octets)
    requires CellAt(bin, at, data) && CellFits(data)
    ensures |data| < 0x8000_0000 && ReadData(bin, |data|, at) == Some(data)
  {
    ReadCellAt(bin, at, data);
    ZeroPadded(data, PaddedTotal(|data|) - 4 - |data|);
    assert ReadCell(bin, at).value[..|data|] == data;
  }

  lemma ReadValueAt(bin: Octets, r: ValueRecord, running: nat)
    requires Encodable(r.name)
    requires ValuePacks(LayValue(r, running)) && ValuePlaced(bin, LayValue(r, running))
    ensures ReadValue(bin, LayValue(r, running).vk) == Some(r)
  {
    hide CellAt, ReadRecord, ReadData, DecodeName, RegistryName, FirstFour, CellFits, VkBody;
    var v := LayValue(r, running);
    ReadVkAt(bin, v);
    DecodeRegistryName(r.name);
    if v.inline {
      ReadInlineData(bin, v.data);
    } else {
      ReadCellData(bin, v.dataOffset, v.data);
    }
  }

  predicate NamesEncodable(t: KeyTree)
    decreases t, 1
  {
    && Encodable(t.name)
    && (forall i :: 0 <= i < |t.values| ==> Encodable(t.values[i].name))
    && AllNamesEncodable(t.subkeys)
  }

  predicate AllNamesEncodable(ts: seq<KeyTree>)
    decreases ts, 0
  {
    ts == [] || (NamesEncodable(ts[0]) && AllNamesEncodable(ts[1..]))
  }

  lemma LayValuesStep(vs: seq<ValueRecord>, running: nat)
    requires vs != []
    ensures var laid := LayValues(vs, running);
            && laid != []
            && laid[0] == LayValue(vs[0], running)
            && laid[1..] == LayValues(vs[1..], running + ValueSize(vs[0]))
  {
  }

  lemma {:induction false} ReadValuesAt(bin: Octets, rs: seq<ValueRecord>, running: nat, vs: seq<LaidValue>)
    requires vs == LayValues(rs, running)
    requires forall i :: 0 <= i < |rs| ==> Encodable(rs[i].name)
    requires ValuesPack(vs) && ValuesPlaced(bin, vs)
    ensures ReadValues(bin, VkOffsets(vs)) == Some(rs)
  {
    hide LayValue, LayValues, ValuePacks, ValuePlaced, ReadValue, ValueSize, Encodable;
    if rs != [] {
      LayValuesStep(rs, running);
      ReadValueAt(bin, rs[0], running);
      ReadValuesAt(bin, rs[1..], running + ValueSize(rs[0]), vs[1..]);
      assert VkOffsets(vs)[1..] == VkOffsets(vs[1..]);
      assert rs == [rs[0]] + rs[1..];
    }
  }

  lemma ReadValueListAt(bin: Octets, vs: seq<LaidValue>, vlist: nat)
    requires ValueListPacks(vs)
    requires if vs == [] then vlist == NOWHERE else CellAt(bin, vlist, ValueListBody(vs))
    ensures ReadValueList(bin, |vs|, vlist) == ReadValues(bin, VkOffsets(vs))
  {
    hide CellAt, ReadCell, ReadValue;
    if vs != [] {
      var body := ValueListBody(vs);
      ReadCellAt(bin, vlist, body);
      WordsSize(|vs|);
      UnpackPack(Words(|vs|), VkOffsets(vs), Zeros(PaddedTotal(|body|) - 4 - |body|));
      ZeroPadded(body, PaddedTotal(|body|) - 4 - |body|);
    }
  }

  // ---- reading back the tree ---------------------------------------------------------------

  function Height(t: KeyTree): nat
    decreases t, 1
  {
    1 + ForestHeight(t.subkeys)
  }

  function ForestHeight(ts: seq<KeyTree>): nat
    decreases ts, 0
  {
    if ts == [] then 0
    else
      var a, b := Height(ts[0]), ForestHeight(ts[1..]);
      if a > b then a else b
  }

  lemma ReadSubkeyListAt(bin: Octets, ks: seq<LaidKey>, sklist: nat, parent: nat, fuel: nat)
    requires SubkeyListPacks(ks)
    requires if ks == [] then sklist == NOWHERE else CellAt(bin, sklist, LfBody(ks))
    ensures ks == [] ==> ReadSubkeyList(bin, 0, sklist, parent, fuel) == Some([])
    ensures ks != [] ==>
      exists pad: Octets :: ReadSubkeyList(bin, |ks|, sklist, parent, fuel)
        == ReadSubkeys(bin, LfEntries(ks) + pad, |ks|, parent, fuel)
  {
    hide CellAt, ReadCell, ReadKey, ReadSubkeys, LfEntries, OffsetsPack;
    if ks != [] {
      Pow256Values();
      var body := LfBody(ks);
      ReadCellAt(bin, sklist, body);
      var pad := Zeros(PaddedTotal(|body|) - 4 - |body|);
      var cell := body + pad;
      assert cell[..2] == LF_TAG;
      ZeroPadded(body, |pad|);
      assert cell[2..4] == LittleEndian(|ks|, 2);
      LittleEndianRoundTrip(|ks|, 2);
      assert cell[4..] == LfEntries(ks) + pad;
    }
  }

  /** Following offsets from where a key was placed recovers exactly that key's subtree. */
  lemma {:induction false} ReadKeyAt(
    bin: Octets, t: KeyTree, parent: nat, parts: seq<Text>, spec: TimestampSpec, running: nat,
    isRoot: bool, security: nat, fuel: nat, k: LaidKey)
    requires k == LayKey(t, parent, parts, spec, running)
    requires NamesEncodable(t)
    requires KeyPacks(k, isRoot, security) && Placed(bin, k, isRoot, security)
    requires CellAt(bin, security, SkBody())
    requires fuel >= Height(t)
    ensures ReadKey(bin, k.nk, parent, isRoot, fuel) == Some(Stamp(t, parts, spec))
    decreases t, 1
  {
    hide CellAt, ReadRecord, ReadCell, DecodeName, ReadValueList, ReadSubkeyList, RegistryName, NkBody, Packable, LfBody,
      ValueListBody, KeyFiletime, JoinPath, PaddedTotal, ValuesPack, ValuesPlaced, KeysPack, SubkeysPlaced, ReadValues,
      ReadSubkeys, Encodable, SkBody, LayKeys, LayValues, AllNamesEncodable, ForestHeight, StampAll, ReadKey, NkFields;
    ReadNkAt(bin, k, isRoot, security);
    ReadSecurityAt(bin, security);
    DecodeRegistryName(t.name);
    ReadValueListAt(bin, k.values, k.vlist);
    ReadValuesAt(bin, t.values, AfterNk(t, running), k.values);
    ReadSubkeyListAt(bin, k.subkeys, k.sklist, k.nk, fuel - 1);
    ReadKeyFields(bin, k, isRoot, security, fuel, t.name, t.values);
    if k.subkeys == [] {
      StampNone(parts + [t.name], spec);
    } else {
      var pad: Octets :| ReadSubkeyList(bin, |k.subkeys|, k.sklist, k.nk, fuel - 1)
        == ReadSubkeys(bin, LfEntries(k.subkeys) + pad, |k.subkeys|, k.nk, fuel - 1);
      ReadKeysAt(bin, t.subkeys, k.nk, parts + [t.name], spec, AfterValues(t, running), security, fuel - 1, k.subkeys, pad);
    }
  }

  /** What the fields of a key's nk cell make of what is read elsewhere. */
  lemma ReadKeyFields(bin: Octets, k: LaidKey, isRoot: bool, security: nat, fuel: nat, name: Text, values: seq<ValueRecord>)
    requires ReadRecord(bin, k.nk, [0x6E, 0x6B], NK_LAYOUT, 17) == Some(Record(NkFields(k, isRoot, security), k.name))
    requires ReadCell(bin, security) == Some(LONE_SECURITY)
    requires DecodeName(k.compressed, k.name) == Some(name)
    requires ReadValueList(bin, |k.values|, k.vlist) == Some(values)
    requires fuel > 0
    ensures ReadKey(bin, k.nk, k.parent, isRoot, fuel)
         == match ReadSubkeyList(bin, |k.subkeys|, k.sklist, k.nk, fuel - 1)
            case None => None
            case Some(subkeys) => Some(KeyView(name, k.filetime, values, subkeys))
  {
    hide ReadRecord, ReadCell, DecodeName, ReadValueList, ReadSubkeyList, ReadNk, NkFields;
    ReadNkFields(bin, k, isRoot, security, name);
    NkPlaces(k, isRoot, security);
  }

  lemma ReadNkFields(bin: Octets, k: LaidKey, isRoot: bool, security: nat, name: Text)
    requires ReadRecord(bin, k.nk, [0x6E, 0x6B], NK_LAYOUT, 17) == Some(Record(NkFields(k, isRoot, security), k.name))
    requires ReadCell(bin, security) == Some(LONE_SECURITY)
    requires DecodeName(k.compressed, k.name) == Some(name)
    ensures ReadNk(bin, k.nk, k.parent, isRoot) == Some(Nk(name, NkFields(k, isRoot, security)))
  {
    hide ReadRecord, ReadCell, DecodeName;
  }

  lemma NkPlaces(k: LaidKey, isRoot: bool, security: nat)
    ensures var f := NkFields(k, isRoot, security);
            && |f| == 19 && f[1] == k.filetime && f[4] == |k.subkeys| && f[6] == k.sklist
            && f[8] == |k.values| && f[9] == k.vlist
  {
  }

  lemma StampNone(parts: seq<Text>, spec: TimestampSpec)
    ensures StampAll([], parts, spec) == []
  {
  }

  lemma ReadSecurityAt(bin: Octets, security: nat)
    requires CellAt(bin, security, SkBody())
    ensures ReadCell(bin, security) == Some(LONE_SECURITY)
  {
    hide CellAt, SkBody;
    SecurityBody();
    ReadCellAt(bin, security, SkBody());
    assert LONE_SECURITY + Zeros(0) == LONE_SECURITY;
  }

  lemma SecurityBody()
    ensures SkBody() == LONE_SECURITY
  {
    hide LittleEndian, Pack, Packable, Words, Pow256;
    SecurityPacks();
    SmallWord(0);
    SmallWord(1);
    FourWords(0, 0, 1, 0);
    SecurityJoined();
  }

  lemma SecurityPacks()
    ensures Packable(Words(4), [0, 0, 1, 0]) && 256 < Pow256(4)
  {
    Pow256Values();
  }

  lemma SecurityJoined()
    ensures SK_TAG + ([0, 0, 0, 0] + [0, 0, 0, 0] + [1, 0, 0, 0] + [0, 0, 0, 0]) == LONE_SECURITY
  {
  }

  lemma SmallWord(n: nat)
    requires n < 256 < Pow256(4)
    ensures LittleEndian(n, 4) == [n, 0, 0, 0]
  {
    Pow256Values();
    assert LittleEndian(0, 0) == [] && LittleEndian(0, 1) == [0] && LittleEndian(0, 2) == [0, 0] && LittleEndian(0, 3) == [0, 0, 0];
  }

  lemma FourWords(a: nat, b: nat, c: nat, d: nat)
    requires a < Pow256(4) && b < Pow256(4) && c < Pow256(4) && d < Pow256(4)
    requires Packable(Words(4), [a, b, c, d])
    ensures Pack(Words(4), [a, b, c, d]) == LittleEndian(a, 4) + LittleEndian(b, 4) + LittleEndian(c, 4) + LittleEndian(d, 4)
  {
    hide LittleEndian;
    var f, v := Words(4), [a, b, c, d];
    assert f[1..] == Words(3) && Words(3)[1..] == Words(2) && Words(2)[1..] == Words(1) && Words(1)[1..] == [];
    assert v[1..] == [b, c, d] && v[1..][1..] == [c, d] && v[1..][1..][1..] == [d] && v[1..][1..][1..][1..] == [];
    assert Pack(Words(1), [d]) == LittleEndian(d, 4);
    assert Pack(Words(2), [c, d]) == LittleEndian(c, 4) + Pack(Words(1), [d]);
    assert Pack(Words(3), [b, c, d]) == LittleEndian(b, 4) + Pack(Words(2), [c, d]);
  }

  lemma {:induction false} ReadKeysAt(
    bin: Octets, ts: seq<KeyTree>, parent: nat, parts: seq<Text>, spec: TimestampSpec, running: nat,
    security: nat, fuel: nat, ks: seq<LaidKey>, pad: Octets)
    requires ks == LayKeys(ts, parent, parts, spec, running)
    requires AllNamesEncodable(ts)
    requires KeysPack(ks, security) && OffsetsPack(ks) && SubkeysPlaced(bin, parent, ks, security)
    requires CellAt(bin, security, SkBody())
    requires fuel >= ForestHeight(ts)
    ensures ReadSubkeys(bin, LfEntries(ks) + pad, |ks|, parent, fuel) == Some(StampAll(ts, parts, spec))
    decreases ts, 0
  {
    hide CellAt, ReadKey, LayKey, LayKeys, KeyPacks, Placed, KeySize, Stamp, Height, NamesEncodable, SkBody, FirstFour,
      RegistryName, JoinPath, Hints;
    if ts != [] {
      LayKeysStep(ts, parent, parts, spec, running);
      LayKeyName(ts[0], parent, parts, spec, running);
      ReadKeyAt(bin, ts[0], parent, parts, spec, running, false, security, fuel, ks[0]);
      assert OffsetsPack(ks[1..]);
      ReadKeysAt(bin, ts[1..], parent, parts, spec, running + KeySize(ts[0]), security, fuel, ks[1..], pad);
      LfEntryFields(ks, pad);
      FirstFourHints(ts[0].name);
      StampName(ts[0], parts, spec);
    }
  }

  lemma StampName(t: KeyTree, parts: seq<Text>, spec: TimestampSpec)
    ensures Stamp(t, parts, spec).name == t.name
  {
  }

  lemma LayKeyName(t: KeyTree, parent: nat, parts: seq<Text>, spec: TimestampSpec, running: nat)
    ensures LayKey(t, parent, parts, spec, running).name == RegistryName(Stamp(t, parts, spec).name)
  {
  }

  lemma LfEntryFields(ks: seq<LaidKey>, pad: Octets)
    requires ks != [] && OffsetsPack(ks)
    ensures OffsetsPack(ks[1..])
    ensures var entries := LfEntries(ks) + pad;
            && FromLittleEndian(entries[..4]) == ks[0].nk
            && entries[4..8] == FirstFour(ks[0].name)
            && entries[8..] == LfEntries(ks[1..]) + pad
  {
    hide FirstFour, LittleEndian, FromLittleEndian;
    Pow256Values();
    var nk, hint, rest := LittleEndian(ks[0].nk, 4), FirstFour(ks[0].name), LfEntries(ks[1..]);
    ConcatAssociative(nk + hint, rest, pad);
    ConcatAssociative(nk, hint, rest + pad);
    var entries := nk + (hint + (rest + pad));
    assert entries[..4] == nk;
    assert entries[4..8] == hint;
    assert entries[8..] == rest + pad;
    LittleEndianRoundTrip(ks[0].nk, 4);
  }
}
