// The whole file: base block with its checksum, one hive bin holding the emitted cells, the
// reader of a whole file, and the theorems about both.
module HiveImage {
  import opened Bytes
  import opened Unicode
  import opened Wrappers
  import opened HiveFormat
  import opened HiveLayout
  import opened HiveReader

  const BASE_SIZE := 4096
  const BASE_HEADER := 508

  const REGF: Octets := [0x72, 0x65, 0x67, 0x66]
  const HBIN: Octets := [0x68, 0x62, 0x69, 0x6E]

  // ---- admission ---------------------------------------------------------------------------

  datatype HiveError = BadFileName | BadName | UnknownOverride | StructError

  predicate IsControl(c: CodePoint) {
    c < 0x20 || 0x7F <= c < 0xA0
  }

  /** `_registry_name` accepts the text; `nfc` stands for Unicode NFC equality. */
  predicate ValidName(t: Text, nfc: Text -> bool) {
    && t != []
    && nfc(t)
    && (forall i :: 0 <= i < |t| ==> !IsControl(t[i]))
    && Encodable(t)
    && |Utf16(t)| <= 2 * 255
  }

  predicate ValuesValid(vs: seq<ValueRecord>, nfc: Text -> bool) {
    forall i :: 0 <= i < |vs| ==> ValidName(vs[i].name, nfc)
  }

  predicate NamesValid(t: KeyTree, nfc: Text -> bool)
    decreases t, 1
  {
    ValidName(t.name, nfc) && ValuesValid(t.values, nfc) && AllNamesValid(t.subkeys, nfc)
  }

  predicate AllNamesValid(ts: seq<KeyTree>, nfc: Text -> bool)
    decreases ts, 0
  {
    ts == [] || (NamesValid(ts[0], nfc) && AllNamesValid(ts[1..], nfc))
  }

  lemma {:induction false} ValidNamesEncodable(t: KeyTree, nfc: Text -> bool)
    requires NamesValid(t, nfc)
    ensures NamesEncodable(t)
    decreases t, 1
  {
    AllValidNamesEncodable(t.subkeys, nfc);
  }

  lemma {:induction false} AllValidNamesEncodable(ts: seq<KeyTree>, nfc: Text -> bool)
    requires AllNamesValid(ts, nfc)
    ensures AllNamesEncodable(ts)
    decreases ts, 0
  {
    if ts != [] {
      ValidNamesEncodable(ts[0], nfc);
      AllValidNamesEncodable(ts[1..], nfc);
    }
  }

  predicate ValidFileName(name: Text) {
    name != [] && Encodable(name) && |Utf16(name)| <= 64
  }

  // ---- the bin -----------------------------------------------------------------------------

  /** The bin header and cells rounded up to whole 4096-byte pages. */
  function BinSize(running: nat): (size: nat)
    ensures size % 4096 == 0 && BIN_HEADER + running <= size < BIN_HEADER + running + 4096
  {
    (BIN_HEADER + running + 4095) / 4096 * 4096
  }

  function FreeCell(free: int): Octets
    requires free < 0x1_0000_0000
  {
    Pow256Values();
    if free >= 4 then LittleEndian(free, 4) + Zeros(free - 4) else []
  }

  function BinHeader(size: nat, filetime: nat): (h: Octets)
    requires size < 0x1_0000_0000 && filetime < 0x1_0000_0000_0000_0000
    ensures |h| == BIN_HEADER
  {
    Pow256Values();
    HBIN + Zeros(4) + LittleEndian(size, 4) + Zeros(8) + LittleEndian(filetime, 8) + Zeros(4)
  }

  /** `s[:size].ljust(size, b"\0")`. */
  function TruncatePad(s: Octets, size: nat): (r: Octets)
    ensures |r| == size
  {
    if |s| >= size then s[..size] else s + Zeros(size - |s|)
  }

  function BinImage(cells: Octets, size: nat, filetime: nat): Octets
    requires size < 0x1_0000_0000 && filetime < 0x1_0000_0000_0000_0000
  {
    TruncatePad(BinHeader(size, filetime) + cells + FreeCell(size - BIN_HEADER - |cells|), size)
  }

  // ---- the base block ----------------------------------------------------------------------

  function BaseFormat(): (f: Format)
    ensures |f| == 10
  {
    [4, 4, 8] + Words(7)
  }

  lemma BaseFormatSize()
    ensures FormatSize(BaseFormat()) == 44
  {
    assert [4, 4, 8][1..] == [4, 8] && [4, 8][1..] == [8] && [8][1..] == [];
    WordsSize(7);
    FormatSizeConcat([4, 4, 8], Words(7));
  }

  function BaseFields(filetime: nat, root: nat, binSize: nat): (f: seq<int>)
    ensures |f| == 10
  {
    [1, 1, filetime, 1, 3, 0, 1, root, binSize, 1]
  }

  /** The 508 octets the checksum covers. */
  function BaseHeader(fileName: Octets, filetime: nat, root: nat, binSize: nat): (h: Octets)
    requires |fileName| <= 64
    requires Packable(BaseFormat(), BaseFields(filetime, root, binSize))
    ensures |h| == BASE_HEADER
  {
    BaseFormatSize();
    REGF + Pack(BaseFormat(), BaseFields(filetime, root, binSize)) + fileName + Zeros(BASE_HEADER - 48 - |fileName|)
  }

  function WordAt(s: Octets, i: nat): bv32
    requires 4 * i + 4 <= |s|
  {
    Pow256Values();
    FromLittleEndian(s[4 * i..4 * i + 4]) as bv32
  }

  function Xor(a: bv32, b: bv32): bv32 {
    a ^ b
  }

  /** XOR of the first `n` little-endian words. */
  function XorWords(s: Octets, n: nat): bv32
    requires 4 * n <= |s|
  {
    if n == 0 then 0 else Xor(XorWords(s, n - 1), WordAt(s, n - 1))
  }

  /** The two reserved checksum values are moved off by their low bit. */
  function Adjust(x: bv32): bv32 {
    if x == 0 || x == 0xFFFF_FFFF then x ^ 1 else x
  }

  function Checksum(s: Octets): nat
    requires |s| >= BASE_HEADER
  {
    Adjust(XorWords(s, 127)) as int
  }

  lemma ChecksumFits(s: Octets)
    requires |s| >= BASE_HEADER
    ensures Checksum(s) < 0x1_0000_0000
  {
  }

  function BaseBlock(header: Octets): (b: Octets)
    requires |header| == BASE_HEADER
    ensures |b| == BASE_SIZE
  {
    ChecksumFits(header);
    Pow256Values();
    header + LittleEndian(Checksum(header), 4) + Zeros(BASE_SIZE - 512)
  }

  // ---- build_hive as a function ------------------------------------------------------------

  function SecurityOffset(t: KeyTree): nat {
    BIN_HEADER + KeySize(t)
  }

  function TotalRunning(t: KeyTree): nat {
    KeySize(t) + PaddedTotal(20)
  }

  function RootLayout(t: KeyTree, spec: TimestampSpec): LaidKey {
    LayKey(t, 0, [], spec, 0)
  }

  /** No `struct.pack` of the run raises. */
  predicate HivePacks(t: KeyTree, spec: TimestampSpec) {
    && KeyPacks(RootLayout(t, spec), true, SecurityOffset(t))
    && BinSize(TotalRunning(t)) < 0x1_0000_0000
  }

  function HiveCells(t: KeyTree, spec: TimestampSpec): seq<Octets>
    requires HivePacks(t, spec)
  {
    KeyCells(RootLayout(t, spec), true, SecurityOffset(t)) + [SkBody()]
  }

  function HiveImageOf(t: KeyTree, fileName: Text, spec: TimestampSpec): Octets
    requires HivePacks(t, spec) && ValidFileName(fileName) && ValidTimestamps(spec)
  {
    var size := BinSize(TotalRunning(t));
    BasePackable(spec.hive, size);
    BaseBlock(BaseHeader(Utf16(fileName), spec.hive, BIN_HEADER, size))
    + BinImage(EmitAll(HiveCells(t, spec)), size, spec.hive)
  }

  lemma BasePackable(filetime: nat, binSize: nat)
    requires filetime < 0x1_0000_0000_0000_0000 && binSize < 0x1_0000_0000
    ensures Packable(BaseFormat(), BaseFields(filetime, BIN_HEADER, binSize))
  {
    Pow256Values();
  }

  /** Which exception, if any, the call ends in, and otherwise the bytes it returns. */
  function BuildHive(t: KeyTree, fileName: Text, spec: TimestampSpec, nfc: Text -> bool): Result<Octets, HiveError>
    requires ValidTimestamps(spec)
  {
    if !ValidFileName(fileName) then Err(BadFileName)
    else if !NamesValid(t, nfc) then Err(BadName)
    else if !(spec.overrides.Keys <= TreePaths(t, [])) then Err(UnknownOverride)
    else if !HivePacks(t, spec) then Err(StructError)
    else Ok(HiveImageOf(t, fileName, spec))
  }

  // ---- reading a file ----------------------------------------------------------------------

  datatype HiveView = HiveView(filetime: nat, fileNameField: Octets, root: KeyView)

  /** Field widths of the base block behind its signature: two sequence numbers, the FILETIME, version, type
      and format, root offset, bin size, cluster factor. */
  const BASE_LAYOUT: Format := [4, 4, 8, 4, 4, 4, 4, 4, 4, 4]

  /** Equal sequence numbers, version 1.3, a primary file in the direct format, its root the first cell. */
  predicate PlainBase(f: seq<int>)
    requires |f| == 10
  {
    && f[0] == 1 && f[1] == 1 && f[3] == 1 && f[4] == 3 && f[5] == 0 && f[6] == 1 && f[7] == 32 && f[9] == 1
  }

  /** The little-endian word of four octets. */
  function Word(a: int, b: int, c: int, d: int): (w: int)
    requires 0 <= a < 256 && 0 <= b < 256 && 0 <= c < 256 && 0 <= d < 256
    ensures 0 <= w < 0x1_0000_0000
  {
    a + 256 * b + 65536 * c + 16777216 * d
  }

  function WordBits(a: byte, b: byte, c: byte, d: byte): bv32 {
    Word(a, b, c, d) as bv32
  }

  function Flip(a: bv32, b: bv32): bv32 {
    a ^ b
  }

  /** XOR of the first `n` words. */
  function FoldWords(s: Octets, n: nat): bv32
    requires 4 * n <= |s|
  {
    if n == 0 then 0
    else
      var i := 4 * (n - 1);
      Flip(FoldWords(s, n - 1), WordBits(s[i], s[i + 1], s[i + 2], s[i + 3]))
  }

  /** The checksum of a base block; 0 and 0xFFFFFFFF are stored as 1 and 0xFFFFFFFE. */
  function BlockChecksum(s: Octets): nat
    requires |s| >= 508
  {
    var x := FoldWords(s, 127);
    if x == 0 then 1 else if x == 0xFFFF_FFFF then 0xFFFF_FFFE else x as int
  }

  predicate BaseReads(image: Octets) {
    && |image| >= 4096 && image[..4] == [0x72, 0x65, 0x67, 0x66]
    && FromLittleEndian(image[508..512]) == BlockChecksum(image)
    && (forall i :: 112 <= i < 508 ==> image[i] == 0) && (forall i :: 512 <= i < 4096 ==> image[i] == 0)
  }

  /** The header of the only bin: at file offset zero, of this size, with this FILETIME and zeros around it. */
  predicate BinReads(bin: Octets, filetime: int) {
    && |bin| >= 32 && bin[..8] == [0x68, 0x62, 0x69, 0x6E, 0, 0, 0, 0]
    && FromLittleEndian(bin[8..12]) == |bin| && |bin| % 4096 == 0
    && bin[12..20] == [0, 0, 0, 0, 0, 0, 0, 0] && FromLittleEndian(bin[20..28]) == filetime && bin[28..32] == [0, 0, 0, 0]
  }

  function ReadHive(image: Octets): Option<HiveView> {
    if !BaseReads(image) then None
    else
      BaseLayout();
      var fields := Unpack(BASE_LAYOUT, image[4..]);
      var bin := image[4096..];
      if !PlainBase(fields) || |bin| != fields[8] || !BinReads(bin, fields[2]) then None
      else
        match ReadKey(bin, fields[7], 0, true, |bin|)
        case None => None
        case Some(root) => Some(HiveView(fields[2], image[48..112], root))
  }

  lemma BaseLayout()
    ensures BaseFormat() == BASE_LAYOUT && FormatSize(BASE_LAYOUT) == 44
  {
    BaseFormatSize();
  }

  lemma FourOctets(w: Octets)
    requires |w| == 4
    ensures FromLittleEndian(w) == Word(w[0], w[1], w[2], w[3])
  {
    assert w[1..][1..] == w[2..] && w[2..][1..] == w[3..] && w[3..][1..] == [];
    assert FromLittleEndian(w[3..]) == w[3] as int;
    assert FromLittleEndian(w[2..]) == w[2] as int + 256 * FromLittleEndian(w[3..]);
    assert FromLittleEndian(w[1..]) == w[1] as int + 256 * FromLittleEndian(w[2..]);
  }

  lemma WordAtIs(s: Octets, i: nat)
    requires 4 * i + 4 <= |s|
    ensures WordAt(s, i) == Word(s[4 * i], s[4 * i + 1], s[4 * i + 2], s[4 * i + 3]) as bv32
  {
    hide FromLittleEndian, Word;
    FourOctets(s[4 * i..4 * i + 4]);
  }

  lemma {:induction false} FoldIsXor(s: Octets, n: nat)
    requires 4 * n <= |s|
    ensures FoldWords(s, n) == XorWords(s, n)
  {
    hide WordAt, WordBits, Xor, Flip;
    if n > 0 {
      FoldIsXor(s, n - 1);
      BitsAre(s, n - 1);
      FlipIs(XorWords(s, n - 1), WordAt(s, n - 1));
    }
  }

  lemma BitsAre(s: Octets, i: nat)
    requires 4 * i + 4 <= |s|
    ensures WordAt(s, i) == WordBits(s[4 * i], s[4 * i + 1], s[4 * i + 2], s[4 * i + 3])
  {
    hide WordAt, Word;
    WordAtIs(s, i);
  }

  lemma FlipIs(a: bv32, b: bv32)
    ensures Flip(a, b) == Xor(a, b)
  {
  }

  lemma ReservedMove(x: bv32)
    ensures Adjust(x) as int == if x == 0 then 1 else if x == 0xFFFF_FFFF then 0xFFFF_FFFE else x as int
  {
  }

  lemma ChecksumIs(s: Octets)
    requires |s| >= 508
    ensures BlockChecksum(s) == Checksum(s)
  {
    hide FoldWords, XorWords, Adjust;
    FoldIsXor(s, 127);
    ReservedMove(XorWords(s, 127));
  }

  lemma ReadBase(image: Octets, fileName: Octets, filetime: nat, root: nat, binSize: nat, bin: Octets)
    requires |fileName| <= 64
    requires Packable(BaseFormat(), BaseFields(filetime, root, binSize))
    requires image == BaseBlock(BaseHeader(fileName, filetime, root, binSize)) + bin
    ensures |image| >= BASE_SIZE && image[..4] == REGF
    ensures FromLittleEndian(image[508..512]) == Checksum(image)
    ensures FormatSize(BaseFormat()) == 44 && Unpack(BaseFormat(), image[4..]) == BaseFields(filetime, root, binSize)
    ensures image[BASE_SIZE..] == bin
    ensures image[48..112] == fileName + Zeros(64 - |fileName|)
    ensures (forall i :: 112 <= i < 508 ==> image[i] == 0) && forall i :: 512 <= i < 4096 ==> image[i] == 0
  {
    hide Packable, BaseFormat, BaseFields, XorWords, Pack, Unpack, Zeros, BaseHeader, Adjust, BaseBlock;
    var header := BaseHeader(fileName, filetime, root, binSize);
    BlockLayout(image, header, bin);
    HeaderLayout(fileName, filetime, root, binSize);
    ChecksumFits(header);
    Pow256Values();
    LittleEndianRoundTrip(Checksum(header), 4);
    XorWordsPrefix(header, image, 127);
    var packed := Pack(BaseFormat(), BaseFields(filetime, root, binSize));
    UnpackPack(BaseFormat(), BaseFields(filetime, root, binSize), header[48..] + image[508..]);
    ConcatAssociative(packed, header[48..], image[508..]);
    assert image[48..112] == header[48..112];
    forall i | 112 <= i < 508 ensures image[i] == 0 { assert image[..508][i] == header[i]; }
  }

  lemma BlockLayout(image: Octets, header: Octets, bin: Octets)
    requires |header| == BASE_HEADER && image == BaseBlock(header) + bin
    ensures |image| >= BASE_SIZE && image[..508] == header && image[4..] == header[4..] + image[508..]
    ensures 0 <= Checksum(header) < Pow256(4) && image[508..512] == LittleEndian(Checksum(header), 4)
    ensures image[BASE_SIZE..] == bin && forall i :: 512 <= i < 4096 ==> image[i] == 0
  {
    hide Checksum, LittleEndian, Zeros;
    ChecksumFits(header);
    Pow256Values();
  }

  lemma HeaderLayout(fileName: Octets, filetime: nat, root: nat, binSize: nat)
    requires |fileName| <= 64
    requires Packable(BaseFormat(), BaseFields(filetime, root, binSize))
    ensures FormatSize(BaseFormat()) == 44
    ensures var header := BaseHeader(fileName, filetime, root, binSize);
            && header[..4] == REGF
            && header[4..] == Pack(BaseFormat(), BaseFields(filetime, root, binSize)) + header[48..]
            && header[48..112] == fileName + Zeros(64 - |fileName|)
            && forall i :: 112 <= i < 508 ==> header[i] == 0
  {
    hide Packable, BaseFormat, BaseFields, Pack;
    BaseFormatSize();
  }

  lemma {:induction false} XorWordsPrefix(a: Octets, b: Octets, n: nat)
    requires 4 * n <= |a| <= |b| && b[..|a|] == a
    ensures XorWords(a, n) == XorWords(b, n)
  {
    hide WordAt, Xor;
    if n > 0 {
      XorWordsPrefix(a, b, n - 1);
      WordAtPrefix(a, b, n - 1);
    }
  }

  lemma WordAtPrefix(a: Octets, b: Octets, i: nat)
    requires 4 * i + 4 <= |a| <= |b| && b[..|a|] == a
    ensures WordAt(a, i) == WordAt(b, i)
  {
    hide FromLittleEndian;
    assert a[4 * i..4 * i + 4] == b[4 * i..4 * i + 4];
  }

  lemma AddMultiple(a: nat, b: nat)
    requires a % 8 == 0 && b % 8 == 0
    ensures (a + b) % 8 == 0
  {
  }

  lemma FreeIsMultiple(running: nat)
    requires running % 8 == 0
    ensures var free := BinSize(running) - BIN_HEADER - running; free % 8 == 0 && (free == 0 || free >= 8)
  {
    var pages := (BIN_HEADER + running + 4095) / 4096;
    assert BinSize(running) == 8 * (512 * pages);
    var k := running / 8;
    assert running == 8 * k;
    assert BinSize(running) - BIN_HEADER - running == 8 * (512 * pages - 4 - k);
  }

  /** Emitted cells fill the reserved total exactly, so the trailing free cell closes the bin and
      the final truncate-and-pad changes nothing. */
  lemma BinIsExact(cells: Octets, running: nat, filetime: nat)
    requires |cells| == running && running % 8 == 0
    requires BinSize(running) < 0x1_0000_0000 && filetime < 0x1_0000_0000_0000_0000
    ensures var size := BinSize(running);
            var free := size - BIN_HEADER - running;
            && (free == 0 || free >= 8) && free % 8 == 0
            && BinImage(cells, size, filetime) == BinHeader(size, filetime) + cells + FreeCell(free)
            && |BinImage(cells, size, filetime)| == size
  {
    hide BinHeader, BinSize, FreeCell, TruncatePad;
    FreeIsMultiple(running);
    var size := BinSize(running);
    var free := size - BIN_HEADER - running;
    FreeCellSize(free);
    TruncateExact(BinHeader(size, filetime) + cells + FreeCell(free));
  }

  lemma TruncateExact(s: Octets)
    ensures TruncatePad(s, |s|) == s
  {
  }

  lemma FreeCellSize(free: nat)
    requires free < 0x1_0000_0000 && (free == 0 || free >= 4)
    ensures |FreeCell(free)| == free
  {
  }

  lemma {:induction false} KeySizeMultiple(t: KeyTree)
    ensures KeySize(t) % 8 == 0 && KeySize(t) >= Height(t)
    decreases t, 1
  {
    hide PaddedTotal, ValuesSize, KeysSize, ForestHeight, RegistryName;
    ValuesSizeMultiple(t.values);
    KeysSizeMultiple(t.subkeys);
    var nk, vs, ks := PaddedTotal(76 + |RegistryName(t.name)|), ValuesSize(t.values), KeysSize(t.subkeys);
    var list := if t.values == [] then 0 else PaddedTotal(4 * |t.values|);
    var lf := if t.subkeys == [] then 0 else PaddedTotal(4 + 8 * |t.subkeys|);
    AddMultiple(nk, vs);
    AddMultiple(nk + vs, list);
    AddMultiple(nk + vs + list, ks);
    AddMultiple(nk + vs + list + ks, lf);
  }

  lemma {:induction false} KeysSizeMultiple(ts: seq<KeyTree>)
    ensures KeysSize(ts) % 8 == 0 && KeysSize(ts) >= ForestHeight(ts)
    decreases ts, 0
  {
    hide KeySize, Height;
    if ts != [] {
      KeySizeMultiple(ts[0]);
      KeysSizeMultiple(ts[1..]);
      AddMultiple(KeySize(ts[0]), KeysSize(ts[1..]));
    }
  }

  lemma {:induction false} ValuesSizeMultiple(vs: seq<ValueRecord>)
    ensures ValuesSize(vs) % 8 == 0
  {
    hide PaddedTotal, RegistryName;
    if vs != [] {
      ValuesSizeMultiple(vs[1..]);
      AddMultiple(ValueSize(vs[0]), ValuesSize(vs[1..]));
    }
  }

  /** The cells of a hive fill what pass one reserved. */
  lemma CellsLength(t: KeyTree, spec: TimestampSpec)
    requires HivePacks(t, spec) && ValidTimestamps(spec)
    ensures |EmitAll(HiveCells(t, spec))| == TotalRunning(t) && TotalRunning(t) % 8 == 0
    ensures SecurityOffset(t) == BIN_HEADER + |EmitAll(KeyCells(RootLayout(t, spec), true, SecurityOffset(t)))|
  {
    hide KeyPacks, SkBody, LayKey, KeyCells, Placed, CellAt, EmitAll, KeySize;
    var k, security := RootLayout(t, spec), SecurityOffset(t);
    var body, sk := KeyCells(k, true, security), [SkBody()];
    EmitAllConcat(body, sk);
    EmitOne(SkBody());
    assert EmittedAt(Zeros(BIN_HEADER) + EmitAll(body), BIN_HEADER, body);
    KeyAgrees(Zeros(BIN_HEADER) + EmitAll(body), t, 0, [], spec, 0, true, security, k);
    KeySizeMultiple(t);
  }

  /** What lies in the bin once a hive is built. */
  lemma BinContents(t: KeyTree, spec: TimestampSpec)
    requires HivePacks(t, spec) && ValidTimestamps(spec)
    ensures var cells := EmitAll(HiveCells(t, spec));
            var bin := BinImage(cells, BinSize(TotalRunning(t)), spec.hive);
            && |cells| == TotalRunning(t)
            && |bin| == BinSize(TotalRunning(t))
            && bin == BinHeader(|bin|, spec.hive) + cells + FreeCell(|bin| - BIN_HEADER - |cells|)
            && EmittedAt(bin, BIN_HEADER, HiveCells(t, spec))
            && Placed(bin, RootLayout(t, spec), true, SecurityOffset(t))
            && CellAt(bin, SecurityOffset(t), SkBody())
  {
    hide KeyPacks, SkBody, LayKey, KeyCells, Placed, CellAt, EmitAll, KeySize, FreeCell, BinHeader, TruncatePad, BinImage, BinSize,
      TotalRunning, SecurityOffset;
    var k, security := RootLayout(t, spec), SecurityOffset(t);
    var body, sk := KeyCells(k, true, security), [SkBody()];
    var cells := EmitAll(body + sk);
    CellsLength(t, spec);
    PacksParts(t, spec);
    BinIsExact(cells, TotalRunning(t), spec.hive);
    var size := BinSize(TotalRunning(t));
    var bin := BinImage(cells, size, spec.hive);
    assert bin[BIN_HEADER..BIN_HEADER + |cells|] == cells;
    EmittedSplit(bin, BIN_HEADER, body, sk);
    OptionalCell(bin, security, sk, true, SkBody());
    KeyAgrees(bin, t, 0, [], spec, 0, true, security, k);
  }

  /** What the reader takes from the base block. */
  ghost predicate BaseShows(image: Octets, filetime: nat, binSize: nat) {
    && BaseReads(image)
    && (BaseLayout();
        var fields := Unpack(BASE_LAYOUT, image[4..]);
        PlainBase(fields) && fields[2] == filetime && fields[7] == 32 && fields[8] == binSize)
  }

  /** The base block of the image as the reader reads it. */
  lemma BaseIsRead(image: Octets, fileName: Octets, filetime: nat, binSize: nat, bin: Octets)
    requires |fileName| <= 64 && filetime < 0x1_0000_0000_0000_0000 && binSize < 0x1_0000_0000
    requires Packable(BaseFormat(), BaseFields(filetime, BIN_HEADER, binSize))
    requires image == BaseBlock(BaseHeader(fileName, filetime, BIN_HEADER, binSize)) + bin
    ensures |image| >= 4096 && image[4096..] == bin && image[48..112] == fileName + Zeros(64 - |fileName|)
    ensures BaseShows(image, filetime, binSize)
  {
    hide Packable, BaseHeader, BaseBlock, Unpack, Checksum, BlockChecksum, Zeros, FromLittleEndian, BaseFields, BaseFormat, PlainBase;
    ReadBase(image, fileName, filetime, BIN_HEADER, binSize, bin);
    ChecksumIs(image);
    BaseLayout();
    BaseIsPlain(filetime, binSize);
    assert BaseReads(image);
    assert Unpack(BASE_LAYOUT, image[4..]) == BaseFields(filetime, BIN_HEADER, binSize);
  }

  lemma BaseIsPlain(filetime: nat, binSize: nat)
    ensures var fields := BaseFields(filetime, BIN_HEADER, binSize);
            |fields| == 10 && PlainBase(fields) && fields[2] == filetime && fields[7] == 32 && fields[8] == binSize
  {
  }

  /** A reader that finds the base block, the bin header and the root key in order returns them. */
  lemma ReadsTogether(image: Octets, bin: Octets, filetime: nat, root: KeyView)
    requires |image| >= 4096 && image[4096..] == bin && BaseShows(image, filetime, |bin|)
    requires BinReads(bin, filetime) && ReadKey(bin, BIN_HEADER, 0, true, |bin|) == Some(root)
    ensures ReadHive(image) == Some(HiveView(filetime, image[48..112], root))
  {
    hide BaseReads, BinReads, ReadKey, Unpack, PlainBase;
  }

  /** The bin of a hive, and its root key. */
  lemma BinIsRead(t: KeyTree, spec: TimestampSpec, nfc: Text -> bool)
    requires HivePacks(t, spec) && ValidTimestamps(spec) && NamesValid(t, nfc)
    ensures var size := BinSize(TotalRunning(t));
            && size < 0x1_0000_0000
            && var bin := BinImage(EmitAll(HiveCells(t, spec)), size, spec.hive);
            && |bin| == size && BinReads(bin, spec.hive)
            && ReadKey(bin, BIN_HEADER, 0, true, |bin|) == Some(Stamp(t, [], spec))
  {
    hide HivePacks, KeyPacks, LayKey, EmitAll, HiveCells, Placed, CellAt, EmittedAt, NamesValid, ReadKey, SkBody,
      BinImage, BinReads, KeySize, Height, NamesEncodable, Stamp, BinHeader, FreeCell;
    var security := SecurityOffset(t);
    var size := BinSize(TotalRunning(t));
    PacksParts(t, spec);
    var bin := BinImage(EmitAll(HiveCells(t, spec)), size, spec.hive);
    BinContents(t, spec);
    BinHeaderFields(bin, size, spec.hive, EmitAll(HiveCells(t, spec)) + FreeCell(size - BIN_HEADER - TotalRunning(t)));
    ValidNamesEncodable(t, nfc);
    KeySizeMultiple(t);
    ReadKeyAt(bin, t, 0, [], spec, 0, true, security, |bin|, RootLayout(t, spec));
    RootAt(t, spec);
  }

  /** Round trip: whatever build_hive accepts, the reader recovers from its bytes exactly --
      names, value kinds and data, FILETIMEs, parent links, and tree shape. */
  lemma HiveRoundTrip(t: KeyTree, fileName: Text, spec: TimestampSpec, nfc: Text -> bool)
    requires ValidTimestamps(spec)
    requires BuildHive(t, fileName, spec, nfc).Ok?
    ensures ReadHive(BuildHive(t, fileName, spec, nfc).value)
         == Some(HiveView(spec.hive, Utf16(fileName) + Zeros(64 - |Utf16(fileName)|), Stamp(t, [], spec)))
  {
    hide HivePacks, EmitAll, HiveCells, NamesValid, ReadKey, Packable, BaseHeader, BaseBlock, BinImage, Unpack, BaseShows, BinReads,
      TreePaths, Stamp, ReadHive, Utf16, Zeros, BaseFormat, BaseFields, TotalRunning, BinSize;
    var size := BinSize(TotalRunning(t));
    BinIsRead(t, spec, nfc);
    var bin := BinImage(EmitAll(HiveCells(t, spec)), size, spec.hive);
    BasePackable(spec.hive, size);
    var image := HiveImageOf(t, fileName, spec);
    BaseIsRead(image, Utf16(fileName), spec.hive, size, bin);
    ReadsTogether(image, bin, spec.hive, Stamp(t, [], spec));
  }

  lemma PacksParts(t: KeyTree, spec: TimestampSpec)
    requires HivePacks(t, spec)
    ensures KeyPacks(RootLayout(t, spec), true, SecurityOffset(t))
    ensures BinSize(TotalRunning(t)) < 0x1_0000_0000
  {
    hide KeyPacks;
  }

  lemma BinHeaderFields(bin: Octets, size: nat, filetime: nat, rest: Octets)
    requires size < 0x1_0000_0000 && filetime < 0x1_0000_0000_0000_0000
    requires exists c, f :: rest == c + f && bin == BinHeader(size, filetime) + c + f
    requires size == |bin| && size % 4096 == 0
    ensures BinReads(bin, filetime)
  {
    hide LittleEndian, FromLittleEndian, Pow256;
    Pow256Values();
    var c, f :| rest == c + f && bin == BinHeader(size, filetime) + c + f;
    var h := BinHeader(size, filetime);
    assert bin[..32] == h;
    assert bin[..8] == h[..8] == HBIN + Zeros(4);
    assert bin[8..12] == h[8..12] == LittleEndian(size, 4);
    assert bin[12..20] == h[12..20] == Zeros(8);
    assert bin[20..28] == h[20..28] == LittleEndian(filetime, 8);
    assert bin[28..32] == h[28..32] == Zeros(4);
    LittleEndianRoundTrip(size, 4);
    LittleEndianRoundTrip(filetime, 8);
  }

  /** The root nk is the first cell of the bin. */
  lemma RootAt(t: KeyTree, spec: TimestampSpec)
    ensures RootLayout(t, spec).nk == BIN_HEADER && RootLayout(t, spec).parent == 0
  {
  }
}
