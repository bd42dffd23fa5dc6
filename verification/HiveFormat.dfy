// The REGF cell format as hive.py packs it: registry names, nk/vk/list/lf/sk bodies, and the
// framing of one body as an allocated cell.
module HiveFormat {
  import opened Bytes
  import opened Unicode

  const REG_DWORD := 4
  const NONE := 0xFFFF_FFFF
  const INLINE := 0x8000_0000
  const MAX_CELL := 0x8000_0000
  const BIN_HEADER := 32

  // ---- what is written ---------------------------------------------------------------------

  datatype ValueRecord = ValueRecord(name: Text, kind: int, data: Octets)

  datatype KeyTree = KeyTree(name: Text, values: seq<ValueRecord>, subkeys: seq<KeyTree>)

  /** A value after pass one: encoded name, and the offsets reserved for it. */
  datatype LaidValue = LaidValue(
    name: Octets, compressed: bool, kind: int, data: Octets, inline: bool, dataOffset: nat, vk: nat)

  /** A key after pass one, with the offsets of its own cells and of its parent's nk. */
  datatype LaidKey = LaidKey(
    name: Octets, compressed: bool, filetime: nat, parent: nat, nk: nat, vlist: nat, sklist: nat,
    values: seq<LaidValue>, subkeys: seq<LaidKey>)

  // ---- names -------------------------------------------------------------------------------

  function AsciiOctets(t: Text): (s: Octets)
    requires IsAscii(t)
    ensures |s| == |t|
  {
    seq(|t|, i requires 0 <= i < |t| => t[i] as byte)
  }

  /** One octet per character when ASCII, UTF-16LE otherwise. */
  function RegistryName(t: Text): Octets {
    if IsAscii(t) then AsciiOctets(t) else Utf16(t)
  }

  /** A DWORD of at most four octets is kept in the vk cell's own offset field. */
  predicate Inline(kind: int, data: Octets) {
    kind == REG_DWORD && |data| <= 4
  }

  // ---- cells -------------------------------------------------------------------------------

  /** Size word plus body, rounded up to a multiple of eight. */
  function PaddedTotal(dataSize: nat): (total: nat)
    ensures total % 8 == 0 && 4 + dataSize <= total < 12 + dataSize
  {
    4 + dataSize + (-(4 + dataSize)) % 8
  }

  /** `struct.pack("<i", -total)` raises for a larger cell. */
  predicate CellFits(body: Octets) {
    PaddedTotal(|body|) <= MAX_CELL
  }

  /** The negated size in two's complement, the body, and zero padding. */
  function CellBytes(body: Octets): (cell: Octets)
    ensures |cell| == PaddedTotal(|body|)
  {
    Pow256Values();
    var total := PaddedTotal(|body|);
    LittleEndian((0 - total) % 0x1_0000_0000, 4) + body + Zeros(total - 4 - |body|)
  }

  function EmitAll(bodies: seq<Octets>): Octets {
    if bodies == [] then [] else CellBytes(bodies[0]) + EmitAll(bodies[1..])
  }

  lemma {:induction false} EmitAllConcat(a: seq<Octets>, b: seq<Octets>)
    ensures EmitAll(a + b) == EmitAll(a) + EmitAll(b)
  {
    hide CellBytes;
    if a == [] {
      assert a + b == b;
    } else {
      var head, tail := CellBytes(a[0]), EmitAll(a[1..]);
      assert (a + b)[0] == a[0] && (a + b)[1..] == a[1..] + b;
      calc {
        EmitAll(a + b);
        head + EmitAll(a[1..] + b);
        { EmitAllConcat(a[1..], b); }
        head + (tail + EmitAll(b));
        { ConcatAssociative(head, tail, EmitAll(b)); }
        (head + tail) + EmitAll(b);
      }
    }
  }

  // ---- bodies ------------------------------------------------------------------------------

  const NK_TAG: Octets := [0x6E, 0x6B]
  const VK_TAG: Octets := [0x76, 0x6B]
  const LF_TAG: Octets := [0x6C, 0x66]
  const SK_TAG: Octets := [0x73, 0x6B, 0, 0]

  function Words(n: nat): (f: Format)
    ensures |f| == n
  {
    seq(n, _ => 4)
  }

  /** "<HQIIIIIIIIIIIIIIIHH" */
  function NkFormat(): (f: Format)
    ensures |f| == 19
  {
    [2, 8] + Words(15) + [2, 2]
  }

  /** "<HIIIHH" */
  function VkFormat(): (f: Format)
    ensures |f| == 6
  {
    [2] + Words(3) + [2, 2]
  }

  lemma {:induction false} FormatSizeConcat(f: Format, g: Format)
    ensures FormatSize(f + g) == FormatSize(f) + FormatSize(g)
  {
    if f == [] {
      assert f + g == g;
    } else {
      FormatSizeConcat(f[1..], g);
      assert (f + g)[1..] == f[1..] + g;
    }
  }

  lemma {:induction false} WordsSize(n: nat)
    ensures FormatSize(Words(n)) == 4 * n
  {
    if n > 0 {
      WordsSize(n - 1);
      assert Words(n)[1..] == Words(n - 1);
    }
  }

  lemma PairSize(a: nat, b: nat)
    ensures FormatSize([a]) == a && FormatSize([a, b]) == a + b
  {
    assert [a][1..] == [] && [b][1..] == [] && [a, b][1..] == [b];
  }

  lemma NkFormatSize()
    ensures FormatSize(NkFormat()) == 74
  {
    WordsSize(15);
    PairSize(2, 8);
    PairSize(2, 2);
    FormatSizeConcat([2, 8] + Words(15), [2, 2]);
    FormatSizeConcat([2, 8], Words(15));
  }

  lemma VkFormatSize()
    ensures FormatSize(VkFormat()) == 18
  {
    WordsSize(3);
    PairSize(2, 2);
    FormatSizeConcat([2] + Words(3), [2, 2]);
    FormatSizeConcat([2], Words(3));
  }

  function NkFields(k: LaidKey, isRoot: bool, security: nat): (f: seq<int>)
    ensures |f| == 19
  {
    [(if k.compressed then 0x20 else 0) + (if isRoot then 0x0C else 0),
     k.filetime, 0, k.parent, |k.subkeys|, 0, k.sklist, NONE, |k.values|, k.vlist, security, NONE,
     0, 0, 0, 0, 0, |k.name|, 0]
  }

  function NkBody(k: LaidKey, isRoot: bool, security: nat): (b: Octets)
    requires Packable(NkFormat(), NkFields(k, isRoot, security))
    ensures |b| == 76 + |k.name|
  {
    NkFormatSize();
    Pow256Values();
    assert NkFields(k, isRoot, security)[17] == |k.name| && NkFormat()[17] == 2;
    NK_TAG + Pack(NkFormat(), NkFields(k, isRoot, security)) + k.name
  }

  /** The first four octets, zero-extended: inline data, and the hash hint of an lf entry. */
  function FirstFour(s: Octets): (r: Octets)
    ensures |r| == 4
  {
    if |s| >= 4 then s[..4] else s + Zeros(4 - |s|)
  }

  function VkFields(v: LaidValue): (f: seq<int>)
    ensures |f| == 6
  {
    [|v.name|,
     if v.inline then INLINE + |v.data| else |v.data|,
     if v.inline then FromLittleEndian(FirstFour(v.data)) else v.dataOffset,
     v.kind, if v.compressed then 1 else 0, 0]
  }

  function VkBody(v: LaidValue): (b: Octets)
    requires Packable(VkFormat(), VkFields(v))
    ensures |b| == 20 + |v.name|
  {
    VkFormatSize();
    Pow256Values();
    assert VkFields(v)[0] == |v.name| && VkFormat()[0] == 2;
    VK_TAG + Pack(VkFormat(), VkFields(v)) + v.name
  }

  function VkOffsets(values: seq<LaidValue>): (offsets: seq<int>)
    ensures |offsets| == |values|
  {
    seq(|values|, i requires 0 <= i < |values| => values[i].vk)
  }

  predicate ValueListPacks(values: seq<LaidValue>) {
    Packable(Words(|values|), VkOffsets(values)) && PaddedTotal(4 * |values|) <= MAX_CELL
  }

  function ValueListBody(values: seq<LaidValue>): (b: Octets)
    requires ValueListPacks(values)
    ensures |b| == 4 * |values|
  {
    WordsSize(|values|);
    Pack(Words(|values|), VkOffsets(values))
  }

  predicate OffsetsPack(subkeys: seq<LaidKey>) {
    forall i :: 0 <= i < |subkeys| ==> subkeys[i].nk < 0x1_0000_0000
  }

  function LfEntries(subkeys: seq<LaidKey>): (s: Octets)
    requires OffsetsPack(subkeys)
    ensures |s| == 8 * |subkeys|
  {
    Pow256Values();
    if subkeys == [] then []
    else LittleEndian(subkeys[0].nk, 4) + FirstFour(subkeys[0].name) + LfEntries(subkeys[1..])
  }

  predicate SubkeyListPacks(subkeys: seq<LaidKey>) {
    |subkeys| < 0x1_0000 && OffsetsPack(subkeys)
  }

  function LfBody(subkeys: seq<LaidKey>): (b: Octets)
    requires SubkeyListPacks(subkeys)
    ensures |b| == 4 + 8 * |subkeys|
  {
    Pow256Values();
    LF_TAG + LittleEndian(|subkeys|, 2) + LfEntries(subkeys)
  }

  function SkBody(): (b: Octets)
    ensures |b| == 20
  {
    WordsSize(4);
    SK_TAG + Pack(Words(4), [0, 0, 1, 0])
  }
}
