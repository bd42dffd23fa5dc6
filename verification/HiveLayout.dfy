// The two passes of build_hive as functions: the offsets pass one reserves, the cells pass two
// emits, and their agreement.
module HiveLayout {
  import opened Bytes
  import opened Unicode
  import opened HiveFormat

  // ---- timestamps --------------------------------------------------------------------------

  /** Exact FILETIMEs: base block and bin, default per key, and per-key overrides by joined path. */
  datatype TimestampSpec = TimestampSpec(hive: nat, defaultKey: nat, overrides: map<Text, nat>)

  const BACKSLASH: CodePoint := 0x5C

  /** Non-empty components between single backslashes, none leading or trailing. */
  predicate CanonicalKeyPath(path: Text) {
    && path != []
    && path[0] != BACKSLASH
    && path[|path| - 1] != BACKSLASH
    && forall i :: 0 <= i < |path| - 1 ==> !(path[i] == BACKSLASH && path[i + 1] == BACKSLASH)
  }

  predicate ValidTimestamps(s: TimestampSpec) {
    && s.hive < 0x1_0000_0000_0000_0000
    && s.defaultKey < 0x1_0000_0000_0000_0000
    && forall p <- s.overrides :: CanonicalKeyPath(p) && s.overrides[p] < 0x1_0000_0000_0000_0000
  }

  function JoinPath(parts: seq<Text>): Text {
    if parts == [] then []
    else if |parts| == 1 then parts[0]
    else JoinPath(parts[..|parts| - 1]) + [BACKSLASH] + parts[|parts| - 1]
  }

  function KeyFiletime(spec: TimestampSpec, path: Text): nat {
    if path in spec.overrides then spec.overrides[path] else spec.defaultKey
  }

  /** Every joined path the tree has, which is every override path the writer can use. */
  function TreePaths(t: KeyTree, parts: seq<Text>): set<Text>
    decreases t, 1
  {
    {JoinPath(parts + [t.name])} + ForestPaths(t.subkeys, parts + [t.name])
  }

  function ForestPaths(ts: seq<KeyTree>, parts: seq<Text>): set<Text>
    decreases ts, 0
  {
    if ts == [] then {} else TreePaths(ts[0], parts) + ForestPaths(ts[1..], parts)
  }

  // ---- pass one: reserve -------------------------------------------------------------------

  function ValueSize(v: ValueRecord): nat {
    (if Inline(v.kind, v.data) then 0 else PaddedTotal(|v.data|)) + PaddedTotal(20 + |RegistryName(v.name)|)
  }

  function ValuesSize(vs: seq<ValueRecord>): nat {
    if vs == [] then 0 else ValueSize(vs[0]) + ValuesSize(vs[1..])
  }

  lemma NoValuesSize()
    ensures ValuesSize([]) == 0
  {
  }

  function KeySize(t: KeyTree): nat
    decreases t, 1
  {
    PaddedTotal(76 + |RegistryName(t.name)|)
    + ValuesSize(t.values) + (if t.values == [] then 0 else PaddedTotal(4 * |t.values|))
    + KeysSize(t.subkeys) + (if t.subkeys == [] then 0 else PaddedTotal(4 + 8 * |t.subkeys|))
  }

  function KeysSize(ts: seq<KeyTree>): nat
    decreases ts, 0
  {
    if ts == [] then 0 else KeySize(ts[0]) + KeysSize(ts[1..])
  }

  function LayValue(v: ValueRecord, running: nat): LaidValue {
    var inline := Inline(v.kind, v.data);
    LaidValue(
      RegistryName(v.name), IsAscii(v.name), v.kind, v.data, inline,
      if inline then 0 else BIN_HEADER + running,
      BIN_HEADER + running + if inline then 0 else PaddedTotal(|v.data|))
  }

  function LayValues(vs: seq<ValueRecord>, running: nat): (laid: seq<LaidValue>)
    ensures |laid| == |vs|
  {
    if vs == [] then [] else [LayValue(vs[0], running)] + LayValues(vs[1..], running + ValueSize(vs[0]))
  }

  /** Where the cursor stands after a key's nk, after its values, and after its subkeys. */
  function AfterNk(t: KeyTree, running: nat): nat {
    running + PaddedTotal(76 + |RegistryName(t.name)|)
  }

  function AfterValues(t: KeyTree, running: nat): nat {
    AfterNk(t, running) + ValuesSize(t.values) + if t.values == [] then 0 else PaddedTotal(4 * |t.values|)
  }

  function LayKey(t: KeyTree, parent: nat, parts: seq<Text>, spec: TimestampSpec, running: nat): LaidKey
    decreases t, 1
  {
    var nk := BIN_HEADER + running;
    LaidKey(
      RegistryName(t.name), IsAscii(t.name), KeyFiletime(spec, JoinPath(parts + [t.name])), parent, nk,
      if t.values == [] then NONE else BIN_HEADER + AfterNk(t, running) + ValuesSize(t.values),
      if t.subkeys == [] then NONE else BIN_HEADER + AfterValues(t, running) + KeysSize(t.subkeys),
      LayValues(t.values, AfterNk(t, running)),
      LayKeys(t.subkeys, nk, parts + [t.name], spec, AfterValues(t, running)))
  }

  function LayKeys(
    ts: seq<KeyTree>, parent: nat, parts: seq<Text>, spec: TimestampSpec, running: nat): (laid: seq<LaidKey>)
    ensures |laid| == |ts|
    decreases ts, 0
  {
    if ts == [] then []
    else [LayKey(ts[0], parent, parts, spec, running)] + LayKeys(ts[1..], parent, parts, spec, running + KeySize(ts[0]))
  }

  // ---- pass two: emit ----------------------------------------------------------------------

  /** No field of the value's cells raises `struct.error`. */
  predicate ValuePacks(v: LaidValue) {
    && Packable(VkFormat(), VkFields(v))
    && (!v.inline ==> CellFits(v.data))
  }

  predicate ValuesPack(vs: seq<LaidValue>) {
    vs == [] || (ValuePacks(vs[0]) && ValuesPack(vs[1..]))
  }

  predicate KeyPacks(k: LaidKey, isRoot: bool, security: nat)
    decreases k, 1
  {
    && Packable(NkFormat(), NkFields(k, isRoot, security))
    && ValuesPack(k.values)
    && ValueListPacks(k.values)
    && SubkeyListPacks(k.subkeys)
    && KeysPack(k.subkeys, security)
  }

  predicate KeysPack(ks: seq<LaidKey>, security: nat)
    decreases ks, 0
  {
    ks == [] || (KeyPacks(ks[0], false, security) && KeysPack(ks[1..], security))
  }

  function ValueCells(v: LaidValue): seq<Octets>
    requires ValuePacks(v)
  {
    (if v.inline then [] else [v.data]) + [VkBody(v)]
  }

  function ValuesCells(vs: seq<LaidValue>): seq<Octets>
    requires ValuesPack(vs)
  {
    if vs == [] then [] else ValueCells(vs[0]) + ValuesCells(vs[1..])
  }

  function KeyCells(k: LaidKey, isRoot: bool, security: nat): seq<Octets>
    requires KeyPacks(k, isRoot, security)
    decreases k, 1
  {
    [NkBody(k, isRoot, security)] + (ValuesCells(k.values) + (ValueListCells(k.values) + (KeysCells(k.subkeys, security) + SubkeyListCells(k.subkeys))))
  }

  function ValueListCells(vs: seq<LaidValue>): seq<Octets>
    requires ValueListPacks(vs)
  {
    if vs == [] then [] else [ValueListBody(vs)]
  }

  function SubkeyListCells(ks: seq<LaidKey>): seq<Octets>
    requires SubkeyListPacks(ks)
  {
    if ks == [] then [] else [LfBody(ks)]
  }

  function KeysCells(ks: seq<LaidKey>, security: nat): seq<Octets>
    requires KeysPack(ks, security)
    decreases ks, 0
  {
    if ks == [] then [] else KeyCells(ks[0], false, security) + KeysCells(ks[1..], security)
  }

  // ---- agreement ---------------------------------------------------------------------------

  /** `part` lies in `whole` at offset `at`. */
  predicate Contains(whole: Octets, at: nat, part: Octets) {
    at + |part| <= |whole| && whole[at..at + |part|] == part
  }

  lemma ContainsSplit(whole: Octets, at: nat, a: Octets, b: Octets)
    requires Contains(whole, at, a + b)
    ensures Contains(whole, at, a) && Contains(whole, at + |a|, b)
  {
    var s := whole[at..at + |a + b|];
    assert s[..|a|] == a && s[|a|..] == b;
  }

  /** The cells of `bodies`, back to back, at offset `at`. */
  predicate EmittedAt(bin: Octets, at: nat, bodies: seq<Octets>) {
    Contains(bin, at, EmitAll(bodies))
  }

  lemma EmittedSplit(bin: Octets, at: nat, a: seq<Octets>, b: seq<Octets>)
    requires EmittedAt(bin, at, a + b)
    ensures EmittedAt(bin, at, a) && EmittedAt(bin, at + |EmitAll(a)|, b)
    ensures |EmitAll(a + b)| == |EmitAll(a)| + |EmitAll(b)|
  {
    EmitAllConcat(a, b);
    ContainsSplit(bin, at, EmitAll(a), EmitAll(b));
  }

  predicate CellAt(bin: Octets, at: nat, body: Octets) {
    Contains(bin, at, CellBytes(body))
  }

  lemma EmitOne(body: Octets)
    ensures EmitAll([body]) == CellBytes(body)
  {
    assert [body][1..] == [];
    assert EmitAll([]) == [];
  }

  /** Every cell of the key's subtree is at the offset pass one reserved for it, and every
      child points back at its parent's nk. */
  predicate Placed(bin: Octets, k: LaidKey, isRoot: bool, security: nat)
    requires KeyPacks(k, isRoot, security)
    decreases k, 1
  {
    && CellAt(bin, k.nk, NkBody(k, isRoot, security))
    && ValuesPlaced(bin, k.values)
    && (if k.values == [] then k.vlist == NONE else CellAt(bin, k.vlist, ValueListBody(k.values)))
    && SubkeysPlaced(bin, k.nk, k.subkeys, security)
    && (if k.subkeys == [] then k.sklist == NONE else CellAt(bin, k.sklist, LfBody(k.subkeys)))
  }

  predicate ValuePlaced(bin: Octets, v: LaidValue)
    requires ValuePacks(v)
  {
    && (!v.inline ==> CellAt(bin, v.dataOffset, v.data))
    && CellAt(bin, v.vk, VkBody(v))
  }

  predicate ValuesPlaced(bin: Octets, vs: seq<LaidValue>)
    requires ValuesPack(vs)
  {
    vs == [] || (ValuePlaced(bin, vs[0]) && ValuesPlaced(bin, vs[1..]))
  }

  predicate SubkeysPlaced(bin: Octets, parent: nat, ks: seq<LaidKey>, security: nat)
    requires KeysPack(ks, security)
    decreases ks, 0
  {
    ks == [] ||
    (ks[0].parent == parent && Placed(bin, ks[0], false, security) && SubkeysPlaced(bin, parent, ks[1..], security))
  }

  lemma ValueAgrees(bin: Octets, v: ValueRecord, running: nat)
    requires ValuePacks(LayValue(v, running))
    requires EmittedAt(bin, BIN_HEADER + running, ValueCells(LayValue(v, running)))
    ensures |EmitAll(ValueCells(LayValue(v, running)))| == ValueSize(v)
    ensures ValuePlaced(bin, LayValue(v, running))
  {
    var laid := LayValue(v, running);
    EmitOne(VkBody(laid));
    if Inline(v.kind, v.data) {
      assert ValueCells(laid) == [VkBody(laid)];
    } else {
      EmitOne(v.data);
      EmittedSplit(bin, BIN_HEADER + running, [v.data], [VkBody(laid)]);
    }
  }

  lemma {:induction false} ValuesAgree(bin: Octets, vs: seq<ValueRecord>, running: nat)
    requires ValuesPack(LayValues(vs, running))
    requires EmittedAt(bin, BIN_HEADER + running, ValuesCells(LayValues(vs, running)))
    ensures |EmitAll(ValuesCells(LayValues(vs, running)))| == ValuesSize(vs)
    ensures ValuesPlaced(bin, LayValues(vs, running))
  {
    hide CellBytes, VkBody, Contains, ValuePacks, Inline, RegistryName;
    if vs != [] {
      var laid := LayValues(vs, running);
      var first, rest := LayValue(vs[0], running), LayValues(vs[1..], running + ValueSize(vs[0]));
      assert laid[0] == first && laid[1..] == rest;
      assert ValuesCells(laid) == ValueCells(first) + ValuesCells(rest);
      EmittedSplit(bin, BIN_HEADER + running, ValueCells(first), ValuesCells(rest));
      ValueAgrees(bin, vs[0], running);
      ValuesAgree(bin, vs[1..], running + ValueSize(vs[0]));
    }
  }

  /** Where each of five consecutive groups of cells lies. */
  lemma FiveSegments(
    bin: Octets, at: nat, a: seq<Octets>, b: seq<Octets>, c: seq<Octets>, d: seq<Octets>, e: seq<Octets>)
    requires EmittedAt(bin, at, a + (b + (c + (d + e))))
    ensures var at1 := at + |EmitAll(a)|;
            var at2 := at1 + |EmitAll(b)|;
            var at3 := at2 + |EmitAll(c)|;
            var at4 := at3 + |EmitAll(d)|;
            && EmittedAt(bin, at, a) && EmittedAt(bin, at1, b) && EmittedAt(bin, at2, c)
            && EmittedAt(bin, at3, d) && EmittedAt(bin, at4, e)
            && at + |EmitAll(a + (b + (c + (d + e))))| == at4 + |EmitAll(e)|
  {
    hide EmitAll, EmittedAt;
    EmittedSplit(bin, at, a, b + (c + (d + e)));
    var at1 := at + |EmitAll(a)|;
    EmittedSplit(bin, at1, b, c + (d + e));
    var at2 := at1 + |EmitAll(b)|;
    EmittedSplit(bin, at2, c, d + e);
    EmittedSplit(bin, at2 + |EmitAll(c)|, d, e);
  }

  /** A group of at most one cell. */
  lemma OptionalCell(bin: Octets, at: nat, cells: seq<Octets>, present: bool, body: Octets)
    requires EmittedAt(bin, at, cells)
    requires cells == if present then [body] else []
    ensures |EmitAll(cells)| == if present then PaddedTotal(|body|) else 0
    ensures present ==> CellAt(bin, at, body)
  {
    if present { EmitOne(body); }
  }

  /** Where the five groups of a key's cells lie. */
  lemma KeyGroups(bin: Octets, at: nat, k: LaidKey, isRoot: bool, security: nat)
    requires KeyPacks(k, isRoot, security)
    requires EmittedAt(bin, at, KeyCells(k, isRoot, security))
    ensures var at1 := at + PaddedTotal(|NkBody(k, isRoot, security)|);
            var at2 := at1 + |EmitAll(ValuesCells(k.values))|;
            var at3 := at2 + if k.values == [] then 0 else PaddedTotal(|ValueListBody(k.values)|);
            var at4 := at3 + |EmitAll(KeysCells(k.subkeys, security))|;
            && CellAt(bin, at, NkBody(k, isRoot, security))
            && EmittedAt(bin, at1, ValuesCells(k.values))
            && (k.values != [] ==> CellAt(bin, at2, ValueListBody(k.values)))
            && EmittedAt(bin, at3, KeysCells(k.subkeys, security))
            && (k.subkeys != [] ==> CellAt(bin, at4, LfBody(k.subkeys)))
            && at + |EmitAll(KeyCells(k, isRoot, security))|
               == at4 + if k.subkeys == [] then 0 else PaddedTotal(|LfBody(k.subkeys)|)
  {
    hide EmittedAt, NkBody, ValueListBody, LfBody, EmitAll, PaddedTotal, CellAt, KeysCells, ValuesCells, KeysPack, ValuesPack,
      Packable;
    var nk, vs, list := [NkBody(k, isRoot, security)], ValuesCells(k.values), ValueListCells(k.values);
    var ks, lf := KeysCells(k.subkeys, security), SubkeyListCells(k.subkeys);
    FiveSegments(bin, at, nk, vs, list, ks, lf);
    OptionalCell(bin, at, nk, true, nk[0]);
    var at2 := at + |EmitAll(nk)| + |EmitAll(vs)|;
    OptionalCell(bin, at2, list, k.values != [], ValueListBody(k.values));
    OptionalCell(bin, at2 + |EmitAll(list)| + |EmitAll(ks)|, lf, k.subkeys != [], LfBody(k.subkeys));
  }

  /** The two passes agree: laid out from `running` and emitted there, every cell of the tree is
      at the offset reserved for it, and as many octets are emitted as were reserved. */
  lemma {:induction false} KeyAgrees(
    bin: Octets, t: KeyTree, parent: nat, parts: seq<Text>, spec: TimestampSpec, running: nat,
    isRoot: bool, security: nat, k: LaidKey)
    requires k == LayKey(t, parent, parts, spec, running)
    requires KeyPacks(k, isRoot, security)
    requires EmittedAt(bin, BIN_HEADER + running, KeyCells(k, isRoot, security))
    ensures |EmitAll(KeyCells(k, isRoot, security))| == KeySize(t)
    ensures Placed(bin, k, isRoot, security)
    decreases t, 1
  {
    hide CellBytes, Contains, EmittedAt, Packable, NkFields, NkBody, ValueListBody, LfBody, JoinPath, RegistryName,
      KeyFiletime, EmitAll, PaddedTotal, CellAt, KeysCells, ValuesCells, KeysPack, ValuesPack, ValuesPlaced, SubkeysPlaced,
      KeyCells, CellFits, IsAscii, LayValues, LayKeys;
    KeyGroups(bin, k.nk, k, isRoot, security);
    ValuesAgree(bin, t.values, AfterNk(t, running));
    KeysAgree(bin, t.subkeys, k.nk, parts + [t.name], spec, AfterValues(t, running), security, k.subkeys);
  }

  lemma {:induction false} KeysAgree(
    bin: Octets, ts: seq<KeyTree>, parent: nat, parts: seq<Text>, spec: TimestampSpec, running: nat, security: nat,
    ks: seq<LaidKey>)
    requires ks == LayKeys(ts, parent, parts, spec, running)
    requires KeysPack(ks, security)
    requires EmittedAt(bin, BIN_HEADER + running, KeysCells(ks, security))
    ensures |EmitAll(KeysCells(ks, security))| == KeysSize(ts)
    ensures SubkeysPlaced(bin, parent, ks, security)
    decreases ts, 0
  {
    hide CellBytes, Contains, EmittedAt, EmitAll, KeyPacks, KeyCells, Placed, KeySize, LayKey, LayKeys, JoinPath;
    if ts == [] {
      EmitNone();
    } else {
      var first := LayKey(ts[0], parent, parts, spec, running);
      var rest := LayKeys(ts[1..], parent, parts, spec, running + KeySize(ts[0]));
      LayKeysStep(ts, parent, parts, spec, running);
      assert KeysCells(ks, security) == KeyCells(first, false, security) + KeysCells(rest, security);
      EmittedSplit(bin, BIN_HEADER + running, KeyCells(first, false, security), KeysCells(rest, security));
      KeyAgrees(bin, ts[0], parent, parts, spec, running, false, security, first);
      KeysAgree(bin, ts[1..], parent, parts, spec, running + KeySize(ts[0]), security, rest);
    }
  }

  lemma EmitNone()
    ensures EmitAll([]) == []
  {
  }

  lemma LayKeysStep(ts: seq<KeyTree>, parent: nat, parts: seq<Text>, spec: TimestampSpec, running: nat)
    requires ts != []
    ensures var ks := LayKeys(ts, parent, parts, spec, running);
            && ks != []
            && ks[0] == LayKey(ts[0], parent, parts, spec, running)
            && ks[0].parent == parent && ks[0].nk == BIN_HEADER + running
            && ks[1..] == LayKeys(ts[1..], parent, parts, spec, running + KeySize(ts[0]))
  {
  }
}
