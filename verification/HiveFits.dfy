// When packing cannot fail: a tree of well-typed values whose cells stay below two gigabytes.
module HiveFits {
  import opened Bytes
  import opened Unicode
  import opened HiveFormat
  import opened HiveLayout
  import opened HiveImage

  /** Value types and subkey counts within their fields, names within theirs. */
  predicate Fitting(t: KeyTree)
    decreases t, 1
  {
    && |RegistryName(t.name)| < 0x1_0000
    && (forall i :: 0 <= i < |t.values| ==> ValueFitting(t.values[i]))
    && |t.subkeys| < 0x1_0000 && AllFitting(t.subkeys)
  }

  predicate AllFitting(ts: seq<KeyTree>)
    decreases ts, 0
  {
    ts == [] || (Fitting(ts[0]) && AllFitting(ts[1..]))
  }

  predicate ValueFitting(v: ValueRecord) {
    |RegistryName(v.name)| < 0x1_0000 && 0 <= v.kind < 0x1_0000_0000
  }

  lemma VkPackable(v: LaidValue)
    requires |v.name| < 0x1_0000 && 0 <= v.kind < 0x1_0000_0000
    requires if v.inline then |v.data| <= 4 else |v.data| < INLINE && v.dataOffset < 0x1_0000_0000
    ensures Packable(VkFormat(), VkFields(v))
  {
    Pow256Values();
  }

  lemma ValuePacksWhenSmall(v: ValueRecord, running: nat)
    requires ValueFitting(v) && BIN_HEADER + running + ValueSize(v) <= MAX_CELL
    ensures ValuePacks(LayValue(v, running))
  {
    hide RegistryName, VkFields, VkFormat;
    VkPackable(LayValue(v, running));
  }

  lemma {:induction false} ValuesPackWhenSmall(vs: seq<ValueRecord>, running: nat)
    requires forall i :: 0 <= i < |vs| ==> ValueFitting(vs[i])
    requires BIN_HEADER + running + ValuesSize(vs) <= MAX_CELL
    ensures ValuesPack(LayValues(vs, running))
    ensures forall i :: 0 <= i < |vs| ==> LayValues(vs, running)[i].vk < 0x1_0000_0000
  {
    hide ValueFitting, ValuePacks, RegistryName;
    if vs != [] {
      ValuePacksWhenSmall(vs[0], running);
      ValuesPackWhenSmall(vs[1..], running + ValueSize(vs[0]));
      assert LayValues(vs, running)[1..] == LayValues(vs[1..], running + ValueSize(vs[0]));
    }
  }

  lemma OffsetsPackable(values: seq<LaidValue>)
    requires forall i :: 0 <= i < |values| ==> values[i].vk < 0x1_0000_0000
    requires PaddedTotal(4 * |values|) <= MAX_CELL
    ensures ValueListPacks(values)
  {
    Pow256Values();
  }

  lemma NkPackable(k: LaidKey, isRoot: bool, security: nat)
    requires |k.name| < 0x1_0000 && k.filetime < 0x1_0000_0000_0000_0000
    requires k.parent < 0x1_0000_0000 && k.sklist < 0x1_0000_0000 && k.vlist < 0x1_0000_0000 && security < 0x1_0000_0000
    requires |k.subkeys| < 0x1_0000 && |k.values| < 0x1_0000_0000
    ensures Packable(NkFormat(), NkFields(k, isRoot, security))
  {
    Pow256Values();
  }

  /** The pieces of a key's size, each no larger than the whole. */
  lemma KeySizeParts(t: KeyTree)
    ensures KeySize(t) == PaddedTotal(76 + |RegistryName(t.name)|)
            + ValuesSize(t.values) + (if t.values == [] then 0 else PaddedTotal(4 * |t.values|))
            + KeysSize(t.subkeys) + (if t.subkeys == [] then 0 else PaddedTotal(4 + 8 * |t.subkeys|))
  {
  }

  lemma {:induction false} KeyPacksWhenSmall(
    t: KeyTree, parent: nat, parts: seq<Text>, spec: TimestampSpec, running: nat, isRoot: bool, security: nat)
    requires Fitting(t) && ValidTimestamps(spec) && parent < 0x1_0000_0000 && security < 0x1_0000_0000
    requires BIN_HEADER + running + KeySize(t) <= MAX_CELL
    ensures KeyPacks(LayKey(t, parent, parts, spec, running), isRoot, security)
    decreases t, 1
  {
    hide RegistryName, PaddedTotal, ValuesSize, KeysSize, LayValues, LayKeys, JoinPath, ValueListPacks, NkFields, NkFormat,
      ValuesPack, KeysPack, ValueFitting, AllFitting, KeyPacks;
    var k := LayKey(t, parent, parts, spec, running);
    KeySizeParts(t);
    ValuesPackWhenSmall(t.values, AfterNk(t, running));
    KeysPackWhenSmall(t.subkeys, k.nk, parts + [t.name], spec, AfterValues(t, running), security);
    SmallList(|t.values|);
    OffsetsPackable(k.values);
    NkPackable(k, isRoot, security);
    KeyPacksParts(k, isRoot, security);
  }

  lemma SmallList(n: nat)
    ensures n == 0 ==> PaddedTotal(4 * n) <= MAX_CELL
    ensures PaddedTotal(4 * n) <= MAX_CELL ==> n < 0x1_0000_0000
  {
  }

  lemma KeyPacksParts(k: LaidKey, isRoot: bool, security: nat)
    requires Packable(NkFormat(), NkFields(k, isRoot, security)) && ValuesPack(k.values) && ValueListPacks(k.values)
    requires |k.subkeys| < 0x1_0000 && OffsetsPack(k.subkeys) && KeysPack(k.subkeys, security)
    ensures KeyPacks(k, isRoot, security)
  {
  }

  lemma {:induction false} KeysPackWhenSmall(
    ts: seq<KeyTree>, parent: nat, parts: seq<Text>, spec: TimestampSpec, running: nat, security: nat)
    requires AllFitting(ts) && ValidTimestamps(spec) && parent < 0x1_0000_0000 && security < 0x1_0000_0000
    requires BIN_HEADER + running + KeysSize(ts) <= MAX_CELL
    ensures KeysPack(LayKeys(ts, parent, parts, spec, running), security)
    ensures OffsetsPack(LayKeys(ts, parent, parts, spec, running))
    decreases ts, 0
  {
    hide LayKey, KeyPacks, Fitting, KeySize;
    if ts != [] {
      KeyPacksWhenSmall(ts[0], parent, parts, spec, running, false, security);
      KeysPackWhenSmall(ts[1..], parent, parts, spec, running + KeySize(ts[0]), security);
      LayKeyNk(ts[0], parent, parts, spec, running);
      var laid := LayKeys(ts, parent, parts, spec, running);
      assert laid[1..] == LayKeys(ts[1..], parent, parts, spec, running + KeySize(ts[0]));
    }
  }

  lemma LayKeyNk(t: KeyTree, parent: nat, parts: seq<Text>, spec: TimestampSpec, running: nat)
    ensures LayKey(t, parent, parts, spec, running).nk == BIN_HEADER + running
  {
  }

  /** The writer raises no `struct.error` for a fitting tree below two gigabytes: such a tree is
      refused for a bad file name, a bad key or value name or an unknown override, or not at all. */
  lemma SmallTreesAreBuilt(t: KeyTree, fileName: Text, spec: TimestampSpec, nfc: Text -> bool)
    requires ValidTimestamps(spec) && Fitting(t) && BIN_HEADER + TotalRunning(t) <= MAX_CELL - 4096
    ensures BuildHive(t, fileName, spec, nfc).Ok?
       <==> ValidFileName(fileName) && NamesValid(t, nfc) && spec.overrides.Keys <= TreePaths(t, [])
  {
    hide KeyPacks, LayKey, Fitting, NamesValid, TreePaths, KeySize, HiveImageOf;
    KeyPacksWhenSmall(t, 0, [], spec, 0, true, SecurityOffset(t));
  }
}
