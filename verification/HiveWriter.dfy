// build_hive as the program it is: pass one stores encodings and offsets on the Key and Val
// objects while a cursor advances, pass two extends one buffer, and the base block is packed in
// place.  Every method is proved against the functions of HiveLayout and HiveImage.
module HiveWriter {
  import opened Bytes
  import opened Unicode
  import opened Wrappers
  import opened HiveFormat
  import opened HiveLayout
  import opened HiveImage
  import opened HiveSteps

  class Val {
    const name: Text
    const kind: int
    const data: Octets
    var encoded: Octets
    var compressed: bool
    var inline: bool
    var dataOffset: nat
    var vk: nat

    constructor (name: Text, kind: int, data: Octets)
      ensures this.name == name && this.kind == kind && this.data == data
    {
      this.name, this.kind, this.data := name, kind, data;
      encoded, compressed, inline, dataOffset, vk := [], false, false, 0, 0;
    }

    function Record(): ValueRecord {
      ValueRecord(name, kind, data)
    }

    function Laid(): LaidValue
      reads this
    {
      LaidValue(encoded, compressed, kind, data, inline, if inline then 0 else dataOffset, vk)
    }
  }

  class Key {
    const name: Text
    const values: seq<Val>
    const subkeys: seq<Key>
    var encoded: Octets
    var compressed: bool
    var lastWritten: nat
    var parent: nat
    var nk: nat
    var vlist: nat
    var sklist: nat

    constructor (name: Text, values: seq<Val>, subkeys: seq<Key>)
      ensures this.name == name && this.values == values && this.subkeys == subkeys
    {
      this.name, this.values, this.subkeys := name, values, subkeys;
      encoded, compressed, lastWritten, parent, nk, vlist, sklist := [], false, 0, 0, 0, 0, 0;
    }
  }

  // ---- object trees ------------------------------------------------------------------------

  function Records(vs: seq<Val>): (rs: seq<ValueRecord>)
    ensures |rs| == |vs|
  {
    seq(|vs|, i requires 0 <= i < |vs| => vs[i].Record())
  }

  /** The objects below `k` hold exactly the tree `t`. */
  ghost predicate Shows(k: Key, t: KeyTree)
    decreases t
  {
    && k.name == t.name
    && Records(k.values) == t.values
    && |k.subkeys| == |t.subkeys|
    && forall i :: 0 <= i < |t.subkeys| ==> Shows(k.subkeys[i], t.subkeys[i])
  }

  ghost function ValObjects(vs: seq<Val>): set<object> {
    set o: object | o in vs
  }

  ghost function Footprint(k: Key, t: KeyTree): set<object>
    requires Shows(k, t)
    decreases t, 1
  {
    {k as object} + ValObjects(k.values) + ChildFootprint(k, t)
  }

  ghost function ChildFootprint(k: Key, t: KeyTree): set<object>
    requires |k.subkeys| == |t.subkeys| && forall i :: 0 <= i < |t.subkeys| ==> Shows(k.subkeys[i], t.subkeys[i])
    decreases t, 0
  {
    set i, o | 0 <= i < |t.subkeys| && o in Footprint(k.subkeys[i], t.subkeys[i]) :: o
  }

  /** No Key or Val object occurs twice in the tree. */
  ghost predicate Separate(k: Key, t: KeyTree)
    requires Shows(k, t)
    decreases t
  {
    && (forall i, j :: 0 <= i < j < |k.values| ==> k.values[i] != k.values[j])
    && (forall i :: 0 <= i < |t.subkeys| ==>
          && Separate(k.subkeys[i], t.subkeys[i])
          && k !in Footprint(k.subkeys[i], t.subkeys[i])
          && forall v <- k.values :: v !in Footprint(k.subkeys[i], t.subkeys[i]))
    && (forall i, j :: 0 <= i < j < |t.subkeys| ==>
          Footprint(k.subkeys[i], t.subkeys[i]) !! Footprint(k.subkeys[j], t.subkeys[j]))
  }

  ghost function LaidVals(vs: seq<Val>): (laid: seq<LaidValue>)
    reads vs
    ensures |laid| == |vs|
  {
    seq(|vs|, i requires 0 <= i < |vs| reads vs => vs[i].Laid())
  }

  /** The layout pass one has left on the objects. */
  ghost function Laid(k: Key, t: KeyTree): LaidKey
    requires Shows(k, t)
    reads Footprint(k, t)
    decreases t, 1
  {
    LaidKey(k.encoded, k.compressed, k.lastWritten, k.parent, k.nk, k.vlist, k.sklist, LaidVals(k.values), LaidSubkeys(k, t))
  }

  ghost function LaidSubkeys(k: Key, t: KeyTree): (laid: seq<LaidKey>)
    requires |k.subkeys| == |t.subkeys| && forall i :: 0 <= i < |t.subkeys| ==> Shows(k.subkeys[i], t.subkeys[i])
    reads ChildFootprint(k, t)
    ensures |laid| == |t.subkeys|
    decreases t, 0
  {
    seq(|t.subkeys|, i requires 0 <= i < |t.subkeys| reads ChildFootprint(k, t) => Laid(k.subkeys[i], t.subkeys[i]))
  }

  lemma LaidFields(k: Key, t: KeyTree)
    requires Shows(k, t)
    ensures Laid(k, t)
         == LaidKey(k.encoded, k.compressed, k.lastWritten, k.parent, k.nk, k.vlist, k.sklist, LaidVals(k.values), LaidSubkeys(k, t))
  {
  }

  lemma FootprintMembers(k: Key, t: KeyTree)
    requires Shows(k, t)
    ensures k in Footprint(k, t) && ValObjects(k.values) <= Footprint(k, t) && ChildFootprint(k, t) <= Footprint(k, t)
  {
  }

  lemma ChildrenShown(k: Key, t: KeyTree)
    requires Shows(k, t)
    ensures |k.subkeys| == |t.subkeys|
    ensures forall i :: 0 <= i < |t.subkeys| ==> Shows(k.subkeys[i], t.subkeys[i])
    ensures forall i :: 0 <= i < |t.subkeys| ==> Footprint(k.subkeys[i], t.subkeys[i]) <= Footprint(k, t)
    ensures ChildFootprint(k, t) <= Footprint(k, t)
  {
  }

  lemma ChildFields(k: Key, t: KeyTree)
    requires Shows(k, t)
    ensures |LaidSubkeys(k, t)| == |k.subkeys|
    ensures forall i :: 0 <= i < |k.subkeys| ==>
              LaidSubkeys(k, t)[i].nk == k.subkeys[i].nk && LaidSubkeys(k, t)[i].name == k.subkeys[i].encoded
  {
  }

  lemma LaidSubkeyAt(k: Key, t: KeyTree, i: nat)
    requires Shows(k, t) && i < |t.subkeys|
    ensures Shows(k.subkeys[i], t.subkeys[i])
    ensures LaidSubkeys(k, t)[i] == Laid(k.subkeys[i], t.subkeys[i])
  {
  }

  /** A key, its values and its children's objects are three disjoint groups. */
  lemma FootprintParts(k: Key, t: KeyTree)
    requires Shows(k, t) && Separate(k, t)
    ensures k.name == t.name && Records(k.values) == t.values && |k.subkeys| == |t.subkeys|
    ensures |k.values| == |t.values| && (k.values == [] <==> t.values == []) && (k.subkeys == [] <==> t.subkeys == [])
    ensures forall i :: 0 <= i < |t.subkeys| ==> Shows(k.subkeys[i], t.subkeys[i])
    ensures forall i, j :: 0 <= i < j < |k.values| ==> k.values[i] != k.values[j]
    ensures Footprint(k, t) == {k as object} + ValObjects(k.values) + ChildFootprint(k, t)
    ensures k !in ValObjects(k.values) && k !in ChildFootprint(k, t)
    ensures ValObjects(k.values) !! ChildFootprint(k, t)
  {
    forall i, v | 0 <= i < |t.subkeys| && v in k.values ensures v !in Footprint(k.subkeys[i], t.subkeys[i]) {
    }
  }

  lemma ChildParts(k: Key, t: KeyTree, i: nat)
    requires Shows(k, t) && Separate(k, t) && i < |t.subkeys|
    ensures Shows(k.subkeys[i], t.subkeys[i]) && Separate(k.subkeys[i], t.subkeys[i])
    ensures k.subkeys[i] in Footprint(k.subkeys[i], t.subkeys[i])
    ensures forall j :: 0 <= j < |t.subkeys| ==> Footprint(k.subkeys[j], t.subkeys[j]) <= ChildFootprint(k, t)
    ensures k !in Footprint(k.subkeys[i], t.subkeys[i])
    ensures forall j :: 0 <= j < |t.subkeys| && j != i ==>
      Footprint(k.subkeys[j], t.subkeys[j]) !! Footprint(k.subkeys[i], t.subkeys[i])
  {
  }

  lemma {:induction false} FootprintAllocated(k: Key, t: KeyTree)
    requires Shows(k, t)
    ensures forall o <- Footprint(k, t) :: allocated(o)
    decreases t, 1
  {
    ChildrenAllocated(k, t);
  }

  lemma {:induction false} ChildrenAllocated(k: Key, t: KeyTree)
    requires Shows(k, t)
    ensures forall o <- ChildFootprint(k, t) :: allocated(o)
    decreases t, 0
  {
    forall i | 0 <= i < |t.subkeys| ensures forall o <- Footprint(k.subkeys[i], t.subkeys[i]) :: allocated(o) {
      FootprintAllocated(k.subkeys[i], t.subkeys[i]);
    }
  }

  /** One more value laid out behind the first `i`. */
  lemma LaidOneMore(vs: seq<Val>, rs: seq<ValueRecord>, start: nat, i: nat)
    requires i < |rs| == |vs|
    requires LaidVals(vs[..i]) == LayValues(rs[..i], start)
    requires vs[i].Laid() == LayValue(rs[i], start + ValuesSize(rs[..i]))
    ensures LaidVals(vs[..i + 1]) == LayValues(rs[..i + 1], start)
  {
    hide LayValue, ValuesSize, LayValues;
    LayOneMore(rs, start, i);
    assert LaidVals(vs[..i + 1]) == LaidVals(vs[..i]) + [vs[i].Laid()];
  }

  lemma LayOneMore(rs: seq<ValueRecord>, start: nat, i: nat)
    requires i < |rs|
    ensures LayValues(rs[..i + 1], start) == LayValues(rs[..i], start) + [LayValue(rs[i], start + ValuesSize(rs[..i]))]
  {
    hide LayValue, ValuesSize, LayValues;
    var more, done := rs[..i + 1], rs[..i];
    forall j | 0 <= j <= i ensures LayValues(more, start)[j] == LayValue(rs[j], start + ValuesSize(rs[..j])) {
      LayValuesAt(more, start, j);
      assert more[..j] == rs[..j];
    }
    forall j | 0 <= j < i ensures LayValues(done, start)[j] == LayValue(rs[j], start + ValuesSize(rs[..j])) {
      LayValuesAt(done, start, j);
      assert done[..j] == rs[..j];
    }
  }

  lemma NothingLaid(start: nat)
    ensures LaidVals([]) == LayValues([], start)
  {
  }

  lemma LaidSubkeysFrom(k: Key, t: KeyTree, parts: seq<Text>, spec: TimestampSpec, start: nat)
    requires Shows(k, t)
    requires forall j :: 0 <= j < |t.subkeys| ==>
      Laid(k.subkeys[j], t.subkeys[j]) == LayKey(t.subkeys[j], k.nk, parts, spec, start + KeysSize(t.subkeys[..j]))
    ensures LaidSubkeys(k, t) == LayKeys(t.subkeys, k.nk, parts, spec, start)
  {
    hide LayKey, KeysSize, Laid;
    forall j | 0 <= j < |t.subkeys| ensures LaidSubkeys(k, t)[j] == LayKeys(t.subkeys, k.nk, parts, spec, start)[j] {
      LayKeysAt(t.subkeys, k.nk, parts, spec, start, j);
    }
  }

  // ---- the two passes ----------------------------------------------------------------------

  class HiveBuilder {
    const timestamps: TimestampSpec
    const nfc: Text -> bool
    var running: nat
    var cells: Octets
    var used: set<Text>

    constructor (timestamps: TimestampSpec, nfc: Text -> bool)
      ensures this.timestamps == timestamps && this.nfc == nfc
      ensures running == 0 && cells == [] && used == {}
    {
      this.timestamps, this.nfc := timestamps, nfc;
      running, cells, used := 0, [], {};
    }

    /** Reserve a cell and return its offset. */
    method Alloc(dataSize: nat) returns (off: nat)
      modifies this`running
      ensures off == BIN_HEADER + old(running) && running == old(running) + PaddedTotal(dataSize)
    {
      off := BIN_HEADER + running;
      running := running + PaddedTotal(dataSize);
    }

    /** Pass one over one value. */
    method AssignValue(v: Val) returns (ok: bool)
      requires v as object != this
      modifies this`running, v
      ensures ok == ValidName(v.name, nfc)
      ensures ok ==> v.Laid() == LayValue(v.Record(), old(running)) && running == old(running) + ValueSize(v.Record())
    {
      if !ValidName(v.name, nfc) { return false; }
      v.encoded, v.compressed := RegistryName(v.name), IsAscii(v.name);
      v.inline := Inline(v.kind, v.data);
      if !v.inline {
        var off := Alloc(|v.data|);
        v.dataOffset := off;
      }
      var off := Alloc(20 + |v.encoded|);
      v.vk := off;
      return true;
    }

    method AssignValues(vs: seq<Val>) returns (ok: bool)
      requires this !in ValObjects(vs)
      requires forall i, j :: 0 <= i < j < |vs| ==> vs[i] != vs[j]
      modifies this`running, ValObjects(vs)
      ensures ok == ValuesValid(Records(vs), nfc)
      ensures ok ==> LaidVals(vs) == LayValues(Records(vs), old(running))
      ensures ok ==> running == old(running) + ValuesSize(Records(vs))
    {
      hide ValidName, LayValue, ValueSize, LaidVals, LayValues, ValuesSize, RegistryName;
      ghost var rs, start := Records(vs), running;
      NoValuesSize();
      NothingLaid(start);
      var i := 0;
      assert rs[..0] == [] && vs[..0] == [];
      while i < |vs|
        invariant 0 <= i <= |vs|
        invariant running == start + ValuesSize(rs[..i])
        invariant forall j :: 0 <= j < i ==> ValidName(rs[j].name, nfc)
        invariant LaidVals(vs[..i]) == LayValues(rs[..i], start)
      {
        assert vs[i] in vs && vs[i] !in vs[..i];
        var valid := AssignValue(vs[i]);
        if !valid {
          assert rs[i].name == vs[i].name;
          return false;
        }
        ValuesSizeStep(rs, i);
        LaidOneMore(vs, rs, start, i);
        i := i + 1;
      }
      assert rs[..|vs|] == rs && vs[..|vs|] == vs;
      return true;
    }

    /** The key's own name, FILETIME and nk offset. */
    method AssignNk(k: Key, parts: seq<Text>) returns (ok: bool)
      requires k as object != this
      modifies this`running, this`used, k
      ensures ok == ValidName(k.name, nfc)
      ensures k.parent == old(k.parent)
      ensures ok ==>
        && k.encoded == RegistryName(k.name) && k.compressed == IsAscii(k.name)
        && k.lastWritten == KeyFiletime(timestamps, JoinPath(parts + [k.name]))
        && k.nk == BIN_HEADER + old(running)
        && running == old(running) + PaddedTotal(76 + |RegistryName(k.name)|)
        && used == old(used) + {JoinPath(parts + [k.name])} * timestamps.overrides.Keys
    {
      if !ValidName(k.name, nfc) { return false; }
      k.encoded, k.compressed := RegistryName(k.name), IsAscii(k.name);
      var path := JoinPath(parts + [k.name]);
      k.lastWritten := KeyFiletime(timestamps, path);
      if path in timestamps.overrides { used := used + {path}; }
      var off := Alloc(76 + |k.encoded|);
      k.nk := off;
      return true;
    }

    /** A key's values and then its value list, which is reserved only for a non-empty list. */
    method AssignValueCells(k: Key) returns (ok: bool)
      requires k as object != this && this !in ValObjects(k.values) && k !in ValObjects(k.values)
      requires forall i, j :: 0 <= i < j < |k.values| ==> k.values[i] != k.values[j]
      modifies this`running, ValObjects(k.values), k`vlist
      ensures ok == ValuesValid(Records(k.values), nfc)
      ensures ok ==> LaidVals(k.values) == LayValues(Records(k.values), old(running))
      ensures ok ==> var end := old(running) + ValuesSize(Records(k.values));
                     && k.vlist == (if k.values == [] then NONE else BIN_HEADER + end)
                     && running == end + if k.values == [] then 0 else PaddedTotal(4 * |k.values|)
    {
      hide LayValues, ValuesSize, ValuesValid, LaidVals, Records;
      ok := AssignValues(k.values);
      if !ok { return; }
      k.vlist := NONE;
      if k.values != [] {
        var off := Alloc(4 * |k.values|);
        k.vlist := off;
      }
    }

    /** Pass one over a key: its nk before its values, its subkeys before its subkey list. */
    method Assign(k: Key, parts: seq<Text>, ghost t: KeyTree) returns (ok: bool)
      requires Shows(k, t) && Separate(k, t) && this !in Footprint(k, t)
      modifies this`running, this`used, Footprint(k, t)
      ensures ok == NamesValid(t, nfc)
      ensures k.parent == old(k.parent)
      ensures ok ==> Laid(k, t) == LayKey(t, old(k.parent), parts, timestamps, old(running))
      ensures ok ==> running == old(running) + KeySize(t)
      ensures ok ==> used == old(used) + TreePaths(t, parts) * timestamps.overrides.Keys
      decreases t, 2
    {
      hide Shows, Separate, Footprint, ChildFootprint, Laid, LaidVals, LaidSubkeys, ValidName, RegistryName,
        JoinPath, KeyFiletime, PaddedTotal, LayValues, LayKeys, ValuesSize, KeysSize, ForestPaths, AllNamesValid, ValuesValid,
        IsAscii, Records, LayKey;
      FootprintParts(k, t);
      ok := AssignNk(k, parts);
      if !ok { return; }
      ok := AssignValueCells(k);
      if !ok { return; }
      ok := AssignSubkeyCells(k, parts + [k.name], t);
      if !ok { return; }
      LaidFields(k, t);
      LayKeyFields(t, k.parent, parts, timestamps, old(running));
    }

    method AssignSubkeyCells(k: Key, parts: seq<Text>, ghost t: KeyTree) returns (ok: bool)
      requires Shows(k, t) && Separate(k, t) && this !in Footprint(k, t)
      modifies this`running, this`used, ChildFootprint(k, t), k`sklist
      ensures ok == AllNamesValid(t.subkeys, nfc)
      ensures ok ==> LaidSubkeys(k, t) == LayKeys(t.subkeys, k.nk, parts, timestamps, old(running))
      ensures ok ==> var end := old(running) + KeysSize(t.subkeys);
                     && k.sklist == (if t.subkeys == [] then NONE else BIN_HEADER + end)
                     && running == end + if t.subkeys == [] then 0 else PaddedTotal(4 + 8 * |t.subkeys|)
      ensures ok ==> used == old(used) + ForestPaths(t.subkeys, parts) * timestamps.overrides.Keys
      ensures k.nk == old(k.nk) && k.parent == old(k.parent) && k.lastWritten == old(k.lastWritten) && k.vlist == old(k.vlist)
      ensures k.encoded == old(k.encoded) && k.compressed == old(k.compressed)
      decreases t, 1
    {
      hide Shows, Separate, Footprint, ChildFootprint, Laid, LaidSubkeys, LayKeys, KeysSize, ForestPaths, AllNamesValid;
      FootprintParts(k, t);
      ChildrenAllocated(k, t);
      ok := AssignSubkeys(k, parts, t);
      if !ok { return; }
      k.sklist := NONE;
      if k.subkeys != [] {
        var off := Alloc(4 + 8 * |k.subkeys|);
        k.sklist := off;
      }
    }

    method AssignSubkeys(k: Key, parts: seq<Text>, ghost t: KeyTree) returns (ok: bool)
      requires Shows(k, t) && Separate(k, t) && this !in Footprint(k, t)
      modifies this`running, this`used, ChildFootprint(k, t)
      ensures ok == AllNamesValid(t.subkeys, nfc)
      ensures ok ==> LaidSubkeys(k, t) == LayKeys(t.subkeys, k.nk, parts, timestamps, old(running))
      ensures ok ==> running == old(running) + KeysSize(t.subkeys)
      ensures ok ==> used == old(used) + ForestPaths(t.subkeys, parts) * timestamps.overrides.Keys
      decreases t, 0
    {
      hide Shows, Separate, Footprint, ChildFootprint, ValObjects, Laid, LaidVals, NamesValid, LayKey, KeySize, TreePaths,
        AllNamesValid, LayKeys, LaidSubkeys, KeysSize, ForestPaths;
      NoKeys(parts);
      FootprintParts(k, t);
      ghost var ts, start, seen, keys := t.subkeys, running, used, timestamps.overrides.Keys;
      AllNamesValidAt(ts, nfc);
      var i := 0;
      assert ts[..0] == [];
      while i < |k.subkeys|
        invariant 0 <= i <= |ts|
        invariant running == start + KeysSize(ts[..i])
        invariant used == seen + ForestPaths(ts[..i], parts) * keys
        invariant forall j :: 0 <= j < i ==> NamesValid(ts[j], nfc)
        invariant forall j :: 0 <= j < i ==>
          Laid(k.subkeys[j], ts[j]) == LayKey(ts[j], k.nk, parts, timestamps, start + KeysSize(ts[..j]))
      {
        ChildParts(k, t, i);
        ChildrenAllocated(k, t);
        KeysSizeStep(ts, i);
        ForestPathsStep(ts, parts, i);
        label L:
        k.subkeys[i].parent := k.nk;
        ok := Assign(k.subkeys[i], parts, ts[i]);
        if !ok { return; }
        forall j | 0 <= j < i ensures Laid(k.subkeys[j], ts[j]) == old@L(Laid(k.subkeys[j], ts[j])) {
          assert Footprint(k.subkeys[j], ts[j]) !! Footprint(k.subkeys[i], ts[i]);
          assert this !in Footprint(k.subkeys[j], ts[j]);
        }
        i := i + 1;
      }
      assert ts[..|ts|] == ts;
      LaidSubkeysFrom(k, t, parts, timestamps, start);
      ok := true;
    }

    // ---- pass two --------------------------------------------------------------------------

    /** Append one cell; fails where `struct.pack("<i", -total)` raises. */
    method Emit(body: Octets) returns (ok: bool)
      modifies this`cells
      ensures ok == CellFits(body)
      ensures ok ==> cells == old(cells) + CellBytes(body)
    {
      ok := CellFits(body);
      if ok { cells := cells + CellBytes(body); }
    }

    method WriteValue(v: Val) returns (ok: bool)
      modifies this`cells
      ensures ok == ValuePacks(v.Laid())
      ensures ok ==> cells == old(cells) + EmitAll(ValueCells(v.Laid()))
    {
      hide CellBytes, Packable, VkFields, EmitAll, PaddedTotal;
      if !Packable(VkFormat(), VkFields(v.Laid())) { return false; }
      ghost var start := cells;
      var body := VkBody(v.Laid());
      VkFits(v.Laid());
      if v.inline {
        EmitOne(body);
        ok := Emit(body);
        assert ValueCells(v.Laid()) == [body];
      } else {
        ok := Emit(v.data);
        if !ok { return; }
        ok := Emit(body);
        EmitAllConcat([v.data], [body]);
        EmitOne(v.data);
        EmitOne(body);
        ConcatAssociative(start, CellBytes(v.data), CellBytes(body));
      }
    }

    method WriteValues(vs: seq<Val>) returns (ok: bool)
      modifies this`cells
      ensures ok == ValuesPack(LaidVals(vs))
      ensures ok ==> cells == old(cells) + EmitAll(ValuesCells(LaidVals(vs)))
    {
      hide CellBytes, EmitAll, ValuePacks, ValueCells;
      ghost var laid, start := LaidVals(vs), cells;
      var i := 0;
      EmitNone();
      while i < |vs|
        invariant 0 <= i <= |vs| && LaidVals(vs) == laid
        invariant ValuesPack(laid[..i])
        invariant cells == start + EmitAll(ValuesCells(laid[..i]))
      {
        assert laid[i] == vs[i].Laid();
        ValuesPackStep(laid, i);
        ok := WriteValue(vs[i]);
        if !ok {
          if ValuesPack(laid) { PrefixPacks(laid, i + 1); }
          return;
        }
        ConcatAssociative(start, EmitAll(ValuesCells(laid[..i])), EmitAll(ValueCells(laid[i])));
        i := i + 1;
      }
      assert laid[..|vs|] == laid;
      ok := true;
    }

    /** The lf body, one entry per subkey. */
    method SubkeyList(ks: seq<Key>, ghost laid: seq<LaidKey>) returns (ok: bool, body: Octets)
      requires |laid| == |ks|
      requires forall i :: 0 <= i < |ks| ==> ks[i].nk == laid[i].nk && ks[i].encoded == laid[i].name
      ensures ok == SubkeyListPacks(laid)
      ensures ok ==> body == LfBody(laid)
    {
      hide LittleEndian, FirstFour;
      Pow256Values();
      if |ks| >= 0x1_0000 { return false, []; }
      body := [];
      var i := 0;
      while i < |ks|
        invariant 0 <= i <= |ks|
        invariant OffsetsPack(laid[..i])
        invariant body == LfEntries(laid[..i])
      {
        if ks[i].nk >= 0x1_0000_0000 { return false, body; }
        assert forall j :: 0 <= j < i ==> laid[..i][j] == laid[j];
        LfEntriesStep(laid, i);
        body := body + LittleEndian(ks[i].nk, 4) + FirstFour(ks[i].encoded);
        i := i + 1;
      }
      assert laid[..|ks|] == laid;
      ok, body := true, LF_TAG + LittleEndian(|ks|, 2) + body;
    }

    method WriteNk(k: Key, isRoot: bool, security: nat, ghost laid: LaidKey) returns (ok: bool)
      requires laid == LaidKey(k.encoded, k.compressed, k.lastWritten, k.parent, k.nk, k.vlist, k.sklist, laid.values, laid.subkeys)
      requires |laid.values| == |k.values| && |laid.subkeys| == |k.subkeys|
      modifies this`cells
      ensures ok == Packable(NkFormat(), NkFields(laid, isRoot, security))
      ensures ok ==> cells == old(cells) + CellBytes(NkBody(laid, isRoot, security))
    {
      hide Packable, CellBytes, PaddedTotal;
      var flags := (if k.compressed then 0x20 else 0) + (if isRoot then 0x0C else 0);
      var fields :=
        [flags, k.lastWritten, 0, k.parent, |k.subkeys|, 0, k.sklist, NONE, |k.values|, k.vlist, security, NONE,
         0, 0, 0, 0, 0, |k.encoded|, 0];
      assert fields == NkFields(laid, isRoot, security);
      if !Packable(NkFormat(), fields) { return false; }
      NkFits(laid, isRoot, security);
      ok := Emit(NK_TAG + Pack(NkFormat(), fields) + k.encoded);
    }

    method WriteValueCells(vs: seq<Val>, ghost laid: seq<LaidValue>) returns (ok: bool)
      requires laid == LaidVals(vs)
      modifies this`cells
      ensures ok == (ValuesPack(laid) && ValueListPacks(laid))
      ensures ok ==> cells == old(cells) + EmitAll(ValuesCells(laid)) + EmitAll(ValueListCells(laid))
    {
      hide CellBytes, EmitAll, ValuesPack, ValuesCells, Packable;
      ok := WriteValues(vs);
      if !ok { return; }
      EmitNone();
      if vs != [] {
        var offsets := seq(|vs|, i requires 0 <= i < |vs| reads vs => vs[i].vk);
        assert offsets == VkOffsets(laid);
        if !Packable(Words(|vs|), offsets) { return false; }
        WordsSize(|vs|);
        EmitOne(Pack(Words(|vs|), offsets));
        ok := Emit(Pack(Words(|vs|), offsets));
      } else {
        NoValuesPack();
      }
    }

    method WriteSubkeys(k: Key, security: nat, ghost t: KeyTree, ghost laid: seq<LaidKey>) returns (ok: bool)
      requires Shows(k, t) && this !in Footprint(k, t) && laid == LaidSubkeys(k, t)
      modifies this`cells
      ensures ok == KeysPack(laid, security)
      ensures ok ==> cells == old(cells) + EmitAll(KeysCells(laid, security))
      decreases t, 0
    {
      hide CellBytes, EmitAll, KeyPacks, KeyCells, Laid, Footprint, ChildFootprint, Shows, LaidSubkeys;
      ghost var start := cells;
      ChildrenShown(k, t);
      FootprintAllocated(k, t);
      EmitNone();
      var i := 0;
      while i < |k.subkeys|
        invariant 0 <= i <= |k.subkeys| && LaidSubkeys(k, t) == laid
        invariant KeysPack(laid[..i], security)
        invariant cells == start + EmitAll(KeysCells(laid[..i], security))
      {
        LaidSubkeyAt(k, t, i);
        KeysPackStep(laid, security, i);
        ok := Write(k.subkeys[i], false, security, t.subkeys[i], laid[i]);
        if !ok {
          if KeysPack(laid, security) { PrefixKeysPack(laid, security, i + 1); }
          return;
        }
        ConcatAssociative(start, EmitAll(KeysCells(laid[..i], security)), EmitAll(KeyCells(laid[i], false, security)));
        i := i + 1;
      }
      assert laid[..|k.subkeys|] == laid;
      ok := true;
    }

    method WriteSubkeyCells(k: Key, security: nat, ghost t: KeyTree, ghost laid: seq<LaidKey>) returns (ok: bool)
      requires Shows(k, t) && this !in Footprint(k, t) && laid == LaidSubkeys(k, t)
      modifies this`cells
      ensures ok == (KeysPack(laid, security) && SubkeyListPacks(laid))
      ensures ok ==> cells == old(cells) + EmitAll(KeysCells(laid, security)) + EmitAll(SubkeyListCells(laid))
      decreases t, 1
    {
      hide CellBytes, EmitAll, KeysPack, KeysCells, Laid, Footprint, ChildFootprint, Shows, LaidSubkeys, LfBody, OffsetsPack;
      ChildrenShown(k, t);
      FootprintAllocated(k, t);
      ok := WriteSubkeys(k, security, t, laid);
      if !ok { return; }
      EmitNone();
      if k.subkeys != [] {
        ChildFields(k, t);
        var body;
        ok, body := SubkeyList(k.subkeys, laid);
        if !ok { return; }
        EmitOne(body);
        LfFits(laid);
        ok := Emit(body);
      } else {
        NoSubkeysPack();
      }
    }

    /** Pass two over a key, in the order pass one reserved. */
    method Write(k: Key, isRoot: bool, security: nat, ghost t: KeyTree, ghost laid: LaidKey) returns (ok: bool)
      requires Shows(k, t) && this !in Footprint(k, t) && laid == Laid(k, t)
      modifies this`cells
      ensures ok == KeyPacks(laid, isRoot, security)
      ensures ok ==> cells == old(cells) + EmitAll(KeyCells(laid, isRoot, security))
      decreases t, 2
    {
      hide CellBytes, EmitAll, KeysPack, KeysCells, ValuesPack, ValuesCells, Laid, LaidVals, LaidSubkeys, Footprint, Shows,
        ValueListPacks, SubkeyListPacks, NkBody, ValueListCells, SubkeyListCells, NkFields, Packable, KeyCells;
      ghost var start := cells;
      LaidFields(k, t);
      ChildrenShown(k, t);
      FootprintMembers(k, t);
      FootprintAllocated(k, t);
      ok := WriteNk(k, isRoot, security, laid);
      if !ok { return; }
      ok := WriteValueCells(k.values, laid.values);
      if !ok { return; }
      ok := WriteSubkeyCells(k, security, t, laid.subkeys);
      if !ok { return; }
      KeyCellsEmitted(start, laid, isRoot, security);
    }
  }

  // ---- the base block, packed in place -------------------------------------------------------

  /** The block holds what has been written so far, and zeros behind it. */
  ghost predicate Wrote(block: Octets, written: Octets) {
    |written| <= |block| && block == written + Zeros(|block| - |written|)
  }

  /** `pack_into` at the end of what has been written so far; the rest is still zero. */
  method PackInto(base: array<byte>, s: Octets, ghost written: Octets, at: nat)
    requires at == |written| && at + |s| <= base.Length
    requires Wrote(base[..], written)
    modifies base
    ensures Wrote(base[..], written + s)
  {
    forall i | 0 <= i < |s| {
      base[at + i] := s[i];
    }
  }

  /** XOR of the 127 words before the checksum, folded left to right. */
  method FoldChecksum(base: array<byte>) returns (checksum: bv32)
    requires base.Length == BASE_SIZE
    ensures checksum == Adjust(XorWords(base[..], 127))
  {
    hide WordAt, Xor;
    checksum := 0;
    var i := 0;
    while i < 508
      invariant 0 <= i <= 508 && i % 4 == 0
      invariant checksum == XorWords(base[..], i / 4)
    {
      checksum := Xor(checksum, WordAt(base[..], i / 4));
      i := i + 4;
    }
    if checksum == 0 || checksum == 0xFFFF_FFFF {
      checksum := checksum ^ 1;
    }
  }

  method WriteBase(fileName: Octets, filetime: nat, root: nat, binSize: nat) returns (block: Octets)
    requires |fileName| <= 64
    requires Packable(BaseFormat(), BaseFields(filetime, root, binSize))
    ensures block == BaseBlock(BaseHeader(fileName, filetime, root, binSize))
  {
    hide Pack, XorWords, Adjust, Packable, Wrote, Zeros, BaseFields, BaseHeader, BaseBlock;
    var base := new byte[BASE_SIZE](_ => 0);
    NothingWritten(base[..]);
    BaseFieldRanges(filetime, root, binSize);
    RestRanges(root, binSize);
    ghost var start := PackStart(base, filetime);
    PackRest(base, fileName, filetime, root, binSize, start);
    ghost var header := BaseHeader(fileName, filetime, root, binSize);
    HeaderWritten(base[..], fileName, filetime, root, binSize);
    var checksum := FoldChecksum(base);
    ChecksumFits(header);
    PackInto(base, LittleEndian(checksum as int, 4), header, BASE_HEADER);
    block := base[..];
    BlockWritten(block, header, checksum as int);
  }

  /** The signature, the sequence numbers, the timestamp and the version words. */
  method PackStart(base: array<byte>, filetime: nat) returns (ghost w: Octets)
    requires base.Length == BASE_SIZE && Wrote(base[..], []) && filetime < Pow256(8)
    modifies base
    ensures w == BaseStart(filetime) && Wrote(base[..], w)
  {
    hide Pack, Packable, Wrote;
    StartRanges(filetime);
    w := REGF;
    assert [] + REGF == REGF;
    PackInto(base, REGF, [], 0);
    PackInto(base, Pack([4, 4], [1, 1]), w, 4);
    w := w + Pack([4, 4], [1, 1]);
    PackInto(base, Pack([8], [filetime]), w, 12);
    w := w + Pack([8], [filetime]);
    PackInto(base, Pack(Words(4), [1, 3, 0, 1]), w, 20);
    w := w + Pack(Words(4), [1, 3, 0, 1]);
  }

  /** The root offset, the bin size, the cluster factor and the file name. */
  method PackRest(base: array<byte>, fileName: Octets, filetime: nat, root: nat, binSize: nat, ghost start: Octets)
    requires base.Length == BASE_SIZE && |start| == 36 && Wrote(base[..], start) && |fileName| <= 64
    requires Packable([4], [root]) && Packable([4], [binSize]) && Packable([4], [1])
    modifies base
    ensures Wrote(base[..], start + Pack([4], [root]) + Pack([4], [binSize]) + Pack([4], [1]) + fileName)
  {
    hide Pack, Packable, Wrote;
    PairSize(4, 4);
    ghost var w := start;
    PackInto(base, Pack([4], [root]), w, 36);
    w := w + Pack([4], [root]);
    PackInto(base, Pack([4], [binSize]), w, 40);
    w := w + Pack([4], [binSize]);
    PackInto(base, Pack([4], [1]), w, 44);
    w := w + Pack([4], [1]);
    PackInto(base, fileName, w, 48);
  }

  lemma StartRanges(filetime: nat)
    requires filetime < Pow256(8)
    ensures Packable([4, 4], [1, 1]) && Packable([8], [filetime]) && Packable(Words(4), [1, 3, 0, 1])
    ensures FormatSize([4, 4]) == 8 && FormatSize([8]) == 8 && FormatSize(Words(4)) == 16
  {
    Pow256Values();
    PairSize(4, 4);
    PairSize(8, 8);
    WordsSize(4);
  }

  lemma RestRanges(root: nat, binSize: nat)
    requires root < Pow256(4) && binSize < Pow256(4)
    ensures Packable([4], [root]) && Packable([4], [binSize]) && Packable([4], [1])
    ensures FormatSize([4]) == 4
  {
    Pow256Values();
    PairSize(4, 4);
  }

  lemma BaseFieldRanges(filetime: nat, root: nat, binSize: nat)
    requires Packable(BaseFormat(), BaseFields(filetime, root, binSize))
    ensures filetime < Pow256(8) && root < Pow256(4) && binSize < Pow256(4)
  {
    var f, v := BaseFormat(), BaseFields(filetime, root, binSize);
    assert f[2] == 8 && v[2] == filetime && f[7] == 4 && v[7] == root && f[8] == 4 && v[8] == binSize;
  }

  /** The first 36 octets of the base block. */
  function BaseStart(filetime: nat): (s: Octets)
    requires filetime < Pow256(8)
    ensures |s| == 36
  {
    StartRanges(filetime);
    REGF + Pack([4, 4], [1, 1]) + Pack([8], [filetime]) + Pack(Words(4), [1, 3, 0, 1])
  }

  lemma NothingWritten(block: Octets)
    requires forall i :: 0 <= i < |block| ==> block[i] == 0
    ensures Wrote(block, [])
  {
    assert block == [] + Zeros(|block|);
  }

  /** With the file name written, the block holds the whole header. */
  lemma HeaderWritten(block: Octets, fileName: Octets, filetime: nat, root: nat, binSize: nat)
    requires |block| == BASE_SIZE && |fileName| <= 64
    requires Packable(BaseFormat(), BaseFields(filetime, root, binSize))
    requires filetime < Pow256(8) && Packable([4], [root]) && Packable([4], [binSize]) && Packable([4], [1])
    requires Wrote(block, BaseStart(filetime) + Pack([4], [root]) + Pack([4], [binSize]) + Pack([4], [1]) + fileName)
    ensures Wrote(block, BaseHeader(fileName, filetime, root, binSize))
    ensures XorWords(block, 127) == XorWords(BaseHeader(fileName, filetime, root, binSize), 127)
  {
    hide Pack, Packable, BaseFormat, BaseFields, BaseStart, BaseHeader, XorWords;
    var header := BaseHeader(fileName, filetime, root, binSize);
    var w := BaseStart(filetime) + Pack([4], [root]) + Pack([4], [binSize]) + Pack([4], [1]) + fileName;
    BasePieces(fileName, filetime, root, binSize);
    PairSize(4, 4);
    assert |w| == 48 + |fileName|;
    ZerosConcat(BASE_HEADER - |w|, BASE_SIZE - BASE_HEADER);
    ConcatAssociative(w, Zeros(BASE_HEADER - |w|), Zeros(BASE_SIZE - BASE_HEADER));
    XorWordsPrefix(header, block, 127);
  }

  lemma ZerosConcat(m: nat, n: nat)
    ensures Zeros(m) + Zeros(n) == Zeros(m + n)
  {
  }

  lemma BlockWritten(block: Octets, header: Octets, checksum: nat)
    requires |block| == BASE_SIZE && |header| == BASE_HEADER && checksum == Checksum(header)
    requires Wrote(block, header + LittleEndian(checksum, 4))
    ensures block == BaseBlock(header)
  {
    hide Checksum, LittleEndian;
  }

  lemma {:induction false} PackConcat(f: Format, v: seq<int>, g: Format, w: seq<int>)
    requires Packable(f, v) && Packable(g, w)
    ensures Packable(f + g, v + w) && Pack(f + g, v + w) == Pack(f, v) + Pack(g, w)
  {
    hide LittleEndian, Packable;
    PackableConcat(f, v, g, w);
    if f == [] {
      PackableTail(f, v);
      assert f + g == g && v + w == w;
      assert [] + Pack(g, w) == Pack(g, w);
    } else {
      PackableTail(f, v);
      PackableTail(f + g, v + w);
      assert (f + g)[1..] == f[1..] + g && (v + w)[1..] == v[1..] + w;
      PackConcat(f[1..], v[1..], g, w);
      ConcatAssociative(LittleEndian(v[0], f[0]), Pack(f[1..], v[1..]), Pack(g, w));
    }
  }

  lemma PackableConcat(f: Format, v: seq<int>, g: Format, w: seq<int>)
    requires Packable(f, v) && Packable(g, w)
    ensures Packable(f + g, v + w)
  {
  }

  lemma PackableTail(f: Format, v: seq<int>)
    requires Packable(f, v)
    ensures |f| == |v|
    ensures f != [] ==> 0 <= v[0] < Pow256(f[0]) && Packable(f[1..], v[1..])
  {
  }

  /** The header is the concatenation of what the writer packs. */
  lemma BasePieces(fileName: Octets, filetime: nat, root: nat, binSize: nat)
    requires |fileName| <= 64
    requires Packable(BaseFormat(), BaseFields(filetime, root, binSize))
    requires filetime < Pow256(8) && Packable([4], [root]) && Packable([4], [binSize]) && Packable([4], [1])
    ensures BaseHeader(fileName, filetime, root, binSize)
         == BaseStart(filetime) + Pack([4], [root]) + Pack([4], [binSize]) + Pack([4], [1]) + fileName
            + Zeros(BASE_HEADER - 48 - |fileName|)
  {
    hide Pack, Packable, BaseStart, BaseFormat, BaseFields, FormatSize, Words, Zeros;
    StartPieces(filetime);
    RestPieces(root, binSize);
    var f, v := [4, 4] + [8] + Words(4), [1, 1] + [filetime] + [1, 3, 0, 1];
    var g, w := [4] + [4] + [4], [root] + [binSize] + [1];
    PackConcat(f, v, g, w);
    BaseInTwo(filetime, root, binSize);
    ConcatAssociative(REGF, Pack(f, v), Pack(g, w));
    ConcatAssociative(REGF + Pack(f, v), Pack([4], [root]) + Pack([4], [binSize]), Pack([4], [1]));
    ConcatAssociative(REGF + Pack(f, v), Pack([4], [root]), Pack([4], [binSize]));
  }

  lemma BaseInTwo(filetime: nat, root: nat, binSize: nat)
    ensures ([4, 4] + [8] + Words(4)) + ([4] + [4] + [4]) == BaseFormat()
    ensures ([1, 1] + [filetime] + [1, 3, 0, 1]) + ([root] + [binSize] + [1]) == BaseFields(filetime, root, binSize)
  {
  }

  lemma StartPieces(filetime: nat)
    requires filetime < Pow256(8)
    ensures Packable([4, 4] + [8] + Words(4), [1, 1] + [filetime] + [1, 3, 0, 1])
    ensures BaseStart(filetime) == REGF + Pack([4, 4] + [8] + Words(4), [1, 1] + [filetime] + [1, 3, 0, 1])
  {
    hide Pack, Packable;
    StartRanges(filetime);
    PackConcat([4, 4], [1, 1], [8], [filetime]);
    PackConcat([4, 4] + [8], [1, 1] + [filetime], Words(4), [1, 3, 0, 1]);
    var a, b, c := Pack([4, 4], [1, 1]), Pack([8], [filetime]), Pack(Words(4), [1, 3, 0, 1]);
    ConcatAssociative(REGF, a, b);
    ConcatAssociative(REGF, a + b, c);
  }

  lemma RestPieces(root: nat, binSize: nat)
    requires Packable([4], [root]) && Packable([4], [binSize]) && Packable([4], [1])
    ensures Packable([4] + [4] + [4], [root] + [binSize] + [1])
    ensures Pack([4] + [4] + [4], [root] + [binSize] + [1]) == Pack([4], [root]) + Pack([4], [binSize]) + Pack([4], [1])
  {
    hide Pack, Packable;
    PackConcat([4], [root], [4], [binSize]);
    PackConcat([4] + [4], [root] + [binSize], [4], [1]);
  }

  // ---- build_hive ----------------------------------------------------------------------------

  /** The whole call, on an object tree in which no Key or Val is shared. */
  method BuildHiveFile(root: Key, fileName: Text, timestamps: TimestampSpec, nfc: Text -> bool, ghost t: KeyTree)
    returns (r: Result<Octets, HiveError>)
    requires ValidTimestamps(timestamps)
    requires Shows(root, t) && Separate(root, t)
    modifies Footprint(root, t)
    ensures r == BuildHive(t, fileName, timestamps, nfc)
  {
    hide NamesValid, LayKey, Shows, Separate, Footprint, Laid, TreePaths, KeySize, HiveImageOf, HivePacks;
    FootprintMembers(root, t);
    FootprintAllocated(root, t);
    if !ValidFileName(fileName) { return Err(BadFileName); }
    var b := new HiveBuilder(timestamps, nfc);
    root.parent := 0;
    var ok := b.Assign(root, [], t);
    if !ok { return Err(BadName); }
    if !(timestamps.overrides.Keys <= b.used) { return Err(UnknownOverride); }
    var security := b.Alloc(20);
    r := EmitFile(b, root, fileName, security, t);
  }

  /** What `build_hive` does with a laid-out tree. */
  method EmitFile(b: HiveBuilder, root: Key, fileName: Text, security: nat, ghost t: KeyTree)
    returns (r: Result<Octets, HiveError>)
    requires ValidTimestamps(b.timestamps) && ValidFileName(fileName) && Shows(root, t) && b !in Footprint(root, t)
    requires Laid(root, t) == RootLayout(t, b.timestamps)
    requires security == SecurityOffset(t) && b.running == TotalRunning(t) && b.cells == []
    modifies b
    ensures r == if HivePacks(t, b.timestamps) then Ok(HiveImageOf(t, fileName, b.timestamps)) else Err(StructError)
  {
    hide KeyPacks, KeyCells, RootLayout, EmitAll, CellBytes, Shows, Footprint, Laid, SkBody, BaseBlock, BaseHeader,
      BinHeader, FreeCell, TotalRunning, SecurityOffset, Packable, HiveCells, ValidFileName;
    var size := BinSize(b.running);
    if size >= 0x1_0000_0000 { return Err(StructError); }
    ghost var laid := Laid(root, t);
    RootNk(root, t);
    RootAt(t, b.timestamps);
    var ok := b.Write(root, true, security, t, laid);
    if !ok { return Err(StructError); }
    SkFits();
    ok := b.Emit(SkBody());
    CellsEmitted(t, b.timestamps);
    assert b.cells == EmitAll(HiveCells(t, b.timestamps));
    var free := size - BIN_HEADER - |b.cells|;
    var bin := TruncatePad(BinHeader(size, b.timestamps.hive) + b.cells + FreeCell(free), size);
    BasePackable(b.timestamps.hive, size);
    FileNameFits(fileName);
    var base := WriteBase(Utf16(fileName), b.timestamps.hive, root.nk, size);
    return Ok(base + bin);
  }

  lemma FileNameFits(fileName: Text)
    requires ValidFileName(fileName)
    ensures Encodable(fileName) && |Utf16(fileName)| <= 64
  {
  }

  lemma CellsEmitted(t: KeyTree, spec: TimestampSpec)
    requires HivePacks(t, spec)
    ensures EmitAll(HiveCells(t, spec)) == EmitAll(KeyCells(RootLayout(t, spec), true, SecurityOffset(t))) + CellBytes(SkBody())
  {
    hide EmitAll, KeyCells, KeyPacks, SkBody, CellBytes, RootLayout;
    EmitAllConcat(KeyCells(RootLayout(t, spec), true, SecurityOffset(t)), [SkBody()]);
    EmitOne(SkBody());
  }

  lemma SkFits()
    ensures CellFits(SkBody())
  {
  }

  lemma RootNk(root: Key, t: KeyTree)
    requires Shows(root, t)
    ensures Laid(root, t).nk == root.nk
  {
  }
}
