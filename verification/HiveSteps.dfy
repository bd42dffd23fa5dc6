// One more element: how each fold over values or subkeys grows by its last element.  The loops
// of the writer run left to right, so their invariants speak of prefixes.
module HiveSteps {
  import opened Bytes
  import opened Unicode
  import opened HiveFormat
  import opened HiveLayout
  import opened HiveImage

  lemma {:induction false} ValuesSizeStep(vs: seq<ValueRecord>, i: nat)
    requires i < |vs|
    ensures ValuesSize(vs[..i + 1]) == ValuesSize(vs[..i]) + ValueSize(vs[i])
  {
    hide ValueSize;
    var a, b := vs[..i + 1], vs[..i];
    assert a[0] == vs[0];
    if i > 0 {
      ValuesSizeStep(vs[1..], i - 1);
      assert a[1..] == vs[1..][..i] && b[1..] == vs[1..][..i - 1] && b[0] == vs[0];
    } else {
      assert a[1..] == [] && b == [];
    }
  }

  lemma {:induction false} LayValuesAt(vs: seq<ValueRecord>, running: nat, j: nat)
    requires j < |vs|
    ensures LayValues(vs, running)[j] == LayValue(vs[j], running + ValuesSize(vs[..j]))
  {
    hide ValueSize, LayValue;
    if j > 0 {
      LayValuesAt(vs[1..], running + ValueSize(vs[0]), j - 1);
      assert vs[..j][1..] == vs[1..][..j - 1] && vs[..j][0] == vs[0];
    }
  }

  lemma {:induction false} KeysSizeStep(ts: seq<KeyTree>, i: nat)
    requires i < |ts|
    ensures KeysSize(ts[..i + 1]) == KeysSize(ts[..i]) + KeySize(ts[i])
  {
    hide KeySize;
    var a, b := ts[..i + 1], ts[..i];
    assert a[0] == ts[0];
    if i > 0 {
      KeysSizeStep(ts[1..], i - 1);
      assert a[1..] == ts[1..][..i] && b[1..] == ts[1..][..i - 1] && b[0] == ts[0];
    } else {
      assert a[1..] == [] && b == [];
    }
  }

  lemma {:induction false} LayKeysAt(
    ts: seq<KeyTree>, parent: nat, parts: seq<Text>, spec: TimestampSpec, running: nat, j: nat)
    requires j < |ts|
    ensures LayKeys(ts, parent, parts, spec, running)[j] == LayKey(ts[j], parent, parts, spec, running + KeysSize(ts[..j]))
  {
    hide KeySize, LayKey;
    if j > 0 {
      LayKeysAt(ts[1..], parent, parts, spec, running + KeySize(ts[0]), j - 1);
      assert ts[..j][1..] == ts[1..][..j - 1] && ts[..j][0] == ts[0];
    }
  }

  lemma LayKeyFields(t: KeyTree, parent: nat, parts: seq<Text>, spec: TimestampSpec, running: nat)
    ensures LayKey(t, parent, parts, spec, running) == LaidKey(
              RegistryName(t.name), IsAscii(t.name), KeyFiletime(spec, JoinPath(parts + [t.name])), parent, BIN_HEADER + running,
              if t.values == [] then NONE else BIN_HEADER + AfterNk(t, running) + ValuesSize(t.values),
              if t.subkeys == [] then NONE else BIN_HEADER + AfterValues(t, running) + KeysSize(t.subkeys),
              LayValues(t.values, AfterNk(t, running)),
              LayKeys(t.subkeys, BIN_HEADER + running, parts + [t.name], spec, AfterValues(t, running)))
  {
  }

  lemma {:induction false} ForestPathsStep(ts: seq<KeyTree>, parts: seq<Text>, i: nat)
    requires i < |ts|
    ensures ForestPaths(ts[..i + 1], parts) == ForestPaths(ts[..i], parts) + TreePaths(ts[i], parts)
  {
    hide TreePaths;
    var a, b := ts[..i + 1], ts[..i];
    assert a[0] == ts[0];
    if i > 0 {
      ForestPathsStep(ts[1..], parts, i - 1);
      assert a[1..] == ts[1..][..i] && b[1..] == ts[1..][..i - 1] && b[0] == ts[0];
    } else {
      assert a[1..] == [] && b == [];
    }
  }

  lemma {:induction false} AllNamesValidAt(ts: seq<KeyTree>, nfc: Text -> bool)
    ensures AllNamesValid(ts, nfc) <==> forall i :: 0 <= i < |ts| ==> NamesValid(ts[i], nfc)
  {
    hide NamesValid;
    if ts != [] {
      AllNamesValidAt(ts[1..], nfc);
      assert forall i :: 0 < i < |ts| ==> ts[i] == ts[1..][i - 1];
    }
  }

  lemma {:induction false} ValuesPackStep(vs: seq<LaidValue>, i: nat)
    requires i < |vs|
    ensures ValuesPack(vs[..i + 1]) <==> ValuesPack(vs[..i]) && ValuePacks(vs[i])
    ensures ValuesPack(vs[..i + 1]) ==>
              EmitAll(ValuesCells(vs[..i + 1])) == EmitAll(ValuesCells(vs[..i])) + EmitAll(ValueCells(vs[i]))
  {
    hide ValuePacks, ValueCells, EmitAll;
    var a, b := vs[..i + 1], vs[..i];
    assert a[0] == vs[0];
    if i > 0 {
      ValuesPackStep(vs[1..], i - 1);
      assert a[1..] == vs[1..][..i] && b[1..] == vs[1..][..i - 1] && b[0] == vs[0] && vs[1..][i - 1] == vs[i];
      if ValuesPack(a) {
        EmitAllConcat(ValueCells(vs[0]), ValuesCells(a[1..]));
        EmitAllConcat(ValueCells(vs[0]), ValuesCells(b[1..]));
        ConcatAssociative(EmitAll(ValueCells(vs[0])), EmitAll(ValuesCells(b[1..])), EmitAll(ValueCells(vs[i])));
      }
    } else {
      assert a[1..] == [] && b == [];
      EmitNone();
      if ValuesPack(a) {
        var cells := EmitAll(ValueCells(vs[0]));
        assert ValuesCells(a) == ValueCells(vs[0]) + [] == ValueCells(vs[0]);
        assert [] + cells == cells;
      }
    }
  }

  lemma {:induction false} KeysPackStep(ks: seq<LaidKey>, security: nat, i: nat)
    requires i < |ks|
    ensures KeysPack(ks[..i + 1], security) <==> KeysPack(ks[..i], security) && KeyPacks(ks[i], false, security)
    ensures KeysPack(ks[..i + 1], security) ==>
              EmitAll(KeysCells(ks[..i + 1], security))
              == EmitAll(KeysCells(ks[..i], security)) + EmitAll(KeyCells(ks[i], false, security))
  {
    hide KeyPacks, KeyCells, EmitAll;
    var a, b := ks[..i + 1], ks[..i];
    assert a[0] == ks[0];
    if i > 0 {
      KeysPackStep(ks[1..], security, i - 1);
      assert a[1..] == ks[1..][..i] && b[1..] == ks[1..][..i - 1] && b[0] == ks[0] && ks[1..][i - 1] == ks[i];
      if KeysPack(a, security) {
        var first, last := KeyCells(ks[0], false, security), KeyCells(ks[i], false, security);
        EmitAllConcat(first, KeysCells(a[1..], security));
        EmitAllConcat(first, KeysCells(b[1..], security));
        ConcatAssociative(EmitAll(first), EmitAll(KeysCells(b[1..], security)), EmitAll(last));
      }
    } else {
      assert a[1..] == [] && b == [];
      EmitNone();
      if KeysPack(a, security) {
        var cells := EmitAll(KeyCells(ks[0], false, security));
        assert KeysCells(a, security) == KeyCells(ks[0], false, security) + [] == KeyCells(ks[0], false, security);
        assert [] + cells == cells;
      }
    }
  }

  /** A pack that fails on a prefix fails on the whole. */
  lemma {:induction false} PrefixPacks(vs: seq<LaidValue>, i: nat)
    requires i <= |vs| && ValuesPack(vs)
    ensures ValuesPack(vs[..i])
  {
    if i > 0 {
      PrefixPacks(vs[1..], i - 1);
      assert vs[..i][1..] == vs[1..][..i - 1];
    }
  }

  lemma {:induction false} PrefixKeysPack(ks: seq<LaidKey>, security: nat, i: nat)
    requires i <= |ks| && KeysPack(ks, security)
    ensures KeysPack(ks[..i], security)
  {
    hide KeyPacks;
    if i > 0 {
      PrefixKeysPack(ks[1..], security, i - 1);
      assert ks[..i][1..] == ks[1..][..i - 1] && ks[..i][0] == ks[0];
    }
  }

  lemma {:induction false} LfEntriesStep(ks: seq<LaidKey>, i: nat)
    requires i < |ks| && OffsetsPack(ks[..i + 1])
    ensures OffsetsPack(ks[..i]) && ks[i].nk < Pow256(4)
    ensures LfEntries(ks[..i + 1]) == LfEntries(ks[..i]) + LittleEndian(ks[i].nk, 4) + FirstFour(ks[i].name)
  {
    hide LittleEndian, FirstFour;
    Pow256Values();
    var a, b := ks[..i + 1], ks[..i];
    assert a[0] == ks[0] && a[i] == ks[i];
    assert forall j :: 0 <= j < i ==> b[j] == a[j];
    if i > 0 {
      assert forall j :: 0 <= j < i ==> ks[1..][..i][j] == a[j + 1];
      LfEntriesStep(ks[1..], i - 1);
      assert a[1..] == ks[1..][..i] && b[1..] == ks[1..][..i - 1] && b[0] == ks[0] && ks[1..][i - 1] == ks[i];
      var head := LittleEndian(ks[0].nk, 4) + FirstFour(ks[0].name);
      ConcatAssociative(head, LfEntries(b[1..]) + LittleEndian(ks[i].nk, 4), FirstFour(ks[i].name));
      ConcatAssociative(head, LfEntries(b[1..]), LittleEndian(ks[i].nk, 4));
    } else {
      assert a[1..] == [] && b == [];
      assert [] + LittleEndian(ks[0].nk, 4) == LittleEndian(ks[0].nk, 4);
      var s := LittleEndian(ks[0].nk, 4) + FirstFour(ks[0].name);
      assert s + [] == s;
    }
  }

  lemma VkFits(v: LaidValue)
    requires Packable(VkFormat(), VkFields(v))
    ensures CellFits(VkBody(v))
  {
    hide PaddedTotal;
    Pow256Values();
    assert VkFields(v)[0] == |v.name| && VkFormat()[0] == 2;
  }

  lemma NkFits(k: LaidKey, isRoot: bool, security: nat)
    requires Packable(NkFormat(), NkFields(k, isRoot, security))
    ensures CellFits(NkBody(k, isRoot, security))
  {
    hide PaddedTotal;
    Pow256Values();
    assert NkFields(k, isRoot, security)[17] == |k.name| && NkFormat()[17] == 2;
  }

  lemma NoValuesPack()
    ensures ValueListPacks([]) && ValueListCells([]) == []
  {
  }

  lemma NoSubkeysPack()
    ensures SubkeyListPacks([]) && SubkeyListCells([]) == []
  {
  }

  lemma LfFits(ks: seq<LaidKey>)
    requires SubkeyListPacks(ks)
    ensures CellFits(LfBody(ks))
  {
    hide PaddedTotal, LfEntries, LittleEndian;
  }

  /** A key's cells, emitted group by group. */
  lemma KeyCellsEmitted(start: Octets, k: LaidKey, isRoot: bool, security: nat)
    requires KeyPacks(k, isRoot, security)
    ensures start + CellBytes(NkBody(k, isRoot, security)) + EmitAll(ValuesCells(k.values)) + EmitAll(ValueListCells(k.values))
            + EmitAll(KeysCells(k.subkeys, security)) + EmitAll(SubkeyListCells(k.subkeys))
         == start + EmitAll(KeyCells(k, isRoot, security))
  {
    hide CellBytes, EmitAll, NkBody, ValueListCells, SubkeyListCells, Packable, KeysPack, ValuesPack, KeysCells, ValuesCells,
      ValueListPacks, SubkeyListPacks;
    EmitOne(NkBody(k, isRoot, security));
    var nk, vs, list := [NkBody(k, isRoot, security)], ValuesCells(k.values), ValueListCells(k.values);
    var ks, lf := KeysCells(k.subkeys, security), SubkeyListCells(k.subkeys);
    EmitAllConcat(nk, vs + (list + (ks + lf)));
    EmitAllConcat(vs, list + (ks + lf));
    EmitAllConcat(list, ks + lf);
    EmitAllConcat(ks, lf);
    FiveConcat(start, EmitAll(nk), EmitAll(vs), EmitAll(list), EmitAll(ks), EmitAll(lf));
  }

  lemma FiveConcat<T>(s: seq<T>, a: seq<T>, b: seq<T>, c: seq<T>, d: seq<T>, e: seq<T>)
    ensures s + a + b + c + d + e == s + (a + (b + (c + (d + e))))
  {
    ConcatAssociative(s, a, b);
    ConcatAssociative(s, a + b, c);
    ConcatAssociative(s, a + b + c, d);
    ConcatAssociative(s, a + b + c + d, e);
    ConcatAssociative(a, b, c);
    ConcatAssociative(a, b + c, d);
    ConcatAssociative(a, b + c + d, e);
    ConcatAssociative(b, c, d);
    ConcatAssociative(b, c + d, e);
    ConcatAssociative(c, d, e);
  }

  lemma NoKeys(parts: seq<Text>)
    ensures KeysSize([]) == 0 && ForestPaths([], parts) == {}
  {
  }
}
