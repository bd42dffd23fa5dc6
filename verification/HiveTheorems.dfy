// What follows for whole hives: the cells tile the bin, equal files come from equal trees, and
// the base-block checksum notices every one-word change it can.
module HiveTheorems {
  import opened Bytes
  import opened Unicode
  import opened Wrappers
  import opened HiveFormat
  import opened HiveLayout
  import opened HiveReader
  import opened HiveImage
  import opened HiveSteps

  // ---- tiling ------------------------------------------------------------------------------

  /** One cell as a linear scan of the size words sees it. */
  datatype Span = Allocated(at: nat, size: nat) | Free(at: nat, size: nat)

  /** Scan the bin cell by cell from `at`; a size that is not a positive multiple of eight, a cell that
      crosses the end of the bin, or a free cell that is not blank ends the scan with no result. */
  function Walk(bin: Octets, at: nat): Option<seq<Span>>
    decreases |bin| - at
  {
    if at == |bin| then Some([])
    else if at + 4 > |bin| then None
    else
      var word := FromLittleEndian(bin[at..at + 4]);
      var size := if word >= 0x8000_0000 then 0x1_0000_0000 - word else word;
      if size < 8 || size % 8 != 0 || at + size > |bin| then None
      else if word < 0x8000_0000 && !ZeroFrom(bin[at..at + size], 4) then None
      else
        match Walk(bin, at + size)
        case None => None
        case Some(rest) => Some([if word >= 0x8000_0000 then Allocated(at, size) else Free(at, size)] + rest)
  }

  function Spans(bodies: seq<Octets>, at: nat): seq<Span> {
    if bodies == [] then []
    else [Allocated(at, PaddedTotal(|bodies[0]|))] + Spans(bodies[1..], at + PaddedTotal(|bodies[0]|))
  }

  predicate AllFit(bodies: seq<Octets>) {
    forall i :: 0 <= i < |bodies| ==> CellFits(bodies[i])
  }

  lemma AllFitConcat(a: seq<Octets>, b: seq<Octets>)
    requires AllFit(a) && AllFit(b)
    ensures AllFit(a + b)
  {
  }

  lemma {:induction false} ValuesCellsFit(vs: seq<LaidValue>)
    requires ValuesPack(vs)
    ensures AllFit(ValuesCells(vs))
  {
    hide PaddedTotal;
    if vs != [] {
      ValueCellsFit(vs[0]);
      ValuesCellsFit(vs[1..]);
      AllFitConcat(ValueCells(vs[0]), ValuesCells(vs[1..]));
    }
  }

  lemma ValueCellsFit(v: LaidValue)
    requires ValuePacks(v)
    ensures AllFit(ValueCells(v))
  {
    VkFits(v);
  }

  lemma {:induction false} KeyCellsFit(k: LaidKey, isRoot: bool, security: nat)
    requires KeyPacks(k, isRoot, security)
    ensures AllFit(KeyCells(k, isRoot, security))
    decreases k, 1
  {
    hide PaddedTotal, NkBody, ValueListBody, LfBody, ValuesPack, KeysPack, ValuesCells, KeysCells;
    NkFits(k, isRoot, security);
    ValuesCellsFit(k.values);
    KeysCellsFit(k.subkeys, security);
    var nk, vs, list := [NkBody(k, isRoot, security)], ValuesCells(k.values), ValueListCells(k.values);
    var ks, lf := KeysCells(k.subkeys, security), SubkeyListCells(k.subkeys);
    AllFitConcat(ks, lf);
    AllFitConcat(list, ks + lf);
    AllFitConcat(vs, list + (ks + lf));
    AllFitConcat(nk, vs + (list + (ks + lf)));
  }

  lemma {:induction false} KeysCellsFit(ks: seq<LaidKey>, security: nat)
    requires KeysPack(ks, security)
    ensures AllFit(KeysCells(ks, security))
    decreases ks, 0
  {
    hide PaddedTotal, CellFits, KeyPacks, KeyCells;
    if ks != [] {
      KeyCellsFit(ks[0], false, security);
      KeysCellsFit(ks[1..], security);
      AllFitConcat(KeyCells(ks[0], false, security), KeysCells(ks[1..], security));
    }
  }

  lemma WalkOne(bin: Octets, at: nat, body: Octets)
    requires CellAt(bin, at, body) && CellFits(body)
    ensures var total := PaddedTotal(|body|);
            && at + total <= |bin|
            && (Walk(bin, at).Some? <==> Walk(bin, at + total).Some?)
            && (Walk(bin, at).Some? ==> Walk(bin, at).value == [Allocated(at, total)] + Walk(bin, at + total).value)
  {
    hide LittleEndian, FromLittleEndian, Contains;
    Pow256Values();
    var total := PaddedTotal(|body|);
    var word := (0 - total) % 0x1_0000_0000;
    assert word == 0x1_0000_0000 - total;
    var size, pad := LittleEndian(word, 4), Zeros(total - 4 - |body|);
    ConcatAssociative(size, body, pad);
    ContainsSlices(bin, at, size, body + pad);
    LittleEndianRoundTrip(word, 4);
  }

  /** Scanning emitted cells yields one span per cell, in order, and goes on where they end. */
  lemma {:induction false} WalkEmitted(bin: Octets, at: nat, bodies: seq<Octets>, rest: seq<Span>)
    requires EmittedAt(bin, at, bodies) && AllFit(bodies)
    requires Walk(bin, at + |EmitAll(bodies)|) == Some(rest)
    ensures Walk(bin, at) == Some(Spans(bodies, at) + rest)
    decreases |bodies|
  {
    hide Walk, CellFits, PaddedTotal;
    if bodies == [] {
      assert Spans(bodies, at) + rest == rest;
    } else {
      var first, others := [bodies[0]], bodies[1..];
      hide CellAt, CellBytes;
      assert first + others == bodies;
      EmittedSplit(bin, at, first, others);
      EmitOne(bodies[0]);
      OptionalCell(bin, at, first, true, bodies[0]);
      WalkOne(bin, at, bodies[0]);
      WalkEmitted(bin, at + PaddedTotal(|bodies[0]|), others, rest);
      ConcatAssociative([Allocated(at, PaddedTotal(|bodies[0]|))], Spans(others, at + PaddedTotal(|bodies[0]|)), rest);
    }
  }

  lemma WalkFree(bin: Octets, at: nat, free: nat)
    requires free % 8 == 0 && (free == 0 || 8 <= free < 0x8000_0000)
    requires at + free == |bin| && bin[at..] == FreeCell(free)
    ensures Walk(bin, at) == Some(if free == 0 then [] else [Free(at, free)])
  {
    if free > 0 {
      Pow256Values();
      assert bin[at..at + 4] == bin[at..][..4] == LittleEndian(free, 4);
      LittleEndianRoundTrip(free, 4);
      assert Walk(bin, |bin|) == Some([]);
      assert [Free(at, free)] + [] == [Free(at, free)];
    }
  }

  lemma HiveCellsFit(t: KeyTree, spec: TimestampSpec)
    requires HivePacks(t, spec)
    ensures AllFit(HiveCells(t, spec))
  {
    hide KeyPacks, KeyCells, RootLayout, KeySize, SkBody, CellFits;
    SkCellFits();
    KeyCellsFit(RootLayout(t, spec), true, SecurityOffset(t));
    AllFitConcat(KeyCells(RootLayout(t, spec), true, SecurityOffset(t)), [SkBody()]);
  }

  lemma SkCellFits()
    ensures CellFits(SkBody())
  {
  }

  lemma RunningMultiple(t: KeyTree)
    ensures TotalRunning(t) % 8 == 0
  {
    hide KeySize, PaddedTotal;
    KeySizeMultiple(t);
    AddMultiple(KeySize(t), PaddedTotal(20));
  }

  /** Emitted cells followed by a free cell are walked as just that. */
  lemma WalkBin(bin: Octets, header: Octets, bodies: seq<Octets>, free: nat)
    requires |header| == BIN_HEADER && AllFit(bodies)
    requires free % 8 == 0 && (free == 0 || 8 <= free < 0x8000_0000)
    requires bin == header + EmitAll(bodies) + FreeCell(free)
    ensures Walk(bin, BIN_HEADER)
         == Some(Spans(bodies, BIN_HEADER) + if free == 0 then [] else [Free(BIN_HEADER + |EmitAll(bodies)|, free)])
  {
    hide Walk, EmitAll, FreeCell, Spans, AllFit;
    var cells := EmitAll(bodies);
    FreeCellSize(free);
    SplitConcat(header + cells, FreeCell(free));
    WalkFree(bin, BIN_HEADER + |cells|, free);
    EmittedInside(header, bodies, FreeCell(free));
    WalkEmitted(bin, BIN_HEADER, bodies, if free == 0 then [] else [Free(BIN_HEADER + |cells|, free)]);
  }

  lemma EmittedInside(header: Octets, bodies: seq<Octets>, tail: Octets)
    ensures EmittedAt(header + EmitAll(bodies) + tail, |header|, bodies)
  {
    hide EmitAll;
    var cells := EmitAll(bodies);
    assert (header + cells + tail)[|header|..|header| + |cells|] == cells;
  }

  /** The emitted cells tile the bin: a scan of the size words from the end of the bin header
      meets exactly the emitted cells, then at most one free cell, and stops at the bin's end. */
  lemma CellsTileTheBin(t: KeyTree, spec: TimestampSpec)
    requires HivePacks(t, spec) && ValidTimestamps(spec)
    ensures var cells := EmitAll(HiveCells(t, spec));
            var bin := BinImage(cells, BinSize(TotalRunning(t)), spec.hive);
            var free := |bin| - BIN_HEADER - |cells|;
            && |bin| % 4096 == 0
            && (free == 0 || free >= 8)
            && Walk(bin, BIN_HEADER)
               == Some(Spans(HiveCells(t, spec), BIN_HEADER) + if free == 0 then [] else [Free(BIN_HEADER + |cells|, free)])
  {
    hide Walk, EmitAll, Placed, FreeCell, BinHeader, KeySize, HiveCells, RootLayout, BinImage, EmittedAt, KeyPacks, AllFit,
      CellAt, Spans;
    var bodies := HiveCells(t, spec);
    var bin := BinImage(EmitAll(bodies), BinSize(TotalRunning(t)), spec.hive);
    BinContents(t, spec);
    RunningMultiple(t);
    FreeIsMultiple(TotalRunning(t));
    HiveCellsFit(t, spec);
    WalkBin(bin, BinHeader(|bin|, spec.hive), bodies, |bin| - BIN_HEADER - |EmitAll(bodies)|);
  }

  // ---- injectivity -------------------------------------------------------------------------

  lemma {:induction false} StampInjective(
    t: KeyTree, tParts: seq<Text>, tSpec: TimestampSpec, u: KeyTree, uParts: seq<Text>, uSpec: TimestampSpec)
    requires Stamp(t, tParts, tSpec) == Stamp(u, uParts, uSpec)
    ensures t == u
    decreases t, 1
  {
    StampAllInjective(t.subkeys, tParts + [t.name], tSpec, u.subkeys, uParts + [u.name], uSpec);
  }

  lemma {:induction false} StampAllInjective(
    ts: seq<KeyTree>, tParts: seq<Text>, tSpec: TimestampSpec, us: seq<KeyTree>, uParts: seq<Text>, uSpec: TimestampSpec)
    requires StampAll(ts, tParts, tSpec) == StampAll(us, uParts, uSpec)
    ensures ts == us
    decreases ts, 0
  {
    hide Stamp;
    if ts != [] && us != [] {
      var a, b := StampAll(ts, tParts, tSpec), StampAll(us, uParts, uSpec);
      assert a[0] == Stamp(ts[0], tParts, tSpec) && a[1..] == StampAll(ts[1..], tParts, tSpec);
      assert b[0] == Stamp(us[0], uParts, uSpec) && b[1..] == StampAll(us[1..], uParts, uSpec);
      StampInjective(ts[0], tParts, tSpec, us[0], uParts, uSpec);
      StampAllInjective(ts[1..], tParts, tSpec, us[1..], uParts, uSpec);
      assert ts == [ts[0]] + ts[1..] && us == [us[0]] + us[1..];
    }
  }

  function Nuls(n: nat): (t: Text)
    ensures |t| == n && forall c <- t :: c == 0
  {
    seq(n, _ => 0)
  }

  /** The two names differ in trailing U+0000 only. */
  predicate SameUpToNuls(t: Text, u: Text) {
    if |t| <= |u| then u == t + Nuls(|u| - |t|) else t == u + Nuls(|t| - |u|)
  }

  lemma {:induction false} Utf16Nuls(n: nat)
    ensures Utf16(Nuls(n)) == Zeros(2 * n)
  {
    if n > 0 {
      Utf16Nuls(n - 1);
      assert Nuls(n)[1..] == Nuls(n - 1) && Nuls(n)[0] == 0;
      assert [0, 0] + Zeros(2 * (n - 1)) == Zeros(2 * n);
    }
  }

  lemma Utf16UnitEven(c: CodePoint)
    ensures |Utf16Unit(c)| % 2 == 0
  {
  }

  lemma {:induction false} Utf16Concat(a: Text, b: Text)
    ensures Utf16(a + b) == Utf16(a) + Utf16(b) && |Utf16(a)| % 2 == 0
  {
    hide Utf16Unit;
    if a == [] {
      assert a + b == b;
    } else {
      Utf16UnitEven(a[0]);
      Utf16Concat(a[1..], b);
      assert (a + b)[1..] == a[1..] + b;
      ConcatAssociative(Utf16Unit(a[0]), Utf16(a[1..]), Utf16(b));
    }
  }

  /** The file-name field is the encoding of the name with U+0000 behind it. */
  lemma PaddedName(t: Text)
    requires ValidFileName(t)
    ensures |Utf16(t)| % 2 == 0
    ensures var padded := t + Nuls((64 - |Utf16(t)|) / 2);
            Encodable(padded) && Utf16(padded) == Utf16(t) + Zeros(64 - |Utf16(t)|)
  {
    hide Utf16;
    Utf16Concat(t, Nuls((64 - |Utf16(t)|) / 2));
    Utf16Nuls((64 - |Utf16(t)|) / 2);
  }

  /** Two names fill the field alike only when they differ in trailing U+0000 at most. */
  lemma FieldRecovers(t: Text, u: Text)
    requires ValidFileName(t) && ValidFileName(u)
    requires Utf16(t) + Zeros(64 - |Utf16(t)|) == Utf16(u) + Zeros(64 - |Utf16(u)|)
    ensures SameUpToNuls(t, u)
  {
    hide Utf16, FromUtf16, Encodable;
    var m, n := (64 - |Utf16(t)|) / 2, (64 - |Utf16(u)|) / 2;
    PaddedName(t);
    PaddedName(u);
    Utf16RoundTrip(t + Nuls(m));
    Utf16RoundTrip(u + Nuls(n));
    SamePadded(t, u, m, n);
  }

  lemma SamePadded(t: Text, u: Text, m: nat, n: nat)
    requires t + Nuls(m) == u + Nuls(n)
    ensures SameUpToNuls(t, u)
  {
    var whole := t + Nuls(m);
    assert |t| + m == |u| + n;
    assert t == whole[..|t|] && u == whole[..|u|];
    forall i | 0 <= i < |whole| ensures i >= |t| || i >= |u| ==> whole[i] == 0 {
      if i >= |t| { assert whole[i] == Nuls(m)[i - |t|]; }
      else if i >= |u| { assert whole[i] == Nuls(n)[i - |u|]; }
    }
  }

  /** Two accepted calls return the same bytes only when they were given the same tree, the same
      hive FILETIME, the same FILETIME for every key, and file names that differ in trailing U+0000 at
      most. */
  lemma HiveInjective(
    t: KeyTree, tFile: Text, tSpec: TimestampSpec, u: KeyTree, uFile: Text, uSpec: TimestampSpec, nfc: Text -> bool)
    requires ValidTimestamps(tSpec) && ValidTimestamps(uSpec)
    requires BuildHive(t, tFile, tSpec, nfc).Ok?
    requires BuildHive(t, tFile, tSpec, nfc) == BuildHive(u, uFile, uSpec, nfc)
    ensures t == u && tSpec.hive == uSpec.hive
    ensures Stamp(t, [], tSpec) == Stamp(u, [], uSpec)
    ensures SameUpToNuls(tFile, uFile)
  {
    hide BuildHive, ReadHive, Stamp, SameUpToNuls, Utf16, ValidFileName;
    AcceptedName(t, tFile, tSpec, nfc);
    AcceptedName(u, uFile, uSpec, nfc);
    HiveRoundTrip(t, tFile, tSpec, nfc);
    HiveRoundTrip(u, uFile, uSpec, nfc);
    StampInjective(t, [], tSpec, u, [], uSpec);
    FieldRecovers(tFile, uFile);
  }

  lemma AcceptedName(t: KeyTree, fileName: Text, spec: TimestampSpec, nfc: Text -> bool)
    requires ValidTimestamps(spec) && BuildHive(t, fileName, spec, nfc).Ok?
    ensures ValidFileName(fileName)
  {
  }

  // ---- checksum ----------------------------------------------------------------------------

  lemma XorCancels(x: bv32, a: bv32, b: bv32)
    ensures Xor(x, a) == Xor(x, b) ==> a == b
    ensures Xor(a, x) == Xor(b, x) ==> a == b
  {
  }

  lemma {:induction false} XorWordsDiffer(a: Octets, b: Octets, i: nat, n: nat)
    requires 4 * n <= |a| == |b|
    requires forall j :: 0 <= j < n && j != i ==> WordAt(a, j) == WordAt(b, j)
    requires i < n ==> WordAt(a, i) != WordAt(b, i)
    ensures i < n ==> XorWords(a, n) != XorWords(b, n)
    ensures i >= n ==> XorWords(a, n) == XorWords(b, n)
  {
    hide WordAt, Xor;
    if n > 0 {
      XorWordsDiffer(a, b, i, n - 1);
      XorCancels(WordAt(b, n - 1), XorWords(a, n - 1), XorWords(b, n - 1));
      XorCancels(XorWords(b, n - 1), WordAt(a, n - 1), WordAt(b, n - 1));
    }
  }

  predicate Reserved(x: bv32) {
    x == 0 || x == 0xFFFF_FFFF || x == 1 || x == 0xFFFF_FFFE
  }

  lemma AdjustCollides(x: bv32, y: bv32)
    requires x != y
    ensures Adjust(x) == Adjust(y) <==> Reserved(x) && Xor(x, y) == 1
  {
    hide Xor;
    LowBitNeighbour(x, y);
    if x == 0 {
    } else if x == 0xFFFF_FFFF {
    } else if y == 0 {
    } else if y == 0xFFFF_FFFF {
    }
  }

  /** Differing in the low bit only: for the words the adjustment touches, read off as constants. */
  lemma LowBitNeighbour(x: bv32, y: bv32)
    ensures x == 0 ==> (Xor(x, y) == 1 <==> y == 1)
    ensures x == 0xFFFF_FFFF ==> (Xor(x, y) == 1 <==> y == 0xFFFF_FFFE)
    ensures y == 0 ==> (Xor(x, y) == 1 <==> x == 1)
    ensures y == 0xFFFF_FFFF ==> (Xor(x, y) == 1 <==> x == 0xFFFF_FFFE)
    ensures x == 1 ==> (Xor(x, y) == 1 <==> y == 0)
    ensures x == 0xFFFF_FFFE ==> (Xor(x, y) == 1 <==> y == 0xFFFF_FFFF)
  {
    if x == 0 {
    } else if x == 0xFFFF_FFFF {
    } else if x == 1 {
    } else if x == 0xFFFF_FFFE {
    }
  }

  /** Changing any one word of a header changes its checksum, except exactly when the two XORs
      differ only in the low bit of a reserved value, where the adjustment makes them meet. */
  lemma ChecksumDetectsOneWord(a: Octets, b: Octets, i: nat)
    requires |a| == |b| == BASE_HEADER && i < 127
    requires WordAt(a, i) != WordAt(b, i)
    requires forall j :: 0 <= j < 127 && j != i ==> WordAt(a, j) == WordAt(b, j)
    ensures Checksum(a) == Checksum(b) <==> Reserved(XorWords(a, 127)) && Xor(XorWords(a, 127), XorWords(b, 127)) == 1
  {
    hide XorWords, WordAt, Reserved, Adjust, Xor;
    XorWordsDiffer(a, b, i, 127);
    AdjustCollides(XorWords(a, 127), XorWords(b, 127));
    if Checksum(a) == Checksum(b) {
      BvIntInjective(Adjust(XorWords(a, 127)), Adjust(XorWords(b, 127)));
    }
  }

  lemma BvIntInjective(x: bv32, y: bv32)
    requires x as int == y as int
    ensures x == y
  {
    assert (x as int) as bv32 == x && (y as int) as bv32 == y;
  }
}
