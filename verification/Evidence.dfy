// The tree evidence of check_python_support.py: entries are sorted by encoded path and fed to a
// digest as length-delimited fields.  Claims are about the octets fed, not about the hash.
module Evidence {
  import opened Bytes
  import opened Unicode
  import opened TextOrder

  const MAX_PATH_BYTES: nat := 16_384

  /** `sha256` is the digest of the file's bytes, 32 octets. */
  datatype Entry =
    | Directory(path: Text, mode: nat)
    | File(path: Text, mode: nat, size: nat, sha256: Octets)

  /** What the walk guarantees of an entry before it is recorded. */
  predicate EntryOk(e: Entry) {
    && Encodable(e.path) && |Utf8(e.path)| <= MAX_PATH_BYTES
    && e.mode < 0x1000
    && (e.File? ==> e.size <= 0x8000_0000 && |e.sha256| == 32)
  }

  predicate AllOk(entries: seq<Entry>) {
    forall i :: 0 <= i < |entries| ==> EntryOk(entries[i])
  }

  // ---- fields --------------------------------------------------------------------------------

  /** `_field`: an eight-octet big-endian length, then the payload. */
  function Field(payload: Octets): Octets
    requires |payload| < Pow256(8)
  {
    BigEndian(|payload|, 8) + payload
  }

  /** A field tells where it ends. */
  lemma FieldSplits(a: Octets, b: Octets, x: Octets, y: Octets)
    requires |a| < Pow256(8) && |b| < Pow256(8)
    requires Field(a) + x == Field(b) + y
    ensures a == b && x == y
  {
    hide BigEndian, Pow256;
    var s := Field(a) + x;
    assert s[..8] == BigEndian(|a|, 8);
    assert s[..8] == BigEndian(|b|, 8) by { assert (Field(b) + y)[..8] == BigEndian(|b|, 8); }
    BigEndianInjective(|a|, |b|, 8);
    assert a == s[8..8 + |a|];
    assert b == (Field(b) + y)[8..8 + |b|];
    assert x == s[8 + |a|..];
    assert y == (Field(b) + y)[8 + |b|..];
  }

  const DIRECTORY: Octets := [0x64, 0x69, 0x72, 0x65, 0x63, 0x74, 0x6F, 0x72, 0x79]
  const FILE: Octets := [0x66, 0x69, 0x6C, 0x65]

  function Kind(e: Entry): Octets {
    if e.Directory? then DIRECTORY else FILE
  }

  lemma Widths()
    ensures Pow256(4) == 0x1_0000_0000 && Pow256(8) == 0x1_0000_0000_0000_0000
  {
    Pow256Values();
  }

  /** The fields of one entry, in the order they are fed. */
  function Fields(e: Entry): (fields: seq<Octets>)
    requires EntryOk(e)
    ensures |fields| == if e.Directory? then 3 else 5
    ensures Short(fields)
  {
    Widths();
    var start := [Kind(e), Utf8(e.path), BigEndian(e.mode, 4)];
    if e.Directory? then start else start + [BigEndian(e.size, 8), e.sha256]
  }

  /** The length prefix of every field fits its eight octets. */
  predicate Short(fields: seq<Octets>) {
    forall f <- fields :: |f| < Pow256(8)
  }

  function Feed(fields: seq<Octets>): Octets
    requires Short(fields)
  {
    if fields == [] then []
    else
      Field(fields[0]) + Feed(fields[1..])
  }

  function Stream(entries: seq<Entry>): Octets
    requires AllOk(entries)
  {
    if entries == [] then [] else Feed(Fields(entries[0])) + Stream(entries[1..])
  }

  /** Equal field streams of equally many fields are equal field by field. */
  lemma {:induction false} FeedSplits(a: seq<Octets>, b: seq<Octets>, x: Octets, y: Octets)
    requires |a| == |b|
    requires Short(a) && Short(b)
    requires Feed(a) + x == Feed(b) + y
    ensures a == b && x == y
  {
    hide Pow256, Field;
    if a != [] {
      assert a[0] in a && b[0] in b;
      ConcatAssociative(Field(a[0]), Feed(a[1..]), x);
      ConcatAssociative(Field(b[0]), Feed(b[1..]), y);
      FieldSplits(a[0], b[0], Feed(a[1..]) + x, Feed(b[1..]) + y);
      FeedSplits(a[1..], b[1..], x, y);
      assert a == [a[0]] + a[1..] && b == [b[0]] + b[1..];
    } else {
      assert [] + x == x && [] + y == y;
    }
  }

  /** An entry's fields determine the entry. */
  lemma FieldsInjective(a: Entry, b: Entry)
    requires EntryOk(a) && EntryOk(b) && Fields(a) == Fields(b)
    ensures a == b
  {
    Widths();
    var f, g := Fields(a), Fields(b);
    assert f[1] == g[1] && f[2] == g[2];
    Utf8Injective(a.path, b.path);
    BigEndianInjective(a.mode, b.mode, 4);
    if a.File? {
      assert f[3] == g[3] && f[4] == g[4];
      BigEndianInjective(a.size, b.size, 8);
    }
  }

  /** The kind field comes first, so two entries' octets agree only between entries of one kind. */
  lemma SameKind(a: Entry, b: Entry, x: Octets, y: Octets)
    requires EntryOk(a) && EntryOk(b) && Feed(Fields(a)) + x == Feed(Fields(b)) + y
    ensures a.Directory? <==> b.Directory?
  {
    hide Field, BigEndian;
    Widths();
    var f, g := Fields(a), Fields(b);
    ConcatAssociative(Field(f[0]), Feed(f[1..]), x);
    ConcatAssociative(Field(g[0]), Feed(g[1..]), y);
    FieldSplits(f[0], g[0], Feed(f[1..]) + x, Feed(g[1..]) + y);
    assert |DIRECTORY| == 9 && |FILE| == 4;
  }

  /** The stream is uniquely decodable: equal streams mean equal lists of entries. */
  lemma {:induction false} StreamDecodes(a: seq<Entry>, b: seq<Entry>)
    requires AllOk(a) && AllOk(b) && Stream(a) == Stream(b)
    ensures a == b
  {
    hide Feed, Fields, EntryOk;
    if a == [] || b == [] {
      if b != [] { FeedNonempty(b[0]); }
      if a != [] { FeedNonempty(a[0]); }
    } else {
      SameKind(a[0], b[0], Stream(a[1..]), Stream(b[1..]));
      FeedSplits(Fields(a[0]), Fields(b[0]), Stream(a[1..]), Stream(b[1..]));
      FieldsInjective(a[0], b[0]);
      StreamDecodes(a[1..], b[1..]);
      assert a == [a[0]] + a[1..] && b == [b[0]] + b[1..];
    }
  }

  lemma FeedNonempty(e: Entry)
    requires EntryOk(e)
    ensures Feed(Fields(e)) != []
  {
    hide BigEndian;
  }

  // ---- sorting -------------------------------------------------------------------------------

  /** The sort key: the path's UTF-8 octets. */
  function Key(e: Entry): Text {
    Utf8(e.path)
  }

  function Keys(entries: seq<Entry>): (keys: seq<Text>)
    ensures |keys| == |entries|
  {
    seq(|entries|, i requires 0 <= i < |entries| => Key(entries[i]))
  }

  function InsertEntry(e: Entry, s: seq<Entry>): (r: seq<Entry>)
    ensures multiset(r) == multiset(s) + multiset{e}
  {
    if s == [] then [e]
    else
      assert s == [s[0]] + s[1..];
      if !Before(Key(s[0]), Key(e)) then [e] + s else [s[0]] + InsertEntry(e, s[1..])
  }

  /** `entries.sort(key=...)`, which is stable. */
  function SortEntries(entries: seq<Entry>): (r: seq<Entry>)
    ensures multiset(r) == multiset(entries)
  {
    if entries == [] then []
    else
      assert entries == [entries[0]] + entries[1..];
      InsertEntry(entries[0], SortEntries(entries[1..]))
  }

  lemma InsertUnfold(x: Text, s: seq<Text>)
    requires Ascending(s)
    ensures Ascending(if s == [] then [] else s[1..])
    ensures Insert(x, s) == if s == [] then [x] else if !Before(s[0], x) then [x] + s else [s[0]] + Insert(x, s[1..])
  {
    hide Before, Ascending;
    AscendingTail(s);
    if s != [] {
      BeforeTotal(x, s[0]);
      if Before(s[0], x) { BeforeAsymmetric(s[0], x); }
    }
  }

  lemma AscendingTail(s: seq<Text>)
    requires Ascending(s)
    ensures Ascending(if s == [] then [] else s[1..])
  {
    hide Before;
  }

  lemma {:induction false} InsertKeys(e: Entry, s: seq<Entry>)
    requires Ascending(Keys(s))
    ensures Keys(InsertEntry(e, s)) == Insert(Key(e), Keys(s))
  {
    hide Before, Key, Keys, Insert, Ascending, InsertEntry;
    InsertUnfold(Key(e), Keys(s));
    KeysOf(e, s);
    if s != [] && Before(Key(s[0]), Key(e)) {
      InsertKeys(e, s[1..]);
      KeysOf(s[0], InsertEntry(e, s[1..]));
    }
  }

  /** Keys of a list with one more entry in front, and of a list's tail. */
  lemma KeysOf(e: Entry, s: seq<Entry>)
    ensures Keys([e] + s) == [Key(e)] + Keys(s)
    ensures s != [] ==> Keys(s)[0] == Key(s[0]) && Keys(s[1..]) == Keys(s)[1..]
    ensures InsertEntry(e, s) ==
              if s == [] then [e] else if !Before(Key(s[0]), Key(e)) then [e] + s else [s[0]] + InsertEntry(e, s[1..])
    ensures s == [] ==> [e] + s == [e]
  {
    hide Key, Before;
  }

  lemma {:induction false} SortedKeys(entries: seq<Entry>)
    ensures Keys(SortEntries(entries)) == Sort(Keys(entries))
  {
    hide Key, Insert, InsertEntry;
    if entries != [] {
      SortedKeys(entries[1..]);
      assert Keys(entries[1..]) == Keys(entries)[1..];
      InsertKeys(entries[0], SortEntries(entries[1..]));
    }
  }

  // ---- the digest ----------------------------------------------------------------------------

  /** "artifactforge-fixture-tree-evidence-v1" and a NUL. */
  function Header(): Octets {
    [
    0x61, 0x72, 0x74, 0x69, 0x66, 0x61, 0x63, 0x74, 0x66, 0x6F, 0x72, 0x67, 0x65, 0x2D, 0x66, 0x69, 0x78, 0x74, 0x75, 0x72,
    0x65, 0x2D, 0x74, 0x72, 0x65, 0x65, 0x2D, 0x65, 0x76, 0x69, 0x64, 0x65, 0x6E, 0x63, 0x65, 0x2D, 0x76, 0x31, 0x00]
  }

  function TreeStream(entries: seq<Entry>): Octets
    requires AllOk(entries)
  {
    SortedOk(entries);
    Header() + Stream(SortEntries(entries))
  }

  lemma SortedOk(entries: seq<Entry>)
    requires AllOk(entries)
    ensures AllOk(SortEntries(entries))
  {
    hide EntryOk, SortEntries;
    forall i | 0 <= i < |SortEntries(entries)| ensures EntryOk(SortEntries(entries)[i]) {
      assert SortEntries(entries)[i] in multiset(SortEntries(entries));
      assert SortEntries(entries)[i] in entries;
    }
  }

  /** A tree lists no path twice. */
  predicate OnePerPath(entries: seq<Entry>) {
    forall i, j :: 0 <= i < j < |entries| ==> entries[i].path != entries[j].path
  }

  /** Entries with distinct paths have one arrangement by key. */
  lemma SortedUnique(a: seq<Entry>, b: seq<Entry>)
    requires OnePerPath(a) && multiset(a) == multiset(b)
    ensures SortEntries(a) == SortEntries(b)
  {
    hide SortEntries, Before, Sort;
    var s, t := SortEntries(a), SortEntries(b);
    SortedKeys(a);
    SortedKeys(b);
    KeysPermuted(a, b);
    AscendingUnique(Sort(Keys(a)), Sort(Keys(b)));
    assert |Keys(s)| == |Keys(t)|;
    forall i | 0 <= i < |s| ensures s[i] == t[i] {
      assert Keys(s)[i] == Keys(t)[i];
      Utf8Injective(s[i].path, t[i].path);
      assert s[i] in multiset(s) && t[i] in multiset(t);
      assert s[i] in multiset(a) && t[i] in multiset(a);
      var j :| 0 <= j < |a| && a[j] == s[i];
      var k :| 0 <= k < |a| && a[k] == t[i];
    }
  }

  lemma {:induction false} KeysPermuted(a: seq<Entry>, b: seq<Entry>)
    requires multiset(a) == multiset(b)
    ensures multiset(Keys(a)) == multiset(Keys(b))
  {
    hide Key;
    assert |multiset(a)| == |a| && |multiset(b)| == |b|;
    if a != [] {
      var i := TakeOut(a, b);
      var before, after := b[..i], b[i + 1..];
      KeysPermuted(a[1..], before + after);
      assert Keys(a) == [Key(a[0])] + Keys(a[1..]);
      assert Keys(b) == Keys(before) + ([Key(b[i])] + Keys(after));
      assert Keys(before + after) == Keys(before) + Keys(after);
      MultisetSplit([Key(a[0])], Keys(a[1..]));
      MultisetSplit(Keys(before), [Key(b[i])] + Keys(after));
      MultisetSplit([Key(b[i])], Keys(after));
      MultisetSplit(Keys(before), Keys(after));
    }
  }

  /** The digested octets depend on the set of entries and on nothing else, and determine it. */
  lemma StreamIsTheSet(a: seq<Entry>, b: seq<Entry>)
    requires AllOk(a) && AllOk(b) && OnePerPath(a) && OnePerPath(b)
    ensures TreeStream(a) == TreeStream(b) <==> multiset(a) == multiset(b)
  {
    hide Stream, SortEntries, EntryOk, OnePerPath, Header;
    SortedOk(a);
    SortedOk(b);
    if multiset(a) == multiset(b) { SortedUnique(a, b); }
    if TreeStream(a) == TreeStream(b) {
      SplitConcat(Header(), Stream(SortEntries(a)));
      SplitConcat(Header(), Stream(SortEntries(b)));
      StreamDecodes(SortEntries(a), SortEntries(b));
    }
  }

  /** A running digest, seen as the octets it was fed. */
  class Digest {
    var fed: Octets

    constructor ()
      ensures fed == []
    {
      fed := [];
    }

    method Update(payload: Octets)
      modifies this
      ensures fed == old(fed) + payload
    {
      fed := fed + payload;
    }

    /** `_field`. */
    method AddField(payload: Octets)
      requires |payload| < Pow256(8)
      modifies this
      ensures fed == old(fed) + Field(payload)
    {
      hide Pow256, BigEndian;
      ConcatAssociative(fed, BigEndian(|payload|, 8), payload);
      Update(BigEndian(|payload|, 8));
      Update(payload);
    }

    method AddEntry(e: Entry)
      requires EntryOk(e)
      modifies this
      ensures fed == old(fed) + Feed(Fields(e))
    {
      hide Field, BigEndian, Pow256;
      Widths();
      ghost var fields := Fields(e);
      AddField(Kind(e));
      AddField(Utf8(e.path));
      AddField(BigEndian(e.mode, 4));
      if e.File? {
        AddField(BigEndian(e.size, 8));
        AddField(e.sha256);
      }
      FeedFields(e, old(fed));
    }
  }

  lemma FeedFields(e: Entry, start: Octets)
    requires EntryOk(e)
    ensures Pow256(4) == 0x1_0000_0000 && Pow256(8) == 0x1_0000_0000_0000_0000
    ensures var three := start + Field(Kind(e)) + Field(Utf8(e.path)) + Field(BigEndian(e.mode, 4));
            start + Feed(Fields(e)) == if e.Directory? then three else three + Field(BigEndian(e.size, 8)) + Field(e.sha256)
  {
    hide Field, BigEndian, Pow256, Feed, Utf8, Short;
    Widths();
    var kind, path, mode := Kind(e), Utf8(e.path), BigEndian(e.mode, 4);
    var three := start + Field(kind) + Field(path) + Field(mode);
    FeedNone(three);
    if e.Directory? {
      assert Fields(e) == [kind] + ([path] + ([mode] + []));
      FeedThree(start, kind, path, mode, []);
    } else {
      var size := BigEndian(e.size, 8);
      assert Fields(e) == [kind] + ([path] + ([mode] + ([size] + ([e.sha256] + []))));
      FeedNone(three + Field(size) + Field(e.sha256));
      FeedOne(three + Field(size), e.sha256, []);
      FeedOne(three, size, [e.sha256] + []);
      FeedThree(start, kind, path, mode, [size] + ([e.sha256] + []));
    }
  }

  lemma FeedThree(start: Octets, x: Octets, y: Octets, z: Octets, rest: seq<Octets>)
    requires |x| < Pow256(8) && |y| < Pow256(8) && |z| < Pow256(8) && Short(rest)
    ensures Short([x] + ([y] + ([z] + rest)))
    ensures start + Feed([x] + ([y] + ([z] + rest))) == start + Field(x) + Field(y) + Field(z) + Feed(rest)
  {
    hide Field, Pow256, Feed, Short;
    FeedOne(start + Field(x) + Field(y), z, rest);
    FeedOne(start + Field(x), y, [z] + rest);
    FeedOne(start, x, [y] + ([z] + rest));
  }

  lemma FeedOne(start: Octets, x: Octets, rest: seq<Octets>)
    requires |x| < Pow256(8) && Short(rest)
    ensures Short([x] + rest) && start + Feed([x] + rest) == start + Field(x) + Feed(rest)
  {
    hide Field, Pow256;
    assert ([x] + rest)[1..] == rest;
    ConcatAssociative(start, Field(x), Feed(rest));
  }

  lemma FeedNone(start: Octets)
    ensures Short([]) && start + Feed([]) == start
  {
  }

  /** The closing loop of `fixture_tree_evidence`. */
  method DigestTree(entries: seq<Entry>) returns (digest: Digest, fileCount: nat, directoryCount: nat)
    requires AllOk(entries)
    ensures fresh(digest) && digest.fed == TreeStream(entries)
    ensures fileCount + directoryCount == |entries| && directoryCount == Directories(SortEntries(entries))
  {
    hide Feed, Fields, EntryOk, SortEntries, Header;
    var sorted := SortEntries(entries);
    SortedOk(entries);
    assert |multiset(sorted)| == |multiset(entries)|;
    digest := new Digest();
    digest.Update(Header());
    assert [] + Header() == Header();
    fileCount, directoryCount := 0, 0;
    var i := 0;
    assert sorted[0..] == sorted;
    while i < |sorted|
      invariant 0 <= i <= |sorted| == |entries| && fresh(digest)
      invariant fileCount + directoryCount == i && directoryCount == Directories(sorted[..i])
      invariant digest.fed + Stream(sorted[i..]) == TreeStream(entries)
    {
      assert sorted[i..][0] == sorted[i] && sorted[i..][1..] == sorted[i + 1..];
      assert sorted[..i + 1][..i] == sorted[..i];
      ConcatAssociative(digest.fed, Feed(Fields(sorted[i])), Stream(sorted[i + 1..]));
      digest.AddEntry(sorted[i]);
      if sorted[i].Directory? { directoryCount := directoryCount + 1; } else { fileCount := fileCount + 1; }
      i := i + 1;
    }
    assert sorted[..i] == sorted;
  }

  function Directories(entries: seq<Entry>): nat {
    if entries == [] then 0
    else Directories(entries[..|entries| - 1]) + if entries[|entries| - 1].Directory? then 1 else 0
  }

  // ---- the sort key is code point order ------------------------------------------------------

  lemma {:induction false} BeforeAt(a: Text, b: Text, k: nat)
    requires k < |a| && k < |b| && a[..k] == b[..k] && a[k] < b[k]
    ensures Before(a, b)
  {
    if k > 0 {
      assert a[0] == a[..k][0] == b[0];
      assert a[1..][..k - 1] == a[..k][1..] && b[1..][..k - 1] == b[..k][1..];
      BeforeAt(a[1..], b[1..], k - 1);
    }
  }

  /** A smaller code point has smaller octets. */
  lemma UnitOrder(c: CodePoint, d: CodePoint, x: Octets, y: Octets)
    requires c < d
    ensures Before(Utf8Unit(c) + x, Utf8Unit(d) + y)
  {
    var u, v := Utf8Unit(c), Utf8Unit(d);
    FirstDifference(c, d);
    var k: nat :| Splits(u, v, k);
    assert (u + x)[..k] == u[..k] && (v + y)[..k] == v[..k];
    BeforeAt(u + x, v + y, k);
  }

  /** The octets agree up to the first one that differs, and there they are ordered like the code points. */
  ghost predicate Splits(u: Octets, v: Octets, k: nat) {
    k < |u| && k < |v| && u[..k] == v[..k] && u[k] < v[k]
  }

  lemma FirstDifference(c: CodePoint, d: CodePoint)
    requires c < d
    ensures exists k: nat :: Splits(Utf8Unit(c), Utf8Unit(d), k)
  {
    hide Utf8Unit, Splits;
    LeadOctet(c, d);
    if |Utf8Unit(c)| < |Utf8Unit(d)| {
      SplitsAt(Utf8Unit(c), Utf8Unit(d), 0);
    } else if d < 0x80 {
      SplitsShort(c, d);
    } else if d < 0x800 {
      SplitsShort(c, d);
    } else if d < 0x1_0000 {
      SplitsThree(c, d);
    } else {
      SplitsFour(c, d);
    }
  }

  lemma SplitsAt(u: Octets, v: Octets, k: nat)
    requires k < |u| && k < |v| && u[..k] == v[..k] && u[k] < v[k]
    ensures Splits(u, v, k)
  {
  }

  /** More octets need a greater first one. */
  lemma LeadOctet(c: CodePoint, d: CodePoint)
    requires c < d
    ensures |Utf8Unit(c)| <= |Utf8Unit(d)|
    ensures |Utf8Unit(c)| < |Utf8Unit(d)| ==> Utf8Unit(c)[0] < Utf8Unit(d)[0]
    ensures |Utf8Unit(c)| == |Utf8Unit(d)| ==> (c < 0x80 <==> d < 0x80) && (c < 0x800 <==> d < 0x800) && (c < 0x1_0000 <==> d < 0x1_0000)
  {
  }

  lemma SplitsShort(c: CodePoint, d: CodePoint)
    requires c < d < 0x80 || 0x80 <= c < d < 0x800
    ensures exists k: nat :: Splits(Utf8Unit(c), Utf8Unit(d), k)
  {
    SplitsAt(Utf8Unit(c), Utf8Unit(d), if c / 0x40 != d / 0x40 then 0 else |Utf8Unit(c)| - 1);
  }

  lemma SplitsThree(c: CodePoint, d: CodePoint)
    requires 0x800 <= c < d < 0x1_0000
    ensures exists k: nat :: Splits(Utf8Unit(c), Utf8Unit(d), k)
  {
    var p, q := c / 0x40, d / 0x40;
    SplitsAt(Utf8Unit(c), Utf8Unit(d), if p / 0x40 != q / 0x40 then 0 else if p != q then 1 else 2);
  }

  lemma SplitsFour(c: CodePoint, d: CodePoint)
    requires 0x1_0000 <= c < d
    ensures exists k: nat :: Splits(Utf8Unit(c), Utf8Unit(d), k)
  {
    var p, q := c / 0x40, d / 0x40;
    var r, s := p / 0x40, q / 0x40;
    SplitsAt(Utf8Unit(c), Utf8Unit(d), if r / 0x40 != s / 0x40 then 0 else if r != s then 1 else if p != q then 2 else 3);
  }

  lemma {:induction false} BeforeAfterCommon(p: Text, a: Text, b: Text)
    ensures Before(p + a, p + b) <==> Before(a, b)
  {
    if p == [] {
      assert p + a == a && p + b == b;
    } else {
      BeforeAfterCommon(p[1..], a, b);
      assert (p + a)[1..] == p[1..] + a && (p + b)[1..] == p[1..] + b;
    }
  }

  /** Sorting paths by their UTF-8 octets is sorting them by code point, so this order is the one
      `sorted` gives the same paths elsewhere. */
  lemma {:induction false} KeyOrderIsTextOrder(a: Text, b: Text)
    ensures Before(Utf8(a), Utf8(b)) <==> Before(a, b)
  {
    if a == [] || b == [] {
    } else if a[0] == b[0] {
      KeyOrderIsTextOrder(a[1..], b[1..]);
      BeforeAfterCommon(Utf8Unit(a[0]), Utf8(a[1..]), Utf8(b[1..]));
    } else if a[0] < b[0] {
      UnitOrder(a[0], b[0], Utf8(a[1..]), Utf8(b[1..]));
    } else {
      UnitOrder(b[0], a[0], Utf8(b[1..]), Utf8(a[1..]));
      BeforeAsymmetric(Utf8(b), Utf8(a));
    }
  }

  // ---- a decoder of the stream -----------------------------------------------------------------

  /** An entry as it can be read off the octets: the path stays encoded. */
  datatype Record =
    | DirectoryRecord(path: Octets, mode: nat)
    | FileRecord(path: Octets, mode: nat, size: nat, sha256: Octets)

  datatype Taken = Nothing | Payload(octets: Octets, rest: Octets)

  /** One length-delimited field off the front. */
  function Take(s: Octets): Taken {
    if |s| < 8 then Nothing
    else
      var n := FromBigEndian(s[..8]);
      if |s| < 8 + n then Nothing else Payload(s[8..8 + n], s[8 + n..])
  }

  datatype Decoded = Malformed | Next(record: Record, rest: Octets)

  /** One entry: the word for its kind, its path, four octets of mode; for a file eight octets of size and
      the digest of its bytes. */
  function DecodeOne(s: Octets): Decoded {
    match Take(s)
    case Nothing => Malformed
    case Payload(kind, afterKind) =>
      match Take(afterKind)
      case Nothing => Malformed
      case Payload(path, afterPath) =>
        match Take(afterPath)
        case Nothing => Malformed
        case Payload(mode, afterMode) =>
          if |mode| != 4 then Malformed
          else if kind == Literal("directory") then Next(DirectoryRecord(path, FromBigEndian(mode)), afterMode)
          else if kind != Literal("file") then Malformed
          else
            match Take(afterMode)
            case Nothing => Malformed
            case Payload(size, afterSize) =>
              match Take(afterSize)
              case Nothing => Malformed
              case Payload(sha256, rest) =>
                if |size| != 8 then Malformed else Next(FileRecord(path, FromBigEndian(mode), FromBigEndian(size), sha256), rest)
  }

  function RecordOf(e: Entry): Record {
    match e
    case Directory(path, mode) => DirectoryRecord(Utf8(path), mode)
    case File(path, mode, size, sha256) => FileRecord(Utf8(path), mode, size, sha256)
  }

  function Records(entries: seq<Entry>): (records: seq<Record>)
    ensures |records| == |entries|
  {
    seq(|entries|, i requires 0 <= i < |entries| => RecordOf(entries[i]))
  }

  function DecodeSome(s: Octets, n: nat): (seq<Record>, Octets)
    decreases n
  {
    if n == 0 then ([], s)
    else
      match DecodeOne(s)
      case Malformed => ([], s)
      case Next(record, rest) => var (more, end) := DecodeSome(rest, n - 1); ([record] + more, end)
  }

  lemma TakeField(payload: Octets, rest: Octets)
    requires |payload| < Pow256(8)
    ensures Take(Field(payload) + rest) == Payload(payload, rest)
  {
    hide BigEndian, FromBigEndian, Pow256;
    var size := BigEndian(|payload|, 8);
    var s := Field(payload) + rest;
    assert s[..8] == size && s[8..8 + |payload|] == payload && s[8 + |payload|..] == rest;
    BigEndianRoundTrip(|payload|, 8);
  }

  lemma Words()
    ensures DIRECTORY == Literal("directory") && FILE == Literal("file") && DIRECTORY != FILE
  {
    assert |DIRECTORY| == 9 && |FILE| == 4;
  }

  lemma DecodeDirectory(path: Octets, mode: Octets, rest: Octets)
    requires |path| < Pow256(8) && |mode| == 4 < Pow256(8) && |DIRECTORY| < Pow256(8)
    ensures DecodeOne(Field(DIRECTORY) + (Field(path) + (Field(mode) + rest))) == Next(DirectoryRecord(path, FromBigEndian(mode)), rest)
  {
    hide Take, Field, FromBigEndian, Pow256, Literal;
    Words();
    TakeField(DIRECTORY, Field(path) + (Field(mode) + rest));
    TakeField(path, Field(mode) + rest);
    TakeField(mode, rest);
  }

  lemma DecodeFile(path: Octets, mode: Octets, size: Octets, sha256: Octets, rest: Octets)
    requires |path| < Pow256(8) && |mode| == 4 < |size| == 8 < Pow256(8) && |sha256| < Pow256(8) && |FILE| < Pow256(8)
    ensures DecodeOne(Field(FILE) + (Field(path) + (Field(mode) + (Field(size) + (Field(sha256) + rest)))))
         == Next(FileRecord(path, FromBigEndian(mode), FromBigEndian(size), sha256), rest)
  {
    hide Take, Field, FromBigEndian, Pow256, Literal;
    Words();
    TakeField(FILE, Field(path) + (Field(mode) + (Field(size) + (Field(sha256) + rest))));
    TakeField(path, Field(mode) + (Field(size) + (Field(sha256) + rest)));
    TakeField(mode, Field(size) + (Field(sha256) + rest));
    TakeField(size, Field(sha256) + rest);
    TakeField(sha256, rest);
  }

  /** The entry at the front of the stream is what the decoder reads, field by field. */
  lemma DecodeEntry(e: Entry, rest: Octets)
    requires EntryOk(e)
    ensures DecodeOne(Feed(Fields(e)) + rest) == Next(RecordOf(e), rest)
  {
    hide DecodeOne, Field, BigEndian, FromBigEndian, Pow256, Utf8, Feed, Fields;
    Widths();
    FeedFields(e, []);
    NothingBefore(Feed(Fields(e)));
    BigEndianRoundTrip(e.mode, 4);
    var path, mode := Utf8(e.path), BigEndian(e.mode, 4);
    if e.Directory? {
      FourParts(Field(DIRECTORY), Field(path), Field(mode), rest);
      DecodeDirectory(path, mode, rest);
    } else {
      var size := BigEndian(e.size, 8);
      BigEndianRoundTrip(e.size, 8);
      SixParts(Field(FILE), Field(path), Field(mode), Field(size), Field(e.sha256), rest);
      DecodeFile(path, mode, size, e.sha256, rest);
    }
  }

  lemma NothingBefore(s: Octets)
    ensures [] + s == s
  {
  }

  lemma FourParts(a: Octets, b: Octets, c: Octets, d: Octets)
    ensures [] + a + b + c + d == a + (b + (c + d))
  {
  }

  lemma SixParts(a: Octets, b: Octets, c: Octets, d: Octets, e: Octets, f: Octets)
    ensures [] + a + b + c + d + e + f == a + (b + (c + (d + (e + f))))
  {
  }

  lemma {:induction false} DecodeStream(entries: seq<Entry>)
    requires AllOk(entries)
    ensures DecodeSome(Stream(entries), |entries|) == (Records(entries), [])
  {
    hide EntryOk, DecodeOne, Feed, Fields, RecordOf;
    if entries != [] {
      DecodeEntry(entries[0], Stream(entries[1..]));
      DecodeStream(entries[1..]);
      assert Records(entries) == [RecordOf(entries[0])] + Records(entries[1..]);
    }
  }

  /** What is digested is the schema's name with a zero octet, and after it, for a decoder that follows the
      source's order of fields, one record for each entry in the order of the encoded paths. */
  lemma StreamIsRead(entries: seq<Entry>)
    requires AllOk(entries)
    ensures var schema := Literal("artifactforge-fixture-tree-evidence-v1") + [0];
            var sorted := SortEntries(entries);
            && |schema| <= |TreeStream(entries)| && TreeStream(entries)[..|schema|] == schema
            && DecodeSome(TreeStream(entries)[|schema|..], |sorted|)
               == (Records(sorted), [])
  {
    hide EntryOk, Stream, DecodeSome, SortEntries, RecordOf, Literal, Header;
    HeaderIs();
    SortedOk(entries);
    DecodeStream(SortEntries(entries));
    SplitConcat(Header(), Stream(SortEntries(entries)));
  }

  lemma HeaderIs()
    ensures Header() == Literal("artifactforge-fixture-tree-evidence-v1") + [0]
  {
  }
}
