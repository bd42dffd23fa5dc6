// The round trip of inventory.py: writing a canonical set of files into a private directory always
// succeeds, and taking inventory of the result gives back exactly those files.
module CapturedTree {
  import opened Bytes
  import opened Unicode
  import opened Wrappers
  import opened TextOrder
  import opened RelativePaths
  import opened Disk
  import opened DiskMeaning
  import opened DiskTree
  import opened Materialize
  import opened Freeze
  import opened Walkers

  // ---- canonical paths never get in each other's way -----------------------------------------

  /** The text before the last component of a joined path. */
  function Lead(parts: Parts): Text {
    if parts == [] then [] else Join(parts) + [SLASH]
  }

  lemma {:induction false} JoinLast(parts: Parts, name: Text)
    ensures Join(parts + [name]) == Lead(parts) + name
  {
    var all := parts + [name];
    if parts == [] {
      assert all == [name];
    } else {
      JoinLast(parts[1..], name);
      assert all[1..] == parts[1..] + [name];
      if |parts| > 1 {
        var head := parts[0] + [SLASH];
        assert head + ((Join(parts[1..]) + [SLASH]) + name) == ((head + Join(parts[1..])) + [SLASH]) + name;
      }
    }
  }

  lemma FoldConcat(a: Text, b: Text)
    ensures Fold(a + b) == Fold(a) + Fold(b)
  {
  }

  lemma AlikeOfPaths(p: Text, q: Text)
    requires !PathsClash(p, q)
    ensures SpelledAlike(Split(p), Split(q))
  {
    hide Fold, Join, Split, Lead;
    var f, rel := Split(p), Split(q);
    forall k | 0 <= k < |f| && k < |rel| && f[..k] == Above(rel, k) && Fold(f[k]) == Fold(rel[k]) ensures f[k] == rel[k] {
      var d, e := Prefix(p, k + 1), Prefix(q, k + 1);
      assert f[..k + 1] == f[..k] + [f[k]] && rel[..k + 1] == f[..k] + [rel[k]];
      JoinLast(f[..k], f[k]);
      JoinLast(f[..k], rel[k]);
      FoldConcat(Lead(f[..k]), f[k]);
      FoldConcat(Lead(f[..k]), rel[k]);
      assert IsPrefix(d, p) && IsPrefix(e, q) && !Clash(d, e);
      SplitConcat(Lead(f[..k]), f[k]);
      SplitConcat(Lead(f[..k]), rel[k]);
    }
  }

  lemma PrefixIsAncestor(p: Text, q: Text)
    requires Split(p) <= Split(q)
    ensures p == q || IsAncestor(p, q)
  {
    hide Join, Split;
    JoinSplit(p);
    JoinSplit(q);
    var k := |Split(p)|;
    assert Split(q)[..k] == Split(p);
    assert Prefix(q, k) == p;
    if k == |Split(q)| { assert Split(p) == Split(q); }
  }

  /** The files a list of captured entries denotes. */
  function FilesOf(entries: seq<FileEntry>): Files {
    if entries == [] then map[]
    else
      var last := |entries| - 1;
      FilesOf(entries[..last])[Split(entries[last].path) := entries[last].data]
  }

  lemma {:induction false} FilesOfKeys(entries: seq<FileEntry>, f: Parts)
    ensures f in FilesOf(entries) <==> exists e <- entries :: f == Split(e.path)
  {
    hide Split;
    if entries != [] {
      var last := |entries| - 1;
      FilesOfKeys(entries[..last], f);
      assert entries == entries[..last] + [entries[last]];
      assert forall e :: e in entries <==> e in entries[..last] || e == entries[last];
    }
  }

  lemma {:induction false} FilesOfData(entries: seq<FileEntry>, e: FileEntry)
    requires Distinct(Paths(entries)) && e in entries
    ensures Split(e.path) in FilesOf(entries) && FilesOf(entries)[Split(e.path)] == e.data
  {
    hide Split;
    var last := |entries| - 1;
    assert entries == entries[..last] + [entries[last]];
    if e != entries[last] {
      assert Paths(entries[..last]) == Paths(entries)[..last];
      FilesOfData(entries[..last], e);
      var i :| 0 <= i < last && entries[i] == e;
      assert Paths(entries)[i] == e.path && Paths(entries)[last] == entries[last].path;
      JoinSplit(e.path);
      JoinSplit(entries[last].path);
    }
  }

  lemma NextFits(entries: seq<FileEntry>, i: nat)
    requires Canonical(Paths(entries)) && i < |entries|
    ensures var rel := Split(entries[i].path);
            Free(FilesOf(entries[..i]), rel) && forall f <- FilesOf(entries[..i]) :: SpelledAlike(f, rel)
  {
    hide Split, SpelledAlike, IsAncestor, PathsClash, ValidRelativePath, FilesOf;
    var paths, path := Paths(entries), entries[i].path;
    assert paths[i] == path && path in paths;
    forall f | f in FilesOf(entries[..i])
      ensures !(f <= Split(path)) && !(Split(path) <= f) && SpelledAlike(f, Split(path))
    {
      FilesOfKeys(entries[..i], f);
      var e :| e in entries[..i] && f == Split(e.path);
      var j :| 0 <= j < i && entries[j] == e;
      assert paths[j] == e.path && e.path in paths;
      if f <= Split(path) { PrefixIsAncestor(e.path, path); }
      if Split(path) <= f { PrefixIsAncestor(path, e.path); }
      AlikeOfPaths(e.path, path);
    }
  }

  /** Every file of a canonical set, in the order given. */
  method WriteFiles(fs: FileSystem, entries: seq<FileEntry>, mode: Mode) returns (r: Result<(), WriteError>)
    requires Canonical(Paths(entries)) && mode <= 0x1FF
    requires fs.Holds(map[], []) && FilesHave(fs.nodes, mode)
    modifies fs`nodes, fs`next, fs`at
    ensures r.Ok? && fs.Holds(FilesOf(entries), []) && FilesHave(fs.nodes, mode)
  {
    hide OpenDirectories, FilesHave, Split, SpelledAlike, Stores, Free, ValidRelativePath, IsAncestor, PathsClash;
    var i := 0;
    assert FilesOf(entries[..0]) == map[];
    while i < |entries|
      invariant 0 <= i <= |entries|
      invariant fs.Holds(FilesOf(entries[..i]), []) && FilesHave(fs.nodes, mode)
    {
      NextFits(entries, i);
      NextFiles(entries, i);
      assert Paths(entries)[i] in Paths(entries);
      r := fs.WriteRegularFileAt(entries[i].path, entries[i].data, mode, FilesOf(entries[..i]));
      if r.Err? { return; }
      i := i + 1;
    }
    assert entries[..i] == entries;
    r := Ok(());
  }

  lemma NextFiles(entries: seq<FileEntry>, i: nat)
    requires i < |entries|
    ensures FilesOf(entries[..i + 1]) == FilesOf(entries[..i])[Split(entries[i].path) := entries[i].data]
  {
    assert entries[..i + 1][..i] == entries[..i];
  }

  // ---- a visit lists no path twice -----------------------------------------------------------

  lemma {:induction false} ResolveNoSlash(nodes: Nodes, ino: Ino, rel: Parts)
    requires WellNamed(nodes) && Resolve(nodes, ino, rel).Some?
    ensures AllNoSlash(rel)
    decreases |rel|
  {
    hide NoSlash, Distinct, Find, Names;
    if rel != [] {
      var entries := nodes[ino].entries;
      FindNamed(entries, rel[0]);
      ResolveNoSlash(nodes, Find(entries, rel[0]).value, rel[1..]);
      var i :| 0 <= i < |Names(entries)| && Names(entries)[i] == rel[0];
      assert rel == [rel[0]] + rel[1..];
    }
  }

  /** Everything listed through an entry has that entry's path as its beginning. */
  lemma VisitOneUnder(
    nodes: Nodes, entries: seq<Entry>, name: Text, parts: Parts, b: Bounds, f: FileEntry) returns (rel: Parts)
    requires WellNamed(nodes)
    requires VisitOne(nodes, entries, name, parts, b).Some? && f in VisitOne(nodes, entries, name, parts, b).value
    ensures AllNoSlash(rel) && f.path == Join(parts + [name] + rel)
  {
    hide WellNamed, VisitOne, Join, Resolve, NoSlash, Find;
    VisitOneLists(nodes, entries, name, parts, b, f);
    var found := Find(entries, name).value;
    if f.path == Join(parts + [name]) {
      rel := [];
      assert parts + [name] + [] == parts + [name];
    } else {
      rel :| rel != [] && FileAt(nodes, found, rel, f.data) && f.path == Join(parts + [name] + rel);
      ResolveNoSlash(nodes, found, rel);
    }
  }

  lemma {:induction false} VisitNamesFrom(
    nodes: Nodes, entries: seq<Entry>, names: seq<Text>, parts: Parts, b: Bounds, f: FileEntry) returns (name: Text)
    requires VisitNames(nodes, entries, names, parts, b).Some? && f in VisitNames(nodes, entries, names, parts, b).value
    ensures name in names && VisitOne(nodes, entries, name, parts, b).Some? && f in VisitOne(nodes, entries, name, parts, b).value
    decreases |names|
  {
    hide VisitOne;
    if f in VisitOne(nodes, entries, names[0], parts, b).value {
      name := names[0];
    } else {
      name := VisitNamesFrom(nodes, entries, names[1..], parts, b, f);
    }
  }

  lemma JoinsDiffer(parts: Parts, m: Text, n: Text, rel: Parts, rel': Parts)
    requires AllNoSlash(parts) && NoSlash(m) && NoSlash(n) && AllNoSlash(rel) && AllNoSlash(rel') && m != n
    ensures Join(parts + [m] + rel) != Join(parts + [n] + rel')
  {
    hide NoSlash, Join, Split;
    var x, y := parts + [m] + rel, parts + [n] + rel';
    assert x[|parts|] == m && y[|parts|] == n;
    SplitJoin(x);
    SplitJoin(y);
  }

  lemma {:induction false} VisitDistinct(nodes: Nodes, ino: Ino, parts: Parts, b: Bounds)
    requires WellNamed(nodes) && AllNoSlash(parts) && VisitTree(nodes, ino, parts, b).Some?
    ensures Distinct(Paths(VisitTree(nodes, ino, parts, b).value))
    decreases b.maxDepth - |parts|, 1, 0
  {
    hide NoSlash, Names, VisitNames, Distinct;
    var entries := nodes[ino].entries;
    var names := Sort(Names(entries));
    SortKeepsDistinct(Names(entries));
    SortedNoSlash(Names(entries));
    VisitNamesDistinct(nodes, entries, names, parts, b);
  }

  lemma SortedNoSlash(names: seq<Text>)
    requires AllNoSlash(names)
    ensures AllNoSlash(Sort(names))
  {
    hide NoSlash, Sort;
    SameElements(names, Sort(names));
    forall i | 0 <= i < |Sort(names)| ensures NoSlash(Sort(names)[i]) {
      assert Sort(names)[i] in names;
    }
  }

  lemma {:induction false} VisitNamesDistinct(
    nodes: Nodes, entries: seq<Entry>, names: seq<Text>, parts: Parts, b: Bounds)
    requires WellNamed(nodes) && AllNoSlash(parts) && AllNoSlash(names) && Distinct(names)
    requires VisitNames(nodes, entries, names, parts, b).Some?
    ensures Distinct(Paths(VisitNames(nodes, entries, names, parts, b).value))
    decreases b.maxDepth - |parts|, 0, |names|
  {
    hide WellNamed, NoSlash, VisitOne;
    if names != [] {
      var first, rest := VisitOne(nodes, entries, names[0], parts, b).value, VisitNames(nodes, entries, names[1..], parts, b).value;
      VisitOneDistinct(nodes, entries, names[0], parts, b);
      VisitNamesDistinct(nodes, entries, names[1..], parts, b);
      forall x, y | x in Paths(first) && y in Paths(rest) ensures x != y {
        var i :| 0 <= i < |first| && first[i].path == x;
        var j :| 0 <= j < |rest| && rest[j].path == y;
        var rel := VisitOneUnder(nodes, entries, names[0], parts, b, first[i]);
        var name := VisitNamesFrom(nodes, entries, names[1..], parts, b, rest[j]);
        var rel' := VisitOneUnder(nodes, entries, name, parts, b, rest[j]);
        JoinsDiffer(parts, names[0], name, rel, rel');
      }
      PathsConcat(first, rest);
      DistinctConcat(Paths(first), Paths(rest));
    }
  }

  lemma VisitOneDistinct(nodes: Nodes, entries: seq<Entry>, name: Text, parts: Parts, b: Bounds)
    requires WellNamed(nodes) && AllNoSlash(parts) && NoSlash(name) && VisitOne(nodes, entries, name, parts, b).Some?
    ensures Distinct(Paths(VisitOne(nodes, entries, name, parts, b).value))
    decreases b.maxDepth - |parts|, 0, 0
  {
    hide WellNamed, NoSlash, VisitTree, ValidRelativePath, Join, Find;
    var found := Find(entries, name).value;
    if nodes[found].Dir? { VisitDistinct(nodes, found, parts + [name], b); }
  }

  // ---- inventory of what was written ---------------------------------------------------------

  lemma PrefixValid(path: Text, k: nat)
    requires ValidRelativePath(path) && 1 <= k <= Depth(path)
    ensures ValidRelativePath(Prefix(path, k)) && Split(Prefix(path, k)) == Split(path)[..k]
  {
    hide Split, Join, NoSlash, ValidComponent;
    var parts, d := Split(path), Prefix(path, k);
    JoinSplit(path);
    SplitJoin(parts[..k]);
    if k < |parts| { JoinPrefix(parts, k); } else { assert parts[..k] == parts; }
    assert d <= path;
    assert forall i :: 0 <= i < |d| ==> d[i] == path[i];
    assert forall i :: 0 <= i < k ==> ValidComponent(Split(d)[i]);
    SplitOfNothing();
    assert ValidComponent(parts[0]) && parts[..k][0] == parts[0];
  }

  lemma SplitOfNothing()
    ensures Split([])[0] == [] && !ValidComponent([])
  {
  }

  /** The bounds a set of files satisfies. */
  predicate Within(entries: seq<FileEntry>, b: Bounds) {
    && ValidBounds(b)
    && |entries| <= b.maxFiles && TotalSize(entries) <= b.maxTotalBytes
    && forall e <- entries :: |e.data| <= b.maxFileBytes && Depth(e.path) <= b.maxDepth
  }

  /** Every inode of the stored tree is one a walker accepts. */
  lemma StoredGood(nodes: Nodes, root: Ino, at: map<Parts, Ino>, entries: seq<FileEntry>, b: Bounds, p: Parts)
    requires Stores(nodes, root, at, FilesOf(entries), []) && Canonical(Paths(entries))
    requires forall e <- entries :: |e.data| <= b.maxFileBytes && Depth(e.path) <= b.maxDepth
    requires p in at && p != []
    ensures GoodAt(nodes, at[p], p, b)
  {
    hide Stores, Join, FilesOf, ValidRelativePath, Canonical, Find, Depth, TreeAt;
    var files := FilesOf(entries);
    StoresFacts(nodes, root, at, files, [], p);
    var f := FileBelow(nodes, root, at, files, p);
    PrefixGood(entries, f, |p|, b);
    if p in files {
      StoredBounded(entries, p, b);
    } else {
      DirectoryAbove(nodes, root, at, files, p, f);
    }
  }

  /** A stored directory on the way to a file is not empty. */
  lemma DirectoryAbove(nodes: Nodes, root: Ino, at: map<Parts, Ino>, files: Files, p: Parts, f: Parts)
    requires Stores(nodes, root, at, files, []) && p in at && at[p] in nodes && nodes[at[p]].Dir?
    requires f in files && p <= f && |p| < |f|
    ensures nodes[at[p]].entries != []
  {
    hide Stores, Find, TreeAt;
    var child := p + [f[|p|]];
    assert child <= f;
    StoresFacts(nodes, root, at, files, [], p);
    StoresFacts(nodes, root, at, files, [], child);
    ChildAt(nodes, root, at, p, f[|p|]);
    FindNothing(f[|p|]);
  }

  lemma FileBelow(nodes: Nodes, root: Ino, at: map<Parts, Ino>, files: Files, p: Parts) returns (f: Parts)
    requires Stores(nodes, root, at, files, []) && p in at && p != []
    ensures f in files && p <= f && p == f[..|p|] && (p !in files ==> |p| < |f|)
  {
    hide Stores;
    StoresFacts(nodes, root, at, files, [], p);
    f :| f in files && p <= f;
    assert p == f[..|p|];
    if |p| == |f| { assert p == f; }
  }

  /** Every directory above a stored file has a valid path within the depth bound, and so has the file. */
  lemma PrefixGood(entries: seq<FileEntry>, f: Parts, k: nat, b: Bounds)
    requires Canonical(Paths(entries)) && f in FilesOf(entries) && 1 <= k <= |f|
    requires forall e <- entries :: |e.data| <= b.maxFileBytes && Depth(e.path) <= b.maxDepth
    ensures k <= b.maxDepth && ValidRelativePath(Join(f[..k]))
  {
    hide Split, Join, FilesOf, ValidRelativePath, IsAncestor, PathsClash, Distinct;
    FilesOfKeys(entries, f);
    var e :| e in entries && f == Split(e.path);
    var i :| 0 <= i < |entries| && entries[i] == e;
    assert Paths(entries)[i] == e.path && e.path in Paths(entries);
    PrefixValid(e.path, k);
  }

  lemma StoredBounded(entries: seq<FileEntry>, p: Parts, b: Bounds)
    requires Canonical(Paths(entries)) && p in FilesOf(entries)
    requires forall e <- entries :: |e.data| <= b.maxFileBytes && Depth(e.path) <= b.maxDepth
    ensures |FilesOf(entries)[p]| <= b.maxFileBytes
  {
    hide ValidRelativePath, IsAncestor, PathsClash, FilesOf, Split;
    FilesOfKeys(entries, p);
    var e :| e in entries && p == Split(e.path);
    FilesOfData(entries, e);
  }

  lemma FindNothing(name: Text)
    ensures Find([], name).None?
  {
  }

  lemma StoredAccepted(nodes: Nodes, root: Ino, at: map<Parts, Ino>, entries: seq<FileEntry>, b: Bounds)
    requires Stores(nodes, root, at, FilesOf(entries), []) && Canonical(Paths(entries))
    requires forall e <- entries :: |e.data| <= b.maxFileBytes && Depth(e.path) <= b.maxDepth
    ensures VisitTree(nodes, root, [], b).Some?
  {
    hide TreeAt, Resolve, FilesOf, Covered, GoodAt, VisitTree, Canonical;
    StoresFacts(nodes, root, at, FilesOf(entries), [], []);
    TreeFacts(nodes, root, at, []);
    forall rel: Parts | rel != [] && Resolve(nodes, root, rel).Some?
      ensures GoodAt(nodes, Resolve(nodes, root, rel).value, [] + rel, b)
    {
      assert [] + rel == rel;
      ResolveAt(nodes, root, at, [], rel);
      StoredGood(nodes, root, at, entries, b, rel);
    }
    VisitAccepts(nodes, root, [], b);
  }

  /** The files listed are the files stored. */
  lemma StoredListed(nodes: Nodes, root: Ino, at: map<Parts, Ino>, entries: seq<FileEntry>, f: FileEntry)
    requires Stores(nodes, root, at, FilesOf(entries), []) && Canonical(Paths(entries))
    ensures ListedFrom(nodes, root, [], f) <==> f in entries
  {
    hide TreeAt, Resolve, FilesOf, Covered, ValidRelativePath, IsAncestor, PathsClash, Split, Join;
    var files := FilesOf(entries);
    StoresFacts(nodes, root, at, files, [], []);
    TreeFacts(nodes, root, at, []);
    if ListedFrom(nodes, root, [], f) {
      var rel: Parts :| rel != [] && FileAt(nodes, root, rel, f.data) && f.path == Join([] + rel);
      assert [] + rel == rel;
      ResolveAt(nodes, root, at, [], rel);
      StoresFacts(nodes, root, at, files, [], rel);
      FilesOfKeys(entries, rel);
      var e :| e in entries && rel == Split(e.path);
      FilesOfData(entries, e);
      JoinSplit(e.path);
      assert f == e;
    }
    if f in entries {
      var rel := Split(f.path);
      JoinSplit(f.path);
      FilesOfData(entries, f);
      StoresFacts(nodes, root, at, files, [], rel);
      assert [] + rel == rel;
      ResolveAt(nodes, root, at, [], rel);
      assert FileAt(nodes, root, rel, f.data);
    }
  }

  lemma {:induction false} TotalSizePermuted(a: seq<FileEntry>, c: seq<FileEntry>)
    requires multiset(a) == multiset(c)
    ensures TotalSize(a) == TotalSize(c)
  {
    assert |multiset(a)| == |a| && |multiset(c)| == |c|;
    if a != [] {
      var i := TakeOut(a, c);
      TotalSizePermuted(a[1..], c[..i] + c[i + 1..]);
      TotalSizeConcat(c[..i], c[i + 1..]);
      TotalSizeConcat(c[..i], [c[i]] + c[i + 1..]);
      assert ([c[i]] + c[i + 1..])[1..] == c[i + 1..];
    }
  }

  /** Distinct paths mean distinct entries. */
  lemma DistinctEntries(entries: seq<FileEntry>)
    requires Distinct(Paths(entries))
    ensures Distinct(entries)
  {
    forall i, j | 0 <= i < j < |entries| ensures entries[i] != entries[j] {
      assert Paths(entries)[i] != Paths(entries)[j];
    }
  }

  lemma {:induction false} PathsPermuted(a: seq<FileEntry>, c: seq<FileEntry>)
    requires multiset(a) == multiset(c)
    ensures multiset(Paths(a)) == multiset(Paths(c))
  {
    assert |multiset(a)| == |a| && |multiset(c)| == |c|;
    if a != [] {
      var i := TakeOut(a, c);
      PathsPermuted(a[1..], c[..i] + c[i + 1..]);
      PathsConcat([a[0]], a[1..]);
      PathsConcat(c[..i], c[i + 1..]);
      PathsConcat(c[..i], [c[i]] + c[i + 1..]);
      PathsConcat([c[i]], c[i + 1..]);
      assert [a[0]] + a[1..] == a;
      MultisetSplit(Paths([a[0]]), Paths(a[1..]));
      MultisetSplit(Paths(c[..i]), Paths(c[i + 1..]));
      MultisetSplit(Paths([c[i]]), Paths(c[i + 1..]));
      MultisetSplit(Paths(c[..i]), Paths([c[i]] + c[i + 1..]));
    }
  }

  /** What a walker finds in the stored tree is a permutation of what was stored. */
  lemma StoredVisited(nodes: Nodes, root: Ino, at: map<Parts, Ino>, entries: seq<FileEntry>, b: Bounds)
    requires Stores(nodes, root, at, FilesOf(entries), []) && Canonical(Paths(entries))
    requires VisitTree(nodes, root, [], b).Some?
    ensures multiset(VisitTree(nodes, root, [], b).value) == multiset(entries)
  {
    hide TreeAt, FilesOf, Covered, VisitTree, IsAncestor, PathsClash, ValidRelativePath, WellNamed, ListedFrom;
    var found := VisitTree(nodes, root, [], b).value;
    StoresFacts(nodes, root, at, FilesOf(entries), [], []);
    assert WellNamed(nodes) by { NamedTree(nodes, root, at); }
    VisitDistinct(nodes, root, [], b);
    DistinctEntries(found);
    DistinctEntries(entries);
    forall f ensures f in found <==> f in entries {
      VisitLists(nodes, root, [], b, f);
      StoredListed(nodes, root, at, entries, f);
    }
    SameElementsPermuted(found, entries);
  }

  lemma NamedTree(nodes: Nodes, root: Ino, at: map<Parts, Ino>)
    requires TreeAt(nodes, root, at)
    ensures WellNamed(nodes)
  {
  }

  lemma FileWithinBound(nodes: Nodes, root: Ino, b: Bounds, f: FileEntry)
    requires WellNamed(nodes) && VisitTree(nodes, root, [], b).Some? && f in VisitTree(nodes, root, [], b).value
    ensures |f.data| <= b.maxFileBytes && Depth(f.path) <= b.maxDepth
  {
    hide VisitTree, Resolve, ValidRelativePath, Join, Split, WellNamed;
    VisitLists(nodes, root, [], b, f);
    VisitAccepts(nodes, root, [], b);
    var rel: Parts :| rel != [] && FileAt(nodes, root, rel, f.data) && f.path == Join([] + rel);
    assert GoodAt(nodes, Resolve(nodes, root, rel).value, [] + rel, b);
    assert [] + rel == rel;
    ResolveNoSlash(nodes, root, rel);
    SplitJoin(rel);
  }

  /** The round trip: a stored canonical set passes inventory exactly under the bounds it satisfies,
      and what is found is what was stored. */
  lemma StoredInventory(nodes: Nodes, root: Ino, at: map<Parts, Ino>, entries: seq<FileEntry>, b: Bounds)
    requires Stores(nodes, root, at, FilesOf(entries), []) && Canonical(Paths(entries))
    ensures Acceptable(nodes, root, b) <==> Within(entries, b)
    ensures Acceptable(nodes, root, b) ==> multiset(VisitTree(nodes, root, [], b).value) == multiset(entries)
    ensures Acceptable(nodes, root, b) ==> Sort(Paths(VisitTree(nodes, root, [], b).value)) == Sort(Paths(entries))
  {
    hide Stores, FilesOf, VisitTree, Canonical, WellNamed, Sort;
    if Within(entries, b) { StoredAccepted(nodes, root, at, entries, b); }
    if VisitTree(nodes, root, [], b).Some? {
      var found := VisitTree(nodes, root, [], b).value;
      StoredVisited(nodes, root, at, entries, b);
      PathsPermuted(found, entries);
      CanonicalPermutation(Paths(found), Paths(entries));
      TotalSizePermuted(found, entries);
      assert |multiset(found)| == |multiset(entries)|;
      assert WellNamed(nodes) by {
        StoresFacts(nodes, root, at, FilesOf(entries), [], []);
        NamedTree(nodes, root, at);
      }
      forall e | e in entries ensures |e.data| <= b.maxFileBytes && Depth(e.path) <= b.maxDepth {
        assert e in multiset(found);
        FileWithinBound(nodes, root, b, e);
      }
    }
  }

  /** One captured entry per path. */
  lemma OnePerPath(entries: seq<FileEntry>, e: FileEntry, f: FileEntry)
    requires Distinct(Paths(entries)) && e in entries && f in entries && e.path == f.path
    ensures e == f
  {
    var i :| 0 <= i < |entries| && entries[i] == e;
    var j :| 0 <= j < |entries| && entries[j] == f;
    assert Paths(entries)[i] == Paths(entries)[j];
  }

  /** A sorted capture of a sorted list of files is that list. */
  lemma RecaptureSame(found: seq<FileEntry>, entries: seq<FileEntry>, sorted: seq<FileEntry>)
    requires multiset(found) == multiset(entries) && Distinct(Paths(entries))
    requires Sort(Paths(found)) == Paths(entries) && SortedCapture(found, sorted)
    ensures sorted == entries
  {
    hide Sort, Distinct;
    forall i | 0 <= i < |entries| ensures sorted[i] == entries[i] {
      assert Paths(sorted)[i] == Paths(entries)[i];
      assert sorted[i] in found;
      assert sorted[i] in multiset(found);
      OnePerPath(entries, sorted[i], entries[i]);
    }
    assert |Paths(sorted)| == |Paths(entries)|;
  }

  // ---- captured_regular_tree -----------------------------------------------------------------

  /** Sorting a capture only permutes it. */
  lemma SortedPermutes(found: seq<FileEntry>, sorted: seq<FileEntry>)
    requires Distinct(Paths(found)) && SortedCapture(found, sorted)
    ensures multiset(sorted) == multiset(found)
    ensures Distinct(Paths(sorted)) && Paths(sorted) == Sort(Paths(sorted))
  {
    hide Sort, Distinct;
    SortKeepsDistinct(Paths(found));
    SortIsUnique(Paths(sorted), Paths(sorted));
    DistinctEntries(found);
    DistinctEntries(sorted);
    forall f | f in found ensures f in sorted {
      var i :| 0 <= i < |found| && found[i] == f;
      assert Paths(found)[i] == f.path && f.path in Paths(sorted);
      var j :| 0 <= j < |Paths(sorted)| && Paths(sorted)[j] == f.path;
      OnePerPath(found, f, sorted[j]);
    }
    SameElementsPermuted(sorted, found);
  }

  /** A captured tree satisfies the bounds it was captured under. */
  lemma CaptureWithin(nodes: Nodes, root: Ino, b: Bounds, sorted: seq<FileEntry>)
    requires WellNamed(nodes) && Acceptable(nodes, root, b)
    requires SortedCapture(VisitTree(nodes, root, [], b).value, sorted)
    ensures Canonical(Paths(sorted)) && Within(sorted, b) && Paths(sorted) == Sort(Paths(sorted))
  {
    hide VisitTree, SortedCapture, WellNamed, Sort, ValidRelativePath, IsAncestor, PathsClash, Depth;
    var found := VisitTree(nodes, root, [], b).value;
    SortedPermutes(found, sorted);
    PathsPermuted(sorted, found);
    CanonicalPermutation(Paths(sorted), Paths(found));
    TotalSizePermuted(sorted, found);
    assert |multiset(found)| == |multiset(sorted)|;
    forall e | e in sorted ensures |e.data| <= b.maxFileBytes && Depth(e.path) <= b.maxDepth {
      assert e in multiset(sorted);
      FileWithinBound(nodes, root, b, e);
    }
  }

  lemma StoredShallow(nodes: Nodes, root: Ino, at: map<Parts, Ino>, entries: seq<FileEntry>, b: Bounds)
    requires Stores(nodes, root, at, FilesOf(entries), []) && Within(entries, b)
    ensures Shallow(at, b.maxDepth)
  {
    hide TreeAt, FilesOf, Split;
    forall p | p in at ensures |p| <= b.maxDepth {
      StoresFacts(nodes, root, at, FilesOf(entries), [], p);
      if p != [] {
        var f :| f in FilesOf(entries) && p <= f;
        FilesOfKeys(entries, f);
        var e :| e in entries && f == Split(e.path);
        assert Depth(e.path) == |f|;
      }
    }
  }

  lemma StoredRegular(nodes: Nodes, root: Ino, at: map<Parts, Ino>, files: Files)
    requires Stores(nodes, root, at, files, [])
    ensures RegularBelow(nodes, at, [])
  {
    hide TreeAt, Covered;
  }

  /** Nothing that can be reached grants write permission. */
  ghost predicate ReadOnly(nodes: Nodes, root: Ino) {
    forall rel: Parts :: Resolve(nodes, root, rel).Some? ==>
      var ino := Resolve(nodes, root, rel).value;
      ino in nodes && (nodes[ino].Dir? || nodes[ino].File?) && !Writable(nodes[ino].mode)
  }

  /** Whatever can be reached is a directory or a regular file with exactly the mode for its kind. */
  ghost predicate ModesAre(nodes: Nodes, root: Ino, fileMode: Mode, directoryMode: Mode) {
    forall rel: Parts :: Resolve(nodes, root, rel).Some? ==>
      var ino := Resolve(nodes, root, rel).value;
      ino in nodes && match nodes[ino]
                      case Dir(_, mode) => mode == directoryMode
                      case File(_, mode) => mode == fileMode
                      case _ => false
  }

  /** The owner, however unprivileged, may list and search every directory that can be reached, the root
      among them, and read every file. */
  ghost predicate OwnerReads(nodes: Nodes, root: Ino) {
    forall rel: Parts :: Resolve(nodes, root, rel).Some? ==>
      var ino := Resolve(nodes, root, rel).value;
      ino in nodes && match nodes[ino]
                      case Dir(_, mode) => mode & 0x140 == 0x140
                      case File(_, mode) => mode & 0x100 == 0x100
                      case _ => false
  }

  lemma FrozenModes(nodes: Nodes, root: Ino, at: map<Parts, Ino>, fileMode: Mode, directoryMode: Mode)
    requires TreeAt(nodes, root, at) && FrozenBelow(nodes, at, [], fileMode, directoryMode)
    ensures ModesAre(nodes, root, fileMode, directoryMode)
  {
    hide TreeAt, Resolve;
    TreeFactsRoot(nodes, root, at);
    forall rel: Parts | Resolve(nodes, root, rel).Some?
      ensures var ino := Resolve(nodes, root, rel).value; ino in nodes && HasMode(nodes[ino], fileMode, directoryMode)
    {
      ResolveAt(nodes, root, at, [], rel);
      assert [] + rel == rel && [] <= rel;
    }
  }

  lemma ModesRead(nodes: Nodes, root: Ino)
    requires ModesAre(nodes, root, 0x100, 0x140)
    ensures OwnerReads(nodes, root)
  {
    hide Resolve;
  }

  lemma FrozenReadOnly(nodes: Nodes, root: Ino, at: map<Parts, Ino>, fileMode: Mode, directoryMode: Mode)
    requires TreeAt(nodes, root, at) && FrozenBelow(nodes, at, [], fileMode, directoryMode)
    requires !Writable(fileMode) && !Writable(directoryMode)
    ensures ReadOnly(nodes, root)
  {
    hide TreeAt, FrozenBelow, Writable, Resolve;
    TreeFactsRoot(nodes, root, at);
    forall rel: Parts | Resolve(nodes, root, rel).Some?
      ensures var ino := Resolve(nodes, root, rel).value;
              ino in nodes && (nodes[ino].Dir? || nodes[ino].File?) && !Writable(nodes[ino].mode)
    {
      ResolveAt(nodes, root, at, [], rel);
      assert [] + rel == rel && [] <= rel;
      FrozenIsReadOnly(nodes, at, [], fileMode, directoryMode, rel);
    }
  }

  lemma TreeFactsRoot(nodes: Nodes, root: Ino, at: map<Parts, Ino>)
    requires TreeAt(nodes, root, at)
    ensures [] in at && at[[]] == root
  {
  }

  lemma OwnerReadModes()
    ensures !Writable(0x100) && !Writable(0x140)
  {
  }

  /** What a second inventory of the snapshot gives, whichever way it is sorted. */
  ghost predicate Recaptures(nodes: Nodes, root: Ino, b: Bounds, files: seq<FileEntry>) {
    && Acceptable(nodes, root, b)
    && forall again :: SortedCapture(VisitTree(nodes, root, [], b).value, again) ==> again == files
  }

  lemma StoredRecaptures(nodes: Nodes, root: Ino, at: map<Parts, Ino>, files: seq<FileEntry>, b: Bounds)
    requires Stores(nodes, root, at, FilesOf(files), []) && Canonical(Paths(files)) && Within(files, b)
    requires Paths(files) == Sort(Paths(files))
    ensures Recaptures(nodes, root, b, files)
  {
    hide Stores, Within, VisitTree, SortedCapture, Sort, FilesOf, ValidRelativePath, IsAncestor, PathsClash;
    StoredInventory(nodes, root, at, files, b);
    var found := VisitTree(nodes, root, [], b).value;
    forall again | SortedCapture(found, again) ensures again == files {
      RecaptureSame(found, files, again);
    }
  }

  /** `captured_regular_tree` up to its yield: inventory the source, write a private copy, freeze
      it.  File mode 0o600 becomes 0o400; directories end at 0o500. */
  method CapturedRegularTree(source: Nodes, root: Ino, bounds: Bounds, folding: bool, umask: Mode, privileged: bool)
    returns (r: Result<seq<FileEntry>, InventoryError>, snapshot: FileSystem)
    requires WellNamed(source)
    ensures fresh(snapshot)
    ensures r.Ok? <==> Acceptable(source, root, bounds)
    ensures r.Ok? ==> SortedCapture(VisitTree(source, root, [], bounds).value, r.value)
    ensures r.Ok? ==> Recaptures(snapshot.nodes, snapshot.root, bounds, r.value)
    ensures r.Ok? ==> ReadOnly(snapshot.nodes, snapshot.root) && OwnerReads(snapshot.nodes, snapshot.root)
    ensures r.Ok? ==> ModesAre(snapshot.nodes, snapshot.root, 0x100, 0x140)
  {
    hide WellNamed, VisitTree, SortedCapture, Acceptable, Canonical, Within, Stores, Sort, FilesOf, Writable, FrozenBelow,
      SameShape, OnlyBelow, TreeOpens, Shallow, ReadOnly, OwnerReads, ModesAre, Recaptures, TreeAt, OpenDirectories, FilesHave;
    r := InventoryRegularFiles(source, root, bounds);
    snapshot := new FileSystem(folding, umask, privileged);
    if r.Ok? {
      CaptureWithin(source, root, bounds, r.value);
      var written := WriteFiles(snapshot, r.value, 0x180);
      ghost var before := snapshot.nodes;
      SnapshotReady(before, snapshot.root, snapshot.at, r.value, bounds);
      SnapshotOpens(before, snapshot.root, snapshot.at, FilesOf(r.value), privileged);
      var frozen := FreezeDirectory(snapshot, snapshot.root, 0x100, 0x140, [], bounds.maxDepth);
      assert frozen;
      SameShapeStores(before, snapshot.nodes, snapshot.root, snapshot.at, FilesOf(r.value));
      StoredRecaptures(snapshot.nodes, snapshot.root, snapshot.at, r.value, bounds);
      StoresFacts(snapshot.nodes, snapshot.root, snapshot.at, FilesOf(r.value), [], []);
      FrozenReadOnly(snapshot.nodes, snapshot.root, snapshot.at, 0x100, 0x140);
      FrozenModes(snapshot.nodes, snapshot.root, snapshot.at, 0x100, 0x140);
      ModesRead(snapshot.nodes, snapshot.root);
    }
  }

  lemma SnapshotReady(nodes: Nodes, root: Ino, at: map<Parts, Ino>, files: seq<FileEntry>, b: Bounds)
    requires Stores(nodes, root, at, FilesOf(files), []) && Within(files, b)
    ensures TreeAt(nodes, root, at) && PlacedAt(nodes, root, at) && Shallow(at, b.maxDepth)
    ensures [] in at && at[[]] == root && root in nodes && nodes[root].Dir? && b.maxDepth >= 0
    ensures !Writable(0x100) && !Writable(0x140)
  {
    hide FilesOf, TreeAt, PlacedAt, Covered, Writable, Shallow;
    TreeIsPlaced(nodes, root, at);
    OwnerReadModes();
    StoredShallow(nodes, root, at, files, b);
    StoresFacts(nodes, root, at, FilesOf(files), [], []);
    TreeFactsRoot(nodes, root, at);
    assert Covered([], FilesOf(files), []) by { CoveredRoot(FilesOf(files)); }
  }

  /** What the process has written itself, it may open. */
  lemma SnapshotOpens(nodes: Nodes, root: Ino, at: map<Parts, Ino>, files: Files, privileged: bool)
    requires Stores(nodes, root, at, files, []) && OpenDirectories(nodes, privileged) && FilesHave(nodes, 0x180)
    ensures TreeOpens(nodes, at, [], 0x100, privileged)
  {
    hide Stores, TreeAt, Covered, Grants, Allows, RegularBelow;
    StoredRegular(nodes, root, at, files);
    StoresFacts(nodes, root, at, files, [], []);
    PlacedOnce(nodes, root, at);
    forall q | q in at && at[q] in nodes ensures AllowsOpening(nodes[at[q]], privileged) {
      NodeOpens(nodes, at[q], privileged);
    }
  }

  lemma PlacedOnce(nodes: Nodes, root: Ino, at: map<Parts, Ino>)
    requires TreeAt(nodes, root, at)
    ensures forall q <- at, r <- at :: at[q] == at[r] ==> q == r
  {
  }

  lemma NodeOpens(nodes: Nodes, i: Ino, privileged: bool)
    requires OpenDirectories(nodes, privileged) && FilesHave(nodes, 0x180) && i in nodes
    ensures AllowsOpening(nodes[i], privileged)
  {
  }

  lemma CoveredRoot(files: Files)
    ensures Covered([], files, [])
  {
  }
}
