// The limits of a captured tree: what it means for the tree at one instant that every name, path and
// count was checked while it was sighted.
module SnapshotLimits {
  import opened Unicode
  import opened TextSplit
  import opened Wrappers
  import opened TextOrder
  import opened SnapshotWorld
  import opened SnapshotProof
  import opened SnapshotQuiet

  // ---- what can be reached -------------------------------------------------------------------

  /** The inode that a path leads to at one instant, name by name. */
  ghost function Resolve(h: History, t: nat, i: Ino, path: Path): Option<Ino>
    decreases |path|
  {
    if path == [] then Some(i)
    else
      match At(h, t, i).node
      case Dir(entries, _) => if path[0] in entries then Resolve(h, t, entries[path[0]], path[1..]) else None
      case File(_) => None
      case Link => None
      case Special => None
  }

  /** Text of UTF-8, not a name for a directory itself or its parent, and free of separators and control
      characters. */
  predicate PlainName(n: Name) {
    && n != [] && n != ['.' as int] && n != ['.' as int, '.' as int]
    && forall k :: 0 <= k < |n| ==>
         n[k] >= 0x20 && n[k] != 0x7F && n[k] != '/' as int && n[k] != '\\' as int && !(0xD800 <= n[k] <= 0xDFFF)
  }

  predicate LegalPath(path: Path) {
    && |path| <= 32 && |Utf8(JoinOn(path, '/' as int))| <= 4096
    && forall k :: 0 <= k < |path| ==> PlainName(path[k])
  }

  /** At this instant every path from the root to anything at all is within the limits, and there are not
      more than 40000 of them. */
  ghost predicate WithinLimits(h: History, t: nat, root: Ino) {
    && (forall path: Path :: Resolve(h, t, root, path).Some? ==> LegalPath(path))
    && forall paths: seq<Path> :: Distinct(paths) && AllReached(h, t, root, paths) ==> |paths| <= 40_000
  }

  ghost predicate AllReached(h: History, t: nat, root: Ino, paths: seq<Path>) {
    forall k :: 0 <= k < |paths| ==> paths[k] != [] && Resolve(h, t, root, paths[k]).Some?
  }

  // ---- what was checked ----------------------------------------------------------------------

  /** Every name in a sighted tree, and every path to it, is within the limits. */
  ghost predicate Legal(s: Seen, parts: Path)
    decreases s
  {
    s.SeenDir? ==>
      && |s.names| == |s.children|
      && forall k :: 0 <= k < |s.children| ==>
           GoodName(s.names[k], parts + [s.names[k]]) && Legal(s.children[k], parts + [s.names[k]])
  }

  /** What is checked of an entry is its name, and depth and length of its path. */
  lemma GoodExactly(n: Name, parts: Path)
    ensures GoodName(n, parts) <==> PlainName(n) && |parts| <= 32 && |Utf8(JoinOn(parts, '/' as int))| <= 4096
  {
    hide JoinOn, Utf8;
  }

  /** Whatever can be reached in a sighted tree was checked. */
  lemma {:induction false} ReachedIsLegal(h: History, t: nat, s: Seen, parts: Path, path: Path)
    requires HoldsAt(h, t, s) && Legal(s, parts) && Resolve(h, t, s.ino, path).Some? && path != []
    ensures |parts + path| <= 32 && |Utf8(JoinOn(parts + path, '/' as int))| <= 4096
    ensures forall k :: 0 <= k < |path| ==> PlainName(path[k])
    decreases |path|
  {
    hide PlainName, GoodName, Utf8, JoinOn, HoldsAt, Resolve;
    var k := Entered(h, t, s, path);
    var name := path[0];
    GoodExactly(name, parts + [name]);
    if path[1..] == [] {
      assert path == [name];
    } else {
      ReachedIsLegal(h, t, s.children[k], parts + [name], path[1..]);
      assert parts + [name] + path[1..] == parts + path;
      assert forall j :: 1 <= j < |path| ==> path[j] == path[1..][j - 1];
    }
  }

  /** The first step of a path leads into a child. */
  lemma Entered(h: History, t: nat, s: Seen, path: Path) returns (k: nat)
    requires HoldsAt(h, t, s) && Resolve(h, t, s.ino, path).Some? && path != []
    ensures s.SeenDir? && k < |s.names| == |s.children| && s.names[k] == path[0]
    ensures HoldsAt(h, t, s.children[k]) && Resolve(h, t, s.children[k].ino, path[1..]).Some?
  {
    hide At, Ascending;
    assert path[0] in s.names;
    k :| 0 <= k < |s.names| && s.names[k] == path[0];
  }

  // ---- how many there are --------------------------------------------------------------------

  /** The paths of all entries in a sighted tree. */
  ghost function EntryPaths(s: Seen, parts: Path): seq<Path>
    decreases s, 1
  {
    match s
    case SeenFile(_, _, _) => []
    case SeenDir(_, _, _, names, children) => if |names| == |children| then AllEntryPaths(names, children, parts) else []
  }

  ghost function AllEntryPaths(names: seq<Name>, children: seq<Seen>, parts: Path): seq<Path>
    requires |names| == |children|
    decreases children, 0
  {
    if children == [] then []
    else
      [parts + [names[0]]] + EntryPaths(children[0], parts + [names[0]]) + AllEntryPaths(names[1..], children[1..], parts)
  }

  lemma {:induction false} AsManyPaths(s: Seen, parts: Path)
    requires Legal(s, parts)
    ensures |EntryPaths(s, parts)| == Members(s)
    decreases s, 1
  {
    hide GoodName;
    if s.SeenDir? { AsManyPathsEach(s.names, s.children, parts); }
  }

  lemma {:induction false} AsManyPathsEach(names: seq<Name>, children: seq<Seen>, parts: Path)
    requires |names| == |children|
    requires forall k :: 0 <= k < |children| ==> Legal(children[k], parts + [names[k]])
    ensures |AllEntryPaths(names, children, parts)| == |names| + MembersAll(children)
    decreases children, 0
  {
    hide Legal, EntryPaths, Members;
    if children != [] {
      AsManyPaths(children[0], parts + [names[0]]);
      AsManyPathsEach(names[1..], children[1..], parts);
    }
  }

  lemma {:induction false} EntryListed(names: seq<Name>, children: seq<Seen>, parts: Path, k: nat, path: Path)
    requires k < |names| == |children|
    requires path == parts + [names[k]] || path in EntryPaths(children[k], parts + [names[k]])
    ensures path in AllEntryPaths(names, children, parts)
    decreases k
  {
    hide EntryPaths;
    if k > 0 { EntryListed(names[1..], children[1..], parts, k - 1, path); }
  }

  /** Whatever can be reached is one of the paths counted. */
  lemma {:induction false} ReachedIsListed(h: History, t: nat, s: Seen, parts: Path, path: Path)
    requires HoldsAt(h, t, s) && Resolve(h, t, s.ino, path).Some? && path != []
    ensures parts + path in EntryPaths(s, parts)
    decreases |path|
  {
    hide HoldsAt, Resolve;
    var k := Entered(h, t, s, path);
    var inner := parts + [path[0]];
    assert inner + path[1..] == parts + path;
    if path[1..] == [] {
      assert parts + path == inner;
    } else {
      ReachedIsListed(h, t, s.children[k], inner, path[1..]);
    }
    EntryListed(s.names, s.children, parts, k, parts + path);
  }

  lemma {:induction false} DistinctAmong(paths: seq<Path>, all: seq<Path>)
    requires Distinct(paths) && forall p <- paths :: p in all
    ensures |paths| <= |all|
  {
    DistinctCount(paths);
    var some, every := set p | p in paths, set p | p in all;
    assert every == some + (every - some);
    AtMost(all);
  }

  lemma {:induction false} DistinctCount(paths: seq<Path>)
    requires Distinct(paths)
    ensures |set p | p in paths| == |paths|
  {
    if paths != [] {
      var last := |paths| - 1;
      DistinctCount(paths[..last]);
      assert (set p | p in paths) == (set p | p in paths[..last]) + {paths[last]};
      assert paths[last] !in paths[..last];
    }
  }

  lemma {:induction false} AtMost(paths: seq<Path>)
    ensures |set p | p in paths| <= |paths|
  {
    if paths != [] {
      var last := |paths| - 1;
      AtMost(paths[..last]);
      assert (set p | p in paths) == (set p | p in paths[..last]) + {paths[last]};
    }
  }

  /** A checked and counted tree that holds at one instant is within the limits then. */
  lemma CheckedIsWithin(h: History, t: nat, s: Seen)
    requires HoldsAt(h, t, s) && Legal(s, []) && Members(s) <= MAX_TREE_MEMBERS
    ensures WithinLimits(h, t, s.ino)
  {
    hide HoldsAt, Legal, Members, Resolve, EntryPaths, PlainName, Utf8, JoinOn;
    forall path: Path | Resolve(h, t, s.ino, path).Some? ensures LegalPath(path) {
      if path == [] {
        EmptyPath();
      } else {
        ReachedIsLegal(h, t, s, [], path);
        assert [] + path == path;
      }
    }
    forall paths: seq<Path> | Distinct(paths) && AllReached(h, t, s.ino, paths) ensures |paths| <= 40_000 {
      forall p <- paths ensures p in EntryPaths(s, []) {
        ReachedIsListed(h, t, s, [], p);
        assert [] + p == p;
      }
      AsManyPaths(s, []);
      DistinctAmong(paths, EntryPaths(s, []));
    }
  }

  lemma EmptyPath()
    ensures LegalPath([])
  {
  }

  // ---- a tree that is still --------------------------------------------------------------------

  /** In the window nothing happens to anything that can be reached from the root when it begins. */
  ghost predicate StillTree(h: History, w: Window, root: Ino) {
    forall path: Path :: Resolve(h, w.from, root, path).Some? ==> Still(h, w, Resolve(h, w.from, root, path).value)
  }

  lemma StillBelow(h: History, w: Window, i: Ino, name: Name)
    requires StillTree(h, w, i) && At(h, w.from, i).node.Dir? && name in At(h, w.from, i).node.entries
    ensures Still(h, w, i) && StillTree(h, w, At(h, w.from, i).node.entries[name])
  {
    hide At, Still;
    StillHere(h, w, i);
    var inner := At(h, w.from, i).node.entries[name];
    forall path: Path | Resolve(h, w.from, inner, path).Some? ensures Still(h, w, Resolve(h, w.from, inner, path).value) {
      assert ([name] + path)[1..] == path;
      assert Resolve(h, w.from, i, [name] + path) == Resolve(h, w.from, inner, path);
    }
  }

  lemma StillHere(h: History, w: Window, i: Ino)
    requires StillTree(h, w, i)
    ensures Still(h, w, i)
  {
    hide Still;
    assert Resolve(h, w.from, i, []) == Some(i);
  }

  /** What holds at an instant of the window holds when it begins. */
  lemma {:induction false} HeldThroughout(h: History, w: Window, s: Seen, t: nat)
    requires StillTree(h, w, s.ino) && Inside(w, t) && HoldsAt(h, t, s)
    ensures HoldsAt(h, w.from, s)
    decreases s
  {
    hide At, Ascending, Lists, StillTree, Still;
    StillHere(h, w, s.ino);
    StillSteady(h, w, s.ino, t, t);
    if s.SeenDir? {
      forall k | 0 <= k < |s.children| ensures HoldsAt(h, w.from, s.children[k]) {
        StillBelow(h, w, s.ino, s.names[k]);
        HeldThroughout(h, w, s.children[k], t);
      }
    }
  }

  lemma SmallSplit(a: seq<Captured>, b: seq<Captured>, maxFileBytes: nat)
    requires SmallFiles(a + b, maxFileBytes)
    ensures SmallFiles(a, maxFileBytes) && SmallFiles(b, maxFileBytes)
  {
    assert forall i :: 0 <= i < |a| ==> a[i] == (a + b)[i];
    assert forall i :: 0 <= i < |b| ==> b[i] == (a + b)[|a| + i];
  }

  lemma {:induction false} SmallBelow(names: seq<Name>, children: seq<Seen>, parts: Path, k: nat, maxFileBytes: nat)
    requires k < |names| == |children| && SmallFiles(ReportAll(names, children, parts), maxFileBytes)
    ensures SmallFiles(Report(children[k], parts + [names[k]]), maxFileBytes)
    decreases k
  {
    hide SmallFiles, Report;
    SmallSplit(Report(children[0], parts + [names[0]]), ReportAll(names[1..], children[1..], parts), maxFileBytes);
    if k > 0 { SmallBelow(names[1..], children[1..], parts, k - 1, maxFileBytes); }
  }

  /** A checked sighting of a still tree pictures it. */
  lemma {:induction false} HeldPicture(h: History, w: Window, s: Seen, parts: Path, wanted: Path -> bool, maxFileBytes: nat)
    requires StillTree(h, w, s.ino) && HoldsAt(h, w.from, s) && Legal(s, parts) && Selected(s, parts, wanted)
    requires |parts| <= MAX_TREE_DEPTH && SmallFiles(Report(s, parts), maxFileBytes)
    ensures Picture(h, w, s, parts, wanted, maxFileBytes)
    decreases s
  {
    hide At, Ascending, Lists, StillTree, Still, SafeComponent, PathBytes;
    StillHere(h, w, s.ino);
    if s.SeenFile? && s.captured.Some? { assert Report(s, parts)[0] == Captured(parts, s.captured.value); }
    if s.SeenDir? {
      forall k | 0 <= k < |s.children| ensures Picture(h, w, s.children[k], parts + [s.names[k]], wanted, maxFileBytes) {
        StillBelow(h, w, s.ino, s.names[k]);
        SmallBelow(s.names, s.children, parts, k, maxFileBytes);
        HeldPicture(h, w, s.children[k], parts + [s.names[k]], wanted, maxFileBytes);
      }
    }
  }
}
