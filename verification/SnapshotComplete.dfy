// The converse for a tree that is still: one that can be read and is within the limits has a picture, so
// the inventory succeeds on it.
module SnapshotComplete {
  import opened Unicode
  import opened TextSplit
  import opened Wrappers
  import opened TextOrder
  import opened SnapshotWorld
  import opened SnapshotProof
  import opened SnapshotQuiet
  import opened SnapshotLimits

  // ---- what a reader saw ---------------------------------------------------------------------

  /** Whatever a sequential reader of one instant reports, it saw. */
  lemma {:induction false} Sight(h: History, t: nat, i: Ino, parts: Path, wanted: Path -> bool, depth: nat) returns (s: Seen)
    requires ReadTree(h, t, i, parts, wanted, depth).Some?
    ensures s.ino == i && HoldsAt(h, t, s) && Selected(s, parts, wanted) && Shallow(s, depth)
    decreases depth, 1, 0
  {
    hide Ascending, Distinct, ReadEntries;
    match At(h, t, i).node
    case File(data) =>
      s := SeenFile(i, t, if wanted(parts) then Some(data) else None);
    case Dir(entries, _) =>
      var names := SortedNames(entries.Keys);
      var children := SightOfEntries(h, t, entries, names, parts, wanted, depth - 1);
      s := SeenDir(i, t, t, names, children);
      assert Lists(names, entries);
  }

  lemma {:induction false} SightOfEntries(
    h: History, t: nat, entries: map<Name, Ino>, names: seq<Name>, parts: Path, wanted: Path -> bool, depth: nat)
    returns (children: seq<Seen>)
    requires forall n <- names :: n in entries
    requires ReadEntries(h, t, entries, names, parts, wanted, depth).Some?
    ensures |children| == |names|
    ensures forall k :: 0 <= k < |names| ==>
              && children[k].ino == entries[names[k]] && HoldsAt(h, t, children[k])
              && Selected(children[k], parts + [names[k]], wanted) && Shallow(children[k], depth)
    decreases depth, 2, |names|
  {
    hide HoldsAt, Selected, Shallow, ReadTree;
    children := [];
    if names != [] {
      var first := Sight(h, t, entries[names[0]], parts + [names[0]], wanted, depth);
      var rest := SightOfEntries(h, t, entries, names[1..], parts, wanted, depth);
      children := [first] + rest;
      assert forall k :: 1 <= k < |names| ==> names[k] == names[1..][k - 1] && children[k] == rest[k - 1];
    }
  }

  // ---- it is within the limits -----------------------------------------------------------------

  lemma {:induction false} ResolveFurther(h: History, t: nat, i: Ino, path: Path, name: Name)
    requires Resolve(h, t, i, path).Some?
    requires var node := At(h, t, Resolve(h, t, i, path).value).node; node.Dir? && name in node.entries
    ensures Resolve(h, t, i, path + [name]) == Some(At(h, t, Resolve(h, t, i, path).value).node.entries[name])
    decreases |path|
  {
    hide At;
    if path == [] {
      assert [] + [name] == [name] && [name][1..] == [];
    } else {
      assert (path + [name])[0] == path[0] && (path + [name])[1..] == path[1..] + [name];
      ResolveFurther(h, t, At(h, t, i).node.entries[path[0]], path[1..], name);
    }
  }

  ghost predicate LegalPaths(h: History, t: nat, root: Ino) {
    forall path: Path :: Resolve(h, t, root, path).Some? ==> LegalPath(path)
  }

  lemma PlainHere(h: History, t: nat, root: Ino, parts: Path, name: Name)
    requires LegalPaths(h, t, root) && Resolve(h, t, root, parts + [name]).Some?
    ensures GoodName(name, parts + [name])
  {
    hide PlainName, GoodName, Utf8, JoinOn, Resolve;
    var path := parts + [name];
    assert LegalPath(path) && path[|parts|] == name;
    GoodExactly(name, path);
  }

  lemma {:induction false} LimitsAreLegal(h: History, t: nat, root: Ino, s: Seen, parts: Path)
    requires LegalPaths(h, t, root) && Resolve(h, t, root, parts) == Some(s.ino) && HoldsAt(h, t, s)
    ensures Legal(s, parts)
    decreases s
  {
    hide At, GoodName, Resolve, LegalPaths, Ascending, Lists, Distinct;
    if s.SeenDir? {
      forall k | 0 <= k < |s.children| ensures GoodName(s.names[k], parts + [s.names[k]]) && Legal(s.children[k], parts + [s.names[k]]) {
        ResolveFurther(h, t, root, parts, s.names[k]);
        PlainHere(h, t, root, parts, s.names[k]);
        LimitsAreLegal(h, t, root, s.children[k], parts + [s.names[k]]);
      }
    }
  }

  // ---- it is counted once ----------------------------------------------------------------------

  predicate Below(parts: Path, p: Path) {
    |p| > |parts| && p[..|parts|] == parts
  }

  lemma {:induction false} ListedBelow(s: Seen, parts: Path)
    ensures forall p <- EntryPaths(s, parts) :: Below(parts, p)
    decreases s, 1
  {
    hide Below;
    if s.SeenDir? && |s.names| == |s.children| {
      EachBelow(s.names, s.children, parts);
    }
  }

  lemma {:induction false} EachBelow(names: seq<Name>, children: seq<Seen>, parts: Path)
    requires |names| == |children|
    ensures forall p <- AllEntryPaths(names, children, parts) :: Below(parts, p) && p[|parts|] in names
    decreases children, 0
  {
    hide EntryPaths;
    if children != [] {
      ListedBelow(children[0], parts + [names[0]]);
      EachBelow(names[1..], children[1..], parts);
      forall p | p in AllEntryPaths(names, children, parts) ensures Below(parts, p) && p[|parts|] in names {
        if p in EntryPaths(children[0], parts + [names[0]]) { BelowChild(parts, names[0], p); }
      }
    }
  }

  lemma BelowChild(parts: Path, name: Name, p: Path)
    requires Below(parts + [name], p)
    ensures Below(parts, p) && p[|parts|] == name
  {
    assert p[..|parts| + 1] == parts + [name];
    assert p[..|parts|] == p[..|parts| + 1][..|parts|] == parts;
    assert p[|parts|] == p[..|parts| + 1][|parts|];
  }

  lemma {:induction false} ListedOnce(h: History, t: nat, s: Seen, parts: Path)
    requires HoldsAt(h, t, s)
    ensures Distinct(EntryPaths(s, parts))
    decreases s, 1
  {
    hide At, Ascending, Lists;
    if s.SeenDir? {
      EachOnce(h, t, s.names, s.children, parts);
    }
  }

  lemma {:induction false} EachOnce(h: History, t: nat, names: seq<Name>, children: seq<Seen>, parts: Path)
    requires |names| == |children| && Distinct(names) && forall k :: 0 <= k < |children| ==> HoldsAt(h, t, children[k])
    ensures Distinct(AllEntryPaths(names, children, parts))
    decreases children, 0
  {
    hide HoldsAt, EntryPaths, Below;
    if children != [] {
      var inner := parts + [names[0]];
      var below, rest := EntryPaths(children[0], inner), AllEntryPaths(names[1..], children[1..], parts);
      ListedOnce(h, t, children[0], inner);
      EachOnce(h, t, names[1..], children[1..], parts);
      ListedBelow(children[0], inner);
      EachBelow(names[1..], children[1..], parts);
      forall p <- below ensures p != inner { NotItself(inner, p); }
      assert [inner][0] == inner;
      DistinctConcat([inner], below);
      forall p, q | p in [inner] + below && q in rest ensures p != q {
        FirstNameDiffers(parts, names, p, q, below);
      }
      DistinctConcat([inner] + below, rest);
    }
  }

  lemma NotItself(inner: Path, p: Path)
    requires Below(inner, p)
    ensures p != inner
  {
  }

  lemma FirstNameDiffers(parts: Path, names: seq<Name>, p: Path, q: Path, below: seq<Path>)
    requires names != [] && Distinct(names) && p in [parts + [names[0]]] + below
    requires forall x <- below :: Below(parts + [names[0]], x)
    requires Below(parts, q) && q[|parts|] in names[1..]
    ensures p != q
  {
    if p in below { BelowChild(parts, names[0], p); }
    assert p[|parts|] == names[0];
    var k :| 0 <= k < |names[1..]| && names[1..][k] == q[|parts|];
    assert names[k + 1] == q[|parts|];
  }

  lemma {:induction false} ListedIsReached(h: History, t: nat, root: Ino, s: Seen, parts: Path)
    requires Resolve(h, t, root, parts) == Some(s.ino) && HoldsAt(h, t, s)
    ensures forall p <- EntryPaths(s, parts) :: p != [] && Resolve(h, t, root, p).Some?
    decreases s, 1, 0
  {
    hide At, Resolve, Ascending, Lists, Distinct;
    if s.SeenDir? {
      EachIsReached(h, t, root, s, parts, 0);
      assert s.names[0..] == s.names && s.children[0..] == s.children;
    }
  }

  /** The entries from `k` on. */
  lemma {:induction false} EachIsReached(h: History, t: nat, root: Ino, s: Seen, parts: Path, k: nat)
    requires Resolve(h, t, root, parts) == Some(s.ino) && HoldsAt(h, t, s) && s.SeenDir? && k <= |s.names|
    ensures forall p <- AllEntryPaths(s.names[k..], s.children[k..], parts) :: p != [] && Resolve(h, t, root, p).Some?
    decreases s, 0, |s.names| - k
  {
    hide At, Resolve, Ascending, Lists, Distinct, EntryPaths;
    if k < |s.names| {
      ResolveFurther(h, t, root, parts, s.names[k]);
      ListedIsReached(h, t, root, s.children[k], parts + [s.names[k]]);
      EachIsReached(h, t, root, s, parts, k + 1);
      assert s.names[k..][1..] == s.names[k + 1..] && s.children[k..][1..] == s.children[k + 1..];
      assert s.names[k..][0] == s.names[k] && s.children[k..][0] == s.children[k];
    }
  }

  /** A tree that can be read and is within the limits at one instant was seen as one that is checked and
      counted. */
  lemma WithinIsChecked(h: History, t: nat, root: Ino, wanted: Path -> bool, depth: nat) returns (s: Seen)
    requires ReadTree(h, t, root, [], wanted, depth).Some? && WithinLimits(h, t, root)
    ensures s.ino == root && HoldsAt(h, t, s) && Selected(s, [], wanted) && Shallow(s, depth) && Legal(s, [])
    ensures Members(s) <= MAX_TREE_MEMBERS
  {
    hide HoldsAt, Selected, Shallow, Legal, Members, ReadTree, EntryPaths, LegalPath, Distinct;
    s := Sight(h, t, root, [], wanted, depth);
    assert Resolve(h, t, root, []) == Some(root);
    LimitsAreLegal(h, t, root, s, []);
    AsManyPaths(s, []);
    ListedOnce(h, t, s, []);
    ListedIsReached(h, t, root, s, []);
    assert AllReached(h, t, root, EntryPaths(s, []));
  }
}
