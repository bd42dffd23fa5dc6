// Making a held tree read-only: every directory and file below the root loses its write bits, and
// nothing else about the tree changes, whether or not files in it have several names.
module Freeze {
  import opened Unicode
  import opened Wrappers
  import opened TextOrder
  import opened RelativePaths
  import opened Disk
  import opened DiskMeaning
  import opened DiskTree
  import opened Materialize

  /** Some of the permission bits 0o222. */
  predicate Writable(mode: Mode) {
    mode & 0x92 != 0
  }

  predicate SameNode(a: Node, b: Node) {
    match a
    case Dir(entries, _) => b.Dir? && b.entries == entries
    case File(data, _) => b.File? && b.data == data
    case _ => a == b
  }

  /** The same inodes, names and contents; modes may differ. */
  ghost predicate SameShape(a: Nodes, b: Nodes) {
    && (forall i :: i in a <==> i in b)
    && forall i <- a :: SameNode(a[i], b[i])
  }

  lemma SameShapeTransitive(a: Nodes, b: Nodes, c: Nodes)
    requires SameShape(a, b) && SameShape(b, c)
    ensures SameShape(a, c)
  {
  }

  lemma SameShapeTree(a: Nodes, b: Nodes, root: Ino, at: map<Parts, Ino>)
    requires TreeAt(a, root, at) && SameShape(a, b)
    ensures TreeAt(b, root, at)
    ensures forall q <- at :: at[q] in a && at[q] in b && SameNode(a[at[q]], b[at[q]])
  {
    hide Distinct, AllNoSlash, Names, Find;
  }

  lemma SameShapePlaced(a: Nodes, b: Nodes, root: Ino, at: map<Parts, Ino>)
    requires PlacedAt(a, root, at) && SameShape(a, b)
    ensures PlacedAt(b, root, at)
    ensures forall q <- at :: at[q] in a && at[q] in b && SameNode(a[at[q]], b[at[q]])
  {
    hide Distinct, AllNoSlash, Names, Find;
  }

  lemma SameShapeStores(a: Nodes, b: Nodes, root: Ino, at: map<Parts, Ino>, files: Files)
    requires Stores(a, root, at, files, []) && SameShape(a, b)
    ensures Stores(b, root, at, files, [])
  {
    hide TreeAt, Covered;
    SameShapeTree(a, b, root, at);
  }

  /** Everything at or below `p` is a directory or a regular file. */
  ghost predicate RegularBelow(nodes: Nodes, at: map<Parts, Ino>, p: Parts) {
    forall q <- at :: p <= q && at[q] in nodes ==> nodes[at[q]].Dir? || nodes[at[q]].File?
  }

  predicate HasMode(node: Node, fileMode: Mode, directoryMode: Mode) {
    match node
    case Dir(_, mode) => mode == directoryMode
    case File(_, mode) => mode == fileMode
    case _ => false
  }

  ghost predicate FrozenBelow(nodes: Nodes, at: map<Parts, Ino>, p: Parts, fileMode: Mode, directoryMode: Mode) {
    forall q <- at :: p <= q ==> at[q] in nodes && HasMode(nodes[at[q]], fileMode, directoryMode)
  }

  /** The inode has a place at or below `p`. */
  ghost predicate Reached(at: map<Parts, Ino>, p: Parts, i: Ino) {
    exists q <- at :: p <= q && at[q] == i
  }

  lemma ReachedFurther(at: map<Parts, Ino>, p: Parts, n: Text, i: Ino)
    requires Reached(at, p + [n], i)
    ensures Reached(at, p, i)
  {
    assert p <= p + [n];
  }

  /** Only inodes with a place at or below `p` may differ. */
  ghost predicate OnlyBelow(a: Nodes, b: Nodes, at: map<Parts, Ino>, p: Parts) {
    forall i <- a :: !Reached(at, p, i) ==> i in b && b[i] == a[i]
  }

  lemma OnlyBelowTransitive(a: Nodes, b: Nodes, c: Nodes, at: map<Parts, Ino>, p: Parts, n: Text)
    requires OnlyBelow(a, b, at, p) && OnlyBelow(b, c, at, p + [n])
    ensures OnlyBelow(a, c, at, p)
  {
    hide Reached;
    forall i | i in a && !Reached(at, p, i) ensures i in c && c[i] == a[i] {
      if Reached(at, p + [n], i) { ReachedFurther(at, p, n, i); }
    }
  }

  ghost predicate Shallow(at: map<Parts, Ino>, height: nat) {
    forall q <- at :: |q| <= height
  }

  // ---- what the process may open -------------------------------------------------------------

  /** Whether the entry can be opened for reading, and the entries in it can be examined. */
  predicate AllowsOpening(node: Node, privileged: bool) {
    Allows(node, OWNER_READ, privileged) && AllowsSearch(node, privileged)
  }

  predicate AllowsSearch(node: Node, privileged: bool) {
    node.Dir? && node.entries != [] ==> Allows(node, OWNER_SEARCH, privileged)
  }

  /** Everything strictly below `p` can be opened. */
  ghost predicate OpenBelow(nodes: Nodes, at: map<Parts, Ino>, p: Parts, privileged: bool) {
    forall q <- at :: p <= q && q != p && at[q] in nodes ==> AllowsOpening(nodes[at[q]], privileged)
  }

  /** Some file has two names at or below `p`. */
  ghost predicate SharedBelow(at: map<Parts, Ino>, p: Parts) {
    exists q <- at, r <- at :: p <= q && p <= r && q != r && at[q] == at[r]
  }

  predicate Readable(mode: Mode, privileged: bool) {
    privileged || Grants(mode, OWNER_READ)
  }

  /** The process can go through the tree: it holds directories and regular files only, each of which it
      may open, and where a file comes up again under another name, it may still open it with the mode
      that the first name has left it. */
  ghost predicate TreeOpens(nodes: Nodes, at: map<Parts, Ino>, p: Parts, fileMode: Mode, privileged: bool) {
    && RegularBelow(nodes, at, p) && OpenBelow(nodes, at, p, privileged)
    && (p in at && at[p] in nodes ==> AllowsSearch(nodes[at[p]], privileged))
    && (SharedBelow(at, p) ==> Readable(fileMode, privileged))
  }

  /** Everything at or below `p` can be opened. */
  ghost predicate OpenFrom(nodes: Nodes, at: map<Parts, Ino>, p: Parts, privileged: bool) {
    forall q <- at :: p <= q && at[q] in nodes ==> AllowsOpening(nodes[at[q]], privileged)
  }

  /** The same for an entry, which has to be opened itself. */
  ghost predicate EntryOpens(nodes: Nodes, at: map<Parts, Ino>, p: Parts, fileMode: Mode, privileged: bool) {
    && RegularBelow(nodes, at, p) && OpenFrom(nodes, at, p, privileged)
    && (SharedBelow(at, p) ==> Readable(fileMode, privileged))
  }

  lemma EntryIsTree(nodes: Nodes, at: map<Parts, Ino>, p: Parts, fileMode: Mode, privileged: bool)
    requires p in at && at[p] in nodes
    ensures EntryOpens(nodes, at, p, fileMode, privileged)
       <==> TreeOpens(nodes, at, p, fileMode, privileged) && Allows(nodes[at[p]], OWNER_READ, privileged)
  {
    hide RegularBelow, Allows, SharedBelow, Readable;
  }

  /** `q` lies at or below one of the first `i` entries. */
  ghost predicate Among(p: Parts, names: seq<Text>, i: nat, q: Parts) {
    exists j :: 0 <= j < i && j < |names| && p + [names[j]] <= q
  }

  ghost predicate ReachedBy(at: map<Parts, Ino>, p: Parts, names: seq<Text>, i: nat, k: Ino) {
    exists r <- at :: Among(p, names, i, r) && at[r] == k
  }

  ghost predicate SharedAmong(at: map<Parts, Ino>, p: Parts, names: seq<Text>, i: nat) {
    exists q <- at, r <- at :: Among(p, names, i, q) && Among(p, names, i, r) && q != r && at[q] == at[r]
  }

  /** The process can go through the first `i` entries of the directory, one after another. */
  ghost predicate Opened(
    before: Nodes, at: map<Parts, Ino>, p: Parts, names: seq<Text>, i: nat, fileMode: Mode, privileged: bool)
  {
    && i <= |names|
    && (forall j :: 0 <= j < i ==> EntryOpens(before, at, p + [names[j]], fileMode, privileged))
    && (SharedAmong(at, p, names, i) ==> Readable(fileMode, privileged))
  }

  lemma AmongStep(p: Parts, names: seq<Text>, i: nat, q: Parts)
    requires i < |names|
    ensures Among(p, names, i + 1, q) <==> Among(p, names, i, q) || p + [names[i]] <= q
  {
  }

  lemma OpenedLess(
    before: Nodes, at: map<Parts, Ino>, p: Parts, names: seq<Text>, i: nat, n: nat, fileMode: Mode, privileged: bool)
    requires Opened(before, at, p, names, n, fileMode, privileged) && i <= n
    ensures Opened(before, at, p, names, i, fileMode, privileged)
  {
    hide EntryOpens, Readable;
    if SharedAmong(at, p, names, i) {
      var q, r :| q in at && r in at && Among(p, names, i, q) && Among(p, names, i, r) && q != r && at[q] == at[r];
      assert Among(p, names, n, q) && Among(p, names, n, r);
    }
  }

  lemma NothingOpened(before: Nodes, at: map<Parts, Ino>, p: Parts, names: seq<Text>, fileMode: Mode, privileged: bool)
    ensures Opened(before, at, p, names, 0, fileMode, privileged)
  {
  }

  /** Going through a directory is examining its entries and going through each of them. */
  lemma AllOpened(
    nodes: Nodes, root: Ino, at: map<Parts, Ino>, p: Parts, names: seq<Text>, fileMode: Mode, privileged: bool)
    requires PlacedAt(nodes, root, at) && p in at && at[p] in nodes && nodes[at[p]].Dir?
    requires forall n :: n in names <==> n in Names(nodes[at[p]].entries)
    ensures TreeOpens(nodes, at, p, fileMode, privileged)
       <==> && Opened(nodes, at, p, names, |names|, fileMode, privileged)
            && (names != [] ==> Allows(nodes[at[p]], OWNER_SEARCH, privileged))
  {
    hide PlacedAt, Names, Allows, AllowsOpening, Readable, RegularBelow, OpenBelow, OpenFrom, SharedBelow, SharedAmong, Among;
    NamesOfEntries(nodes[at[p]].entries, names);
    if TreeOpens(nodes, at, p, fileMode, privileged) {
      forall j | 0 <= j < |names| ensures EntryOpens(nodes, at, p + [names[j]], fileMode, privileged) {
        BelowEntry(nodes, at, p, names[j], privileged);
      }
      if SharedAmong(at, p, names, |names|) { SharedIsBelow(at, p, names); }
    }
    if Opened(nodes, at, p, names, |names|, fileMode, privileged) {
      EverythingBelow(nodes, root, at, p, names, fileMode, privileged);
      if SharedBelow(at, p) { SharedIsAmong(nodes, root, at, p, names); }
    }
  }

  lemma NamesOfEntries(entries: seq<Entry>, names: seq<Text>)
    requires forall n :: n in names <==> n in Names(entries)
    ensures names == [] <==> entries == []
  {
    if entries != [] { assert Names(entries)[0] in Names(entries); }
    if names != [] { assert names[0] in names; }
  }

  lemma BelowEntry(nodes: Nodes, at: map<Parts, Ino>, p: Parts, name: Text, privileged: bool)
    requires RegularBelow(nodes, at, p) && OpenBelow(nodes, at, p, privileged)
    ensures RegularBelow(nodes, at, p + [name]) && OpenFrom(nodes, at, p + [name], privileged)
    ensures SharedBelow(at, p + [name]) ==> SharedBelow(at, p)
  {
    hide AllowsOpening;
    var c := p + [name];
    assert p <= c;
    forall q | q in at && c <= q ensures p <= q && p != q { }
  }

  lemma SharedIsBelow(at: map<Parts, Ino>, p: Parts, names: seq<Text>)
    requires SharedAmong(at, p, names, |names|)
    ensures SharedBelow(at, p)
  {
    hide Among;
    var q, r :| q in at && r in at && Among(p, names, |names|, q) && Among(p, names, |names|, r) && q != r && at[q] == at[r];
    AmongIsBelow(p, names, q);
    AmongIsBelow(p, names, r);
  }

  lemma AmongIsBelow(p: Parts, names: seq<Text>, q: Parts)
    requires Among(p, names, |names|, q)
    ensures p <= q && p != q
  {
    var j :| 0 <= j < |names| && p + [names[j]] <= q;
    assert p <= p + [names[j]];
  }

  lemma EverythingBelow(
    nodes: Nodes, root: Ino, at: map<Parts, Ino>, p: Parts, names: seq<Text>, fileMode: Mode, privileged: bool)
    requires PlacedAt(nodes, root, at) && p in at && at[p] in nodes && nodes[at[p]].Dir?
    requires forall n :: n in names <==> n in Names(nodes[at[p]].entries)
    requires Opened(nodes, at, p, names, |names|, fileMode, privileged)
    ensures RegularBelow(nodes, at, p) && OpenBelow(nodes, at, p, privileged)
  {
    hide PlacedAt, Names, AllowsOpening, Readable, SharedBelow, SharedAmong;
    forall q | q in at && p <= q && q != p && at[q] in nodes
      ensures (nodes[at[q]].Dir? || nodes[at[q]].File?) && AllowsOpening(nodes[at[q]], privileged)
    {
      EntryOnTheWay(nodes, root, at, p, q);
      var j :| 0 <= j < |names| && names[j] == q[|p|];
      assert p + [names[j]] <= q && EntryOpens(nodes, at, p + [names[j]], fileMode, privileged);
    }
  }

  lemma SharedIsAmong(nodes: Nodes, root: Ino, at: map<Parts, Ino>, p: Parts, names: seq<Text>)
    requires PlacedAt(nodes, root, at) && p in at && at[p] in nodes && nodes[at[p]].Dir?
    requires forall n :: n in names <==> n in Names(nodes[at[p]].entries)
    requires SharedBelow(at, p)
    ensures SharedAmong(at, p, names, |names|)
  {
    hide PlacedAt, Names;
    PlacesDiffer(nodes, root, at, p);
    var q, r :| q in at && r in at && p <= q && p <= r && q != r && at[q] == at[r];
    assert q != p && r != p;
    BelowIsAmong(nodes, root, at, p, names, q);
    BelowIsAmong(nodes, root, at, p, names, r);
  }

  lemma BelowIsAmong(nodes: Nodes, root: Ino, at: map<Parts, Ino>, p: Parts, names: seq<Text>, q: Parts)
    requires PlacedAt(nodes, root, at) && p in at && at[p] in nodes && nodes[at[p]].Dir?
    requires forall n :: n in names <==> n in Names(nodes[at[p]].entries)
    requires q in at && p <= q && q != p
    ensures Among(p, names, |names|, q)
  {
    hide PlacedAt, Names;
    EntryOnTheWay(nodes, root, at, p, q);
    var j :| 0 <= j < |names| && names[j] == q[|p|];
    assert p + [names[j]] <= q;
  }

  // ---- one entry at a time -------------------------------------------------------------------

  /** What the loop over a directory's names has achieved after the first `i` of them. */
  ghost predicate FrozenEntries(
    before: Nodes, nodes: Nodes, at: map<Parts, Ino>, p: Parts, names: seq<Text>, i: nat, fileMode: Mode, directoryMode: Mode)
  {
    && i <= |names|
    && SameShape(before, nodes)
    && (forall k <- before :: !ReachedBy(at, p, names, i, k) ==> k in nodes && nodes[k] == before[k])
    && (forall j :: 0 <= j < i ==> FrozenBelow(nodes, at, p + [names[j]], fileMode, directoryMode))
  }

  lemma FrozenKept(
    a: Nodes, b: Nodes, at: map<Parts, Ino>, p: Parts, m: Text, n: Text, fileMode: Mode, directoryMode: Mode)
    requires FrozenBelow(a, at, p + [m], fileMode, directoryMode)
    requires OnlyBelow(a, b, at, p + [n]) && FrozenBelow(b, at, p + [n], fileMode, directoryMode)
    ensures FrozenBelow(b, at, p + [m], fileMode, directoryMode)
  {
    hide HasMode;
    forall q | q in at && p + [m] <= q ensures at[q] in b && HasMode(b[at[q]], fileMode, directoryMode) {
      if Reached(at, p + [n], at[q]) {
        var r :| r in at && p + [n] <= r && at[r] == at[q];
      }
    }
  }

  lemma FrozenStep(
    before: Nodes, mid: Nodes, nodes: Nodes, at: map<Parts, Ino>, p: Parts, names: seq<Text>, i: nat, fileMode: Mode, directoryMode: Mode)
    requires FrozenEntries(before, mid, at, p, names, i, fileMode, directoryMode) && i < |names|
    requires SameShape(mid, nodes) && OnlyBelow(mid, nodes, at, p + [names[i]])
    requires FrozenBelow(nodes, at, p + [names[i]], fileMode, directoryMode)
    ensures FrozenEntries(before, nodes, at, p, names, i + 1, fileMode, directoryMode)
  {
    hide FrozenBelow, HasMode, OnlyBelow, ReachedBy;
    SameShapeTransitive(before, mid, nodes);
    forall j | 0 <= j < i ensures FrozenBelow(nodes, at, p + [names[j]], fileMode, directoryMode) {
      FrozenKept(mid, nodes, at, p, names[j], names[i], fileMode, directoryMode);
    }
    forall k | k in before && !ReachedBy(at, p, names, i + 1, k) ensures k in nodes && nodes[k] == before[k] {
      UnreachedBefore(at, p, names, i, k);
      UnreachedSame(mid, nodes, at, p + [names[i]], k);
    }
  }

  lemma UnreachedBefore(at: map<Parts, Ino>, p: Parts, names: seq<Text>, i: nat, k: Ino)
    requires i < |names| && !ReachedBy(at, p, names, i + 1, k)
    ensures !ReachedBy(at, p, names, i, k) && !Reached(at, p + [names[i]], k)
  {
    hide Among;
    forall r | r in at ensures Among(p, names, i + 1, r) <==> Among(p, names, i, r) || p + [names[i]] <= r {
      AmongStep(p, names, i, r);
    }
  }

  lemma UnreachedSame(a: Nodes, b: Nodes, at: map<Parts, Ino>, p: Parts, k: Ino)
    requires OnlyBelow(a, b, at, p) && k in a && !Reached(at, p, k)
    ensures k in b && b[k] == a[k]
  {
  }

  /** What was reached through entries of a directory lies below it. */
  lemma EntriesOnlyBelow(
    before: Nodes, nodes: Nodes, at: map<Parts, Ino>, p: Parts, names: seq<Text>, i: nat, fileMode: Mode, directoryMode: Mode)
    requires FrozenEntries(before, nodes, at, p, names, i, fileMode, directoryMode)
    ensures SameShape(before, nodes) && OnlyBelow(before, nodes, at, p)
  {
    hide SameShape, FrozenBelow, Among;
    forall k | k in before && !Reached(at, p, k) ensures k in nodes && nodes[k] == before[k] {
      if ReachedBy(at, p, names, i, k) {
        var r :| r in at && Among(p, names, i, r) && at[r] == k;
        AmongMore(p, names, i, r);
        AmongIsBelow(p, names, r);
      }
    }
  }

  lemma AmongMore(p: Parts, names: seq<Text>, i: nat, q: Parts)
    requires Among(p, names, i, q)
    ensures Among(p, names, |names|, q)
  {
  }

  /** Up to its last step the loop leaves the directory itself alone. */
  lemma DirectoryUntouched(
    before: Nodes, mid: Nodes, root: Ino, at: map<Parts, Ino>, p: Parts, names: seq<Text>, i: nat, fileMode: Mode, directoryMode: Mode)
    requires PlacedAt(before, root, at) && p in at && at[p] in before && before[at[p]].Dir?
    requires FrozenEntries(before, mid, at, p, names, i, fileMode, directoryMode)
    ensures at[p] in mid && mid[at[p]] == before[at[p]]
  {
    hide PlacedAt, SameShape, FrozenBelow, Among;
    PlacesDiffer(before, root, at, p);
    if ReachedBy(at, p, names, i, at[p]) {
      var r :| r in at && Among(p, names, i, r) && at[r] == at[p];
      AmongMore(p, names, i, r);
      AmongIsBelow(p, names, r);
      assert false;
    }
  }

  // ---- what the first names do to the later ones -----------------------------------------------

  /** An inode met below the next entry: either the loop has not touched it yet, or it is a file that has
      been met under an earlier name, opened, and left with the mode for files. */
  lemma MetAgain(
    before: Nodes, mid: Nodes, root: Ino, at: map<Parts, Ino>, p: Parts, names: seq<Text>, i: nat,
    fileMode: Mode, directoryMode: Mode, privileged: bool, q: Parts)
    requires PlacedAt(before, root, at) && Distinct(names) && i < |names| && q in at && p + [names[i]] <= q
    requires FrozenEntries(before, mid, at, p, names, i, fileMode, directoryMode)
    requires Opened(before, at, p, names, i, fileMode, privileged)
    ensures at[q] in before && at[q] in mid
    ensures if ReachedBy(at, p, names, i, at[q]) then
              && SharedAmong(at, p, names, i + 1)
              && AllowsOpening(before[at[q]], privileged)
              && (AllowsOpening(mid[at[q]], privileged) <==> Readable(fileMode, privileged))
            else mid[at[q]] == before[at[q]]
  {
    hide PlacedAt, Among, Readable, SharedBelow, AllowsOpening;
    SameShapePlaced(before, mid, root, at);
    if ReachedBy(at, p, names, i, at[q]) {
      var r :| r in at && Among(p, names, i, r) && at[r] == at[q];
      EarlierDiffers(p, names, i, q, r);
      assert Among(p, names, i + 1, q) && Among(p, names, i + 1, r) by { AmongStep(p, names, i, q); AmongStep(p, names, i, r); }
      EarlierFrozen(before, mid, at, p, names, i, fileMode, directoryMode, privileged, r);
      PlacesDiffer(before, root, at, r);
      FrozenFileOpens(mid[at[q]], fileMode, directoryMode, privileged);
    }
  }

  lemma EarlierDiffers(p: Parts, names: seq<Text>, i: nat, q: Parts, r: Parts)
    requires Distinct(names) && i < |names| && p + [names[i]] <= q && Among(p, names, i, r)
    ensures q != r
  {
    var j :| 0 <= j < i && p + [names[j]] <= r;
    assert (p + [names[j]])[|p|] == names[j] && (p + [names[i]])[|p|] == names[i];
  }

  lemma EarlierFrozen(
    before: Nodes, mid: Nodes, at: map<Parts, Ino>, p: Parts, names: seq<Text>, i: nat,
    fileMode: Mode, directoryMode: Mode, privileged: bool, r: Parts)
    requires r in at && Among(p, names, i, r) && at[r] in before
    requires FrozenEntries(before, mid, at, p, names, i, fileMode, directoryMode)
    requires Opened(before, at, p, names, i, fileMode, privileged)
    ensures AllowsOpening(before[at[r]], privileged) && at[r] in mid && HasMode(mid[at[r]], fileMode, directoryMode)
  {
    hide AllowsOpening, HasMode, Readable, SharedBelow, SharedAmong, ReachedBy, SameShape;
    var j :| 0 <= j < i && j < |names| && p + [names[j]] <= r;
    assert EntryOpens(before, at, p + [names[j]], fileMode, privileged);
    assert FrozenBelow(mid, at, p + [names[j]], fileMode, directoryMode);
  }

  lemma FrozenFileOpens(node: Node, fileMode: Mode, directoryMode: Mode, privileged: bool)
    requires HasMode(node, fileMode, directoryMode) && !node.Dir?
    ensures AllowsOpening(node, privileged) <==> Readable(fileMode, privileged)
  {
  }

  /** The next entry opens after all that the loop has done so far exactly when it would have opened before
      it, and no file in it that has lost its read permission to an earlier name stands in the way. */
  lemma OpenStep(
    before: Nodes, mid: Nodes, root: Ino, at: map<Parts, Ino>, p: Parts, names: seq<Text>, i: nat,
    fileMode: Mode, directoryMode: Mode, privileged: bool)
    requires PlacedAt(before, root, at) && Distinct(names) && i < |names|
    requires FrozenEntries(before, mid, at, p, names, i, fileMode, directoryMode)
    requires Opened(before, at, p, names, i, fileMode, privileged)
    ensures EntryOpens(mid, at, p + [names[i]], fileMode, privileged) <==> Opened(before, at, p, names, i + 1, fileMode, privileged)
  {
    hide PlacedAt, Readable, AllowsOpening, SharedBelow, SharedAmong, Among, ReachedBy, RegularBelow, FrozenEntries, OpenFrom;
    var c := p + [names[i]];
    FrozenShape(before, mid, at, p, names, i, fileMode, directoryMode);
    RegularSame(before, mid, at, c);
    if EntryOpens(mid, at, c, fileMode, privileged) {
      OpenedBefore(before, mid, root, at, p, names, i, fileMode, directoryMode, privileged);
      if SharedAmong(at, p, names, i + 1) {
        SharedReadable(before, mid, root, at, p, names, i, fileMode, directoryMode, privileged);
      }
    }
    if Opened(before, at, p, names, i + 1, fileMode, privileged) {
      assert EntryOpens(before, at, c, fileMode, privileged);
      OpensStill(before, mid, root, at, p, names, i, fileMode, directoryMode, privileged);
    }
  }

  lemma FrozenShape(
    before: Nodes, mid: Nodes, at: map<Parts, Ino>, p: Parts, names: seq<Text>, i: nat, fileMode: Mode, directoryMode: Mode)
    requires FrozenEntries(before, mid, at, p, names, i, fileMode, directoryMode)
    ensures SameShape(before, mid)
  {
  }

  lemma OpenedBefore(
    before: Nodes, mid: Nodes, root: Ino, at: map<Parts, Ino>, p: Parts, names: seq<Text>, i: nat,
    fileMode: Mode, directoryMode: Mode, privileged: bool)
    requires PlacedAt(before, root, at) && Distinct(names) && i < |names|
    requires FrozenEntries(before, mid, at, p, names, i, fileMode, directoryMode)
    requires Opened(before, at, p, names, i, fileMode, privileged) && OpenFrom(mid, at, p + [names[i]], privileged)
    ensures OpenFrom(before, at, p + [names[i]], privileged)
  {
    hide PlacedAt, Readable, AllowsOpening, Opened, FrozenEntries, ReachedBy, SharedAmong;
    forall q | q in at && p + [names[i]] <= q && at[q] in before ensures AllowsOpening(before[at[q]], privileged) {
      MetAgain(before, mid, root, at, p, names, i, fileMode, directoryMode, privileged, q);
    }
  }

  lemma OpensStill(
    before: Nodes, mid: Nodes, root: Ino, at: map<Parts, Ino>, p: Parts, names: seq<Text>, i: nat,
    fileMode: Mode, directoryMode: Mode, privileged: bool)
    requires PlacedAt(before, root, at) && Distinct(names) && i < |names|
    requires FrozenEntries(before, mid, at, p, names, i, fileMode, directoryMode)
    requires Opened(before, at, p, names, i, fileMode, privileged) && OpenFrom(before, at, p + [names[i]], privileged)
    requires SharedAmong(at, p, names, i + 1) ==> Readable(fileMode, privileged)
    ensures OpenFrom(mid, at, p + [names[i]], privileged)
  {
    hide PlacedAt, Readable, AllowsOpening, Opened, FrozenEntries, ReachedBy, SharedAmong;
    forall q | q in at && p + [names[i]] <= q && at[q] in mid ensures AllowsOpening(mid[at[q]], privileged) {
      MetAgain(before, mid, root, at, p, names, i, fileMode, directoryMode, privileged, q);
    }
  }

  /** A file with two names among the entries so far was opened a second time, so it could be. */
  lemma SharedReadable(
    before: Nodes, mid: Nodes, root: Ino, at: map<Parts, Ino>, p: Parts, names: seq<Text>, i: nat,
    fileMode: Mode, directoryMode: Mode, privileged: bool)
    requires PlacedAt(before, root, at) && Distinct(names) && i < |names|
    requires FrozenEntries(before, mid, at, p, names, i, fileMode, directoryMode)
    requires Opened(before, at, p, names, i, fileMode, privileged)
    requires EntryOpens(mid, at, p + [names[i]], fileMode, privileged) && SharedAmong(at, p, names, i + 1)
    ensures Readable(fileMode, privileged)
  {
    hide PlacedAt, Readable, AllowsOpening, FrozenEntries, Among, RegularBelow, EntryOpens, Opened;
    var q, r :| q in at && r in at && Among(p, names, i + 1, q) && Among(p, names, i + 1, r) && q != r && at[q] == at[r];
    AmongStep(p, names, i, q);
    AmongStep(p, names, i, r);
    if Among(p, names, i, q) && Among(p, names, i, r) {
      EarlierShared(before, at, p, names, i, fileMode, privileged);
    } else if p + [names[i]] <= q && p + [names[i]] <= r {
      EntryShared(mid, at, p + [names[i]], fileMode, privileged);
    } else {
      var late := if p + [names[i]] <= q then q else r;
      MetAgain(before, mid, root, at, p, names, i, fileMode, directoryMode, privileged, late);
      EntryOpensAt(mid, at, p + [names[i]], fileMode, privileged, late);
    }
  }

  lemma EarlierShared(
    before: Nodes, at: map<Parts, Ino>, p: Parts, names: seq<Text>, i: nat, fileMode: Mode, privileged: bool)
    requires Opened(before, at, p, names, i, fileMode, privileged) && SharedAmong(at, p, names, i)
    ensures Readable(fileMode, privileged)
  {
  }

  lemma EntryShared(nodes: Nodes, at: map<Parts, Ino>, c: Parts, fileMode: Mode, privileged: bool)
    requires EntryOpens(nodes, at, c, fileMode, privileged) && SharedBelow(at, c)
    ensures Readable(fileMode, privileged)
  {
  }

  lemma EntryOpensAt(nodes: Nodes, at: map<Parts, Ino>, c: Parts, fileMode: Mode, privileged: bool, q: Parts)
    requires EntryOpens(nodes, at, c, fileMode, privileged) && q in at && c <= q && at[q] in nodes
    ensures AllowsOpening(nodes[at[q]], privileged)
  {
  }

  lemma RegularSame(a: Nodes, b: Nodes, at: map<Parts, Ino>, p: Parts)
    requires SameShape(a, b)
    ensures RegularBelow(a, at, p) <==> RegularBelow(b, at, p)
  {
  }

  /** All entries done and the directory itself changed: everything from `p` down is frozen. */
  lemma FrozenEnd(
    before: Nodes, mid: Nodes, nodes: Nodes, root: Ino, at: map<Parts, Ino>, p: Parts, names: seq<Text>, fileMode: Mode, directoryMode: Mode)
    requires PlacedAt(before, root, at) && p in at && at[p] in before && before[at[p]].Dir?
    requires forall n :: n in names <==> n in Names(before[at[p]].entries)
    requires FrozenEntries(before, mid, at, p, names, |names|, fileMode, directoryMode)
    requires at[p] in mid && mid[at[p]].Dir? && nodes == mid[at[p] := WithMode(mid[at[p]], directoryMode)]
    ensures SameShape(before, nodes) && OnlyBelow(before, nodes, at, p)
    ensures FrozenBelow(nodes, at, p, fileMode, directoryMode)
  {
    hide PlacedAt, Names, ReachedBy;
    EntriesOnlyBelow(before, mid, at, p, names, |names|, fileMode, directoryMode);
    PlacesDiffer(before, root, at, p);
    forall q | q in at && p <= q && q != p ensures at[q] in nodes && HasMode(nodes[at[q]], fileMode, directoryMode) {
      var n := q[|p|];
      EntryOnTheWay(before, root, at, p, q);
      var j :| 0 <= j < |names| && names[j] == n;
      assert p + [names[j]] <= q;
    }
  }

  /** A directory has one place only. */
  lemma PlacesDiffer(nodes: Nodes, root: Ino, at: map<Parts, Ino>, p: Parts)
    requires PlacedAt(nodes, root, at) && p in at
    ensures forall q <- at :: at[q] in nodes && (at[q] == at[p] && nodes[at[p]].Dir? ==> q == p)
  {
  }

  lemma EntryOnTheWay(nodes: Nodes, root: Ino, at: map<Parts, Ino>, p: Parts, q: Parts)
    requires PlacedAt(nodes, root, at) && p in at && q in at && p <= q && p != q
    requires at[p] in nodes && nodes[at[p]].Dir?
    ensures q[|p|] in Names(nodes[at[p]].entries)
  {
    hide PlacedAt;
    var child := p + [q[|p|]];
    assert q == child + q[|p| + 1..];
    if child !in at {
      NothingPlacedUnder(nodes, root, at, child, q[|p| + 1..]);
      assert false;
    }
    PlacedChild(nodes, root, at, p, q[|p|]);
    FindNamed(nodes[at[p]].entries, q[|p|]);
  }

  const FIRST: Text := [0x61]
  const SECOND: Text := [0x62]

  function TwoEntries(): seq<Entry> {
    [Entry(FIRST, 1), Entry(SECOND, 1)]
  }

  /** A file under two names in one directory, owned and readable. */
  function TwoNames(): Nodes {
    map[0 := Dir(TwoEntries(), PRIVATE), 1 := File([], 0x180)]
  }

  ghost function TwoPlaces(): map<Parts, Ino> {
    map[[] := 0, [FIRST] := 1, [SECOND] := 1]
  }

  /** Being able to open everything beforehand is not enough: with a file mode that takes the owner's read
      permission away, the first name of this file is frozen and the second cannot be opened. */
  lemma SecondNameStops(fileMode: Mode)
    requires !Grants(fileMode, OWNER_READ)
    ensures PlacedAt(TwoNames(), 0, TwoPlaces()) && RegularBelow(TwoNames(), TwoPlaces(), [])
    ensures OpenFrom(TwoNames(), TwoPlaces(), [], false) && !TreeOpens(TwoNames(), TwoPlaces(), [], fileMode, false)
  {
    hide PlacedAt, RegularBelow, OpenFrom, OpenBelow, AllowsSearch, Grants, TwoEntries, TwoNames;
    TwoNamesPlaced();
    TwoNamesOpen();
    TwoNamesShared();
  }

  lemma TwoNamesShared()
    ensures SharedBelow(TwoPlaces(), [])
  {
    var at := TwoPlaces();
    var p, q: Parts := [FIRST], [SECOND];
    assert p[0] == FIRST && q[0] == SECOND && FIRST[0] != SECOND[0];
    assert p in at && q in at && at[p] == at[q] && [] <= p && [] <= q;
  }

  lemma TwoNamesOpen()
    ensures RegularBelow(TwoNames(), TwoPlaces(), []) && OpenFrom(TwoNames(), TwoPlaces(), [], false)
  {
    hide TwoEntries;
    assert forall q <- TwoPlaces() :: TwoPlaces()[q] == 0 || TwoPlaces()[q] == 1;
    assert Grants(PRIVATE, OWNER_READ) && Grants(PRIVATE, OWNER_SEARCH) && Grants(0x180, OWNER_READ);
  }

  lemma TwoNamesPlaced()
    ensures PlacedAt(TwoNames(), 0, TwoPlaces())
  {
    hide WellNamed, EntriesAt, TwoEntries;
    var nodes, at := TwoNames(), TwoPlaces();
    assert Front([FIRST]) == [] && Front([SECOND]) == [];
    TwoWellNamed();
    TwoEntriesAt();
  }

  lemma TwoWellNamed()
    ensures WellNamed(TwoNames())
  {
    assert FIRST[0] != SECOND[0];
    assert Names(TwoEntries()) == [FIRST, SECOND];
  }

  lemma TwoEntriesAt()
    ensures EntriesAt(TwoEntries(), [], TwoPlaces())
  {
    hide Find;
    forall name ensures Find(TwoEntries(), name) == if [] + [name] in TwoPlaces() then Some(TwoPlaces()[[] + [name]]) else None {
      FoundOfTwo(name);
      assert [] + [name] == [name] && [name][0] == name && [FIRST][0] == FIRST && [SECOND][0] == SECOND;
      assert [name] in TwoPlaces() <==> name == FIRST || name == SECOND;
    }
  }

  lemma FoundOfTwo(name: Text)
    ensures Find(TwoEntries(), name) == if name == FIRST || name == SECOND then Some(1) else None
  {
    var entries := TwoEntries();
    assert entries[1..] == [Entry(SECOND, 1)] && entries[1..][1..] == [];
    assert Find([], name) == None;
  }

  // ---- freeze_directory_tree -----------------------------------------------------------------

  method FreezeDirectory(
    fs: FileSystem, dir: Ino, fileMode: Mode, directoryMode: Mode, ghost p: Parts, ghost height: nat)
    returns (ok: bool)
    requires PlacedAt(fs.nodes, fs.root, fs.at) && Shallow(fs.at, height)
    requires p in fs.at && fs.at[p] == dir && dir in fs.nodes && fs.nodes[dir].Dir?
    modifies fs`nodes
    ensures ok <==>
              && !Writable(fileMode) && !Writable(directoryMode)
              && TreeOpens(old(fs.nodes), fs.at, p, fileMode, fs.privileged)
    ensures SameShape(old(fs.nodes), fs.nodes) && OnlyBelow(old(fs.nodes), fs.nodes, fs.at, p)
    ensures ok ==> FrozenBelow(fs.nodes, fs.at, p, fileMode, directoryMode)
    decreases height - |p|, 1
  {
    hide PlacedAt, Writable, TreeOpens, SameShape, OnlyBelow, FrozenBelow, FrozenEntries, Opened, Names, WithMode, Allows;
    ShapeItself(fs.nodes, fs.at, p);
    if Writable(fileMode) || Writable(directoryMode) { return false; }
    var names := Sort(Names(fs.nodes[dir].entries));
    NamesOnce(fs.nodes, fs.root, fs.at, p);
    AllOpened(fs.nodes, fs.root, fs.at, p, names, fileMode, fs.privileged);
    ok := FreezeAll(fs, dir, names, fileMode, directoryMode, p, height);
    if ok {
      ghost var mid := fs.nodes;
      FrozenFacts(old(fs.nodes), mid, fs.at, p, dir, names, |names|, fileMode, directoryMode);
      fs.ChangeMode(dir, directoryMode);
      FrozenEnd(old(fs.nodes), mid, fs.nodes, fs.root, fs.at, p, names, fileMode, directoryMode);
    }
  }

  /** The loop over a directory's sorted names. */
  method FreezeAll(
      fs: FileSystem, dir: Ino, names: seq<Text>, fileMode: Mode, directoryMode: Mode, ghost p: Parts, ghost height: nat)
    returns (ok: bool)
    requires PlacedAt(fs.nodes, fs.root, fs.at) && Shallow(fs.at, height)
    requires p in fs.at && fs.at[p] == dir && dir in fs.nodes && fs.nodes[dir].Dir?
    requires !Writable(fileMode) && !Writable(directoryMode)
    requires Distinct(names) && forall n <- names :: n in Names(fs.nodes[dir].entries)
    modifies fs`nodes
    ensures ok <==>
              && Opened(old(fs.nodes), fs.at, p, names, |names|, fileMode, fs.privileged)
              && (names != [] ==> old(fs.Permits(dir, OWNER_SEARCH)))
    ensures ok ==> FrozenEntries(old(fs.nodes), fs.nodes, fs.at, p, names, |names|, fileMode, directoryMode)
    ensures !ok ==> SameShape(old(fs.nodes), fs.nodes) && OnlyBelow(old(fs.nodes), fs.nodes, fs.at, p)
    decreases height - |p|, 0, 2
  {
    hide PlacedAt, Writable, SameShape, OnlyBelow, FrozenEntries, Opened, Names, Distinct, Allows;
    FrozenStart(fs.nodes, fs.at, p, names, fileMode, directoryMode);
    NothingOpened(fs.nodes, fs.at, p, names, fileMode, fs.privileged);
    var i := 0;
    while i < |names|
      invariant 0 <= i <= |names|
      invariant FrozenEntries(old(fs.nodes), fs.nodes, fs.at, p, names, i, fileMode, directoryMode)
      invariant Opened(old(fs.nodes), fs.at, p, names, i, fileMode, fs.privileged)
      invariant i > 0 ==> old(fs.Permits(dir, OWNER_SEARCH))
    {
      ok := FreezeNext(fs, dir, names, i, fileMode, directoryMode, p, height, old(fs.nodes));
      if !ok {
        if Opened(old(fs.nodes), fs.at, p, names, |names|, fileMode, fs.privileged) {
          OpenedLess(old(fs.nodes), fs.at, p, names, i + 1, |names|, fileMode, fs.privileged);
        }
        return;
      }
      i := i + 1;
    }
    ok := true;
  }

  /** One entry of a directory, with what that means for the loop over them. */
  method FreezeNext(
      fs: FileSystem, dir: Ino, names: seq<Text>, i: nat, fileMode: Mode, directoryMode: Mode,
      ghost p: Parts, ghost height: nat, ghost before: Nodes)
    returns (ok: bool)
    requires PlacedAt(before, fs.root, fs.at) && Shallow(fs.at, height)
    requires p in fs.at && fs.at[p] == dir && dir in before && before[dir].Dir?
    requires !Writable(fileMode) && !Writable(directoryMode)
    requires i < |names| && Distinct(names) && forall n <- names :: n in Names(before[dir].entries)
    requires FrozenEntries(before, fs.nodes, fs.at, p, names, i, fileMode, directoryMode)
    requires Opened(before, fs.at, p, names, i, fileMode, fs.privileged)
    modifies fs`nodes
    ensures ok <==>
              && Allows(before[dir], OWNER_SEARCH, fs.privileged)
              && Opened(before, fs.at, p, names, i + 1, fileMode, fs.privileged)
    ensures ok ==> FrozenEntries(before, fs.nodes, fs.at, p, names, i + 1, fileMode, directoryMode)
    ensures !ok ==> SameShape(before, fs.nodes) && OnlyBelow(before, fs.nodes, fs.at, p)
    decreases height - |p|, 0, 1
  {
    hide PlacedAt, Writable, SameShape, OnlyBelow, FrozenBelow, FrozenEntries, Opened, EntryOpens, Names, Allows;
    ghost var mid := fs.nodes;
    FrozenFacts(before, mid, fs.at, p, dir, names, i, fileMode, directoryMode);
    DirectoryUntouched(before, mid, fs.root, fs.at, p, names, i, fileMode, directoryMode);
    OpenStep(before, mid, fs.root, fs.at, p, names, i, fileMode, directoryMode, fs.privileged);
    SameShapePlaced(before, mid, fs.root, fs.at);
    assert names[i] in names;
    ok := FreezeEntry(fs, dir, names[i], fileMode, directoryMode, p, height);
    if ok {
      FrozenStep(before, mid, fs.nodes, fs.at, p, names, i, fileMode, directoryMode);
    } else {
      SameShapeTransitive(before, mid, fs.nodes);
      OnlyBelowTransitive(before, mid, fs.nodes, fs.at, p, names[i]);
    }
  }

  /** Examine one entry, open it without following links, and freeze what it leads to. */
  method FreezeEntry(
      fs: FileSystem, dir: Ino, name: Text, fileMode: Mode, directoryMode: Mode, ghost p: Parts, ghost height: nat)
    returns (ok: bool)
    requires PlacedAt(fs.nodes, fs.root, fs.at) && Shallow(fs.at, height)
    requires p in fs.at && fs.at[p] == dir && dir in fs.nodes && fs.nodes[dir].Dir?
    requires !Writable(fileMode) && !Writable(directoryMode)
    requires name in Names(fs.nodes[dir].entries)
    modifies fs`nodes
    ensures ok <==>
              && old(fs.Permits(dir, OWNER_SEARCH))
              && EntryOpens(old(fs.nodes), fs.at, p + [name], fileMode, fs.privileged)
    ensures SameShape(old(fs.nodes), fs.nodes) && OnlyBelow(old(fs.nodes), fs.nodes, fs.at, p + [name])
    ensures ok ==> FrozenBelow(fs.nodes, fs.at, p + [name], fileMode, directoryMode)
    decreases height - |p|, 0, 0
  {
    hide PlacedAt, Writable, TreeOpens, EntryOpens, SameShape, OnlyBelow, FrozenBelow, Names, Find, Allows;
    ghost var child := p + [name];
    FindNamed(fs.nodes[dir].entries, name);
    PlacedChild(fs.nodes, fs.root, fs.at, p, name);
    ShapeItself(fs.nodes, fs.at, child);
    if !fs.Permits(dir, OWNER_SEARCH) { return false; }
    var ino := Find(fs.nodes[dir].entries, name).value;
    EntryIsTree(fs.nodes, fs.at, child, fileMode, fs.privileged);
    if fs.nodes[ino].Dir? {
      assert Shallow(fs.at, height) && |child| <= height;
      if !fs.Permits(ino, OWNER_READ) { return false; }
      ok := FreezeDirectory(fs, ino, fileMode, directoryMode, child, height);
    } else {
      LeafFrozen(fs.nodes, fs.root, fs.at, child, fileMode, directoryMode, fs.privileged);
      if !fs.nodes[ino].File? || !fs.Permits(ino, OWNER_READ) { return false; }
      fs.ChangeMode(ino, fileMode);
      ok := true;
    }
  }

  // ---- the small facts the methods use -------------------------------------------------------

  lemma ShapeItself(nodes: Nodes, at: map<Parts, Ino>, p: Parts)
    ensures SameShape(nodes, nodes) && OnlyBelow(nodes, nodes, at, p)
  {
  }

  lemma NamesOnce(nodes: Nodes, root: Ino, at: map<Parts, Ino>, p: Parts)
    requires PlacedAt(nodes, root, at) && p in at && nodes[at[p]].Dir?
    ensures var names := Sort(Names(nodes[at[p]].entries));
            Distinct(names) && forall n :: n in names <==> n in Names(nodes[at[p]].entries)
  {
    hide Names, Sort, EntriesAt;
    SortKeepsDistinct(Names(nodes[at[p]].entries));
  }

  lemma FrozenStart(nodes: Nodes, at: map<Parts, Ino>, p: Parts, names: seq<Text>, fileMode: Mode, directoryMode: Mode)
    ensures FrozenEntries(nodes, nodes, at, p, names, 0, fileMode, directoryMode)
  {
  }

  lemma FrozenFacts(
    before: Nodes, nodes: Nodes, at: map<Parts, Ino>, p: Parts, dir: Ino, names: seq<Text>, i: nat, fileMode: Mode, directoryMode: Mode)
    requires FrozenEntries(before, nodes, at, p, names, i, fileMode, directoryMode)
    requires dir in before && before[dir].Dir?
    ensures SameShape(before, nodes) && OnlyBelow(before, nodes, at, p)
    ensures dir in nodes && nodes[dir].Dir? && nodes[dir].entries == before[dir].entries
  {
    hide ReachedBy;
    EntriesOnlyBelow(before, nodes, at, p, names, i, fileMode, directoryMode);
    assert SameNode(before[dir], nodes[dir]);
  }

  /** Nothing lies below a node that is not a directory. */
  lemma LeafFrozen(
    nodes: Nodes, root: Ino, at: map<Parts, Ino>, p: Parts, fileMode: Mode, directoryMode: Mode, privileged: bool)
    requires PlacedAt(nodes, root, at) && p in at && at[p] in nodes && !nodes[at[p]].Dir?
    ensures TreeOpens(nodes, at, p, fileMode, privileged) <==> nodes[at[p]].File?
    ensures nodes[at[p]].File? ==>
              var after := nodes[at[p] := WithMode(nodes[at[p]], fileMode)];
              SameShape(nodes, after) && OnlyBelow(nodes, after, at, p) && FrozenBelow(after, at, p, fileMode, directoryMode)
  {
    hide PlacedAt;
    PlacesDiffer(nodes, root, at, p);
    forall q | q in at && p <= q ensures q == p {
      if q != p {
        var child := p + [q[|p|]];
        assert q == child + q[|p| + 1..];
        PlacedChild(nodes, root, at, p, q[|p|]);
        NothingPlacedUnder(nodes, root, at, child, q[|p| + 1..]);
        assert false;
      }
    }
  }

  /** A frozen tree has no writable directory or file. */
  lemma FrozenIsReadOnly(nodes: Nodes, at: map<Parts, Ino>, p: Parts, fileMode: Mode, directoryMode: Mode, q: Parts)
    requires FrozenBelow(nodes, at, p, fileMode, directoryMode) && !Writable(fileMode) && !Writable(directoryMode)
    requires q in at && p <= q
    ensures at[q] in nodes && (nodes[at[q]].Dir? || nodes[at[q]].File?) && !Writable(nodes[at[q]].mode)
  {
    hide Writable;
  }
}
