// A private directory tree described by a map from component sequences to inodes, and what it
// means for such a tree to store a set of files.
module DiskTree {
  import opened Bytes
  import opened Unicode
  import opened Wrappers
  import opened TextOrder
  import opened RelativePaths
  import opened Disk
  import opened DiskMeaning

  type Files = map<Parts, Octets>

  function Front(p: Parts): Parts
    requires p != []
  {
    p[..|p| - 1]
  }

  /** The directory `k` components down the path. */
  function Above(rel: Parts, k: nat): (p: Parts)
    requires k <= |rel|
    ensures |p| == k && p <= rel
  {
    rel[..k]
  }

  /** No place is lost or moved. */
  ghost predicate Extends(before: map<Parts, Ino>, after: map<Parts, Ino>) {
    forall p <- before :: p in after && after[p] == before[p]
  }

  lemma ExtendsNew(at: map<Parts, Ino>, p: Parts, ino: Ino)
    requires p !in at
    ensures Extends(at, at[p := ino])
  {
  }

  lemma ExtendsSame(at: map<Parts, Ino>)
    ensures Extends(at, at)
  {
  }

  // ---- trees ---------------------------------------------------------------------------------

  /** What a filesystem guarantees of every directory: distinct names without separators. */
  ghost predicate WellNamed(nodes: Nodes) {
    forall i <- nodes :: nodes[i].Dir? ==> Distinct(Names(nodes[i].entries)) && AllNoSlash(Names(nodes[i].entries))
  }

  /** The entries of the directory at `p` are exactly its children in `at`. */
  ghost predicate EntriesAt(entries: seq<Entry>, p: Parts, at: map<Parts, Ino>) {
    forall name :: Find(entries, name) == if p + [name] in at then Some(at[p + [name]]) else None
  }

  /** `at` places every component sequence of a finite tree without hard links. */
  ghost predicate TreeAt(nodes: Nodes, root: Ino, at: map<Parts, Ino>) {
    && WellNamed(nodes)
    && [] in at && at[[]] == root
    && (forall p <- at :: at[p] in nodes)
    && (forall p <- at, q <- at :: at[p] == at[q] ==> p == q)
    && (forall p <- at :: p != [] ==> Front(p) in at && nodes[at[Front(p)]].Dir?)
    && (forall p <- at :: nodes[at[p]].Dir? ==> EntriesAt(nodes[at[p]].entries, p, at))
  }

  /** The same where a file may have several names. */
  ghost predicate PlacedAt(nodes: Nodes, root: Ino, at: map<Parts, Ino>) {
    && WellNamed(nodes)
    && [] in at && at[[]] == root
    && (forall p <- at :: at[p] in nodes)
    && (forall p <- at, q <- at :: at[p] == at[q] && nodes[at[p]].Dir? ==> p == q)
    && (forall p <- at :: p != [] ==> Front(p) in at && nodes[at[Front(p)]].Dir?)
    && (forall p <- at :: nodes[at[p]].Dir? ==> EntriesAt(nodes[at[p]].entries, p, at))
  }

  lemma TreeIsPlaced(nodes: Nodes, root: Ino, at: map<Parts, Ino>)
    requires TreeAt(nodes, root, at)
    ensures PlacedAt(nodes, root, at)
  {
    hide WellNamed, EntriesAt;
  }

  lemma ChildAt(nodes: Nodes, root: Ino, at: map<Parts, Ino>, p: Parts, name: Text)
    requires TreeAt(nodes, root, at) && p in at
    ensures p + [name] in at ==> nodes[at[p]].Dir?
    ensures nodes[at[p]].Dir? ==>
              Find(nodes[at[p]].entries, name) == if p + [name] in at then Some(at[p + [name]]) else None
  {
    hide TreeAt, PlacedAt, Find;
    TreeFacts(nodes, root, at, p);
    TreeIsPlaced(nodes, root, at);
    PlacedChild(nodes, root, at, p, name);
  }

  lemma PlacedChild(nodes: Nodes, root: Ino, at: map<Parts, Ino>, p: Parts, name: Text)
    requires PlacedAt(nodes, root, at) && p in at
    ensures at[p] in nodes && (p + [name] in at ==> nodes[at[p]].Dir? && at[p + [name]] in nodes)
    ensures nodes[at[p]].Dir? ==>
              Find(nodes[at[p]].entries, name) == if p + [name] in at then Some(at[p + [name]]) else None
  {
    hide WellNamed, Find;
    var child := p + [name];
    assert child != [] && Front(child) == p;
    if nodes[at[p]].Dir? { assert EntriesAt(nodes[at[p]].entries, p, at); }
  }

  lemma {:induction false} ResolveAt(nodes: Nodes, root: Ino, at: map<Parts, Ino>, p: Parts, rel: Parts)
    requires TreeAt(nodes, root, at) && p in at
    ensures Resolve(nodes, at[p], rel) == if p + rel in at then Some(at[p + rel]) else None
    decreases |rel|
  {
    hide TreeAt, Find;
    TreeFacts(nodes, root, at, p);
    if rel == [] {
      assert p + rel == p;
    } else {
      var child := p + [rel[0]];
      ChildAt(nodes, root, at, p, rel[0]);
      assert p + rel == child + rel[1..];
      if child in at {
        ResolveAt(nodes, root, at, child, rel[1..]);
      } else {
        NothingUnder(nodes, root, at, child, rel[1..]);
      }
    }
  }

  lemma TreeFacts(nodes: Nodes, root: Ino, at: map<Parts, Ino>, p: Parts)
    requires TreeAt(nodes, root, at) && p in at
    ensures at[p] in nodes && [] in at && at[[]] == root
  {
  }

  lemma NothingUnder(nodes: Nodes, root: Ino, at: map<Parts, Ino>, p: Parts, rel: Parts)
    requires TreeAt(nodes, root, at) && p !in at
    ensures p + rel !in at
  {
    hide TreeAt, PlacedAt;
    TreeIsPlaced(nodes, root, at);
    NothingPlacedUnder(nodes, root, at, p, rel);
  }

  lemma {:induction false} NothingPlacedUnder(nodes: Nodes, root: Ino, at: map<Parts, Ino>, p: Parts, rel: Parts)
    requires PlacedAt(nodes, root, at) && p !in at
    ensures p + rel !in at
    decreases |rel|
  {
    hide WellNamed, EntriesAt;
    if rel == [] {
      assert p + rel == p;
    } else {
      NothingPlacedUnder(nodes, root, at, p, Front(rel));
      assert Front(p + rel) == p + Front(rel);
    }
  }

  // ---- adding an entry -----------------------------------------------------------------------

  function WithEntry(nodes: Nodes, parent: Ino, name: Text, ino: Ino, node: Node): Nodes
    requires parent in nodes && nodes[parent].Dir?
  {
    var dir := nodes[parent];
    nodes[parent := Dir(dir.entries + [Entry(name, ino)], dir.mode)][ino := node]
  }

  lemma {:induction false} FindAppend(entries: seq<Entry>, name: Text, ino: Ino, x: Text)
    ensures Find(entries + [Entry(name, ino)], x)
         == if Find(entries, x).None? && x == name then Some(ino) else Find(entries, x)
  {
    var all := entries + [Entry(name, ino)];
    if entries == [] {
      assert all[1..] == [];
    } else {
      FindAppend(entries[1..], name, ino, x);
      assert all[1..] == entries[1..] + [Entry(name, ino)];
    }
  }

  /** A new leaf is either a file or an empty directory. */
  predicate Leaf(node: Node) {
    node.File? || (node.Dir? && node.entries == [])
  }

  lemma WellNamedGrows(nodes: Nodes, parent: Ino, name: Text, ino: Ino, node: Node)
    requires WellNamed(nodes) && parent in nodes && nodes[parent].Dir?
    requires NoSlash(name) && name !in Names(nodes[parent].entries) && Leaf(node)
    ensures WellNamed(WithEntry(nodes, parent, name, ino, node))
  {
    hide NoSlash;
    var before, all := nodes[parent].entries, nodes[parent].entries + [Entry(name, ino)];
    assert Names(all) == Names(before) + [name];
    assert Names([]) == [];
  }

  lemma TreeGrows(nodes: Nodes, root: Ino, at: map<Parts, Ino>, p: Parts, name: Text, ino: Ino, node: Node)
    requires TreeAt(nodes, root, at) && p in at && nodes[at[p]].Dir?
    requires p + [name] !in at && ino !in nodes && NoSlash(name) && Leaf(node)
    ensures TreeAt(WithEntry(nodes, at[p], name, ino, node), root, at[p + [name] := ino])
  {
    hide WellNamed, Find, NoSlash, EntriesAt;
    var after, at' := WithEntry(nodes, at[p], name, ino, node), at[p + [name] := ino];
    ChildAt(nodes, root, at, p, name);
    FindNamed(nodes[at[p]].entries, name);
    WellNamedGrows(nodes, at[p], name, ino, node);
    assert Front(p + [name]) == p;
    assert p + [name] != [];
    forall q | q in at' && after[at'[q]].Dir? ensures EntriesAt(after[at'[q]].entries, q, at') {
      if q == p + [name] {
        NewEntries(nodes, root, at, q, ino);
      } else {
        SameInode(nodes, root, at, p, q);
        OldEntries(nodes, root, at, p, name, ino, node, q);
      }
    }
  }

  /** The new leaf has no entries, and nothing is below it. */
  lemma NewEntries(nodes: Nodes, root: Ino, at: map<Parts, Ino>, q: Parts, ino: Ino)
    requires TreeAt(nodes, root, at) && q !in at
    ensures EntriesAt([], q, at[q := ino])
  {
    hide TreeAt;
    forall x ensures Find([], x) == if q + [x] in at[q := ino] then Some(at[q := ino][q + [x]]) else None {
      NothingUnder(nodes, root, at, q, [x]);
      assert (q + [x])[..|q|] == q && |q + [x]| != |q|;
    }
  }

  /** Every other directory keeps its entries, and the parent gets one more. */
  lemma OldEntries(nodes: Nodes, root: Ino, at: map<Parts, Ino>, p: Parts, name: Text, ino: Ino, node: Node, q: Parts)
    requires TreeAt(nodes, root, at) && p in at && nodes[at[p]].Dir? && p + [name] !in at && ino !in nodes
    requires q in at && nodes[at[q]].Dir?
    ensures EntriesAt(WithEntry(nodes, at[p], name, ino, node)[at[q]].entries, q, at[p + [name] := ino])
  {
    hide Find;
    var entries := WithEntry(nodes, at[p], name, ino, node)[at[q]].entries;
    var at' := at[p + [name] := ino];
    SameInode(nodes, root, at, p, q);
    forall x ensures Find(entries, x) == if q + [x] in at' then Some(at'[q + [x]]) else None {
      assert Front(q + [x]) == q && (q + [x])[|q|] == x;
      assert Front(p + [name]) == p && (p + [name])[|p|] == name;
      ChildAt(nodes, root, at, q, x);
      if q == p { FindAppend(nodes[at[p]].entries, name, ino, x); }
    }
  }

  lemma SameInode(nodes: Nodes, root: Ino, at: map<Parts, Ino>, p: Parts, q: Parts)
    requires TreeAt(nodes, root, at) && p in at && q in at
    ensures at[p] in nodes && at[q] in nodes && (at[p] == at[q] ==> p == q)
  {
  }

  // ---- storing files -------------------------------------------------------------------------

  /** A component sequence that must exist: the root, a prefix of a stored file's path, or a prefix
      of the path being created. */
  ghost predicate Covered(p: Parts, files: Files, extra: Parts) {
    p <= extra || exists f <- files :: p <= f
  }

  /** The tree holds these files and only the directories above them (and above `extra`). */
  ghost predicate Stores(nodes: Nodes, root: Ino, at: map<Parts, Ino>, files: Files, extra: Parts) {
    && TreeAt(nodes, root, at) && [] !in files
    && (forall p :: p in at <==> Covered(p, files, extra))
    && (forall p <- at :: if p in files then nodes[at[p]].File? && nodes[at[p]].data == files[p] else nodes[at[p]].Dir?)
  }

  /** Room for a new path: no stored file is above, at or below it. */
  ghost predicate Free(files: Files, rel: Parts) {
    forall f <- files :: !(f <= rel) && !(rel <= f)
  }

  /** Two paths spell their common directories the same way. */
  ghost predicate SpelledAlike(f: Parts, rel: Parts) {
    forall k :: 0 <= k < |f| && k < |rel| && f[..k] == Above(rel, k) && Fold(f[k]) == Fold(rel[k]) ==> f[k] == rel[k]
  }

  lemma CoveredExtend(files: Files, rel: Parts, k: nat, p: Parts)
    requires k < |rel|
    ensures Covered(p, files, Above(rel, k + 1)) <==> Covered(p, files, Above(rel, k)) || p == Above(rel, k + 1)
  {
    assert Above(rel, k) <= Above(rel, k + 1);
    if p <= Above(rel, k + 1) {
      if |p| == k + 1 { assert p == Above(rel, k + 1); } else { assert p <= Above(rel, k); }
    }
  }

  lemma StoresFacts(nodes: Nodes, root: Ino, at: map<Parts, Ino>, files: Files, extra: Parts, p: Parts)
    requires Stores(nodes, root, at, files, extra)
    ensures TreeAt(nodes, root, at) && [] !in files
    ensures p in at <==> Covered(p, files, extra)
    ensures p in at ==> at[p] in nodes
    ensures p in at ==> if p in files then nodes[at[p]].File? && nodes[at[p]].data == files[p] else nodes[at[p]].Dir?
    ensures p in files ==> p in at
  {
    assert p in files ==> p <= p;
  }

  /** The next directory already exists: nothing changes. */
  lemma StoresExisting(nodes: Nodes, root: Ino, at: map<Parts, Ino>, files: Files, rel: Parts, k: nat)
    requires k < |rel| && Stores(nodes, root, at, files, Above(rel, k)) && Above(rel, k + 1) in at
    ensures Stores(nodes, root, at, files, Above(rel, k + 1))
  {
    hide TreeAt, Covered;
    forall p ensures p in at <==> Covered(p, files, Above(rel, k + 1)) { CoveredExtend(files, rel, k, p); }
  }

  /** The next directory is created. */
  lemma StoresMkdir(
    nodes: Nodes, root: Ino, at: map<Parts, Ino>, files: Files, rel: Parts, k: nat, ino: Ino, mode: Mode)
    requires k < |rel| && Stores(nodes, root, at, files, Above(rel, k)) && Above(rel, k) in at && Above(rel, k + 1) !in at
    requires nodes[at[Above(rel, k)]].Dir? && ino !in nodes && NoSlash(rel[k])
    ensures Stores(WithEntry(nodes, at[Above(rel, k)], rel[k], ino, Dir([], mode)), root, at[Above(rel, k + 1) := ino], files, Above(rel, k + 1))
  {
    hide TreeAt, Covered, NoSlash;
    var p := Above(rel, k);
    assert p + [rel[k]] == Above(rel, k + 1);
    TreeGrows(nodes, root, at, p, rel[k], ino, Dir([], mode));
    var at' := at[Above(rel, k + 1) := ino];
    forall q ensures q in at' <==> Covered(q, files, Above(rel, k + 1)) { CoveredExtend(files, rel, k, q); }
    NotStored(nodes, root, at, files, Above(rel, k), Above(rel, k + 1));
    PlacesKept(nodes, root, at, p, ino);
  }

  lemma NotStored(nodes: Nodes, root: Ino, at: map<Parts, Ino>, files: Files, extra: Parts, p: Parts)
    requires Stores(nodes, root, at, files, extra) && p !in at
    ensures p !in files
  {
    StoresFacts(nodes, root, at, files, extra, p);
  }

  /** Only the parent and the new inode change. */
  lemma PlacesKept(nodes: Nodes, root: Ino, at: map<Parts, Ino>, p: Parts, ino: Ino)
    requires TreeAt(nodes, root, at) && p in at && ino !in nodes
    ensures forall q <- at :: at[q] in nodes && at[q] != ino && (at[q] == at[p] ==> q == p)
  {
  }

  /** The file itself is created. */
  lemma StoresFile(
    nodes: Nodes, root: Ino, at: map<Parts, Ino>, files: Files, rel: Parts, ino: Ino, data: Octets, mode: Mode)
    requires rel != [] && Stores(nodes, root, at, files, Front(rel)) && rel !in at && Front(rel) in at
    requires nodes[at[Front(rel)]].Dir? && ino !in nodes && NoSlash(rel[|rel| - 1])
    ensures Stores(WithEntry(nodes, at[Front(rel)], rel[|rel| - 1], ino, File(data, mode)), root, at[rel := ino], files[rel := data], [])
  {
    hide TreeAt, Covered, NoSlash;
    var p, name := Front(rel), rel[|rel| - 1];
    assert p + [name] == rel;
    TreeGrows(nodes, root, at, p, name, ino, File(data, mode));
    var at', files' := at[rel := ino], files[rel := data];
    forall q ensures q in at' <==> Covered(q, files', []) {
      CoveredFile(files, rel, data, q);
    }
    NotStored(nodes, root, at, files, Front(rel), rel);
    PlacesKept(nodes, root, at, p, ino);
  }

  lemma CoveredFile(files: Files, rel: Parts, data: Octets, q: Parts)
    requires rel != []
    ensures Covered(q, files[rel := data], []) <==> Covered(q, files, Front(rel)) || q == rel
  {
    var after := files[rel := data];
    assert rel in after && rel <= rel && Front(rel) <= rel && [] <= rel;
    if Covered(q, after, []) && q != rel {
      var f :| f in after && q <= f;
      if f == rel { assert q <= Front(rel); }
    }
    if exists f <- files :: q <= f {
      var f :| f in files && q <= f;
      assert f in after;
    }
    if q <= Front(rel) || q == rel { assert q <= rel; }
  }
}
