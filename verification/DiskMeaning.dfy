// What an accepted visit means, said without traversal: by following names from the root.
module DiskMeaning {
  import opened Bytes
  import opened Unicode
  import opened Wrappers
  import opened TextOrder
  import opened RelativePaths
  import opened Disk

  /** The inode reached from directory `ino` by following `rel`, one name at a time. */
  function Resolve(nodes: Nodes, ino: Ino, rel: Parts): Option<Ino>
    decreases |rel|
  {
    if rel == [] then Some(ino)
    else if ino !in nodes || !nodes[ino].Dir? then None
    else
      match Find(nodes[ino].entries, rel[0])
      case None => None
      case Some(child) => Resolve(nodes, child, rel[1..])
  }

  /** What every inode below the root must be: validly named, shallow enough, a non-empty
      directory or a regular file within the per-file bound. */
  predicate GoodAt(nodes: Nodes, ino: Ino, parts: Parts, b: Bounds) {
    && ValidRelativePath(Join(parts))
    && |parts| <= b.maxDepth
    && ino in nodes
    && match nodes[ino]
       case Dir(entries, _) => entries != []
       case File(data, _) => |data| <= b.maxFileBytes
       case _ => false
  }

  ghost predicate AllGoodBelow(nodes: Nodes, ino: Ino, parts: Parts, b: Bounds) {
    forall rel: Parts :: rel != [] && Resolve(nodes, ino, rel).Some? ==>
      GoodAt(nodes, Resolve(nodes, ino, rel).value, parts + rel, b)
  }

  lemma {:induction false} FindNamed(entries: seq<Entry>, name: Text)
    ensures Find(entries, name).Some? <==> name in Names(entries)
  {
    if entries != [] {
      FindNamed(entries[1..], name);
      assert Names(entries) == [entries[0].name] + Names(entries[1..]);
    }
  }

  lemma NamesSorted(entries: seq<Entry>)
    ensures forall n :: n in Sort(Names(entries)) <==> n in Names(entries)
  {
    SameElements(Names(entries), Sort(Names(entries)));
  }

  lemma ResolveStep(nodes: Nodes, ino: Ino, name: Text, rel: Parts)
    requires ino in nodes && nodes[ino].Dir?
    ensures Resolve(nodes, ino, [name] + rel)
         == match Find(nodes[ino].entries, name) case None => None case Some(c) => Resolve(nodes, c, rel)
  {
    assert ([name] + rel)[0] == name && ([name] + rel)[1..] == rel;
  }

  // ---- acceptance ----------------------------------------------------------------------------

  /** Everything from one entry of a directory down is good. */
  ghost predicate EntryGood(nodes: Nodes, entries: seq<Entry>, name: Text, parts: Parts, b: Bounds) {
    var found := Find(entries, name);
    && found.Some?
    && GoodAt(nodes, found.value, parts + [name], b)
    && AllGoodBelow(nodes, found.value, parts + [name], b)
  }

  lemma AllGoodByEntry(nodes: Nodes, ino: Ino, parts: Parts, b: Bounds)
    requires ino in nodes && nodes[ino].Dir?
    ensures AllGoodBelow(nodes, ino, parts, b)
       <==> forall name <- Names(nodes[ino].entries) :: EntryGood(nodes, nodes[ino].entries, name, parts, b)
  {
    hide GoodAt, Resolve, Find, Names;
    var entries := nodes[ino].entries;
    if AllGoodBelow(nodes, ino, parts, b) {
      forall name | name in Names(entries) ensures EntryGood(nodes, entries, name, parts, b) {
        FindNamed(entries, name);
        var child := Find(entries, name).value;
        EntryReached(nodes, ino, name, child);
        assert AllGoodBelow(nodes, ino, parts, b) && [name] != [];
        forall rel: Parts | rel != [] && Resolve(nodes, child, rel).Some?
          ensures GoodAt(nodes, Resolve(nodes, child, rel).value, parts + [name] + rel, b)
        {
          ResolveStep(nodes, ino, name, rel);
          assert parts + ([name] + rel) == parts + [name] + rel;
        }
      }
    }
    if forall name <- Names(entries) :: EntryGood(nodes, entries, name, parts, b) {
      forall rel: Parts | rel != [] && Resolve(nodes, ino, rel).Some?
        ensures GoodAt(nodes, Resolve(nodes, ino, rel).value, parts + rel, b)
      {
        assert rel == [rel[0]] + rel[1..];
        ResolveStep(nodes, ino, rel[0], rel[1..]);
        FindNamed(entries, rel[0]);
        EntryReached(nodes, ino, rel[0], Find(entries, rel[0]).value);
        if rel[1..] == [] {
          assert rel == [rel[0]];
        } else {
          assert parts + rel == parts + [rel[0]] + rel[1..];
        }
      }
    }
  }

  lemma EntryReached(nodes: Nodes, ino: Ino, name: Text, child: Ino)
    requires ino in nodes && nodes[ino].Dir? && Find(nodes[ino].entries, name) == Some(child)
    ensures Resolve(nodes, ino, [name]) == Some(child)
  {
    ResolveStep(nodes, ino, name, []);
    assert [name] + [] == [name];
  }

  /** Nothing below a file, a link or a missing inode can be reached. */
  lemma NothingBelowLeaf(nodes: Nodes, ino: Ino, parts: Parts, b: Bounds)
    requires ino !in nodes || !nodes[ino].Dir?
    ensures AllGoodBelow(nodes, ino, parts, b)
  {
  }

  lemma {:induction false} VisitNonempty(nodes: Nodes, entries: seq<Entry>, names: seq<Text>, parts: Parts, b: Bounds)
    requires VisitNames(nodes, entries, names, parts, b).Some?
    ensures VisitNames(nodes, entries, names, parts, b).value == [] <==> names == []
  {
    if names != [] {
      VisitNonempty(nodes, entries, names[1..], parts, b);
      assert VisitOne(nodes, entries, names[0], parts, b).value != [];
    }
  }

  /** The walkers' structural acceptance, without traversal: everything reachable is good. */
  lemma {:induction false} VisitAccepts(nodes: Nodes, ino: Ino, parts: Parts, b: Bounds)
    ensures VisitTree(nodes, ino, parts, b).Some? <==> ino in nodes && nodes[ino].Dir? && AllGoodBelow(nodes, ino, parts, b)
    ensures VisitTree(nodes, ino, parts, b).Some? ==> (VisitTree(nodes, ino, parts, b).value == [] <==> nodes[ino].entries == [])
    decreases b.maxDepth - |parts|, 1, 0
  {
    hide VisitOne, VisitNames, GoodAt, AllGoodBelow, Find;
    if ino in nodes && nodes[ino].Dir? {
      var entries := nodes[ino].entries;
      var names := Sort(Names(entries));
      VisitNamesAccepts(nodes, entries, names, parts, b);
      NamesSorted(entries);
      AllGoodByEntry(nodes, ino, parts, b);
      if VisitTree(nodes, ino, parts, b).Some? { VisitNonempty(nodes, entries, names, parts, b); }
    }
  }

  lemma {:induction false} VisitNamesAccepts(
    nodes: Nodes, entries: seq<Entry>, names: seq<Text>, parts: Parts, b: Bounds)
    ensures VisitNames(nodes, entries, names, parts, b).Some? <==> forall name <- names :: EntryGood(nodes, entries, name, parts, b)
    decreases b.maxDepth - |parts|, 0, |names|
  {
    hide VisitOne, EntryGood;
    if names != [] {
      VisitOneAccepts(nodes, entries, names[0], parts, b);
      VisitNamesAccepts(nodes, entries, names[1..], parts, b);
      assert forall name :: name in names <==> name == names[0] || name in names[1..];
    }
  }

  lemma VisitOneAccepts(nodes: Nodes, entries: seq<Entry>, name: Text, parts: Parts, b: Bounds)
    ensures VisitOne(nodes, entries, name, parts, b).Some? <==> EntryGood(nodes, entries, name, parts, b)
    decreases b.maxDepth - |parts|, 0, 0
  {
    hide VisitTree, AllGoodBelow, ValidRelativePath, Join, Find;
    var child, found := parts + [name], Find(entries, name);
    if ValidRelativePath(Join(child)) && |child| <= b.maxDepth && found.Some? && found.value in nodes {
      if nodes[found.value].Dir? {
        VisitAccepts(nodes, found.value, child, b);
      } else {
        NothingBelowLeaf(nodes, found.value, child, b);
      }
    }
  }

  // ---- contents ------------------------------------------------------------------------------

  /** Following `rel` from `ino` leads to a regular file holding `data`. */
  predicate FileAt(nodes: Nodes, ino: Ino, rel: Parts, data: Octets) {
    var found := Resolve(nodes, ino, rel);
    found.Some? && found.value in nodes && nodes[found.value].File? && nodes[found.value].data == data
  }

  ghost predicate ListedFrom(nodes: Nodes, ino: Ino, parts: Parts, f: FileEntry) {
    exists rel: Parts :: rel != [] && FileAt(nodes, ino, rel, f.data) && f.path == Join(parts + rel)
  }

  ghost predicate ListedBelow(nodes: Nodes, entries: seq<Entry>, names: seq<Text>, parts: Parts, f: FileEntry) {
    exists name <- names :: ListedAt(nodes, entries, name, parts, f)
  }

  /** Listed through one entry: it is the file itself, or a file below that directory. */
  ghost predicate ListedAt(nodes: Nodes, entries: seq<Entry>, name: Text, parts: Parts, f: FileEntry) {
    var found := Find(entries, name);
    && found.Some?
    && ((FileAt(nodes, found.value, [], f.data) && f.path == Join(parts + [name]))
        || ListedFrom(nodes, found.value, parts + [name], f))
  }

  lemma ListedByEntry(nodes: Nodes, ino: Ino, parts: Parts, f: FileEntry)
    requires ino in nodes && nodes[ino].Dir?
    ensures ListedFrom(nodes, ino, parts, f) <==> ListedBelow(nodes, nodes[ino].entries, Names(nodes[ino].entries), parts, f)
  {
    hide Find, Names, Join, Resolve;
    var entries := nodes[ino].entries;
    if ListedFrom(nodes, ino, parts, f) {
      var rel: Parts :| rel != [] && FileAt(nodes, ino, rel, f.data) && f.path == Join(parts + rel);
      assert rel == [rel[0]] + rel[1..];
      ResolveStep(nodes, ino, rel[0], rel[1..]);
      FindNamed(entries, rel[0]);
      var child := Find(entries, rel[0]).value;
      assert FileAt(nodes, child, rel[1..], f.data);
      assert parts + rel == parts + [rel[0]] + rel[1..];
      if rel[1..] == [] { assert rel == [rel[0]]; }
      assert ListedAt(nodes, entries, rel[0], parts, f);
    }
    if ListedBelow(nodes, entries, Names(entries), parts, f) {
      var name :| name in Names(entries) && ListedAt(nodes, entries, name, parts, f);
      var child := Find(entries, name).value;
      if FileAt(nodes, child, [], f.data) && f.path == Join(parts + [name]) {
        ResolveStep(nodes, ino, name, []);
        assert [name] + [] == [name];
        assert FileAt(nodes, ino, [name], f.data);
      } else {
        var rel: Parts :| rel != [] && FileAt(nodes, child, rel, f.data) && f.path == Join(parts + [name] + rel);
        ResolveStep(nodes, ino, name, rel);
        assert FileAt(nodes, ino, [name] + rel, f.data);
        assert parts + ([name] + rel) == parts + [name] + rel;
      }
    }
  }

  /** A visit lists exactly the regular files that can be reached, under their joined paths. */
  lemma {:induction false} VisitLists(nodes: Nodes, ino: Ino, parts: Parts, b: Bounds, f: FileEntry)
    requires VisitTree(nodes, ino, parts, b).Some?
    ensures f in VisitTree(nodes, ino, parts, b).value <==> ListedFrom(nodes, ino, parts, f)
    decreases b.maxDepth - |parts|, 1, 0
  {
    hide VisitNames, ListedFrom, ListedAt;
    var entries := nodes[ino].entries;
    VisitNamesList(nodes, entries, Sort(Names(entries)), parts, b, f);
    NamesSorted(entries);
    ListedByEntry(nodes, ino, parts, f);
  }

  lemma {:induction false} VisitNamesList(
    nodes: Nodes, entries: seq<Entry>, names: seq<Text>, parts: Parts, b: Bounds, f: FileEntry)
    requires VisitNames(nodes, entries, names, parts, b).Some?
    ensures f in VisitNames(nodes, entries, names, parts, b).value <==> ListedBelow(nodes, entries, names, parts, f)
    decreases b.maxDepth - |parts|, 0, |names|
  {
    hide VisitOne, ListedAt;
    if names != [] {
      VisitOneLists(nodes, entries, names[0], parts, b, f);
      VisitNamesList(nodes, entries, names[1..], parts, b, f);
      assert forall name :: name in names <==> name == names[0] || name in names[1..];
    }
  }

  lemma VisitOneLists(nodes: Nodes, entries: seq<Entry>, name: Text, parts: Parts, b: Bounds, f: FileEntry)
    requires VisitOne(nodes, entries, name, parts, b).Some?
    ensures f in VisitOne(nodes, entries, name, parts, b).value <==> ListedAt(nodes, entries, name, parts, f)
    decreases b.maxDepth - |parts|, 0, 0
  {
    hide VisitTree, ValidRelativePath, Join, Find;
    var child, found := parts + [name], Find(entries, name).value;
    if nodes[found].Dir? {
      hide ListedFrom;
      VisitLists(nodes, found, child, b, f);
      assert !FileAt(nodes, found, [], f.data);
    } else {
      assert forall rel: Parts :: rel != [] ==> Resolve(nodes, found, rel).None?;
      assert FileAt(nodes, found, [], f.data) <==> nodes[found].data == f.data;
    }
  }
}
