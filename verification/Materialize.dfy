// Writing files into a private directory tree: parents are made on demand, targets are created
// exclusively, and lookup may or may not fold case.
module Materialize {
  import opened Bytes
  import opened Unicode
  import opened Wrappers
  import opened RelativePaths
  import opened Disk
  import opened DiskMeaning
  import opened DiskTree

  datatype WriteError = BadTarget | BadMode | ParentNotADirectory | TargetExists | ParentChanged

  // ---- lookup --------------------------------------------------------------------------------

  predicate SameName(folding: bool, a: Text, b: Text) {
    if folding then Fold(a) == Fold(b) else a == b
  }

  function Lookup(folding: bool, entries: seq<Entry>, name: Text): Option<Ino> {
    if entries == [] then None
    else if SameName(folding, entries[0].name, name) then Some(entries[0].ino)
    else Lookup(folding, entries[1..], name)
  }

  /** Without a second spelling of the name, folding lookup is exact lookup. */
  lemma {:induction false} LookupExact(folding: bool, entries: seq<Entry>, name: Text)
    requires forall n <- Names(entries) :: SameName(folding, n, name) ==> n == name
    ensures Lookup(folding, entries, name) == Find(entries, name)
  {
    hide Fold;
    if entries != [] {
      assert entries[0].name == Names(entries)[0];
      forall n | n in Names(entries[1..]) ensures n in Names(entries) {
        var i :| 0 <= i < |entries[1..]| && Names(entries[1..])[i] == n;
        assert Names(entries)[i + 1] == n;
      }
      LookupExact(folding, entries[1..], name);
    }
  }

  /** Paths that spell shared directories alike never meet a second spelling on the way down. */
  lemma LookupStored(
    nodes: Nodes, root: Ino, at: map<Parts, Ino>, files: Files, extra: Parts, rel: Parts, k: nat, folding: bool)
    requires Stores(nodes, root, at, files, extra) && extra <= rel && k < |rel|
    requires Above(rel, k) in at && nodes[at[Above(rel, k)]].Dir?
    requires folding ==> forall f <- files :: SpelledAlike(f, rel)
    ensures Lookup(folding, nodes[at[Above(rel, k)]].entries, rel[k]) == if Above(rel, k + 1) in at then Some(at[Above(rel, k + 1)]) else None
  {
    hide TreeAt, Find, Fold, Names;
    var p := Above(rel, k);
    TreeFacts(nodes, root, at, p);
    var entries := nodes[at[p]].entries;
    forall n | n in Names(entries) && SameName(folding, n, rel[k]) ensures n == rel[k] {
      FindNamed(entries, n);
      ChildAt(nodes, root, at, p, n);
      var q := p + [n];
      assert q[..k] == p && q[k] == n;
      if !(q <= extra) {
        var f :| f in files && q <= f;
        assert f[..k] == p && f[k] == n;
      }
    }
    LookupExact(folding, entries, rel[k]);
    ChildAt(nodes, root, at, p, rel[k]);
    assert p + [rel[k]] == Above(rel, k + 1);
  }

  // ---- the parents of a target -----------------------------------------------------------------

  /** The descriptors opened so far are the directories on the way to the target. */
  ghost predicate Pinned(at: map<Parts, Ino>, rel: Parts, descriptors: seq<Ino>) {
    && |descriptors| <= |rel|
    && forall j :: 0 <= j < |descriptors| ==> Above(rel, j) in at && at[Above(rel, j)] == descriptors[j]
  }

  /** None of the first `n` directories above the target is a file. */
  ghost predicate NoFileAbove(files: Files, rel: Parts, n: nat) {
    n <= |rel| && forall j :: 0 <= j < n ==> Above(rel, j) !in files
  }

  lemma PinnedRoot(nodes: Nodes, root: Ino, at: map<Parts, Ino>, files: Files, rel: Parts)
    requires rel != [] && Stores(nodes, root, at, files, [])
    ensures Above(rel, 0) == [] && Above(rel, |rel| - 1) == Front(rel)
    ensures Pinned(at, rel, [root]) && NoFileAbove(files, rel, 1)
  {
    hide Stores;
    AboveEnds(rel);
    StoresFacts(nodes, root, at, files, [], []);
  }

  lemma PinnedAt(at: map<Parts, Ino>, rel: Parts, descriptors: seq<Ino>, j: nat)
    requires Pinned(at, rel, descriptors) && j < |descriptors|
    ensures Above(rel, j) in at && at[Above(rel, j)] == descriptors[j]
  {
  }

  lemma PinnedStep(before: map<Parts, Ino>, at: map<Parts, Ino>, rel: Parts, descriptors: seq<Ino>, child: Ino)
    requires Pinned(before, rel, descriptors) && Extends(before, at) && |descriptors| < |rel|
    requires Above(rel, |descriptors|) in at && at[Above(rel, |descriptors|)] == child
    ensures Pinned(at, rel, descriptors + [child])
  {
  }

  lemma NoFileStep(files: Files, rel: Parts, n: nat)
    requires n < |rel|
    ensures NoFileAbove(files, rel, n + 1) <==> NoFileAbove(files, rel, n) && Above(rel, n) !in files
  {
  }

  lemma MoreAbove(files: Files, rel: Parts, n: nat)
    requires n <= |rel| && !NoFileAbove(files, rel, n)
    ensures !NoFileAbove(files, rel, |rel|)
  {
  }

  // ---- the filesystem ------------------------------------------------------------------------

  /** How a directory is left that the process has made for itself. */
  const PRIVATE: Mode := 0x1C0

  predicate OwnerMay(node: Node, privileged: bool) {
    && Allows(node, OWNER_READ, privileged) && Allows(node, OWNER_WRITE, privileged)
    && Allows(node, OWNER_SEARCH, privileged)
  }

  /** The process may list, search and change every directory. */
  ghost predicate OpenDirectories(nodes: Nodes, privileged: bool) {
    forall i <- nodes :: nodes[i].Dir? ==> OwnerMay(nodes[i], privileged)
  }

  /** Every file has this mode. */
  ghost predicate FilesHave(nodes: Nodes, mode: Mode) {
    forall i <- nodes :: nodes[i].File? ==> nodes[i].mode == mode
  }

  lemma PrivateIsOpen(privileged: bool)
    ensures forall entries :: OwnerMay(Dir(entries, PRIVATE), privileged)
    ensures OpenDirectories(map[0 := Dir([], PRIVATE)], privileged)
  {
  }

  lemma OpenStays(nodes: Nodes, parent: Ino, name: Text, ino: Ino, node: Node, privileged: bool)
    requires OpenDirectories(nodes, privileged) && parent in nodes && nodes[parent].Dir?
    requires node.Dir? ==> OwnerMay(node, privileged)
    ensures OpenDirectories(WithEntry(nodes, parent, name, ino, node), privileged)
  {
  }

  lemma FilesStay(nodes: Nodes, parent: Ino, name: Text, ino: Ino, node: Node, mode: Mode)
    requires FilesHave(nodes, mode) && parent in nodes && nodes[parent].Dir?
    requires node.File? ==> node.mode == mode
    ensures FilesHave(WithEntry(nodes, parent, name, ino, node), mode)
  {
  }

  /** What `os.mkdir` did: `FileExistsError` and the refusal of the kernel are told apart. */
  datatype Made = Created | Exists | Denied

  /** A filesystem whose inodes all belong to the process; a privileged process may use them whatever
      their modes. */
  class FileSystem {
    var nodes: Nodes
    var next: Ino
    const root: Ino
    const folding: bool
    const umask: Mode
    const privileged: bool
    ghost var at: map<Parts, Ino>

    /** A fresh private directory. */
    constructor (folding: bool, umask: Mode, privileged: bool)
      ensures this.folding == folding && this.umask == umask && this.privileged == privileged
      ensures Holds(map[], []) && forall mode :: FilesHave(nodes, mode)
    {
      this.folding, this.umask, this.privileged, root := folding, umask, privileged, 0;
      nodes, next := map[0 := Dir([], PRIVATE)], 1;
      at := map[[] := 0];
      new;
      PrivateIsOpen(privileged);
      EmptyStores();
    }

    /** The tree is private, holds exactly `files`, and `next` is an unused inode. */
    ghost predicate Holds(files: Files, extra: Parts)
      reads this
    {
      && Stores(nodes, root, at, files, extra) && (forall i <- nodes :: i < next)
      && OpenDirectories(nodes, privileged)
    }

    predicate Permits(ino: Ino, permission: Mode)
      requires ino in nodes
      reads this
    {
      Allows(nodes[ino], permission, privileged)
    }

    /** `os.mkdir`. */
    method Mkdir(parent: Ino, name: Text, mode: Mode) returns (made: Made)
      requires parent in nodes && nodes[parent].Dir?
      modifies this`nodes, this`next
      ensures made.Created? <==>
                && old(Permits(parent, OWNER_SEARCH) && Permits(parent, OWNER_WRITE))
                && Lookup(folding, old(nodes[parent].entries), name).None?
      ensures made.Exists? <==> old(Permits(parent, OWNER_SEARCH)) && Lookup(folding, old(nodes[parent].entries), name).Some?
      ensures !made.Created? ==> nodes == old(nodes) && next == old(next)
      ensures made.Created? ==> next == old(next) + 1
      ensures made.Created? ==> nodes == WithEntry(old(nodes), parent, name, old(next), Dir([], mode & !umask))
    {
      hide Allows;
      if !Permits(parent, OWNER_SEARCH) { return Denied; }
      if Lookup(folding, nodes[parent].entries, name).Some? { return Exists; }
      if !Permits(parent, OWNER_WRITE) { return Denied; }
      nodes := WithEntry(nodes, parent, name, next, Dir([], mode & !umask));
      next := next + 1;
      made := Created;
    }

    /** `os.open` with `O_CREAT | O_EXCL`. */
    method CreateExclusive(parent: Ino, name: Text, mode: Mode) returns (ino: Option<Ino>)
      requires parent in nodes && nodes[parent].Dir?
      modifies this`nodes, this`next
      ensures ino.Some? <==>
                && old(Permits(parent, OWNER_SEARCH) && Permits(parent, OWNER_WRITE))
                && Lookup(folding, old(nodes[parent].entries), name).None?
      ensures ino.None? ==> nodes == old(nodes) && next == old(next)
      ensures ino.Some? ==> ino.value == old(next) && next == old(next) + 1
      ensures ino.Some? ==> nodes == WithEntry(old(nodes), parent, name, old(next), File([], mode & !umask))
    {
      hide Allows;
      if !Permits(parent, OWNER_SEARCH) || !Permits(parent, OWNER_WRITE) { return None; }
      if Lookup(folding, nodes[parent].entries, name).Some? { return None; }
      nodes := WithEntry(nodes, parent, name, next, File([], mode & !umask));
      ino := Some(next);
      next := next + 1;
    }

    method ChangeMode(ino: Ino, mode: Mode)
      requires ino in nodes && (nodes[ino].Dir? || nodes[ino].File?)
      modifies this`nodes
      ensures nodes == old(nodes)[ino := WithMode(old(nodes)[ino], mode)]
    {
      nodes := nodes[ino := WithMode(nodes[ino], mode)];
    }

    /** The write loop: each `os.write` may take any non-empty part of what remains. */
    method WriteAll(ino: Ino, data: Octets)
      requires ino in nodes && nodes[ino].File? && nodes[ino].data == []
      modifies this`nodes
      ensures nodes == old(nodes)[ino := old(nodes)[ino].(data := data)]
    {
      var view := data;
      assert nodes == nodes[ino := nodes[ino].(data := [])];
      while view != []
        invariant |view| <= |data| && view == data[|data| - |view|..]
        invariant nodes == old(nodes)[ino := old(nodes)[ino].(data := data[..|data| - |view|])]
        decreases |view|
      {
        var written: nat :| 1 <= written <= |view|;
        nodes := nodes[ino := nodes[ino].(data := nodes[ino].data + view[..written])];
        assert data[..|data| - |view|] + view[..written] == data[..|data| - |view| + written];
        view := view[written..];
      }
      assert data[..|data|] == data;
    }

    /** `os.mkdir` and, for a directory it made, the exact private mode. */
    method MakePrivate(parent: Ino, name: Text) returns (made: Made)
      requires parent in nodes && nodes[parent].Dir? && OwnerMay(nodes[parent], privileged) && next !in nodes
      modifies this`nodes, this`next
      ensures made == if Lookup(folding, old(nodes[parent].entries), name).None? then Created else Exists
      ensures made.Exists? ==> nodes == old(nodes) && next == old(next)
      ensures made.Created? ==> next == old(next) + 1
      ensures made.Created? ==> nodes == WithEntry(old(nodes), parent, name, old(next), Dir([], PRIVATE))
    {
      hide Allows, Lookup;
      made := Mkdir(parent, name, PRIVATE);
      if made.Created? { ChangeMode(next - 1, PRIVATE); }
    }

    /** Exclusive creation, the write loop and the exact mode. */
    method CreateFile(parent: Ino, name: Text, data: Octets, mode: Mode) returns (created: bool)
      requires parent in nodes && nodes[parent].Dir? && OwnerMay(nodes[parent], privileged) && next !in nodes
      modifies this`nodes, this`next
      ensures created <==> Lookup(folding, old(nodes[parent].entries), name).None?
      ensures !created ==> nodes == old(nodes) && next == old(next)
      ensures created ==> next == old(next) + 1
      ensures created ==> nodes == WithEntry(old(nodes), parent, name, old(next), File(data, mode))
    {
      hide Allows, Lookup;
      var ino := CreateExclusive(parent, name, mode);
      if ino.None? { return false; }
      WriteAll(ino.value, data);
      ChangeMode(ino.value, mode);
      created := true;
    }

    /** One parent directory of the target: made if absent, entered if it is a real directory. */
    method EnterDirectory(parent: Ino, name: Text, ghost files: Files, ghost rel: Parts, ghost k: nat)
      returns (child: Option<Ino>)
      requires k < |rel| && name == rel[k] && AllNoSlash(rel)
      requires Holds(files, Above(rel, k)) && Above(rel, k) in at && at[Above(rel, k)] == parent && Above(rel, k) !in files
      requires folding ==> forall f <- files :: SpelledAlike(f, rel)
      modifies this`nodes, this`next, this`at
      ensures child.Some? <==> Above(rel, k + 1) !in files
      ensures child.Some? ==> Holds(files, Above(rel, k + 1)) && Above(rel, k + 1) in at && at[Above(rel, k + 1)] == child.value
      ensures child.Some? ==> Extends(old(at), at)
      ensures child.Some? ==> forall mode :: old(FilesHave(nodes, mode)) ==> FilesHave(nodes, mode)
    {
      hide Stores, Lookup, SpelledAlike, NoSlash, Above, Extends, WithEntry, Allows, OwnerMay, OpenDirectories, FilesHave;
      PrivateIsOpen(privileged);
      StoresFacts(nodes, root, at, files, Above(rel, k), Above(rel, k));
      MayUse(nodes, parent, privileged);
      StoresFacts(nodes, root, at, files, Above(rel, k), Above(rel, k + 1));
      LookupStored(nodes, root, at, files, Above(rel, k), rel, k, folding);
      var made := MakePrivate(parent, name);
      if made.Denied? { return None; }
      if made.Created? {
        StoresMkdir(old(nodes), root, at, files, rel, k, old(next), PRIVATE);
        BelowNext(old(nodes), parent, name, old(next), Dir([], PRIVATE), old(next));
        OpenStays(old(nodes), parent, name, old(next), Dir([], PRIVATE), privileged);
        forall mode | old(FilesHave(nodes, mode)) ensures FilesHave(nodes, mode) {
          FilesStay(old(nodes), parent, name, old(next), Dir([], PRIVATE), mode);
        }
        ExtendsNew(at, Above(rel, k + 1), old(next));
        at := at[Above(rel, k + 1) := old(next)];
        return Some(next - 1);
      }
      StoresExisting(nodes, root, at, files, rel, k);
      ExtendsSame(at);
      var found := Lookup(folding, nodes[parent].entries, name);
      if !nodes[found.value].Dir? { return None; }
      MayUse(nodes, found.value, privileged);
      if !Permits(found.value, OWNER_READ) { return None; }
      return found;
    }

    /** The target itself. */
    method WriteTarget(parent: Ino, name: Text, data: Octets, mode: Mode, ghost files: Files, ghost rel: Parts)
      returns (written: bool)
      requires rel != [] && name == rel[|rel| - 1] && AllNoSlash(rel)
      requires Holds(files, Front(rel)) && Front(rel) in at && at[Front(rel)] == parent && Front(rel) !in files
      requires folding ==> forall f <- files :: SpelledAlike(f, rel)
      modifies this`nodes, this`next, this`at
      ensures written <==> rel !in old(at)
      ensures written ==> Holds(files[rel := data], []) && Extends(old(at), at)
      ensures written ==> rel in at && at[rel] in nodes && nodes[at[rel]] == File(data, mode)
      ensures written ==> old(FilesHave(nodes, mode)) ==> FilesHave(nodes, mode)
    {
      assert Front(rel) == Above(rel, |rel| - 1) && Above(rel, |rel|) == rel;
      hide Stores, Lookup, SpelledAlike, NoSlash, WithEntry, Extends, Allows, OwnerMay, OpenDirectories, FilesHave;
      StoresFacts(nodes, root, at, files, Front(rel), Front(rel));
      MayUse(nodes, parent, privileged);
      LookupStored(nodes, root, at, files, Front(rel), rel, |rel| - 1, folding);
      written := CreateFile(parent, name, data, mode);
      if written {
        StoresFile(old(nodes), root, at, files, rel, old(next), data, mode);
        EntryMade(old(nodes), parent, name, old(next), File(data, mode));
        BelowNext(old(nodes), parent, name, old(next), File(data, mode), old(next));
        OpenStays(old(nodes), parent, name, old(next), File(data, mode), privileged);
        if old(FilesHave(nodes, mode)) { FilesStay(old(nodes), parent, name, old(next), File(data, mode), mode); }
        ExtendsNew(at, rel, old(next));
        at := at[rel := old(next)];
      }
    }

    /** Every parent of the target, opened one below the other; each step is recorded. */
    method OpenParents(components: Parts, ghost files: Files)
      returns (pinned: Option<seq<Ino>>)
      requires components != [] && AllNoSlash(components) && Holds(files, [])
      requires folding ==> forall f <- files :: SpelledAlike(f, components)
      modifies this`nodes, this`next, this`at
      ensures pinned.Some? <==> NoFileAbove(files, components, |components|)
      ensures pinned.Some? ==> Holds(files, Front(components))
      ensures pinned.Some? ==> |pinned.value| == |components| && Pinned(at, components, pinned.value)
      ensures pinned.Some? ==> forall mode :: old(FilesHave(nodes, mode)) ==> FilesHave(nodes, mode)
    {
      hide Stores, SpelledAlike, NoSlash, Above, Front, Pinned, NoFileAbove, Extends, OpenDirectories, FilesHave;
      var descriptors, k := [root], 0;
      PinnedRoot(nodes, root, at, files, components);
      while k < |components| - 1
        invariant 0 <= k < |components| && |descriptors| == k + 1
        invariant Holds(files, Above(components, k))
        invariant Pinned(at, components, descriptors) && NoFileAbove(files, components, k + 1)
        invariant forall mode :: old(FilesHave(nodes, mode)) ==> FilesHave(nodes, mode)
      {
        PinnedAt(at, components, descriptors, k);
        NoFileStep(files, components, k);
        NoFileStep(files, components, k + 1);
        ghost var before := at;
        var child := EnterDirectory(descriptors[k], components[k], files, components, k);
        if child.None? {
          MoreAbove(files, components, k + 2);
          return None;
        }
        PinnedStep(before, at, components, descriptors, child.value);
        descriptors := descriptors + [child.value];
        k := k + 1;
      }
      return Some(descriptors);
    }

    /** The closing pass over the parents, innermost first. */
    method ParentsUnchanged(components: Parts, descriptors: seq<Ino>, ghost files: Files) returns (ok: bool)
      requires components in files && |descriptors| == |components| && Holds(files, [])
      requires Pinned(at, components, descriptors) && NoFileAbove(files, components, |components|)
      requires folding ==> forall f <- files :: SpelledAlike(f, components)
      ensures ok
    {
      hide Stores, Lookup, SpelledAlike, Allows, OwnerMay, OpenDirectories;
      assert [] <= components;
      var j := |components| - 1;
      while j > 0
        invariant j < |components|
      {
        j := j - 1;
        StoresFacts(nodes, root, at, files, [], Above(components, j));
        StoresFacts(nodes, root, at, files, [], Above(components, j + 1));
        LookupStored(nodes, root, at, files, [], components, j, folding);
        MayUse(nodes, descriptors[j], privileged);
        if !Permits(descriptors[j], OWNER_SEARCH) { return false; }
        var found := Lookup(folding, nodes[descriptors[j]].entries, components[j]);
        if found != Some(descriptors[j + 1]) || !nodes[descriptors[j + 1]].Dir? { return false; }
      }
      ok := true;
    }

    /** `write_regular_file_at`. */
    method WriteRegularFileAt(relative: Text, data: Octets, mode: Mode, ghost files: Files)
      returns (r: Result<(), WriteError>)
      requires Holds(files, [])
      requires folding ==> forall f <- files :: SpelledAlike(f, Split(relative))
      modifies this`nodes, this`next, this`at
      ensures r.Ok? <==> ValidRelativePath(relative) && mode <= 0x1FF && Free(files, Split(relative))
      ensures r.Ok? ==> Holds(files[Split(relative) := data], [])
      ensures r.Ok? ==> Split(relative) in at && at[Split(relative)] in nodes
      ensures r.Ok? ==> nodes[at[Split(relative)]] == File(data, mode)
      ensures r.Ok? ==> old(FilesHave(nodes, mode)) ==> FilesHave(nodes, mode)
    {
      hide ValidRelativePath, Split, Stores, SpelledAlike, NoSlash, Free, OpenDirectories, FilesHave;
      if !ValidRelativePath(relative) { return Err(BadTarget); }
      if mode > 0x1FF { return Err(BadMode); }
      var components := Split(relative);
      JoinSplit(relative);
      var descriptors := OpenParents(components, files);
      if descriptors.None? {
        BlockedAbove(files, components);
        return Err(ParentNotADirectory);
      }
      var last := |components| - 1;
      assert Above(components, last) == Front(components);
      FreeTarget(nodes, root, at, files, components);
      var written := WriteTarget(descriptors.value[last], components[last], data, mode, files, components);
      if !written { return Err(TargetExists); }
      AlikeItself(components);
      var kept := ParentsUnchanged(components, descriptors.value, files[components := data]);
      if !kept { return Err(ParentChanged); }
      return Ok(());
    }
  }

  /** A directory of a private tree may be used in every way. */
  lemma MayUse(nodes: Nodes, ino: Ino, privileged: bool)
    requires OpenDirectories(nodes, privileged) && ino in nodes && nodes[ino].Dir?
    ensures OwnerMay(nodes[ino], privileged)
    ensures Allows(nodes[ino], OWNER_READ, privileged) && Allows(nodes[ino], OWNER_SEARCH, privileged)
  {
  }

  lemma AboveEnds(rel: Parts)
    requires rel != []
    ensures Above(rel, 0) == [] && Above(rel, |rel| - 1) == Front(rel) && Above(rel, |rel|) == rel
  {
  }

  lemma AlikeItself(rel: Parts)
    ensures SpelledAlike(rel, rel)
  {
  }

  lemma BlockedAbove(files: Files, rel: Parts)
    requires !NoFileAbove(files, rel, |rel|)
    ensures !Free(files, rel)
  {
    var k :| 0 <= k < |rel| && Above(rel, k) in files;
    assert Above(rel, k) <= rel;
  }

  lemma EntryMade(before: Nodes, parent: Ino, name: Text, ino: Ino, node: Node)
    requires parent in before && before[parent].Dir?
    ensures ino in WithEntry(before, parent, name, ino, node) && WithEntry(before, parent, name, ino, node)[ino] == node
  {
  }

  lemma BelowNext(before: Nodes, parent: Ino, name: Text, ino: Ino, node: Node, next: Ino)
    requires parent in before && before[parent].Dir? && ino == next && forall i <- before :: i < next
    ensures forall i <- WithEntry(before, parent, name, ino, node) :: i < next + 1
  {
  }

  lemma PrefixIsTake(f: Parts, rel: Parts)
    ensures f <= rel ==> f == Above(rel, |f|) && (|f| == |rel| ==> f == rel)
    ensures rel <= rel
  {
  }

  /** With its parents in place and none of them a file, a path is free exactly when it is absent. */
  lemma FreeTarget(nodes: Nodes, root: Ino, at: map<Parts, Ino>, files: Files, rel: Parts)
    requires rel != [] && Stores(nodes, root, at, files, Front(rel))
    requires NoFileAbove(files, rel, |rel|)
    ensures Free(files, rel) <==> rel !in at
  {
    hide TreeAt;
    if rel !in at {
      forall f | f in files ensures !(f <= rel) && !(rel <= f) {
        PrefixIsTake(f, rel);
      }
    } else {
      assert !(rel <= Front(rel));
      var f :| f in files && rel <= f;
    }
  }

  lemma EmptyStores()
    ensures Stores(map[0 := Dir([], PRIVATE)], 0, map[[] := 0], map[], [])
  {
    assert Names([]) == [];
  }
}
