// The two tree walkers of inventory.py on an unchanging, readable tree: one lists names without
// opening files, the other captures bytes.  Both are proved against the same specification, so
// they accept the same trees and agree on the paths.
module Walkers {
  import opened Bytes
  import opened Unicode
  import opened Wrappers
  import opened TextOrder
  import opened RelativePaths
  import opened Disk

  datatype InventoryError = BadBounds | BadRoot | BadTree | BadPaths(error: PathError)

  // ---- list_regular_file_paths ---------------------------------------------------------------

  class Lister {
    const nodes: Nodes
    const bounds: Bounds
    var paths: seq<Text>
    var totalBytes: nat

    constructor (nodes: Nodes, bounds: Bounds)
      ensures this.nodes == nodes && this.bounds == bounds && paths == [] && totalBytes == 0
    {
      this.nodes, this.bounds, paths, totalBytes := nodes, bounds, [], 0;
    }

    ghost predicate WithinBounds()
      reads this
    {
      |paths| <= bounds.maxFiles && totalBytes <= bounds.maxTotalBytes
    }

    /** One directory; the result is the number of files below it. */
    method Visit(ino: Ino, parts: Parts) returns (ok: bool, filesBelow: nat)
      requires WithinBounds() && |parts| <= bounds.maxDepth
      modifies this`paths, this`totalBytes
      ensures var v := VisitTree(nodes, ino, parts, bounds);
              && (ok <==> v.Some? && Fits(v.value, |old(paths)|, old(totalBytes), bounds))
              && (ok ==> paths == old(paths) + Paths(v.value) && totalBytes == old(totalBytes) + TotalSize(v.value))
              && (ok ==> filesBelow == |v.value| && WithinBounds())
      decreases bounds.maxDepth - |parts|, 1
    {
      hide VisitNames, Sort, Names, VisitedSoFar, Fits, Paths;
      filesBelow := 0;
      if ino !in nodes || !nodes[ino].Dir? { return false, 0; }
      var entries := nodes[ino].entries;
      var names := Sort(Names(entries));
      ghost var done: seq<FileEntry>, count, total := [], |paths|, totalBytes;
      VisitStart(nodes, entries, names, parts, bounds);
      NothingYet(paths, bounds, totalBytes);
      var i := 0;
      while i < |names|
        invariant 0 <= i <= |names| && WithinBounds()
        invariant VisitedSoFar(nodes, entries, names, parts, bounds, i, done)
        invariant paths == old(paths) + Paths(done) && |Paths(done)| == |done|
        invariant totalBytes == total + TotalSize(done) && filesBelow == |done|
        invariant Fits(done, count, total, bounds)
      {
        VisitStep(nodes, entries, names, parts, bounds, i, done);
        ghost var one := VisitOne(nodes, entries, names[i], parts, bounds);
        var below;
        ok, below := VisitEntry(entries, names[i], parts);
        if one.Some? { FitsConcat(done, one.value, count, total, bounds); }
        if !ok {
          if one.Some? { VisitOverflow(nodes, entries, names, parts, bounds, i + 1, done + one.value, count, total); }
          return;
        }
        PathsConcat(done, one.value);
        TotalSizeConcat(done, one.value);
        ConcatAssociative(old(paths), Paths(done), Paths(one.value));
        done := done + one.value;
        filesBelow := filesBelow + below;
        i := i + 1;
      }
      VisitEnd(nodes, entries, names, parts, bounds, done);
      ok := true;
    }

    method VisitEntry(entries: seq<Entry>, name: Text, parts: Parts) returns (ok: bool, below: nat)
      requires WithinBounds() && |parts| <= bounds.maxDepth
      modifies this`paths, this`totalBytes
      ensures var v := VisitOne(nodes, entries, name, parts, bounds);
              && (ok <==> v.Some? && Fits(v.value, |old(paths)|, old(totalBytes), bounds))
              && (ok ==> paths == old(paths) + Paths(v.value) && totalBytes == old(totalBytes) + TotalSize(v.value))
              && (ok ==> below == |v.value| && WithinBounds())
      decreases bounds.maxDepth - |parts|, 0
    {
      hide VisitTree, ValidRelativePath, Join, Find;
      below := 0;
      var child := parts + [name];
      var relative := Join(child);
      if !ValidRelativePath(relative) || |child| > bounds.maxDepth { return false, 0; }
      var found := Find(entries, name);
      if found.None? || found.value !in nodes { return false, 0; }
      match nodes[found.value]
      case Dir(_, _) =>
        var nested;
        ok, nested := Visit(found.value, child);
        if !ok || nested == 0 { return false, 0; }
        return true, nested;
      case File(data, _) =>
        OneFile(FileEntry(relative, data));
        if |data| > bounds.maxFileBytes || |paths| + 1 > bounds.maxFiles || totalBytes + |data| > bounds.maxTotalBytes {
          return false, 0;
        }
        paths := paths + [relative];
        totalBytes := totalBytes + |data|;
        return true, 1;
      case _ => return false, 0;
    }
  }

  lemma NothingYet(paths: seq<Text>, b: Bounds, total: nat)
    ensures paths + Paths([]) == paths && |Paths([])| == 0 && TotalSize([]) == 0
    ensures |paths| <= b.maxFiles && total <= b.maxTotalBytes ==> Fits([], |paths|, total, b)
  {
  }

  lemma OneFile(f: FileEntry)
    ensures Paths([f]) == [f.path] && TotalSize([f]) == |f.data|
  {
    assert [f][1..] == [];
  }

  method ListRegularFilePaths(nodes: Nodes, root: Ino, bounds: Bounds) returns (r: Result<seq<Text>, InventoryError>)
    ensures r.Ok? <==> Acceptable(nodes, root, bounds)
    ensures r.Ok? ==> r.value == Sort(Paths(VisitTree(nodes, root, [], bounds).value))
  {
    hide VisitTree, Sort, Canonical;
    if !ValidBounds(bounds) { return Err(BadBounds); }
    var lister := new Lister(nodes, bounds);
    var ok, _ := lister.Visit(root, []);
    if !ok { return Err(BadTree); }
    assert lister.paths == Paths(VisitTree(nodes, root, [], bounds).value);
    var ordered := CanonicalRelativePaths(lister.paths, false);
    match ordered
    case Ok(value) => return Ok(value);
    case Err(error) => return Err(BadPaths(error));
  }

  // ---- inventory_regular_files ---------------------------------------------------------------

  class Inventory {
    const nodes: Nodes
    const bounds: Bounds
    var files: seq<FileEntry>
    var totalBytes: nat

    constructor (nodes: Nodes, bounds: Bounds)
      ensures this.nodes == nodes && this.bounds == bounds && files == [] && totalBytes == 0
    {
      this.nodes, this.bounds, files, totalBytes := nodes, bounds, [], 0;
    }

    ghost predicate WithinBounds()
      reads this
    {
      |files| <= bounds.maxFiles && totalBytes <= bounds.maxTotalBytes
    }

    /** One directory, capturing the bytes of every file. */
    method Visit(ino: Ino, parts: Parts) returns (ok: bool, filesBelow: nat)
      requires WithinBounds() && |parts| <= bounds.maxDepth
      modifies this`files, this`totalBytes
      ensures var v := VisitTree(nodes, ino, parts, bounds);
              && (ok <==> v.Some? && Fits(v.value, |old(files)|, old(totalBytes), bounds))
              && (ok ==> files == old(files) + v.value && totalBytes == old(totalBytes) + TotalSize(v.value))
              && (ok ==> filesBelow == |v.value| && WithinBounds())
      decreases bounds.maxDepth - |parts|, 1
    {
      hide VisitNames, Sort, Names, VisitedSoFar, Fits;
      filesBelow := 0;
      if ino !in nodes || !nodes[ino].Dir? { return false, 0; }
      var entries := nodes[ino].entries;
      var names := Sort(Names(entries));
      ghost var done: seq<FileEntry>, count, total := [], |files|, totalBytes;
      VisitStart(nodes, entries, names, parts, bounds);
      NothingYet(Paths(files), bounds, totalBytes);
      assert files == files + [];
      var i := 0;
      while i < |names|
        invariant 0 <= i <= |names| && WithinBounds()
        invariant VisitedSoFar(nodes, entries, names, parts, bounds, i, done)
        invariant files == old(files) + done
        invariant totalBytes == total + TotalSize(done) && filesBelow == |done|
        invariant Fits(done, count, total, bounds)
      {
        VisitStep(nodes, entries, names, parts, bounds, i, done);
        ghost var one := VisitOne(nodes, entries, names[i], parts, bounds);
        var below;
        ok, below := VisitEntry(entries, names[i], parts);
        if one.Some? { FitsConcat(done, one.value, count, total, bounds); }
        if !ok {
          if one.Some? { VisitOverflow(nodes, entries, names, parts, bounds, i + 1, done + one.value, count, total); }
          return;
        }
        TotalSizeConcat(done, one.value);
        ConcatAssociative(old(files), done, one.value);
        done := done + one.value;
        filesBelow := filesBelow + below;
        i := i + 1;
      }
      VisitEnd(nodes, entries, names, parts, bounds, done);
      ok := true;
    }

    method VisitEntry(entries: seq<Entry>, name: Text, parts: Parts) returns (ok: bool, below: nat)
      requires WithinBounds() && |parts| <= bounds.maxDepth
      modifies this`files, this`totalBytes
      ensures var v := VisitOne(nodes, entries, name, parts, bounds);
              && (ok <==> v.Some? && Fits(v.value, |old(files)|, old(totalBytes), bounds))
              && (ok ==> files == old(files) + v.value && totalBytes == old(totalBytes) + TotalSize(v.value))
              && (ok ==> below == |v.value| && WithinBounds())
      decreases bounds.maxDepth - |parts|, 0
    {
      hide VisitTree, ValidRelativePath, Join, Find;
      below := 0;
      var child := parts + [name];
      var relative := Join(child);
      if !ValidRelativePath(relative) || |child| > bounds.maxDepth { return false, 0; }
      var found := Find(entries, name);
      if found.None? || found.value !in nodes { return false, 0; }
      match nodes[found.value]
      case Dir(_, _) =>
        var nested;
        ok, nested := Visit(found.value, child);
        if !ok || nested == 0 { return false, 0; }
        return true, nested;
      case File(data, _) =>
        OneFile(FileEntry(relative, data));
        if |data| > bounds.maxFileBytes || |files| + 1 > bounds.maxFiles || totalBytes + |data| > bounds.maxTotalBytes {
          return false, 0;
        }
        files := files + [FileEntry(relative, data)];
        totalBytes := totalBytes + |data|;
        return true, 1;
      case _ => return false, 0;
    }
  }

  function Lookup(files: seq<FileEntry>, path: Text): (f: FileEntry)
    requires path in Paths(files)
    ensures f in files && f.path == path
  {
    assert files != [];
    if files[0].path == path then files[0]
    else
      var i :| 0 <= i < |files| && Paths(files)[i] == path;
      assert Paths(files[1..])[i - 1] == path;
      Lookup(files[1..], path)
  }

  /** The captured files in the order of their sorted paths. */
  ghost predicate SortedCapture(files: seq<FileEntry>, sorted: seq<FileEntry>) {
    Paths(sorted) == Sort(Paths(files)) && forall f <- sorted :: f in files
  }

  method InventoryRegularFiles(
    nodes: Nodes, root: Ino, bounds: Bounds) returns (r: Result<seq<FileEntry>, InventoryError>)
    ensures r.Ok? <==> Acceptable(nodes, root, bounds)
    ensures r.Ok? ==> SortedCapture(VisitTree(nodes, root, [], bounds).value, r.value)
  {
    hide VisitTree, Sort, Canonical, Lookup;
    if !ValidBounds(bounds) { return Err(BadBounds); }
    var inventory := new Inventory(nodes, bounds);
    var ok, _ := inventory.Visit(root, []);
    if !ok { return Err(BadTree); }
    var files := inventory.files;
    assert files == VisitTree(nodes, root, [], bounds).value;
    var ordered := CanonicalRelativePaths(Paths(files), false);
    if ordered.Err? { return Err(BadPaths(ordered.error)); }
    SameElements(Paths(files), ordered.value);
    var sorted, i := [], 0;
    while i < |ordered.value|
      invariant 0 <= i <= |ordered.value|
      invariant Paths(sorted) == ordered.value[..i]
      invariant forall f <- sorted :: f in files
    {
      var f := Lookup(files, ordered.value[i]);
      PathsConcat(sorted, [f]);
      OneFile(f);
      sorted := sorted + [f];
      i := i + 1;
    }
    assert ordered.value[..i] == ordered.value;
    return Ok(sorted);
  }
}
