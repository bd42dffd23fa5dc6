// A filesystem as inodes and directory entries, and what it means to visit a tree in it.
module Disk {
  import opened Bytes
  import opened Unicode
  import opened Wrappers
  import opened TextOrder
  import opened RelativePaths

  type Ino = nat

  type Mode = bv12

  datatype Entry = Entry(name: Text, ino: Ino)

  datatype Node = Dir(entries: seq<Entry>, mode: Mode) | File(data: Octets, mode: Mode) | Link | Special

  type Nodes = map<Ino, Node>

  /** `chmod`. */
  function WithMode(node: Node, mode: Mode): Node {
    match node
    case Dir(entries, _) => Dir(entries, mode)
    case File(data, _) => File(data, mode)
    case _ => node
  }

  const OWNER_READ: Mode := 0x100
  const OWNER_WRITE: Mode := 0x80
  const OWNER_SEARCH: Mode := 0x40

  predicate Grants(mode: Mode, permission: Mode) {
    mode & permission == permission
  }

  /** Whether the kernel lets the owner of a file or directory use it this way; the superuser may do
      anything. */
  predicate Allows(node: Node, permission: Mode, privileged: bool) {
    match node
    case Dir(_, mode) => privileged || Grants(mode, permission)
    case File(_, mode) => privileged || Grants(mode, permission)
    case _ => true
  }

  function Names(entries: seq<Entry>): (names: seq<Text>)
    ensures |names| == |entries|
  {
    seq(|entries|, i requires 0 <= i < |entries| => entries[i].name)
  }

  function Find(entries: seq<Entry>, name: Text): Option<Ino> {
    if entries == [] then None
    else if entries[0].name == name then Some(entries[0].ino)
    else Find(entries[1..], name)
  }

  // ---- bounds ------------------------------------------------------------------------------

  datatype Bounds = Bounds(maxFiles: int, maxFileBytes: int, maxTotalBytes: int, maxDepth: int)

  predicate ValidBounds(b: Bounds) {
    b.maxFiles >= 1 && b.maxFileBytes >= 1 && b.maxTotalBytes >= 1 && b.maxDepth >= 1
  }

  datatype FileEntry = FileEntry(path: Text, data: Octets)

  function Paths(files: seq<FileEntry>): (paths: seq<Text>)
    ensures |paths| == |files|
  {
    seq(|files|, i requires 0 <= i < |files| => files[i].path)
  }

  function TotalSize(files: seq<FileEntry>): nat {
    if files == [] then 0 else |files[0].data| + TotalSize(files[1..])
  }

  lemma {:induction false} TotalSizeConcat(a: seq<FileEntry>, b: seq<FileEntry>)
    ensures TotalSize(a + b) == TotalSize(a) + TotalSize(b)
  {
    if a == [] {
      assert a + b == b;
    } else {
      TotalSizeConcat(a[1..], b);
      assert (a + b)[1..] == a[1..] + b;
    }
  }

  lemma PathsConcat(a: seq<FileEntry>, b: seq<FileEntry>)
    ensures Paths(a + b) == Paths(a) + Paths(b)
  {
  }

  // ---- visiting ----------------------------------------------------------------------------

  /** The regular files below directory `ino` in traversal order; None when an entry name is
      invalid, an entry is too deep, is a link or special file, is a nested directory with no file
      below it, or is a file over the per-file bound. */
  function VisitTree(nodes: Nodes, ino: Ino, parts: Parts, b: Bounds): Option<seq<FileEntry>>
    decreases b.maxDepth - |parts|, 1, 0
  {
    if ino !in nodes || !nodes[ino].Dir? then None
    else VisitNames(nodes, nodes[ino].entries, Sort(Names(nodes[ino].entries)), parts, b)
  }

  function VisitNames(
    nodes: Nodes, entries: seq<Entry>, names: seq<Text>, parts: Parts, b: Bounds): Option<seq<FileEntry>>
    decreases b.maxDepth - |parts|, 0, |names|
  {
    if names == [] then Some([])
    else
      match VisitOne(nodes, entries, names[0], parts, b)
      case None => None
      case Some(first) =>
        match VisitNames(nodes, entries, names[1..], parts, b)
        case None => None
        case Some(rest) => Some(first + rest)
  }

  function VisitOne(nodes: Nodes, entries: seq<Entry>, name: Text, parts: Parts, b: Bounds): Option<seq<FileEntry>>
    decreases b.maxDepth - |parts|, 0, 0
  {
    var child := parts + [name];
    var ino := Find(entries, name);
    if !ValidRelativePath(Join(child)) || |child| > b.maxDepth || ino.None? || ino.value !in nodes then None
    else
      match nodes[ino.value]
      case Dir(_, _) =>
        (match VisitTree(nodes, ino.value, child, b)
         case None => None
         case Some(below) => if below == [] then None else Some(below))
      case File(data, _) => if |data| > b.maxFileBytes then None else Some([FileEntry(Join(child), data)])
      case Link => None
      case Special => None
  }

  /** What the walkers accept: a well-formed tree within the count and byte totals whose paths are
      canonical. */
  ghost predicate Acceptable(nodes: Nodes, root: Ino, b: Bounds) {
    && ValidBounds(b)
    && VisitTree(nodes, root, [], b).Some?
    && |VisitTree(nodes, root, [], b).value| <= b.maxFiles
    && TotalSize(VisitTree(nodes, root, [], b).value) <= b.maxTotalBytes
    && Canonical(Paths(VisitTree(nodes, root, [], b).value))
  }

  // ---- steps of the walkers' loops -----------------------------------------------------------

  /** What is still to visit, seen from entry `i`: `done` is what the earlier entries gave. */
  ghost predicate VisitedSoFar(
    nodes: Nodes, entries: seq<Entry>, names: seq<Text>, parts: Parts, b: Bounds, i: nat, done: seq<FileEntry>)
  {
    && i <= |names|
    && var all, rest := VisitNames(nodes, entries, names, parts, b), VisitNames(nodes, entries, names[i..], parts, b);
       (all.Some? <==> rest.Some?) && (all.Some? ==> all.value == done + rest.value)
  }

  lemma VisitStart(nodes: Nodes, entries: seq<Entry>, names: seq<Text>, parts: Parts, b: Bounds)
    ensures VisitedSoFar(nodes, entries, names, parts, b, 0, [])
  {
    hide VisitNames;
    assert names[0..] == names;
    var all := VisitNames(nodes, entries, names, parts, b);
    if all.Some? { assert all.value == [] + all.value; }
  }

  lemma VisitStep(
    nodes: Nodes, entries: seq<Entry>, names: seq<Text>, parts: Parts, b: Bounds, i: nat, done: seq<FileEntry>)
    requires i < |names| && VisitedSoFar(nodes, entries, names, parts, b, i, done)
    ensures var one := VisitOne(nodes, entries, names[i], parts, b);
            && (one.None? ==> VisitNames(nodes, entries, names, parts, b).None?)
            && (one.Some? ==> VisitedSoFar(nodes, entries, names, parts, b, i + 1, done + one.value))
  {
    hide VisitOne;
    assert names[i..][0] == names[i] && names[i..][1..] == names[i + 1..];
    var one, rest := VisitOne(nodes, entries, names[i], parts, b), VisitNames(nodes, entries, names[i + 1..], parts, b);
    if one.Some? && rest.Some? { ConcatAssociative(done, one.value, rest.value); }
  }

  lemma VisitEnd(nodes: Nodes, entries: seq<Entry>, names: seq<Text>, parts: Parts, b: Bounds, done: seq<FileEntry>)
    requires VisitedSoFar(nodes, entries, names, parts, b, |names|, done)
    ensures VisitNames(nodes, entries, names, parts, b) == Some(done)
  {
    assert names[|names|..] == [];
    assert done + [] == done;
  }

  /** Room for more files, after `count` files of `total` octets. */
  predicate Fits(files: seq<FileEntry>, count: nat, total: nat, b: Bounds) {
    count + |files| <= b.maxFiles && total + TotalSize(files) <= b.maxTotalBytes
  }

  /** Too much after some entries is too much for the directory. */
  lemma VisitOverflow(
    nodes: Nodes, entries: seq<Entry>, names: seq<Text>, parts: Parts, b: Bounds, i: nat, done: seq<FileEntry>, count: nat, total: nat)
    requires VisitedSoFar(nodes, entries, names, parts, b, i, done)
    requires !Fits(done, count, total, b)
    ensures var all := VisitNames(nodes, entries, names, parts, b); all.Some? ==> !Fits(all.value, count, total, b)
  {
    hide VisitNames;
    var all, rest := VisitNames(nodes, entries, names, parts, b), VisitNames(nodes, entries, names[i..], parts, b);
    if all.Some? { TotalSizeConcat(done, rest.value); }
  }

  lemma FitsConcat(a: seq<FileEntry>, c: seq<FileEntry>, count: nat, total: nat, b: Bounds)
    ensures Fits(a + c, count, total, b) <==> Fits(a, count, total, b) && Fits(c, count + |a|, total + TotalSize(a), b)
  {
    hide TotalSize;
    TotalSizeConcat(a, c);
  }
}
