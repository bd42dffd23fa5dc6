// A tree that nobody changes while it is read: what it takes for the inventory to succeed on it.
module SnapshotQuiet {
  import opened Bytes
  import opened Unicode
  import opened TextSplit
  import opened Wrappers
  import opened TextOrder
  import opened SnapshotWorld
  import opened SnapshotProof

  const MAX_TREE_MEMBERS := 40_000
  const MAX_TREE_DEPTH := 32
  const MAX_PATH_BYTES := 4_096
  const READ_CHUNK_BYTES := 1024 * 1024
  const MAX_TREE_MANIFEST_BYTES := 4 * 1024 * 1024

  const SLASH: CodePoint := 0x2F
  const BACKSLASH: CodePoint := 0x5C
  const DOT: CodePoint := 0x2E

  predicate SafeComponent(name: Name) {
    && Encodable(name)
    && name != [] && name != [DOT] && name != [DOT, DOT]
    && forall i :: 0 <= i < |name| ==> name[i] >= 0x20 && name[i] != 0x7F && name[i] != SLASH && name[i] != BACKSLASH
  }

  /** Octets of the slash-joined path. */
  function PathBytes(parts: Path): nat {
    |Utf8(JoinOn(parts, SLASH))|
  }

  function TotalBytes(files: seq<Captured>): nat {
    if files == [] then 0 else |files[0].data| + TotalBytes(files[1..])
  }

  lemma {:induction false} TotalBytesAppend(files: seq<Captured>, f: Captured)
    ensures TotalBytes(files + [f]) == TotalBytes(files) + |f.data|
  {
    if files == [] {
      assert [f][1..] == [];
      assert files + [f] == [f];
    } else {
      TotalBytesAppend(files[1..], f);
      assert (files + [f])[1..] == files[1..] + [f];
    }
  }

  predicate SmallFiles(files: seq<Captured>, maxFileBytes: nat) {
    forall i :: 0 <= i < |files| ==> |files[i].data| <= maxFileBytes
  }

  lemma SmallFilesAppend(files: seq<Captured>, f: Captured, maxFileBytes: nat)
    requires SmallFiles(files, maxFileBytes) && |f.data| <= maxFileBytes
    ensures SmallFiles(files + [f], maxFileBytes)
  {
  }

  function Sorted(names: seq<Name>): seq<Name> {
    Sort(names)
  }

  lemma SortedLength(names: seq<Name>)
    ensures |Sorted(names)| == |names|
  {
  }

  // ---- a picture of a tree within the limits -------------------------------------------------

  datatype Window = Window(from: nat, until: nat)

  predicate Inside(w: Window, t: nat) {
    w.from <= t <= w.until
  }

  /** Nothing happens to this inode in the window; whatever else happens does not matter. */
  ghost predicate Still(h: History, w: Window, i: Ino) {
    Steady(h, i, w.from, w.until)
  }

  /** `p` pictures the tree below an inode as it stands throughout the window, and every name, path and
      wanted file in it is within the limits. */
  ghost predicate Picture(h: History, w: Window, p: Seen, parts: Path, wanted: Path -> bool, maxFileBytes: nat)
    decreases p
  {
    && Still(h, w, p.ino)
    && match p
    case SeenFile(i, _, captured) =>
      && At(h, w.from, i).node.File?
      && captured == (if wanted(parts) then Some(At(h, w.from, i).node.data) else None)
      && (wanted(parts) ==> |At(h, w.from, i).node.data| <= maxFileBytes)
    case SeenDir(i, _, _, names, children) =>
      && |parts| <= MAX_TREE_DEPTH
      && At(h, w.from, i).node.Dir? && Entries(names, children, At(h, w.from, i).node.entries)
      && forall k :: 0 <= k < |children| ==>
           GoodName(names[k], parts + [names[k]]) && Picture(h, w, children[k], parts + [names[k]], wanted, maxFileBytes)
  }

  predicate GoodName(name: Name, parts: Path) {
    SafeComponent(name) && |parts| <= MAX_TREE_DEPTH && PathBytes(parts) <= MAX_PATH_BYTES
  }

  /** One entry of a directory leads to the pictured inode. */
  ghost predicate EntryPicture(
    h: History, w: Window, fd: Ino, name: Name, p: Seen, parts: Path, wanted: Path -> bool, maxFileBytes: nat)
  {
    && QuietlyLeads(h, w, fd, name, p.ino)
    && GoodName(name, parts) && Picture(h, w, p, parts, wanted, maxFileBytes)
  }

  ghost predicate EntriesPicture(
    h: History, w: Window, fd: Ino, names: seq<Name>, ps: seq<Seen>, parts: Path, wanted: Path -> bool, maxFileBytes: nat)
  {
    |names| == |ps| &&
    forall k :: 0 <= k < |names| ==> EntryPicture(h, w, fd, names[k], ps[k], parts + [names[k]], wanted, maxFileBytes)
  }

  /** Directory entries in a pictured tree. */
  function Members(p: Seen): nat
    decreases p, 1
  {
    match p
    case SeenFile(_, _, _) => 0
    case SeenDir(_, _, _, names, children) => |names| + MembersAll(children)
  }

  function MembersAll(ps: seq<Seen>): nat
    decreases ps, 0
  {
    if ps == [] then 0 else Members(ps[0]) + MembersAll(ps[1..])
  }

  /** The budgets admit this many more members and these files after those already collected. */
  predicate Room(
    members: nat, more: nat, files: seq<Captured>, report: seq<Captured>, maxTotalBytes: nat, maxFiles: nat)
  {
    && members + more <= MAX_TREE_MEMBERS
    && TotalBytes(files + report) <= maxTotalBytes && |files + report| <= maxFiles
  }

  lemma {:induction false} TotalBytesConcat(a: seq<Captured>, b: seq<Captured>)
    ensures TotalBytes(a + b) == TotalBytes(a) + TotalBytes(b)
  {
    if a == [] {
      assert a + b == b;
    } else {
      TotalBytesConcat(a[1..], b);
      assert (a + b)[1..] == a[1..] + b;
    }
  }

  /** Room for two parts is room for the first, and then for the second. */
  lemma RoomSplits(
    members: nat, m: nat, n: nat, files: seq<Captured>, a: seq<Captured>, b: seq<Captured>, maxTotalBytes: nat, maxFiles: nat)
    requires Room(members, m + n, files, a + b, maxTotalBytes, maxFiles)
    ensures Room(members, m, files, a, maxTotalBytes, maxFiles)
    ensures Room(members + m, n, files + a, b, maxTotalBytes, maxFiles)
  {
    ConcatAssociative(files, a, b);
    TotalBytesConcat(files + a, b);
  }

  lemma PictureParts(h: History, w: Window, p: Seen, parts: Path, wanted: Path -> bool, maxFileBytes: nat)
    requires Picture(h, w, p, parts, wanted, maxFileBytes) && p.SeenDir?
    ensures |parts| <= MAX_TREE_DEPTH
    ensures EntriesPicture(h, w, p.ino, p.names, p.children, parts, wanted, maxFileBytes)
    ensures Members(p) == |p.names| + MembersAll(p.children)
    ensures |p.names| == |p.children| && Report(p, parts) == ReportAll(p.names, p.children, parts)
  {
    hide At, GoodName;
  }

  /** What remains of a list of pictured entries. */
  lemma EntriesRest(
    h: History, w: Window, fd: Ino, names: seq<Name>, ps: seq<Seen>, parts: Path, wanted: Path -> bool, maxFileBytes: nat, i: nat)
    requires EntriesPicture(h, w, fd, names, ps, parts, wanted, maxFileBytes) && i < |names|
    ensures EntryPicture(h, w, fd, names[i], ps[i], parts + [names[i]], wanted, maxFileBytes)
    ensures MembersAll(ps[i..]) == Members(ps[i]) + MembersAll(ps[i + 1..])
    ensures ReportAll(names[i..], ps[i..], parts)
         == Report(ps[i], parts + [names[i]]) + ReportAll(names[i + 1..], ps[i + 1..], parts)
  {
    hide EntryPicture, Report, Members;
    assert ps[i..][0] == ps[i] && ps[i..][1..] == ps[i + 1..];
    assert names[i..][0] == names[i] && names[i..][1..] == names[i + 1..];
  }

  /** The entries from `i` on fit: so does entry `i`, and after it the rest. */
  lemma QuietStep(
    h: History, w: Window, fd: Ino, names: seq<Name>, ps: seq<Seen>, parts: Path, wanted: Path -> bool, maxFileBytes: nat, i: nat,
    members: nat, files: seq<Captured>, maxTotalBytes: nat, maxFiles: nat)
    requires EntriesPicture(h, w, fd, names, ps, parts, wanted, maxFileBytes) && i < |names|
    requires Room(members, MembersAll(ps[i..]), files, ReportAll(names[i..], ps[i..], parts), maxTotalBytes, maxFiles)
    ensures var one := Report(ps[i], parts + [names[i]]);
            && EntryPicture(h, w, fd, names[i], ps[i], parts + [names[i]], wanted, maxFileBytes)
            && Room(members, Members(ps[i]), files, one, maxTotalBytes, maxFiles)
            && Room(members + Members(ps[i]), MembersAll(ps[i + 1..]), files + one, ReportAll(names[i + 1..], ps[i + 1..], parts),
                    maxTotalBytes, maxFiles)
            && MembersAll(ps[i..]) == Members(ps[i]) + MembersAll(ps[i + 1..])
            && files + ReportAll(names[i..], ps[i..], parts) == (files + one) + ReportAll(names[i + 1..], ps[i + 1..], parts)
  {
    hide EntryPicture, Room, Report, ReportAll, Members, MembersAll;
    EntriesRest(h, w, fd, names, ps, parts, wanted, maxFileBytes, i);
    var one, rest := Report(ps[i], parts + [names[i]]), ReportAll(names[i + 1..], ps[i + 1..], parts);
    RoomSplits(members, Members(ps[i]), MembersAll(ps[i + 1..]), files, one, rest, maxTotalBytes, maxFiles);
    ConcatAssociative(files, one, rest);
  }

  lemma QuietEnd(names: seq<Name>, ps: seq<Seen>, parts: Path, files: seq<Captured>)
    requires |names| == |ps|
    ensures MembersAll(ps[|ps|..]) == 0 && files + ReportAll(names[|ps|..], ps[|ps|..], parts) == files
    ensures ps[0..] == ps && names[0..] == names
  {
  }

  /** With the first `i` entries collected, the rest still fits, and the whole will be there in the end. */
  ghost predicate OnTrack(
    total: nat, files: seq<Captured>, names: seq<Name>, ps: seq<Seen>, parts: Path, i: nat, total0: nat, files0: seq<Captured>,
    maxTotalBytes: nat, maxFiles: nat)
  {
    && i <= |names| == |ps|
    && Room(total, MembersAll(ps[i..]), files, ReportAll(names[i..], ps[i..], parts), maxTotalBytes, maxFiles)
    && total + MembersAll(ps[i..]) == total0 + MembersAll(ps)
    && files + ReportAll(names[i..], ps[i..], parts) == files0 + ReportAll(names, ps, parts)
  }

  lemma OnTrackFirst(
    h: History, w: Window, fd: Ino, total: nat, files: seq<Captured>, names: seq<Name>, ps: seq<Seen>, parts: Path,
    wanted: Path -> bool, maxFileBytes: nat, maxTotalBytes: nat, maxFiles: nat)
    requires EntriesPicture(h, w, fd, names, ps, parts, wanted, maxFileBytes)
    requires Room(total, MembersAll(ps), files, ReportAll(names, ps, parts), maxTotalBytes, maxFiles)
    ensures |names| == |ps| && OnTrack(total, files, names, ps, parts, 0, total, files, maxTotalBytes, maxFiles)
  {
    hide Room, EntryPicture;
    QuietEnd(names, ps, parts, files);
  }

  lemma OnTrackNext(
    h: History, w: Window, fd: Ino, total: nat, files: seq<Captured>, names: seq<Name>, ps: seq<Seen>, parts: Path, i: nat,
    total0: nat, files0: seq<Captured>, wanted: Path -> bool, maxFileBytes: nat, maxTotalBytes: nat, maxFiles: nat)
    requires EntriesPicture(h, w, fd, names, ps, parts, wanted, maxFileBytes) && i < |names| == |ps|
    requires OnTrack(total, files, names, ps, parts, i, total0, files0, maxTotalBytes, maxFiles)
    ensures var one := Report(ps[i], parts + [names[i]]);
            && EntryPicture(h, w, fd, names[i], ps[i], parts + [names[i]], wanted, maxFileBytes)
            && Room(total, Members(ps[i]), files, one, maxTotalBytes, maxFiles)
            && OnTrack(total + Members(ps[i]), files + one, names, ps, parts, i + 1, total0, files0, maxTotalBytes, maxFiles)
  {
    hide EntryPicture, EntriesPicture, Room, Report, ReportAll, Members, MembersAll;
    QuietStep(h, w, fd, names, ps, parts, wanted, maxFileBytes, i, total, files, maxTotalBytes, maxFiles);
  }

  lemma OnTrackLast(
    total: nat, files: seq<Captured>, names: seq<Name>, ps: seq<Seen>, parts: Path, total0: nat, files0: seq<Captured>,
    maxTotalBytes: nat, maxFiles: nat)
    requires |names| == |ps| && OnTrack(total, files, names, ps, parts, |names|, total0, files0, maxTotalBytes, maxFiles)
    ensures total == total0 + MembersAll(ps) && files == files0 + ReportAll(names, ps, parts)
  {
    hide Room, Report;
    QuietEnd(names, ps, parts, files);
  }

  /** Every scan inside the window gives the sorted names of a directory that is still. */
  lemma StillScan(env: Env, w: Window, k: nat, s: Seen)
    requires Sound(env) && Still(env.history, w, s.ino) && HoldsAt(env.history, w.from, s) && s.SeenDir?
    requires Inside(w, Instant(env, k)) && Inside(w, Instant(env, k + 1))
    ensures At(env.history, Instant(env, k), s.ino).node.Dir?
    ensures Sorted(Listing(env, k, s.ino)) == s.names && |Listing(env, k, s.ino)| == |s.names|
  {
    hide At, Sort, Before, Ascending;
    assert Forward(env) && Instant(env, k) <= Instant(env, k + 1);
    StillSteady(env.history, w, s.ino, Instant(env, k), Instant(env, k + 1));
    var listing := Listing(env, k, s.ino);
    SortKeepsDistinct(listing);
    SortAscends(listing);
    SameElementsSame(Sort(listing), s.names);
  }

  lemma QuietScan(env: Env, w: Window, k: nat, p: Seen, parts: Path, wanted: Path -> bool, maxFileBytes: nat)
    requires Sound(env) && Picture(env.history, w, p, parts, wanted, maxFileBytes) && p.SeenDir?
    requires Inside(w, Instant(env, k)) && Inside(w, Instant(env, k + 1))
    ensures At(env.history, Instant(env, k), p.ino).node.Dir?
    ensures Sorted(Listing(env, k, p.ino)) == p.names && |Listing(env, k, p.ino)| == |p.names|
  {
    hide At, HoldsAt;
    PictureHolds(env.history, w, p, parts, wanted, maxFileBytes);
    StillScan(env, w, k, p);
  }

  // ---- what the first pass saw of it ---------------------------------------------------------

  /** Every sighting was made in the window, of an inode that is still. */
  ghost predicate Calm(h: History, w: Window, s: Seen)
    decreases s
  {
    && Still(h, w, s.ino) && Inside(w, s.last)
    && (s.SeenDir? ==> forall k :: 0 <= k < |s.children| ==> Calm(h, w, s.children[k]))
  }

  /** No sighting was made before this instant. */
  ghost predicate Since(s: Seen, from: nat)
    decreases s
  {
    && from <= s.last
    && (s.SeenDir? ==> forall k :: 0 <= k < |s.children| ==> Since(s.children[k], from))
  }

  ghost predicate AllSince(ss: seq<Seen>, from: nat) {
    forall k :: 0 <= k < |ss| ==> Since(ss[k], from)
  }

  lemma AllSinceStep(ss: seq<Seen>, s: Seen, from: nat)
    requires AllSince(ss, from) && Since(s, from)
    ensures AllSince(ss + [s], from)
  {
  }

  lemma SinceDirectory(s: Seen, from: nat)
    requires s.SeenDir? && from <= s.last && AllSince(s.children, from)
    ensures Since(s, from)
  {
  }

  /** One entry of a directory that holds and is calm. */
  lemma HoldsEntry(h: History, w: Window, s: Seen, i: nat)
    requires HoldsAt(h, w.from, s) && Calm(h, w, s) && s.SeenDir? && i < |s.names|
    ensures |s.names| == |s.children| && HoldsAt(h, w.from, s.children[i]) && Calm(h, w, s.children[i])
    ensures QuietlyLeads(h, w, s.ino, s.names[i], s.children[i].ino)
    ensures MembersAll(s.children[i..]) == Members(s.children[i]) + MembersAll(s.children[i + 1..])
    ensures Members(s.children[i]) == 0 || s.children[i].SeenDir?
    ensures s.children[i].SeenDir? <==> At(h, w.from, s.children[i].ino).node.Dir?
    ensures s.children[i].SeenFile? <==> At(h, w.from, s.children[i].ino).node.File?
  {
    hide At, Before, Ascending;
    assert s.children[i..][0] == s.children[i] && s.children[i..][1..] == s.children[i + 1..];
  }

  lemma SortAscends(s: seq<Text>)
    ensures Ascending(Sort(s)) && |Sort(s)| == |s|
  {
  }

  lemma StillSteady(h: History, w: Window, i: Ino, a: nat, b: nat)
    requires Still(h, w, i) && Inside(w, a) && Inside(w, b)
    ensures Steady(h, i, a, b) && At(h, a, i) == At(h, w.from, i) && StatAt(h, a, i) == StatAt(h, b, i)
  {
    hide At;
    assert At(h, a, i) == At(h, w.from, i) == At(h, b, i);
  }

  /** A pictured entry at any instant of the window. */
  lemma QuietEntryFacts(
    h: History, w: Window, fd: Ino, name: Name, p: Seen, parts: Path, wanted: Path -> bool, maxFileBytes: nat, t: nat)
    requires EntryPicture(h, w, fd, name, p, parts, wanted, maxFileBytes) && Inside(w, t)
    ensures At(h, t, fd).node.Dir? && name in At(h, t, fd).node.entries && At(h, t, fd).node.entries[name] == p.ino
    ensures At(h, t, p.ino) == At(h, w.from, p.ino)
    ensures At(h, t, p.ino).node.Dir? <==> p.SeenDir?
    ensures At(h, t, p.ino).node.File? <==> p.SeenFile?
    ensures p.SeenFile? ==> Members(p) == 0
  {
    hide At, GoodName;
    assert At(h, t, fd) == At(h, w.from, fd) && At(h, t, p.ino) == At(h, w.from, p.ino);
  }

  lemma QuietEntryParts(
    h: History, w: Window, fd: Ino, name: Name, p: Seen, parts: Path, wanted: Path -> bool, maxFileBytes: nat)
    requires EntryPicture(h, w, fd, name, p, parts, wanted, maxFileBytes)
    ensures GoodName(name, parts) && Picture(h, w, p, parts, wanted, maxFileBytes)
  {
  }

  /** What a pictured file reports. */
  lemma QuietFileReport(h: History, w: Window, p: Seen, parts: Path, wanted: Path -> bool, maxFileBytes: nat)
    requires Picture(h, w, p, parts, wanted, maxFileBytes) && p.SeenFile?
    ensures At(h, w.from, p.ino).node.File?
    ensures wanted(parts) ==> |At(h, w.from, p.ino).node.data| <= maxFileBytes
    ensures Report(p, parts) == if wanted(parts) then [Captured(parts, At(h, w.from, p.ino).node.data)] else []
  {
  }

  /** Throughout the window this entry leads to this inode, and nothing happens to either. */
  ghost predicate QuietlyLeads(h: History, w: Window, fd: Ino, name: Name, i: Ino) {
    && Still(h, w, fd) && Still(h, w, i)
    && At(h, w.from, fd).node.Dir? && name in At(h, w.from, fd).node.entries && At(h, w.from, fd).node.entries[name] == i
  }

  lemma QuietlyLeadsAlways(h: History, w: Window, fd: Ino, name: Name, i: Ino, t: nat)
    requires QuietlyLeads(h, w, fd, name, i) && Inside(w, t)
    ensures At(h, t, fd).node.Dir? && name in At(h, t, fd).node.entries && At(h, t, fd).node.entries[name] == i
    ensures Still(h, w, i)
  {
    hide At;
    assert At(h, t, fd) == At(h, w.from, fd);
  }

  /** A pictured file passes the size checks and is what will be captured. */
  lemma QuietCapture(
    h: History, w: Window, fd: Ino, name: Name, p: Seen, parts: Path, wanted: Path -> bool, maxFileBytes: nat, seen: nat,
    members: nat, files: seq<Captured>, maxTotalBytes: nat, maxFiles: nat)
    requires EntryPicture(h, w, fd, name, p, parts, wanted, maxFileBytes) && p.SeenFile? && Inside(w, seen)
    requires Room(members, 0, files, Report(p, parts), maxTotalBytes, maxFiles)
    ensures QuietlyLeads(h, w, fd, name, p.ino) && At(h, seen, p.ino).node.File?
    ensures var data := At(h, seen, p.ino).node.data;
            && StatAt(h, seen, p.ino).size == |data|
            && Report(p, parts) == (if wanted(parts) then [Captured(parts, data)] else [])
            && (wanted(parts) ==> |data| <= maxFileBytes && TotalBytes(files) + |data| <= maxTotalBytes && |files| < maxFiles)
  {
    hide At, GoodName;
    QuietEntryFacts(h, w, fd, name, p, parts, wanted, maxFileBytes, seen);
    QuietFileReport(h, w, p, parts, wanted, maxFileBytes);
    if wanted(parts) {
      RoomForFile(members, files, Captured(parts, At(h, w.from, p.ino).node.data), TotalBytes(files), maxTotalBytes, maxFiles);
    }
  }

  /** Room for one wanted file passes the three checks before it is opened. */
  lemma RoomForFile(
    members: nat, files: seq<Captured>, f: Captured, totalBytes: nat, maxTotalBytes: nat, maxFiles: nat)
    requires Room(members, 0, files, [f], maxTotalBytes, maxFiles) && totalBytes == TotalBytes(files)
    ensures totalBytes + |f.data| <= maxTotalBytes && |files| < maxFiles
  {
    TotalBytesAppend(files, f);
  }

  /** What was sighted in the window of a pictured tree is that tree. */
  lemma {:induction false} WalkedHolds(
    h: History, w: Window, s: Seen, p: Seen, parts: Path, wanted: Path -> bool, maxFileBytes: nat, until: nat)
    requires Picture(h, w, p, parts, wanted, maxFileBytes) && s.ino == p.ino
    requires Witnessed(h, s, until) && until <= w.until && Since(s, w.from)
    ensures HoldsAt(h, w.from, s) && Calm(h, w, s)
    decreases s
  {
    hide At, GoodName, Ascending, Lists;
    assert At(h, s.last, s.ino) == At(h, w.from, s.ino);
    if s.SeenDir? {
      SameEntries(s.names, s.children, p.names, p.children, At(h, w.from, s.ino).node.entries);
      forall k | 0 <= k < |s.children| ensures HoldsAt(h, w.from, s.children[k]) && Calm(h, w, s.children[k]) {
        WalkedHolds(h, w, s.children[k], p.children[k], parts + [p.names[k]], wanted, maxFileBytes, s.last);
      }
    }
  }

  lemma SameEntries(names: seq<Name>, ss: seq<Seen>, others: seq<Name>, ps: seq<Seen>, entries: map<Name, Ino>)
    requires Entries(names, ss, entries) && Entries(others, ps, entries)
    ensures names == others && |ss| == |ps| && forall k :: 0 <= k < |ss| ==> ss[k].ino == ps[k].ino
  {
    hide Before, Ascending;
    SameElementsSame(names, others);
  }

  lemma {:induction false} PictureHolds(h: History, w: Window, p: Seen, parts: Path, wanted: Path -> bool, maxFileBytes: nat)
    requires Picture(h, w, p, parts, wanted, maxFileBytes)
    ensures HoldsAt(h, w.from, p) && Still(h, w, p.ino)
    decreases p
  {
    hide At, GoodName, Still;
    if p.SeenDir? {
      forall k | 0 <= k < |p.children| ensures HoldsAt(h, w.from, p.children[k]) {
        PictureHolds(h, w, p.children[k], parts + [p.names[k]], wanted, maxFileBytes);
      }
    }
  }

  /** Two pictures of one inode count the same members. */
  lemma {:induction false} SameMembers(h: History, t: nat, s: Seen, p: Seen)
    requires HoldsAt(h, t, s) && HoldsAt(h, t, p) && s.ino == p.ino
    ensures Members(s) == Members(p)
    decreases s, 1
  {
    hide At, Before, Ascending;
    if s.SeenDir? {
      SameElementsSame(s.names, p.names);
      SameMembersAll(h, t, s.children, p.children);
    }
  }

  lemma {:induction false} SameMembersAll(h: History, t: nat, ss: seq<Seen>, ps: seq<Seen>)
    requires |ss| == |ps|
    requires forall k :: 0 <= k < |ss| ==> HoldsAt(h, t, ss[k]) && HoldsAt(h, t, ps[k]) && ss[k].ino == ps[k].ino
    ensures MembersAll(ss) == MembersAll(ps)
    decreases ss, 0
  {
    hide HoldsAt;
    if ss != [] {
      SameMembers(h, t, ss[0], ps[0]);
      SameMembersAll(h, t, ss[1..], ps[1..]);
    }
  }
}
