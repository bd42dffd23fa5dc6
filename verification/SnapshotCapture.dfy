// The tree inventory of the scanner attestation: one pass reads and records stat identities, a
// second pass meets every identity again, and what is returned is the tree at one instant.
module SnapshotCapture {
  import opened Bytes
  import opened Wrappers
  import opened TextOrder
  import opened SnapshotWorld
  import opened SnapshotProof
  import opened SnapshotQuiet
  import opened SnapshotLimits
  import opened SnapshotComplete

  // ---- what the first pass leaves for the second --------------------------------------------

  type DirStates = map<Path, (Stat, seq<Name>)>
  type FileStates = map<Path, Stat>

  /** Both tables hold what the sighting says, and no path is in both. */
  ghost predicate Logged(dirs: DirStates, regs: FileStates, h: History, s: Seen, parts: Path)
    decreases s
  {
    match s
    case SeenFile(i, last, _) => parts !in dirs && parts in regs && regs[parts] == StatAt(h, last, i)
    case SeenDir(i, _, last, names, children) =>
      && parts !in regs && parts in dirs && dirs[parts] == (StatAt(h, last, i), names)
      && |names| == |children|
      && forall k :: 0 <= k < |children| ==> Logged(dirs, regs, h, children[k], parts + [names[k]])
  }

  /** `p` is `parts` or lies below it. */
  predicate Under(parts: Path, p: Path) {
    parts <= p
  }

  lemma UnderChild(parts: Path, name: Name, p: Path)
    ensures Under(parts + [name], p) ==> Under(parts, p) && |p| > |parts| && p[|parts|] == name
  {
    if Under(parts + [name], p) {
      assert p[..|parts| + 1] == parts + [name];
      assert p[..|parts|] == p[..|parts| + 1][..|parts|] == parts;
    }
  }

  ghost predicate NothingBelow<T>(m: map<Path, T>, parts: Path) {
    forall p <- m :: !Under(parts, p)
  }

  ghost predicate SameAt<T>(m: map<Path, T>, n: map<Path, T>, p: Path) {
    (p in m <==> p in n) && (p in n ==> m[p] == n[p])
  }

  /** `n` differs from `m` only at paths at or below `parts`. */
  ghost predicate OnlyBelow<T(!new)>(m: map<Path, T>, n: map<Path, T>, parts: Path) {
    forall p: Path :: !Under(parts, p) ==> SameAt(m, n, p)
  }

  ghost predicate SameBelow<T(!new)>(m: map<Path, T>, n: map<Path, T>, parts: Path) {
    forall p: Path :: Under(parts, p) ==> SameAt(m, n, p)
  }

  lemma {:induction false} LoggedElsewhere(
    dirs: DirStates, regs: FileStates, dirs': DirStates, regs': FileStates, h: History, s: Seen, parts: Path)
    requires Logged(dirs, regs, h, s, parts)
    requires SameBelow(dirs, dirs', parts) && SameBelow(regs, regs', parts)
    ensures Logged(dirs', regs', h, s, parts)
    decreases s
  {
    assert Under(parts, parts) && SameAt(dirs, dirs', parts) && SameAt(regs, regs', parts);
    if s.SeenDir? {
      forall k | 0 <= k < |s.children| ensures Logged(dirs', regs', h, s.children[k], parts + [s.names[k]]) {
        SameFurther(dirs, dirs', parts, s.names[k]);
        SameFurther(regs, regs', parts, s.names[k]);
        LoggedElsewhere(dirs, regs, dirs', regs', h, s.children[k], parts + [s.names[k]]);
      }
    }
  }

  lemma SameFurther<T(!new)>(m: map<Path, T>, n: map<Path, T>, parts: Path, name: Name)
    requires SameBelow(m, n, parts)
    ensures SameBelow(m, n, parts + [name])
  {
    forall p: Path | Under(parts + [name], p) ensures SameAt(m, n, p) {
      UnderChild(parts, name, p);
    }
  }

  /** Writing below one child leaves what is recorded below its siblings alone. */
  lemma SiblingUntouched<T(!new)>(m: map<Path, T>, n: map<Path, T>, parts: Path, a: Name, b: Name)
    requires OnlyBelow(m, n, parts + [a]) && a != b
    ensures SameBelow(m, n, parts + [b])
    ensures NothingBelow(m, parts + [b]) ==> NothingBelow(n, parts + [b])
  {
    forall p: Path | Under(parts + [b], p) ensures SameAt(m, n, p) {
      UnderChild(parts, a, p);
      UnderChild(parts, b, p);
    }
    if NothingBelow(m, parts + [b]) {
      forall p <- n ensures !Under(parts + [b], p) {
        assert Under(parts + [b], p) ==> SameAt(m, n, p);
      }
    }
  }

  lemma OnlyBelowParent<T(!new)>(l: map<Path, T>, m: map<Path, T>, n: map<Path, T>, parts: Path, a: Name)
    requires OnlyBelow(l, m, parts) && OnlyBelow(m, n, parts + [a])
    ensures OnlyBelow(l, n, parts)
  {
    forall p: Path | !Under(parts, p) ensures SameAt(l, n, p) {
      UnderChild(parts, a, p);
      assert SameAt(l, m, p) && SameAt(m, n, p);
    }
  }

  lemma NothingFurther<T>(m: map<Path, T>, parts: Path, name: Name)
    requires NothingBelow(m, parts)
    ensures NothingBelow(m, parts + [name])
  {
    forall p <- m ensures !Under(parts + [name], p) {
      UnderChild(parts, name, p);
    }
  }

  lemma {:induction false} ReportAllAppend(names: seq<Name>, children: seq<Seen>, parts: Path, i: nat, child: Seen)
    requires i < |names| && |children| == i
    ensures ReportAll(names[..i + 1], children + [child], parts)
         == ReportAll(names[..i], children, parts) + Report(child, parts + [names[i]])
  {
    hide Report;
    if i == 0 {
      assert names[..1][1..] == [] && (children + [child])[1..] == [] && names[..0] == [];
      assert Report(child, parts + [names[0]]) + [] == [] + Report(child, parts + [names[0]]);
    } else {
      ReportAllAppend(names[1..], children[1..], parts, i - 1, child);
      assert names[..i + 1][1..] == names[1..][..i] && names[..i][1..] == names[1..][..i - 1];
      assert (children + [child])[1..] == children[1..] + [child];
      ConcatAssociative(Report(children[0], parts + [names[0]]), ReportAll(names[..i][1..], children[1..], parts),
        Report(child, parts + [names[i]]));
    }
  }

  /** A later call takes effect at a later instant, or at the same one. */
  lemma Later(env: Env, j: nat, k: nat)
    requires Sound(env) && j <= k
    ensures Instant(env, j) <= Instant(env, k)
  {
  }

  /** A scan inside an interval over which the directory held still lists it exactly. */
  lemma ScanIsExact(env: Env, fd: Ino, k: nat, first: nat, last: nat)
    requires Sound(env) && Steady(env.history, fd, first, last)
    requires first <= Instant(env, k) && Instant(env, k + 1) <= last
    requires At(env.history, Instant(env, k), fd).node.Dir?
    ensures At(env.history, last, fd).node.Dir? && At(env.history, last, fd) == At(env.history, first, fd)
    ensures Ascending(Sort(Listing(env, k, fd))) && Distinct(Sort(Listing(env, k, fd)))
    ensures Lists(Sort(Listing(env, k, fd)), At(env.history, last, fd).node.entries)
  {
    hide Before, Sort;
    var a, b := Instant(env, k), Instant(env, k + 1);
    assert a <= b;
    SteadyWithin(env.history, fd, first, last, a, b);
    SteadyWithin(env.history, fd, first, last, last, last);
    SortKeepsDistinct(Listing(env, k, fd));
    assert Ascending(Sort(Listing(env, k, fd)));
  }

  lemma ChildrenWitnessed(h: History, children: seq<Seen>, a: nat, b: nat)
    requires a <= b && forall k :: 0 <= k < |children| ==> Witnessed(h, children[k], a)
    ensures forall k :: 0 <= k < |children| ==> Witnessed(h, children[k], b)
  {
    forall k | 0 <= k < |children| ensures Witnessed(h, children[k], b) {
      WitnessedLater(h, children[k], a, b);
    }
  }

  lemma RecordedHere<T(!new)>(m: map<Path, T>, n: map<Path, T>, parts: Path, value: T)
    requires OnlyBelow(m, n, parts)
    ensures OnlyBelow(m, n[parts := value], parts)
  {
    assert Under(parts, parts);
    forall p: Path | !Under(parts, p) ensures SameAt(m, n[parts := value], p) {
      assert SameAt(m, n, p);
    }
  }

  lemma NothingHere<T>(m: map<Path, T>, parts: Path)
    requires NothingBelow(m, parts)
    ensures parts !in m
  {
    assert Under(parts, parts);
  }

  /** Recording a directory after its children keeps what its children recorded. */
  lemma DirectoryLogged(dirs: DirStates, regs: FileStates, h: History, s: Seen, parts: Path)
    requires s.SeenDir? && parts !in regs && EntriesLogged(dirs, regs, h, s.names, s.children, parts)
    ensures Logged(dirs[parts := (StatAt(h, s.last, s.ino), s.names)], regs, h, s, parts)
  {
    var dirs' := dirs[parts := (StatAt(h, s.last, s.ino), s.names)];
    forall k | 0 <= k < |s.children| ensures Logged(dirs', regs, h, s.children[k], parts + [s.names[k]]) {
      var child := parts + [s.names[k]];
      forall p: Path | Under(child, p) ensures SameAt(dirs, dirs', p) && SameAt(regs, regs, p) {
        UnderChild(parts, s.names[k], p);
      }
      LoggedElsewhere(dirs, regs, dirs', regs, h, s.children[k], child);
    }
  }

  /** The entries walked so far were sighted, and if the directory has held still they are its own. */
  ghost predicate EntriesSeen(h: History, fd: Ino, first: nat, until: nat, names: seq<Name>, children: seq<Seen>) {
    && |names| == |children|
    && (forall k :: 0 <= k < |names| ==> Witnessed(h, children[k], until))
    && (Steady(h, fd, first, until) && names != [] ==>
          At(h, first, fd).node.Dir? && Leads(names, children, At(h, first, fd).node.entries))
  }

  ghost predicate Leads(names: seq<Name>, children: seq<Seen>, entries: map<Name, Ino>) {
    |names| == |children| && forall k :: 0 <= k < |names| ==> names[k] in entries && entries[names[k]] == children[k].ino
  }

  /** One entry's sighting: captured if wanted, and within the limits. */
  ghost predicate Kept(child: Seen, name: Name, parts: Path, wanted: Path -> bool, depth: nat) {
    Selected(child, parts, wanted) && Shallow(child, depth) && GoodName(name, parts) && Legal(child, parts)
  }

  ghost predicate EntriesKept(names: seq<Name>, children: seq<Seen>, parts: Path, wanted: Path -> bool, depth: nat) {
    && |names| == |children|
    && forall k :: 0 <= k < |names| ==> Kept(children[k], names[k], parts + [names[k]], wanted, depth)
  }

  ghost predicate EntriesLogged(
    dirs: DirStates, regs: FileStates, h: History, names: seq<Name>, children: seq<Seen>, parts: Path)
  {
    && |names| == |children|
    && forall k :: 0 <= k < |names| ==> Logged(dirs, regs, h, children[k], parts + [names[k]])
  }

  /** If the directory has held still since `first`, then at `seen` it led from `name` to `i`. */
  ghost predicate LeadsTo(h: History, fd: Ino, first: nat, seen: nat, name: Name, i: Ino) {
    Steady(h, fd, first, seen) ==>
      At(h, first, fd).node.Dir? && name in At(h, first, fd).node.entries && At(h, first, fd).node.entries[name] == i
  }

  lemma Found(h: History, fd: Ino, first: nat, seen: nat, name: Name, i: Ino)
    requires first <= seen && At(h, seen, fd).node.Dir?
    requires name in At(h, seen, fd).node.entries && At(h, seen, fd).node.entries[name] == i
    ensures LeadsTo(h, fd, first, seen, name, i)
  {
  }

  lemma KindOf(h: History, t: nat, i: Ino)
    ensures StatAt(h, t, i).ino == i
    ensures StatAt(h, t, i).kind == IsDir <==> At(h, t, i).node.Dir?
    ensures StatAt(h, t, i).kind == IsReg <==> At(h, t, i).node.File?
  {
  }

  lemma NothingStays<T(!new)>(m: map<Path, T>, parts: Path)
    ensures OnlyBelow(m, m, parts)
    ensures NothingBelow(m, parts) ==> parts !in m
  {
    assert Under(parts, parts);
  }

  lemma FileLogged(dirs: DirStates, regs: FileStates, h: History, s: Seen, parts: Path, depth: nat)
    requires s.SeenFile? && parts in regs && regs[parts] == StatAt(h, s.last, s.ino)
    ensures NothingBelow(dirs, parts) ==> Logged(dirs, regs, h, s, parts)
    ensures Shallow(s, depth) && Legal(s, parts) && Members(s) == 0
  {
    assert Under(parts, parts);
  }

  // -- the entries loop, one more entry at a time --

  lemma NoEntries(
    h: History, fd: Ino, first: nat, until: nat, parts: Path, wanted: Path -> bool, depth: nat, dirs: DirStates, regs: FileStates)
    ensures EntriesSeen(h, fd, first, until, [], []) && EntriesKept([], [], parts, wanted, depth)
    ensures EntriesLogged(dirs, regs, h, [], [], parts) && ReportAll([], [], parts) == []
  {
  }

  lemma EntriesSeenStep(
    h: History, fd: Ino, first: nat, t0: nat, t1: nat, names: seq<Name>, i: nat, children: seq<Seen>, child: Seen)
    requires i < |names| && first <= t0 <= t1
    requires EntriesSeen(h, fd, first, t0, names[..i], children)
    requires Witnessed(h, child, t1) && LeadsTo(h, fd, first, t0, names[i], child.ino)
    ensures EntriesSeen(h, fd, first, t1, names[..i + 1], children + [child])
  {
    hide Witnessed, At;
    ChildrenWitnessed(h, children, t0, t1);
    var seen, all := names[..i + 1], children + [child];
    assert forall k :: 0 <= k < i ==> seen[k] == names[..i][k] && all[k] == children[k];
  }

  lemma EntriesKeptStep(
    names: seq<Name>, i: nat, children: seq<Seen>, child: Seen, parts: Path, wanted: Path -> bool, depth: nat)
    requires i < |names| && EntriesKept(names[..i], children, parts, wanted, depth)
    requires Kept(child, names[i], parts + [names[i]], wanted, depth)
    ensures EntriesKept(names[..i + 1], children + [child], parts, wanted, depth)
  {
    hide Kept;
    var seen, all := names[..i + 1], children + [child];
    assert forall k :: 0 <= k < i ==> seen[k] == names[..i][k] && all[k] == children[k];
  }

  ghost predicate NothingAhead<T>(m: map<Path, T>, parts: Path, names: seq<Name>, i: nat) {
    forall j :: i <= j < |names| ==> NothingBelow(m, parts + [names[j]])
  }

  lemma NothingAheadAtFirst<T>(m: map<Path, T>, parts: Path, names: seq<Name>)
    requires NothingBelow(m, parts)
    ensures NothingAhead(m, parts, names, 0)
  {
    hide NothingBelow;
    forall j | 0 <= j < |names| ensures NothingBelow(m, parts + [names[j]]) {
      NothingFurther(m, parts, names[j]);
    }
  }

  lemma NothingAheadNow<T>(m: map<Path, T>, parts: Path, names: seq<Name>, i: nat)
    requires i < |names| && NothingAhead(m, parts, names, i)
    ensures NothingBelow(m, parts + [names[i]])
  {
  }

  lemma ParentUntouched<T(!new)>(m: map<Path, T>, n: map<Path, T>, parts: Path, name: Name)
    requires OnlyBelow(m, n, parts + [name])
    ensures SameAt(m, n, parts)
  {
    UnderChild(parts, name, parts);
    assert !Under(parts + [name], parts);
  }

  lemma EntriesLoggedStep(
    dirs: DirStates, regs: FileStates, dirs': DirStates, regs': FileStates, h: History,
    names: seq<Name>, i: nat, children: seq<Seen>, child: Seen, parts: Path)
    requires i < |names| && Distinct(names)
    requires EntriesLogged(dirs, regs, h, names[..i], children, parts)
    requires OnlyBelow(dirs, dirs', parts + [names[i]]) && OnlyBelow(regs, regs', parts + [names[i]])
    requires Logged(dirs', regs', h, child, parts + [names[i]])
    requires NothingAhead(dirs, parts, names, i) && NothingAhead(regs, parts, names, i)
    ensures EntriesLogged(dirs', regs', h, names[..i + 1], children + [child], parts)
    ensures NothingAhead(dirs', parts, names, i + 1) && NothingAhead(regs', parts, names, i + 1)
  {
    hide Logged, OnlyBelow, SameBelow, NothingBelow;
    var seen, all := names[..i + 1], children + [child];
    forall k | 0 <= k < i ensures Logged(dirs', regs', h, all[k], parts + [seen[k]]) {
      assert seen[k] == names[..i][k] == names[k] && all[k] == children[k];
      SiblingUntouched(dirs, dirs', parts, names[i], names[k]);
      SiblingUntouched(regs, regs', parts, names[i], names[k]);
      LoggedElsewhere(dirs, regs, dirs', regs', h, children[k], parts + [names[k]]);
    }
    forall j | i + 1 <= j < |names| ensures NothingBelow(dirs', parts + [names[j]]) && NothingBelow(regs', parts + [names[j]]) {
      SiblingUntouched(dirs, dirs', parts, names[i], names[j]);
      SiblingUntouched(regs, regs', parts, names[i], names[j]);
    }
  }

  /** One more entry walked, in one step. */
  lemma WalkStep(
    h: History, fd: Ino, first: nat, t0: nat, t1: nat, names: seq<Name>, i: nat, children: seq<Seen>, child: Seen, parts: Path,
    wanted: Path -> bool, depth: nat, dirs0: DirStates, dirs: DirStates, dirs': DirStates,
    regs0: FileStates, regs: FileStates, regs': FileStates, files: seq<Captured>)
    requires i < |names| && |children| == i && first <= t0 <= t1
    requires EntriesSeen(h, fd, first, t0, names[..i], children) && EntriesKept(names[..i], children, parts, wanted, depth)
    requires OnlyBelow(dirs0, dirs, parts) && OnlyBelow(regs0, regs, parts) && SameAt(regs0, regs, parts)
    requires Witnessed(h, child, t1) && LeadsTo(h, fd, first, t0, names[i], child.ino)
    requires Kept(child, names[i], parts + [names[i]], wanted, depth)
    requires OnlyBelow(dirs, dirs', parts + [names[i]]) && OnlyBelow(regs, regs', parts + [names[i]])
    ensures EntriesSeen(h, fd, first, t1, names[..i + 1], children + [child])
    ensures EntriesKept(names[..i + 1], children + [child], parts, wanted, depth)
    ensures files + ReportAll(names[..i], children, parts) + Report(child, parts + [names[i]])
         == files + ReportAll(names[..i + 1], children + [child], parts)
    ensures OnlyBelow(dirs0, dirs', parts) && OnlyBelow(regs0, regs', parts) && SameAt(regs0, regs', parts)
  {
    hide EntriesSeen, EntriesKept, OnlyBelow, Witnessed, LeadsTo, Kept, Report, ReportAll;
    EntriesSeenStep(h, fd, first, t0, t1, names, i, children, child);
    EntriesKeptStep(names, i, children, child, parts, wanted, depth);
    ReportAllAppend(names, children, parts, i, child);
    ConcatAssociative(files, ReportAll(names[..i], children, parts), Report(child, parts + [names[i]]));
    OnlyBelowParent(dirs0, dirs, dirs', parts, names[i]);
    OnlyBelowParent(regs0, regs, regs', parts, names[i]);
    ParentUntouched(regs, regs', parts, names[i]);
  }

  lemma NoMembers()
    ensures MembersAll([]) == 0
  {
  }

  lemma {:induction false} MembersAllAppend(children: seq<Seen>, child: Seen)
    ensures MembersAll(children + [child]) == MembersAll(children) + Members(child)
  {
    hide Members;
    var all := children + [child];
    if children == [] {
      assert all[0] == child && all[1..] == [];
    } else {
      assert all[0] == children[0] && all[1..] == children[1..] + [child];
      MembersAllAppend(children[1..], child);
    }
  }

  lemma SelectedDirectory(s: Seen, parts: Path, wanted: Path -> bool, depth: nat)
    requires s.SeenDir? && EntriesKept(s.names, s.children, parts, wanted, depth)
    ensures Selected(s, parts, wanted) && Shallow(s, depth + 1) && Legal(s, parts)
    ensures Report(s, parts) == ReportAll(s.names, s.children, parts) && Members(s) == |s.names| + MembersAll(s.children)
  {
    hide GoodName;
  }

  /** One stamp before and after the entries were walked: the directory is witnessed. */
  lemma CloseDirectory(env: Env, s: Seen, scan: nat, walked: nat)
    requires Sound(env) && s.SeenDir?
    requires s.first <= Instant(env, scan) && Instant(env, scan + 1) <= walked <= s.last
    requires StatAt(env.history, s.first, s.ino).stamp == StatAt(env.history, s.last, s.ino).stamp
    requires At(env.history, Instant(env, scan), s.ino).node.Dir? && s.names == Sorted(Listing(env, scan, s.ino))
    requires EntriesSeen(env.history, s.ino, s.first, walked, s.names, s.children)
    ensures Witnessed(env.history, s, s.last) && Distinct(s.names)
  {
    hide Sort, Before;
    StampPins(env.history, s.ino, s.first, s.last);
    assert Forward(env) && Instant(env, scan) <= Instant(env, scan + 1);
    SteadyWithin(env.history, s.ino, s.first, s.last, s.first, walked);
    ScanIsExact(env, s.ino, scan, s.first, s.last);
    ChildrenWitnessed(env.history, s.children, walked, s.last);
  }

  /** Everything a successful walk of one directory has established, in one step. */
  lemma FinishWalk(
    env: Env, s: Seen, parts: Path, wanted: Path -> bool, scan: nat, walked: nat, now: nat,
    dirs0: DirStates, regs0: FileStates, dirs: DirStates, regs: FileStates)
    requires Sound(env) && s.SeenDir? && |parts| <= MAX_TREE_DEPTH
    requires s.first <= Instant(env, scan) && Instant(env, scan + 1) <= walked <= s.last <= now
    requires StatAt(env.history, s.first, s.ino).stamp == StatAt(env.history, s.last, s.ino).stamp
    requires At(env.history, Instant(env, scan), s.ino).node.Dir? && s.names == Sorted(Listing(env, scan, s.ino))
    requires EntriesSeen(env.history, s.ino, s.first, walked, s.names, s.children)
    requires EntriesKept(s.names, s.children, parts, wanted, MAX_TREE_DEPTH - |parts|)
    requires OnlyBelow(dirs0, dirs, parts) && SameAt(regs0, regs, parts)
    requires Distinct(s.names) && NothingBelow(dirs0, parts) && NothingBelow(regs0, parts) ==>
               EntriesLogged(dirs, regs, env.history, s.names, s.children, parts)
    ensures Witnessed(env.history, s, now)
    ensures Selected(s, parts, wanted) && Shallow(s, MAX_TREE_DEPTH + 1 - |parts|) && Legal(s, parts)
    ensures Report(s, parts) == ReportAll(s.names, s.children, parts) && Members(s) == |s.names| + MembersAll(s.children)
    ensures var dirs' := dirs[parts := (StatAt(env.history, s.last, s.ino), s.names)];
            && OnlyBelow(dirs0, dirs', parts)
            && (NothingBelow(dirs0, parts) && NothingBelow(regs0, parts) ==> Logged(dirs', regs, env.history, s, parts))
  {
    hide Logged, Witnessed, Selected, Shallow, Report, ReportAll, Steady, Sorted, StatAt, NothingBelow, OnlyBelow,
      Distinct, Sound, EntriesSeen, EntriesKept, EntriesLogged, Ascending, Before, Legal, Members, MembersAll;
    CloseDirectory(env, s, scan, walked);
    SelectedDirectory(s, parts, wanted, MAX_TREE_DEPTH - |parts|);
    WitnessedLater(env.history, s, s.last, now);
    RecordedHere(dirs0, dirs, parts, (StatAt(env.history, s.last, s.ino), s.names));
    if NothingBelow(dirs0, parts) && NothingBelow(regs0, parts) {
      NothingHere(regs0, parts);
      DirectoryLogged(dirs, regs, env.history, s, parts);
    }
  }

  // -- the second pass --

  /** What the tables say about one path, and about its children. */
  lemma LoggedHere(dirs: DirStates, regs: FileStates, h: History, s: Seen, parts: Path)
    requires Logged(dirs, regs, h, s, parts)
    ensures parts in dirs <==> s.SeenDir?
    ensures parts in regs <==> s.SeenFile?
    ensures s.SeenDir? ==> dirs[parts] == (StatAt(h, s.last, s.ino), s.names) && |s.names| == |s.children|
    ensures s.SeenDir? ==> forall k :: 0 <= k < |s.children| ==> Logged(dirs, regs, h, s.children[k], parts + [s.names[k]])
    ensures s.SeenFile? ==> regs[parts] == StatAt(h, s.last, s.ino)
  {
  }

  lemma ConfirmFile(h: History, s: Seen, since: nat, instant: nat)
    requires s.SeenFile? && since <= instant && StatAt(h, instant, s.ino) == StatAt(h, s.last, s.ino)
    ensures Confirmed(h, s, since)
  {
  }

  lemma ConfirmDirectory(h: History, s: Seen, since: nat, instant: nat)
    requires s.SeenDir? && since <= instant && StatAt(h, instant, s.ino) == StatAt(h, s.last, s.ino)
    requires forall k :: 0 <= k < |s.children| ==> Confirmed(h, s.children[k], since)
    ensures Confirmed(h, s, since)
  {
  }

  lemma {:induction false} ConfirmedSince(h: History, s: Seen, earlier: nat, later: nat)
    requires Confirmed(h, s, later) && earlier <= later
    ensures Confirmed(h, s, earlier)
    decreases s
  {
    if s.SeenDir? {
      forall k | 0 <= k < |s.children| ensures Confirmed(h, s.children[k], earlier) {
        ConfirmedSince(h, s.children[k], earlier, later);
      }
    }
  }

  /** At this one instant the tree below `root` held exactly these wanted files, and nothing but
      directories and regular files. */
  ghost predicate TreeAt(h: History, instant: nat, root: Ino, wanted: Path -> bool, files: seq<Captured>) {
    ReadTree(h, instant, root, [], wanted, MAX_TREE_DEPTH + 1) == Some(files)
  }

  /** Everything sighted in the first pass and confirmed in the second held at the instant
      between them, so the report is what a sequential reader of that instant would give. */
  lemma SnapshotIsAtomic(env: Env, s: Seen, wanted: Path -> bool, instant: nat)
    requires Sound(env) && Witnessed(env.history, s, instant) && Confirmed(env.history, s, instant)
    requires Selected(s, [], wanted) && Shallow(s, MAX_TREE_DEPTH + 1)
    ensures TreeAt(env.history, instant, s.ino, wanted, Report(s, [])) && HoldsAt(env.history, instant, s)
  {
    SightingsHoldTogether(env.history, s, instant);
    HeldTreeReads(env.history, instant, s, [], wanted, MAX_TREE_DEPTH + 1);
  }

  lemma NothingFurtherCounted(ps: seq<Seen>)
    ensures MembersAll(ps[|ps|..]) == 0
  {
  }

  lemma QuietRoot(h: History, w: Window, p: Seen, parts: Path, wanted: Path -> bool, maxFileBytes: nat, t: nat)
    requires Picture(h, w, p, parts, wanted, maxFileBytes) && p.SeenDir? && Inside(w, t)
    ensures At(h, t, p.ino).node.Dir?
  {
    hide At;
    assert At(h, t, p.ino) == At(h, w.from, p.ino);
  }

  /** What the first pass sighted within the window is the pictured tree. */
  lemma QuietWalked(
    h: History, w: Window, s: Seen, p: Seen, parts: Path, wanted: Path -> bool, maxFileBytes: nat, until: nat)
    requires Witnessed(h, s, until) && until <= w.until && Since(s, w.from) && s.ino == p.ino
    requires Picture(h, w, p, parts, wanted, maxFileBytes)
    ensures HoldsAt(h, w.from, s) && Calm(h, w, s) && Members(s) == Members(p)
  {
    hide Picture, HoldsAt, Witnessed, Members, Calm, Since;
    WalkedHolds(h, w, s, p, parts, wanted, maxFileBytes, until);
    PictureHolds(h, w, p, parts, wanted, maxFileBytes);
    SameMembers(h, w.from, s, p);
  }

  lemma NothingCaptured(maxFileBytes: nat)
    ensures TotalBytes([]) == 0 && SmallFiles([], maxFileBytes)
    ensures NothingBelow<(Stat, seq<Name>)>(map[], []) && NothingBelow<Stat>(map[], [])
  {
  }

  lemma ScanLater(env: Env, k: nat)
    requires Sound(env)
    ensures Instant(env, k) <= Instant(env, k + 1) <= Instant(env, k + 2)
  {
    assert Forward(env);
  }

  lemma NoneSince(from: nat)
    ensures AllSince([], from)
  {
  }

  lemma QuietDirectorySteady(
    h: History, w: Window, p: Seen, parts: Path, wanted: Path -> bool, maxFileBytes: nat, a: nat, b: nat)
    requires Picture(h, w, p, parts, wanted, maxFileBytes) && Inside(w, a) && Inside(w, b)
    ensures StatAt(h, a, p.ino) == StatAt(h, b, p.ino)
  {
    hide At;
    StillSteady(h, w, p.ino, a, b);
  }

  /** In the window a sighted entry leads where it led, to an unchanged inode. */
  lemma QuietChild(h: History, w: Window, fd: Ino, name: Name, child: Seen, t: nat)
    requires QuietlyLeads(h, w, fd, name, child.ino) && Inside(w, t) && Calm(h, w, child)
    ensures At(h, t, fd).node.Dir? && name in At(h, t, fd).node.entries && At(h, t, fd).node.entries[name] == child.ino
    ensures StatAt(h, t, child.ino) == StatAt(h, child.last, child.ino)
    ensures At(h, t, child.ino) == At(h, w.from, child.ino)
  {
    hide At;
    QuietlyLeadsAlways(h, w, fd, name, child.ino, t);
    StillSteady(h, w, child.ino, t, child.last);
  }

  lemma AllInRoom(s: Seen, maxTotalBytes: nat, maxFiles: nat)
    requires Members(s) <= MAX_TREE_MEMBERS && TotalBytes(Report(s, [])) <= maxTotalBytes && |Report(s, [])| <= maxFiles
    ensures Room(0, Members(s), [], Report(s, []), maxTotalBytes, maxFiles)
  {
    hide Report, Members, TotalBytes;
    assert [] + Report(s, []) == Report(s, []);
  }

  lemma HeldKind(h: History, w: Window, s: Seen)
    requires HoldsAt(h, w.from, s)
    ensures s.SeenDir? <==> At(h, w.from, s.ino).node.Dir?
    ensures s.SeenFile? <==> At(h, w.from, s.ino).node.File?
    ensures s.SeenFile? ==> Members(s) == 0
  {
    hide At;
  }

  // ---- the program ---------------------------------------------------------------------------

  class TreeInventory {
    const env: Env
    const wanted: Path -> bool
    const maxFileBytes: nat
    const maxTotalBytes: nat
    const maxFiles: nat
    var calls: nat
    var files: seq<Captured>
    var totalBytes: nat
    var totalMembers: nat
    var verificationMembers: nat
    var directoryStates: DirStates
    var fileStates: FileStates
    ghost const window: Window

    constructor (
        env: Env, wanted: Path -> bool, maxFileBytes: nat, maxTotalBytes: nat, maxFiles: nat, ghost window: Window)
      ensures this.window == window && calls == 0
      ensures this.env == env && this.wanted == wanted && this.maxFileBytes == maxFileBytes
      ensures this.maxTotalBytes == maxTotalBytes && this.maxFiles == maxFiles
      ensures Fresh()
    {
      this.env, this.wanted, this.window := env, wanted, window;
      this.maxFileBytes, this.maxTotalBytes, this.maxFiles := maxFileBytes, maxTotalBytes, maxFiles;
      calls, files, totalBytes, totalMembers, verificationMembers := 0, [], 0, 0, 0;
      directoryStates, fileStates := map[], map[];
    }

    /** The instant of the next system call. */
    function Now(): nat
      reads this
    {
      Instant(env, calls)
    }

    ghost predicate WithinBudget()
      reads this
    {
      totalBytes == TotalBytes(files) <= maxTotalBytes && |files| <= maxFiles && SmallFiles(files, maxFileBytes)
    }

    ghost predicate HasRoom(more: nat, report: seq<Captured>)
      reads this
    {
      Room(totalMembers, more, files, report, maxTotalBytes, maxFiles)
    }

    /** The window has begun. */
    ghost predicate Began()
      reads this
    {
      window.from <= Now()
    }

    /** The window is not over. */
    ghost predicate Lasts()
      reads this
    {
      Now() <= window.until
    }

    /** Throughout the window the entry leads to a pictured tree within the limits. */
    ghost predicate QuietEntry(fd: Ino, name: Name, parts: Path, p: Seen) {
      EntryPicture(env.history, window, fd, name, p, parts, wanted, maxFileBytes)
    }

    ghost predicate QuietEntries(fd: Ino, names: seq<Name>, parts: Path, ps: seq<Seen>) {
      EntriesPicture(env.history, window, fd, names, ps, parts, wanted, maxFileBytes)
    }

    ghost predicate QuietDirectory(fd: Ino, parts: Path, p: Seen) {
      p.SeenDir? && p.ino == fd && Picture(env.history, window, p, parts, wanted, maxFileBytes)
    }

    /** This is what is there throughout the window. */
    ghost predicate QuietSeen(fd: Ino, s: Seen) {
      s.ino == fd && HoldsAt(env.history, window.from, s) && Calm(env.history, window, s)
    }

    /** A tree in which nobody changes anything in the window, within every limit. */
    ghost predicate Admitted(root: Ino, p: Seen, requireFiles: bool, manifestBytes: seq<Captured> -> nat) {
      && QuietDirectory(root, [], p)
      && Room(0, Members(p), [], Report(p, []), maxTotalBytes, maxFiles)
      && (requireFiles ==> Report(p, []) != [])
      && manifestBytes(Report(p, [])) <= MAX_TREE_MANIFEST_BYTES
    }

    // -- system calls --

    method Fstat(fd: Ino) returns (s: Stat)
      modifies this`calls
      ensures calls == old(calls) + 1 && s == StatAt(env.history, old(Now()), fd)
    {
      s := StatAt(env.history, Now(), fd);
      calls := calls + 1;
    }

    /** Look `name` up in directory `fd` without following links. */
    method Lookup(fd: Ino, name: Name) returns (i: Option<Ino>, s: Stat)
      modifies this`calls
      ensures calls == old(calls) + 1
      ensures var node := At(env.history, old(Now()), fd).node;
              && (i.Some? <==> node.Dir? && name in node.entries)
              && (i.Some? ==> i.value == node.entries[name] && s == StatAt(env.history, old(Now()), i.value))
    {
      var now := Now();
      calls := calls + 1;
      match At(env.history, now, fd).node
      case Dir(entries, _) =>
        if name in entries {
          return Some(entries[name]), StatAt(env.history, now, entries[name]);
        }
        return None, StatAt(env.history, now, fd);
      case _ => return None, StatAt(env.history, now, fd);
    }

    /** Enumerate a directory; the enumeration starts at one call and ends at the next. */
    method ScanDir(fd: Ino) returns (names: Option<seq<Name>>)
      modifies this`calls
      ensures calls == old(calls) + 2
      ensures names.Some? <==> At(env.history, old(Now()), fd).node.Dir?
      ensures names.Some? ==> names.value == Listing(env, old(calls), fd)
    {
      names := if At(env.history, Now(), fd).node.Dir? then Some(Listing(env, calls, fd)) else None;
      calls := calls + 2;
    }

    /** Read at most `n` octets from position `pos`; short reads are allowed, empty means the end. */
    method Read(fd: Ino, pos: nat, n: nat) returns (chunk: Octets)
      requires n > 0
      modifies this`calls
      ensures calls == old(calls) + 1 && |chunk| <= n
      ensures At(env.history, old(Now()), fd).node.File? ==>
                var data := At(env.history, old(Now()), fd).node.data;
                && (pos >= |data| ==> chunk == [])
                && (pos < |data| ==> 0 < |chunk| && pos + |chunk| <= |data| && chunk == data[pos..pos + |chunk|])
    {
      var now, limit := Now(), env.chunk(calls);
      calls := calls + 1;
      match At(env.history, now, fd).node
      case File(data) =>
        if pos >= |data| { return []; }
        var most := if n < |data| - pos then n else |data| - pos;
        var count := if limit == 0 then 1 else if limit > most then most else limit;
        return data[pos..pos + count];
      case _ => return [];
    }

    /** Read a pinned file to its end and require its identity to be the same before and after. */
    method ReadRegularFd(fd: Ino, before: Stat, maxBytes: nat, ghost seen: nat) returns (r: Option<Octets>)
      requires Sound(env) && seen <= Now() && before == StatAt(env.history, seen, fd) && before.kind == IsReg
      modifies this`calls
      ensures calls >= old(calls)
      ensures r.Some? ==> At(env.history, seen, fd).node == File(r.value) && |r.value| <= maxBytes
      ensures Still(env.history, window, fd) && window.from <= seen && Lasts() && before.size <= maxBytes ==> r.Some?
    {
      if before.size > maxBytes { return None; }
      var data: Octets := [];
      ghost var content := At(env.history, seen, fd).node.data;
      ghost var still := Still(env.history, window, fd) && window.from <= seen;
      if still && Lasts() { StillSteady(env.history, window, fd, seen, Now()); }
      while true
        invariant calls >= old(calls) && |data| <= maxBytes
        invariant Steady(env.history, fd, seen, Now()) ==> data <= content
        invariant seen <= Now() && (still && Lasts() ==> Steady(env.history, fd, seen, Now()))
        decreases maxBytes - |data|
      {
        var budget := maxBytes + 1 - |data|;
        ghost var instant := Now();
        var chunk := Read(fd, |data|, if READ_CHUNK_BYTES < budget then READ_CHUNK_BYTES else budget);
        assert instant <= Now();
        if still && Lasts() { StillSteady(env.history, window, fd, seen, Now()); }
        if chunk == [] {
          assert Steady(env.history, fd, seen, instant) ==> |data| >= |content|;
          break;
        }
        if |data| + |chunk| > maxBytes { return None; }
        data := data + chunk;
      }
      ghost var instant := Now();
      var after := Fstat(fd);
      assert instant <= Now();
      if still && Lasts() { StillSteady(env.history, window, fd, seen, instant); }
      if after != before || |data| != before.size { return None; }
      StampPins(env.history, fd, seen, instant);
      return Some(data);
    }

    /** Open a listed file, require it to be the listed inode unchanged, and read it. */
    method PinAndRead(fd: Ino, name: Name, listed: Stat, maxBytes: nat, ghost seen: nat) returns (r: Option<Octets>)
      requires Sound(env) && seen <= Now()
      requires listed.kind == IsReg && listed == StatAt(env.history, seen, listed.ino)
      modifies this`calls
      ensures calls >= old(calls)
      ensures r.Some? ==> At(env.history, seen, listed.ino).node == File(r.value) && |r.value| <= maxBytes
      ensures QuietlyLeads(env.history, window, fd, name, listed.ino) && window.from <= seen && Lasts() && listed.size <= maxBytes ==>
                r.Some?
    {
      ghost var quiet := QuietlyLeads(env.history, window, fd, name, listed.ino) && window.from <= seen;
      ghost var first := Now();
      var fileFd, _ := Lookup(fd, name);
      assert first <= Now();
      if quiet && Lasts() { QuietlyLeadsAlways(env.history, window, fd, name, listed.ino, first); }
      if fileFd.None? { return None; }
      ghost var instant := Now();
      var pinned := Fstat(fileFd.value);
      assert instant <= Now();
      if quiet && Lasts() { StillSteady(env.history, window, listed.ino, seen, instant); }
      if pinned.kind != IsReg || pinned != listed { return None; }
      StampPins(env.history, listed.ino, seen, instant);
      r := ReadRegularFd(fileFd.value, pinned, maxBytes, instant);
    }

    /** The regular-file branch of the walk: record the identity, and capture the bytes if wanted. */
    method CaptureFile(
      fd: Ino, name: Name, parts: Path, listed: Stat, ghost seen: nat, ghost p: Seen) returns (ok: bool, ghost s: Seen)
      requires Sound(env) && WithinBudget() && seen <= Now()
      requires listed.kind == IsReg && listed == StatAt(env.history, seen, listed.ino)
      modifies this`calls, this`files, this`totalBytes, this`fileStates
      ensures calls >= old(calls) && (ok ==> WithinBudget())
      ensures ok ==> OnlyBelow(old(fileStates), fileStates, parts)
      ensures ok ==> s.SeenFile? && s.ino == listed.ino && s.last == seen && Witnessed(env.history, s, Now())
      ensures ok ==> Selected(s, parts, wanted) && files == old(files) + Report(s, parts)
      ensures ok ==> parts in fileStates && fileStates[parts] == listed
      ensures p.SeenFile? && p.ino == listed.ino && QuietEntry(fd, name, parts, p) && old(HasRoom(0, Report(p, parts)))
              && window.from <= seen && Lasts() ==>
                ok && files == old(files) + Report(p, parts)
    {
      hide Steady, Sound, StatAt, Still, EntryPicture, Room, QuietlyLeads, SmallFiles, At, Instant, TotalBytes;
      ghost var quiet := && p.SeenFile? && p.ino == listed.ino && QuietEntry(fd, name, parts, p) && HasRoom(0, Report(p, parts))
                         && Inside(window, seen);
      if quiet {
        QuietCapture(env.history, window, fd, name, p, parts, wanted, maxFileBytes, seen, totalMembers, files, maxTotalBytes, maxFiles);
      }
      s := SeenFile(listed.ino, seen, None);
      fileStates := fileStates[parts := listed];
      assert Under(parts, parts);
      KindOf(env.history, seen, listed.ino);
      if !wanted(parts) {
        assert files + [] == files;
        return true, s;
      }
      if listed.size > maxFileBytes || totalBytes + listed.size > maxTotalBytes || |files| >= maxFiles {
        return false, s;
      }
      var room := maxTotalBytes - totalBytes;
      var data := PinAndRead(fd, name, listed, if maxFileBytes < room then maxFileBytes else room, seen);
      Later(env, old(calls), calls);
      if data.None? { return false, s; }
      s := SeenFile(listed.ino, seen, Some(data.value));
      TotalBytesAppend(files, Captured(parts, data.value));
      SmallFilesAppend(files, Captured(parts, data.value), maxFileBytes);
      totalBytes := totalBytes + |data.value|;
      files := files + [Captured(parts, data.value)];
      return true, s;
    }

    /** One entry of the directory: look it up, and walk or capture it. */
    method WalkEntry(fd: Ino, name: Name, parts: Path, ghost first: nat, ghost p: Seen) returns (ok: bool, ghost child: Seen)
      requires Sound(env) && WithinBudget() && first <= Now() && |parts| <= MAX_TREE_DEPTH
      modifies this`calls, this`files, this`totalBytes, this`totalMembers, this`directoryStates, this`fileStates
      ensures calls >= old(calls) && (ok ==> WithinBudget())
      ensures ok ==> OnlyBelow(old(directoryStates), directoryStates, parts + [name])
      ensures ok ==> OnlyBelow(old(fileStates), fileStates, parts + [name])
      ensures ok ==> Witnessed(env.history, child, Now()) && (old(Began()) ==> Since(child, window.from))
      ensures ok ==> Kept(child, name, parts + [name], wanted, MAX_TREE_DEPTH - |parts|)
      ensures ok ==> files == old(files) + Report(child, parts + [name]) && totalMembers == old(totalMembers) + Members(child)
      ensures ok && old(totalMembers) <= MAX_TREE_MEMBERS ==> totalMembers <= MAX_TREE_MEMBERS
      ensures ok ==> LeadsTo(env.history, fd, first, old(Now()), name, child.ino)
      ensures ok && NothingBelow(old(directoryStates), parts + [name]) && NothingBelow(old(fileStates), parts + [name]) ==>
                Logged(directoryStates, fileStates, env.history, child, parts + [name])
      ensures QuietEntry(fd, name, parts + [name], p) && old(HasRoom(Members(p), Report(p, parts + [name])) && Began()) && Lasts() ==>
                ok && totalMembers == old(totalMembers) + Members(p) && files == old(files) + Report(p, parts + [name])
      decreases MAX_TREE_DEPTH + 1 - |parts|, 0
    {
      hide Logged, Witnessed, Selected, Shallow, Report, ReportAll, Steady, StatAt, TotalBytes, NothingBelow, OnlyBelow, SmallFiles,
        Distinct, Sound, EntriesSeen, EntriesKept, EntriesLogged, At, Instant, Listing, SafeComponent, PathBytes, Under,
        Picture, EntryPicture, Room, Still, Legal, Members;
      var childParts := parts + [name];
      ghost var quiet := QuietEntry(fd, name, childParts, p) && HasRoom(Members(p), Report(p, childParts)) && Began();
      if quiet { QuietEntryParts(env.history, window, fd, name, p, childParts, wanted, maxFileBytes); }
      child := SeenFile(fd, 0, None);
      if !SafeComponent(name) || |childParts| > MAX_TREE_DEPTH || PathBytes(childParts) > MAX_PATH_BYTES {
        return false, child;
      }
      Later(env, calls, calls + 1);
      ghost var seen := Now();
      var listed, stat := Lookup(fd, name);
      if quiet && Lasts() { QuietEntryFacts(env.history, window, fd, name, p, childParts, wanted, maxFileBytes, seen); }
      if listed.None? { return false, child; }
      KindOf(env.history, seen, listed.value);
      Found(env.history, fd, first, seen, name, listed.value);
      if stat.kind == IsDir {
        ghost var start := calls;
        ok, child := WalkDirectoryEntry(fd, name, childParts, stat, p);
        Later(env, start, calls);
        return;
      }
      if stat.kind != IsReg { return false, child; }
      NothingStays(directoryStates, childParts);
      ghost var start := calls;
      ok, child := CaptureFile(fd, name, childParts, stat, seen, p);
      Later(env, start, calls);
      if ok { FileLogged(directoryStates, fileStates, env.history, child, childParts, MAX_TREE_DEPTH - |parts|); }
    }

    /** The directory branch: open the entry, require it to be the listed inode, and walk it. */
    method WalkDirectoryEntry(fd: Ino, name: Name, parts: Path, stat: Stat, ghost p: Seen) returns (ok: bool, ghost child: Seen)
      requires Sound(env) && WithinBudget() && |parts| <= MAX_TREE_DEPTH
      modifies this`calls, this`files, this`totalBytes, this`totalMembers, this`directoryStates, this`fileStates
      ensures calls >= old(calls) && (ok ==> WithinBudget())
      ensures ok ==> OnlyBelow(old(directoryStates), directoryStates, parts) && OnlyBelow(old(fileStates), fileStates, parts)
      ensures ok ==> child.ino == stat.ino && Witnessed(env.history, child, Now()) && (old(Began()) ==> Since(child, window.from))
      ensures ok ==> Shallow(child, MAX_TREE_DEPTH + 1 - |parts|) && Legal(child, parts)
      ensures ok ==> Selected(child, parts, wanted) && files == old(files) + Report(child, parts)
      ensures ok ==> totalMembers == old(totalMembers) + Members(child) && totalMembers <= MAX_TREE_MEMBERS
      ensures ok && NothingBelow(old(directoryStates), parts) && NothingBelow(old(fileStates), parts) ==>
                Logged(directoryStates, fileStates, env.history, child, parts)
      ensures QuietEntry(fd, name, parts, p) && p.SeenDir? && p.ino == stat.ino && old(HasRoom(Members(p), Report(p, parts)) && Began())
              && Lasts() ==>
                ok && totalMembers == old(totalMembers) + Members(p) && files == old(files) + Report(p, parts)
      decreases MAX_TREE_DEPTH + 1 - |parts|, 3
    {
      hide Logged, Witnessed, Selected, Shallow, Report, Steady, StatAt, TotalBytes, NothingBelow, OnlyBelow, SmallFiles, Sound,
        At, Instant, Listing, Under, Picture, EntryPicture, Room, Still, Since, Members, Legal;
      ghost var quiet := QuietEntry(fd, name, parts, p) && p.SeenDir? && HasRoom(Members(p), Report(p, parts)) && Began();
      if quiet { QuietEntryParts(env.history, window, fd, name, p, parts, wanted, maxFileBytes); }
      child := SeenFile(fd, 0, None);
      ghost var again := Now();
      Later(env, calls, calls + 1);
      var childFd, target := Lookup(fd, name);
      if quiet && Lasts() { QuietEntryFacts(env.history, window, fd, name, p, parts, wanted, maxFileBytes, again); }
      if childFd.Some? { KindOf(env.history, again, childFd.value); }
      if childFd.None? || target.kind != IsDir { return false, child; }
      ghost var instant := Now();
      Later(env, calls, calls + 1);
      var pinned := Fstat(childFd.value);
      KindOf(env.history, instant, childFd.value);
      if pinned.ino != stat.ino { return false, child; }
      ghost var start := calls;
      ok, child := Walk(childFd.value, parts, p);
      Later(env, start, calls);
    }

    /** The entries of one directory, in order. */
    method WalkEntries(
      fd: Ino, parts: Path, names: seq<Name>, ghost first: nat, ghost ps: seq<Seen>)
      returns (ok: bool, ghost children: seq<Seen>)
      requires Sound(env) && WithinBudget() && first <= Now() && |parts| <= MAX_TREE_DEPTH
      modifies this`calls, this`files, this`totalBytes, this`totalMembers, this`directoryStates, this`fileStates
      ensures calls >= old(calls) && (ok ==> WithinBudget())
      ensures ok ==> OnlyBelow(old(directoryStates), directoryStates, parts) && OnlyBelow(old(fileStates), fileStates, parts)
      ensures ok ==> SameAt(old(fileStates), fileStates, parts)
      ensures ok ==> EntriesSeen(env.history, fd, first, Now(), names, children)
      ensures ok && old(Began()) ==> AllSince(children, window.from)
      ensures ok ==> EntriesKept(names, children, parts, wanted, MAX_TREE_DEPTH - |parts|)
      ensures ok ==> files == old(files) + ReportAll(names, children, parts) && totalMembers == old(totalMembers) + MembersAll(children)
      ensures ok && old(totalMembers) <= MAX_TREE_MEMBERS ==> totalMembers <= MAX_TREE_MEMBERS
      ensures ok && Distinct(names) && NothingBelow(old(directoryStates), parts) && NothingBelow(old(fileStates), parts) ==>
                EntriesLogged(directoryStates, fileStates, env.history, names, children, parts)
      ensures QuietEntries(fd, names, parts, ps) && old(HasRoom(MembersAll(ps), ReportAll(names, ps, parts)) && Began()) && Lasts() ==>
                ok && totalMembers == old(totalMembers) + MembersAll(ps) && files == old(files) + ReportAll(names, ps, parts)
      decreases MAX_TREE_DEPTH + 1 - |parts|, 1
    {
      hide Logged, Witnessed, Selected, Shallow, Report, ReportAll, Steady, StatAt, TotalBytes, NothingBelow, OnlyBelow, SmallFiles,
        Distinct, Sound, EntriesSeen, EntriesKept, EntriesLogged, At, Instant, Listing, Under, LeadsTo, NothingAhead,
        Picture, EntryPicture, Room, OnTrack, Members, MembersAll, Still, Since, AllSince, Kept;
      ghost var began := Began();
      ghost var quiet := QuietEntries(fd, names, parts, ps) && HasRoom(MembersAll(ps), ReportAll(names, ps, parts)) && began;
      NoneSince(window.from);
      if quiet {
        OnTrackFirst(
          env.history, window, fd, totalMembers, files, names, ps, parts, wanted, maxFileBytes, maxTotalBytes, maxFiles);
      }
      children := [];
      ghost var dirs0, regs0, files0 := directoryStates, fileStates, files;
      ghost var clean := Distinct(names) && NothingBelow(dirs0, parts) && NothingBelow(regs0, parts);
      NoEntries(env.history, fd, first, Now(), parts, wanted, MAX_TREE_DEPTH - |parts|, dirs0, regs0);
      NothingStays(dirs0, parts);
      NothingStays(regs0, parts);
      if clean { NothingAheadAtFirst(dirs0, parts, names); NothingAheadAtFirst(regs0, parts, names); }
      var i := 0;
      NoMembers();
      assert names[..0] == [] && files + [] == files;
      while i < |names|
        invariant 0 <= i <= |names| && calls >= old(calls) && WithinBudget()
        invariant EntriesSeen(env.history, fd, first, Now(), names[..i], children)
        invariant EntriesKept(names[..i], children, parts, wanted, MAX_TREE_DEPTH - |parts|)
        invariant |children| == i && files == files0 + ReportAll(names[..i], children, parts)
        invariant totalMembers == old(totalMembers) + MembersAll(children)
        invariant old(totalMembers) <= MAX_TREE_MEMBERS ==> totalMembers <= MAX_TREE_MEMBERS
        invariant OnlyBelow(dirs0, directoryStates, parts) && OnlyBelow(regs0, fileStates, parts)
        invariant SameAt(regs0, fileStates, parts)
        invariant clean ==> NothingAhead(directoryStates, parts, names, i) && NothingAhead(fileStates, parts, names, i)
        invariant clean ==> EntriesLogged(directoryStates, fileStates, env.history, names[..i], children, parts)
        invariant began ==> Began() && AllSince(children, window.from)
        invariant quiet && Lasts() ==>
                    OnTrack(totalMembers, files, names, ps, parts, i, old(totalMembers), files0, maxTotalBytes, maxFiles)
      {
        if quiet && Lasts() {
          OnTrackNext(
            env.history, window, fd, totalMembers, files, names, ps, parts, i, old(totalMembers), files0, wanted, maxFileBytes,
            maxTotalBytes, maxFiles);
        }
        ghost var dirs, regs, start, files1 := directoryStates, fileStates, calls, files;
        if clean { NothingAheadNow(dirs, parts, names, i); NothingAheadNow(regs, parts, names, i); }
        Later(env, old(calls), calls);
        ghost var child;
        ok, child := WalkEntry(fd, names[i], parts, first, if quiet then ps[i] else SeenFile(fd, 0, None));
        Later(env, start, calls);
        if !ok { return; }
        if began { AllSinceStep(children, child, window.from); }
        WalkStep(
          env.history, fd, first, Instant(env, start), Now(), names, i, children, child, parts, wanted, MAX_TREE_DEPTH - |parts|,
          dirs0, dirs, directoryStates, regs0, regs, fileStates, files0);
        if clean {
          EntriesLoggedStep(dirs, regs, directoryStates, fileStates, env.history, names, i, children, child, parts);
        }
        MembersAllAppend(children, child);
        children := children + [child];
        i := i + 1;
      }
      assert names[..|names|] == names;
      if quiet && Lasts() {
        OnTrackLast(totalMembers, files, names, ps, parts, old(totalMembers), files0, maxTotalBytes, maxFiles);
      }
      ok := true;
    }

    /** First pass.  `p` pictures the directory, should nobody change it. */
    method Walk(fd: Ino, parts: Path, ghost p: Seen) returns (ok: bool, ghost s: Seen)
      requires Sound(env) && WithinBudget()
      modifies this`calls, this`files, this`totalBytes, this`totalMembers, this`directoryStates, this`fileStates
      ensures calls >= old(calls) && (ok ==> WithinBudget())
      ensures ok ==> OnlyBelow(old(directoryStates), directoryStates, parts) && OnlyBelow(old(fileStates), fileStates, parts)
      ensures ok ==> s.SeenDir? && s.ino == fd && Witnessed(env.history, s, Now()) && (old(Began()) ==> Since(s, window.from))
      ensures ok ==> |parts| <= MAX_TREE_DEPTH && Shallow(s, MAX_TREE_DEPTH + 1 - |parts|) && Legal(s, parts)
      ensures ok ==> Selected(s, parts, wanted) && files == old(files) + Report(s, parts)
      ensures ok ==> totalMembers == old(totalMembers) + Members(s) && totalMembers <= MAX_TREE_MEMBERS
      ensures ok && NothingBelow(old(directoryStates), parts) && NothingBelow(old(fileStates), parts) ==>
                Logged(directoryStates, fileStates, env.history, s, parts)
      ensures QuietDirectory(fd, parts, p) && old(HasRoom(Members(p), Report(p, parts)) && Began()) && Lasts() ==>
                ok && totalMembers == old(totalMembers) + Members(p) && files == old(files) + Report(p, parts)
      decreases MAX_TREE_DEPTH + 1 - |parts|, 2
    {
      hide Logged, Witnessed, Selected, Shallow, Report, ReportAll, Steady, Sorted, StatAt, TotalBytes, NothingBelow, OnlyBelow,
        SmallFiles,
        Distinct, Sound, EntriesSeen, EntriesKept, EntriesLogged, At, Instant, Listing, Picture, EntriesPicture, Members,
        MembersAll, Still, Since, AllSince, SameAt, Legal;
      ghost var began := Began();
      ghost var quiet := QuietDirectory(fd, parts, p) && HasRoom(Members(p), Report(p, parts)) && began;
      if quiet { PictureParts(env.history, window, p, parts, wanted, maxFileBytes); }
      s := SeenDir(fd, 0, 0, [], []);
      if |parts| > MAX_TREE_DEPTH { return false, s; }
      ghost var first := Now();
      var before := Fstat(fd);
      ghost var scan := calls;
      Later(env, scan - 1, scan);
      Later(env, scan - 1, scan + 2);
      var scanned := ScanDir(fd);
      ScanLater(env, scan);
      if quiet && Lasts() { QuietScan(env, window, scan, p, parts, wanted, maxFileBytes); }
      if scanned.None? { return false, s; }
      totalMembers := totalMembers + |scanned.value|;
      if totalMembers > MAX_TREE_MEMBERS { return false, s; }
      var names := Sorted(scanned.value);
      SortedLength(scanned.value);
      ghost var children: seq<Seen> := [];
      ghost var start := Now();
      ok, children := WalkEntries(fd, parts, names, first, if quiet then p.children else []);
      Later(env, scan + 2, calls);
      if !ok { return; }
      ghost var end, dirs := Now(), directoryStates;
      ghost var last;
      ok, last := CheckAndRecord(fd, parts, names, before, first, if quiet then p else s);
      if !ok { return; }
      Later(env, scan + 1, scan + 2);
      s := SeenDir(fd, first, last, names, children);
      if began { SinceDirectory(s, window.from); }
      FinishWalk(env, s, parts, wanted, scan, end, Now(), old(directoryStates), old(fileStates), dirs, fileStates);
    }

    /** After the entries: the same names and the same identity again, and then the record. */
    method CheckAndRecord(fd: Ino, parts: Path, names: seq<Name>, before: Stat, ghost first: nat, ghost p: Seen)
      returns (ok: bool, ghost last: nat)
      requires Sound(env) && before == StatAt(env.history, first, fd)
      modifies this`calls, this`directoryStates
      ensures calls >= old(calls) && old(Now()) <= Now()
      ensures ok ==> old(Now()) <= last <= Now() && StatAt(env.history, last, fd).stamp == before.stamp
      ensures ok ==> directoryStates == old(directoryStates)[parts := (StatAt(env.history, last, fd), names)]
      ensures QuietDirectory(fd, parts, p) && p.names == names && |names| <= MAX_TREE_MEMBERS && Inside(window, first)
              && old(Began()) && Lasts() ==>
                ok
    {
      hide StatAt, Sorted, Sound, At, Instant, Listing, Picture;
      ghost var quiet := QuietDirectory(fd, parts, p) && p.names == names && Inside(window, first) && Began();
      ghost var again := calls;
      var rescanned := ScanDir(fd);
      ScanLater(env, again);
      Later(env, calls, calls + 1);
      last := Now();
      if quiet && Lasts() { QuietScan(env, window, again, p, parts, wanted, maxFileBytes); }
      if rescanned.None? || |rescanned.value| > MAX_TREE_MEMBERS { return false, last; }
      var after := Fstat(fd);
      if quiet && Lasts() { QuietDirectorySteady(env.history, window, p, parts, wanted, maxFileBytes, first, last); }
      if Sorted(rescanned.value) != names || after.kind != before.kind || after.stamp != before.stamp { return false, last; }
      directoryStates := directoryStates[parts := (after, names)];
      ok := true;
    }

    /** Second pass: meet every recorded identity and every list of names again. */
    method VerifyEndState(fd: Ino, parts: Path, ghost s: Seen) returns (ok: bool)
      requires Sound(env) && Logged(directoryStates, fileStates, env.history, s, parts)
      modifies this`calls, this`verificationMembers
      ensures calls >= old(calls) && (ok ==> Confirmed(env.history, s, old(Now())))
      ensures QuietSeen(fd, s) && s.SeenDir? && old(verificationMembers) + Members(s) <= MAX_TREE_MEMBERS && old(Began()) && Lasts() ==>
                ok && verificationMembers == old(verificationMembers) + Members(s)
      decreases s, 1
    {
      hide At, Instant, Listing, StatAt, Confirmed, Sound, Logged, Still, HoldsAt, MembersAll, Sorted;
      ghost var quiet := QuietSeen(fd, s) && s.SeenDir? && verificationMembers + Members(s) <= MAX_TREE_MEMBERS && Began();
      LoggedHere(directoryStates, fileStates, env.history, s, parts);
      if parts !in directoryStates { return false; }
      var (expectedState, expectedNames) := directoryStates[parts];
      ghost var since, instant := calls, Now();
      var state := Fstat(fd);
      Later(env, since, calls);
      KindOf(env.history, instant, fd);
      KindOf(env.history, s.last, s.ino);
      if quiet && Lasts() { StillSteady(env.history, window, fd, instant, s.last); }
      if state != expectedState { return false; }
      ghost var scan := calls;
      var scanned := ScanDir(fd);
      ScanLater(env, scan);
      if quiet && Lasts() { StillScan(env, window, scan, s); }
      if scanned.None? { return false; }
      verificationMembers := verificationMembers + |scanned.value|;
      if verificationMembers > MAX_TREE_MEMBERS { return false; }
      if Sorted(scanned.value) != expectedNames { return false; }
      ok := VerifyEntries(fd, parts, expectedNames, s, since);
      Later(env, scan + 2, calls);
      if !ok { return; }
      ConfirmDirectory(env.history, s, Instant(env, since), instant);
    }

    method VerifyEntries(fd: Ino, parts: Path, names: seq<Name>, ghost s: Seen, ghost since: nat) returns (ok: bool)
      requires Sound(env) && Logged(directoryStates, fileStates, env.history, s, parts)
      requires s.SeenDir? && s.names == names && since <= calls
      modifies this`calls, this`verificationMembers
      ensures calls >= old(calls)
      ensures ok ==> forall k :: 0 <= k < |s.children| ==> Confirmed(env.history, s.children[k], Instant(env, since))
      ensures QuietSeen(fd, s) && old(verificationMembers) + MembersAll(s.children) <= MAX_TREE_MEMBERS && old(Began()) && Lasts() ==>
                ok && verificationMembers == old(verificationMembers) + MembersAll(s.children)
      decreases s, 0
    {
      hide At, Instant, Listing, StatAt, Confirmed, Sound, Logged, Still, HoldsAt, Members, MembersAll, QuietlyLeads,
        Calm;
      ghost var quiet := QuietSeen(fd, s) && verificationMembers + MembersAll(s.children) <= MAX_TREE_MEMBERS && Began();
      LoggedHere(directoryStates, fileStates, env.history, s, parts);
      assert s.children[0..] == s.children;
      var i := 0;
      while i < |names|
        invariant 0 <= i <= |names| && calls >= old(calls)
        invariant forall k :: 0 <= k < i ==> Confirmed(env.history, s.children[k], Instant(env, since))
        invariant quiet ==> Began()
        invariant quiet && Lasts() ==>
                    verificationMembers + MembersAll(s.children[i..]) == old(verificationMembers) + MembersAll(s.children)
      {
        if quiet { HoldsEntry(env.history, window, s, i); }
        LoggedHere(directoryStates, fileStates, env.history, s, parts);
        ghost var start := calls;
        ok := VerifyEntry(fd, names[i], parts + [names[i]], s.children[i], since);
        Later(env, start, calls);
        if !ok { return; }
        i := i + 1;
      }
      NothingFurtherCounted(s.children);
      ok := true;
    }

    /** One entry again: the same identity, and below a directory the same everything. */
    method VerifyEntry(fd: Ino, name: Name, parts: Path, ghost child: Seen, ghost since: nat) returns (ok: bool)
      requires Sound(env) && Logged(directoryStates, fileStates, env.history, child, parts) && since <= calls
      modifies this`calls, this`verificationMembers
      ensures calls >= old(calls)
      ensures ok ==> Confirmed(env.history, child, Instant(env, since))
      ensures QuietlyLeads(env.history, window, fd, name, child.ino) && QuietSeen(child.ino, child)
              && old(verificationMembers) + Members(child) <= MAX_TREE_MEMBERS && old(Began()) && Lasts() ==>
                ok && verificationMembers == old(verificationMembers) + Members(child)
      decreases child, 2
    {
      hide At, Instant, Listing, StatAt, Confirmed, Sound, Logged, Still, HoldsAt, QuietlyLeads, Calm;
      ghost var quiet := && QuietlyLeads(env.history, window, fd, name, child.ino) && QuietSeen(child.ino, child)
                         && verificationMembers + Members(child) <= MAX_TREE_MEMBERS && Began();
      ghost var instant := Now();
      LoggedHere(directoryStates, fileStates, env.history, child, parts);
      Later(env, since, calls);
      Later(env, calls, calls + 1);
      var entry, current := Lookup(fd, name);
      if quiet { HeldKind(env.history, window, child); }
      if quiet && Lasts() { QuietChild(env.history, window, fd, name, child, instant); }
      if entry.None? { return false; }
      KindOf(env.history, instant, entry.value);
      KindOf(env.history, child.last, child.ino);
      if current.kind == IsDir {
        ghost var again := Now();
        Later(env, calls, calls + 1);
        var childFd, target := Lookup(fd, name);
        if quiet && Lasts() { QuietChild(env.history, window, fd, name, child, again); }
        if childFd.Some? { KindOf(env.history, again, childFd.value); }
        if childFd.None? || target.kind != IsDir { return false; }
        Later(env, since, calls);
        ghost var start, from := Now(), calls;
        ok := VerifyEndState(childFd.value, parts, child);
        Later(env, from, calls);
        if !ok { return; }
        ConfirmedSince(env.history, child, Instant(env, since), start);
      } else if current.kind == IsReg {
        if parts !in fileStates || fileStates[parts] != current { return false; }
        ConfirmFile(env.history, child, Instant(env, since), instant);
        ok := true;
      } else {
        return false;
      }
    }

    /** The two passes. */
    method CollectTwice(root: Ino, ghost p: Seen) returns (ok: bool, ghost s: Seen, ghost instant: nat)
      requires Sound(env) && Fresh()
      modifies this
      ensures ok ==> old(Now()) <= instant <= Now() && TreeAt(env.history, instant, root, wanted, files)
      ensures ok ==> WithinBudget() && s.ino == root && HoldsAt(env.history, instant, s) && files == Report(s, [])
      ensures ok ==> s.SeenDir? && Legal(s, []) && Selected(s, [], wanted) && Shallow(s, MAX_TREE_DEPTH + 1)
      ensures ok ==> Members(s) <= MAX_TREE_MEMBERS
      ensures QuietDirectory(root, [], p) && Room(0, Members(p), [], Report(p, []), maxTotalBytes, maxFiles) && old(Began()) && Lasts() ==>
                ok && files == Report(p, [])
    {
      hide At, Instant, Listing, StatAt, Confirmed, Sound, Logged, Witnessed, Selected, Shallow, HoldsAt, Report, TreeAt, Members,
        Still, Picture, Since, Calm, TotalBytes, SmallFiles, NothingBelow, OnlyBelow, ReadTree, Legal;
      s, instant := SeenFile(root, 0, None), Now();
      NothingCaptured(maxFileBytes);
      ghost var quiet := QuietDirectory(root, [], p) && HasRoom(Members(p), Report(p, [])) && Began();
      ghost var first := Now();
      KindOf(env.history, first, root);
      var rootState := Fstat(root);
      Later(env, old(calls), calls);
      if quiet && Lasts() { QuietRoot(env.history, window, p, [], wanted, maxFileBytes, first); }
      if rootState.kind != IsDir { return false, s, instant; }
      ghost var start := calls;
      ok, s := Walk(root, [], p);
      Later(env, start, calls);
      if !ok { return; }
      instant := Now();
      ghost var between := calls;
      if quiet && Lasts() { QuietWalked(env.history, window, s, p, [], wanted, maxFileBytes, instant); }
      ok := VerifyEndState(root, [], s);
      Later(env, between, calls);
      if !ok { return; }
      SnapshotIsAtomic(env, s, wanted, instant);
      assert [] + Report(s, []) == Report(s, []) && [] + Report(p, []) == Report(p, []);
      assert TreeAt(env.history, instant, root, wanted, files);
    }

    /** Nothing has been collected yet. */
    ghost predicate Fresh()
      reads this
    {
      && files == [] && totalBytes == 0 && directoryStates == map[] && fileStates == map[]
      && totalMembers == 0 && verificationMembers == 0
    }

    /** When the window begins these are the wanted files, and everything is within the limits. */
    ghost predicate Fitting(root: Ino, files: seq<Captured>, requireFiles: bool, manifestBytes: seq<Captured> -> nat) {
      && At(env.history, window.from, root).node.Dir?
      && TreeAt(env.history, window.from, root, wanted, files) && WithinLimits(env.history, window.from, root)
      && SmallFiles(files, maxFileBytes) && TotalBytes(files) <= maxTotalBytes && |files| <= maxFiles
      && (requireFiles ==> files != []) && manifestBytes(files) <= 4 * 1024 * 1024
    }

    /** A still tree that fits has a picture. */
    lemma FittingIsAdmitted(root: Ino, files: seq<Captured>, requireFiles: bool, manifestBytes: seq<Captured> -> nat)
      requires StillTree(env.history, window, root) && Fitting(root, files, requireFiles, manifestBytes)
      ensures exists p :: Admitted(root, p, requireFiles, manifestBytes)
    {
      hide Report, Members, Picture, TotalBytes, SmallFiles, Room, Legal, Selected, StillTree, WithinLimits, ReadTree;
      var p := WithinIsChecked(env.history, window.from, root, wanted, MAX_TREE_DEPTH + 1);
      HeldTreeReads(env.history, window.from, p, [], wanted, MAX_TREE_DEPTH + 1);
      HeldKind(env.history, window, p);
      HeldPicture(env.history, window, p, [], wanted, maxFileBytes);
      AllInRoom(p, maxTotalBytes, maxFiles);
      assert Admitted(root, p, requireFiles, manifestBytes);
    }

    /** What was checked and held in the window of a still tree fits. */
    lemma CheckedIsFitting(root: Ino, s: Seen, instant: nat, requireFiles: bool, manifestBytes: seq<Captured> -> nat)
      requires StillTree(env.history, window, root) && Inside(window, instant)
      requires s.ino == root && s.SeenDir? && HoldsAt(env.history, instant, s)
      requires Legal(s, []) && Selected(s, [], wanted) && Shallow(s, MAX_TREE_DEPTH + 1) && Members(s) <= MAX_TREE_MEMBERS
      requires var files := Report(s, []);
               && SmallFiles(files, maxFileBytes) && TotalBytes(files) <= maxTotalBytes && |files| <= maxFiles
               && (requireFiles ==> files != []) && manifestBytes(files) <= MAX_TREE_MANIFEST_BYTES
      ensures Fitting(root, Report(s, []), requireFiles, manifestBytes)
    {
      hide Report, Members, TotalBytes, SmallFiles, Legal, Selected, StillTree, WithinLimits, ReadTree, HoldsAt;
      HeldThroughout(env.history, window, s, instant);
      HeldKind(env.history, window, s);
      HeldTreeReads(env.history, window.from, s, [], wanted, MAX_TREE_DEPTH + 1);
      CheckedIsWithin(env.history, window.from, s);
    }

    /** The whole inventory: two passes, then the checks on what was collected.  What is returned is the tree
        at one instant, and everything in that tree is within the limits.  Of a tree in which nothing is
        changed meanwhile, the wanted files are returned exactly when everything is within the limits. */
    method Inventory(
      root: Ino, requireFiles: bool, manifestBytes: seq<Captured> -> nat) returns (r: Option<seq<Captured>>)
      requires Sound(env) && Fresh()
      modifies this
      ensures r.Some? ==> exists instant: nat :: old(Now()) <= instant <= Now()
                            && TreeAt(env.history, instant, root, wanted, r.value) && WithinLimits(env.history, instant, root)
      ensures r.Some? ==> TotalBytes(r.value) <= maxTotalBytes && |r.value| <= maxFiles && (requireFiles ==> r.value != [])
      ensures r.Some? ==> SmallFiles(r.value, maxFileBytes) && manifestBytes(r.value) <= 4 * 1024 * 1024
      ensures (exists p :: Admitted(root, p, requireFiles, manifestBytes)) && old(Began()) && Lasts() ==> r.Some?
      ensures StillTree(env.history, window, root) && old(Began()) && Lasts() ==>
                && (r.Some? <==> exists fitting :: Fitting(root, fitting, requireFiles, manifestBytes))
                && (r.Some? ==> Fitting(root, r.value, requireFiles, manifestBytes))
    {
      hide Instant, Report, TreeAt, Members, Picture, TotalBytes, SmallFiles, Sound, Room, HoldsAt, Legal, Selected, Shallow, StillTree,
        WithinLimits, At;
      if StillTree(env.history, window, root) && exists fitting :: Fitting(root, fitting, requireFiles, manifestBytes) {
        ghost var fitting :| Fitting(root, fitting, requireFiles, manifestBytes);
        FittingIsAdmitted(root, fitting, requireFiles, manifestBytes);
      }
      ghost var p := SeenFile(root, 0, None);
      if exists q :: Admitted(root, q, requireFiles, manifestBytes) {
        p :| Admitted(root, p, requireFiles, manifestBytes);
      }
      var collected;
      ghost var s, instant;
      collected, s, instant := CollectTwice(root, p);
      if !collected { return None; }
      if requireFiles && files == [] { return None; }
      if manifestBytes(files) > MAX_TREE_MANIFEST_BYTES { return None; }
      CheckedIsWithin(env.history, instant, s);
      if StillTree(env.history, window, root) && Inside(window, instant) {
        CheckedIsFitting(root, s, instant, requireFiles, manifestBytes);
      }
      return Some(files);
    }
  }
}
