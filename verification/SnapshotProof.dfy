// Why a double collect is a snapshot: what the first pass sighted, confirmed unchanged by the
// second, held all at once at every instant between the passes.
module SnapshotProof {
  import opened Bytes
  import opened Wrappers
  import opened TextOrder
  import opened SnapshotWorld

  /** What the first pass saw, and when: a directory over an interval, a file at an instant. */
  datatype Seen =
    | SeenDir(ino: Ino, first: nat, last: nat, names: seq<Name>, children: seq<Seen>)
    | SeenFile(ino: Ino, last: nat, captured: Option<Octets>)

  /** The sightings are true of the history, and all were made by instant `until`. */
  ghost predicate Witnessed(h: History, s: Seen, until: nat)
    decreases s
  {
    s.last <= until &&
    match s
    case SeenFile(i, at, captured) =>
      At(h, at, i).node.File? && (captured.Some? ==> captured.value == At(h, at, i).node.data)
    case SeenDir(i, first, last, names, children) =>
      && first <= last && Steady(h, i, first, last)
      && At(h, last, i).node.Dir?
      && Entries(names, children, At(h, last, i).node.entries)
      && forall k :: 0 <= k < |children| ==> Witnessed(h, children[k], last)
  }

  /** The names, in order, are those of the directory, and each leads to its child's inode. */
  ghost predicate Entries(names: seq<Name>, children: seq<Seen>, entries: map<Name, Ino>) {
    && |names| == |children|
    && Ascending(names) && Distinct(names) && Lists(names, entries)
    && forall k :: 0 <= k < |names| ==> names[k] in entries && entries[names[k]] == children[k].ino
  }

  /** Each inode's stat identity was met again at or after instant `since`. */
  ghost predicate Confirmed(h: History, s: Seen, since: nat)
    decreases s
  {
    && (exists t: nat :: t >= since && StatAt(h, t, s.ino) == StatAt(h, s.last, s.ino))
    && (s.SeenDir? ==> forall k :: 0 <= k < |s.children| ==> Confirmed(h, s.children[k], since))
  }

  /** The whole sighted tree is there at once in one world. */
  ghost predicate HoldsAt(h: History, t: nat, s: Seen)
    decreases s
  {
    match s
    case SeenFile(i, _, captured) => At(h, t, i).node.File? && (captured.Some? ==> captured.value == At(h, t, i).node.data)
    case SeenDir(i, _, _, names, children) =>
      && At(h, t, i).node.Dir?
      && Entries(names, children, At(h, t, i).node.entries)
      && forall k :: 0 <= k < |children| ==> HoldsAt(h, t, children[k])
  }

  /** The double-collect argument. */
  lemma {:induction false} SightingsHoldTogether(h: History, s: Seen, instant: nat)
    requires FreshStamps(h)
    requires Witnessed(h, s, instant) && Confirmed(h, s, instant)
    ensures HoldsAt(h, instant, s)
    decreases s
  {
    var t: nat :| t >= instant && StatAt(h, t, s.ino) == StatAt(h, s.last, s.ino);
    StampPins(h, s.ino, s.last, t);
    SteadyWithin(h, s.ino, s.last, t, s.last, instant);
    if s.SeenDir? {
      forall k | 0 <= k < |s.children| ensures HoldsAt(h, instant, s.children[k]) {
        WitnessedLater(h, s.children[k], s.last, instant);
        SightingsHoldTogether(h, s.children[k], instant);
      }
    }
  }

  lemma WitnessedLater(h: History, s: Seen, a: nat, b: nat)
    requires Witnessed(h, s, a) && a <= b
    ensures Witnessed(h, s, b)
  {
  }

  // ---- from sightings to the reported list ---------------------------------------------------

  /** The files captured below a sighting, in traversal order. */
  function Report(s: Seen, parts: Path): seq<Captured>
    decreases s, 1
  {
    match s
    case SeenFile(_, _, captured) => if captured.Some? then [Captured(parts, captured.value)] else []
    case SeenDir(_, _, _, names, children) => if |names| == |children| then ReportAll(names, children, parts) else []
  }

  function ReportAll(names: seq<Name>, children: seq<Seen>, parts: Path): seq<Captured>
    requires |names| == |children|
    decreases children, 0
  {
    if children == [] then [] else Report(children[0], parts + [names[0]]) + ReportAll(names[1..], children[1..], parts)
  }

  /** A file was captured exactly when it was wanted. */
  ghost predicate Selected(s: Seen, parts: Path, wanted: Path -> bool)
    decreases s
  {
    match s
    case SeenFile(_, _, captured) => captured.Some? <==> wanted(parts)
    case SeenDir(_, _, _, names, children) =>
      |names| == |children| && forall k :: 0 <= k < |children| ==> Selected(children[k], parts + [names[k]], wanted)
  }

  ghost predicate Shallow(s: Seen, depth: nat)
    decreases s
  {
    s.SeenDir? ==> depth > 0 && forall k :: 0 <= k < |s.children| ==> Shallow(s.children[k], depth - 1)
  }

  /** A tree that holds at once is what reading that one world sequentially reports. */
  lemma {:induction false} HeldTreeReads(h: History, t: nat, s: Seen, parts: Path, wanted: Path -> bool, depth: nat)
    requires HoldsAt(h, t, s) && Selected(s, parts, wanted) && Shallow(s, depth)
    ensures ReadTree(h, t, s.ino, parts, wanted, depth) == Some(Report(s, parts))
    decreases s, 1
  {
    if s.SeenDir? {
      var entries := At(h, t, s.ino).node.entries;
      SameElementsSame(SortedNames(entries.Keys), s.names);
      HeldEntriesRead(h, t, entries, s.names, s.children, parts, wanted, depth - 1);
    }
  }

  lemma {:induction false} HeldEntriesRead(
    h: History, t: nat, entries: map<Name, Ino>, names: seq<Name>, children: seq<Seen>, parts: Path, wanted: Path -> bool, depth: nat)
    requires |names| == |children|
    requires forall k :: 0 <= k < |names| ==> names[k] in entries && entries[names[k]] == children[k].ino
    requires forall k :: 0 <= k < |names| ==>
      HoldsAt(h, t, children[k]) && Selected(children[k], parts + [names[k]], wanted) && Shallow(children[k], depth)
    ensures ReadEntries(h, t, entries, names, parts, wanted, depth) == Some(ReportAll(names, children, parts))
    decreases children, 0
  {
    if names != [] {
      HeldTreeReads(h, t, children[0], parts + [names[0]], wanted, depth);
      HeldEntriesRead(h, t, entries, names[1..], children[1..], parts, wanted, depth);
    }
  }
}
