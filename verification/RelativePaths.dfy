// The path grammar of inventory.py and the canonical path set built on it.
module RelativePaths {
  import opened Unicode
  import opened Wrappers
  import opened TextOrder
  import opened TextSplit

  const SLASH: CodePoint := 0x2F
  const BACKSLASH: CodePoint := 0x5C
  const DOT: CodePoint := 0x2E

  type Parts = seq<Text>

  // ---- split and join ----------------------------------------------------------------------

  /** `s.split("/")`. */
  function Split(s: Text): (parts: Parts)
    ensures |parts| >= 1
  {
    SplitOn(s, SLASH)
  }

  /** `"/".join(parts)`. */
  function Join(parts: Parts): Text {
    JoinOn(parts, SLASH)
  }

  predicate NoSlash(t: Text) {
    Without(t, SLASH)
  }

  predicate AllNoSlash(parts: Parts) {
    forall i :: 0 <= i < |parts| ==> NoSlash(parts[i])
  }

  lemma JoinSplit(s: Text)
    ensures Join(Split(s)) == s && AllNoSlash(Split(s))
  {
    JoinSplitOn(s, SLASH);
  }

  lemma SplitJoin(parts: Parts)
    requires parts != [] && AllNoSlash(parts)
    ensures Split(Join(parts)) == parts
  {
    SplitJoinOn(parts, SLASH);
  }

  // ---- the grammar -------------------------------------------------------------------------

  predicate ValidComponent(part: Text) {
    part != [] && part != [DOT] && part != [DOT, DOT]
  }

  /** `validate_relative_path` returns rather than raises. */
  predicate ValidRelativePath(path: Text) {
    && path != []
    && (forall i :: 0 <= i < |path| ==> 0x20 <= path[i] <= 0x7E && path[i] != BACKSLASH)
    && path[0] != SLASH
    && forall i :: 0 <= i < |Split(path)| ==> ValidComponent(Split(path)[i])
  }

  // ---- what the grammar is for ---------------------------------------------------------------

  /** Where one name leads from the directory at `at` below a root; None above the root. */
  function Step(at: Parts, name: Text): Option<Parts> {
    if |name| == 0 || name == [0x2E] then Some(at)
    else if name == [0x2E, 0x2E] then if at == [] then None else Some(at[..|at| - 1])
    else Some(at + [name])
  }

  /** Following names one after another, `..` leading to the parent. */
  function Steps(at: Parts, names: Parts): Option<Parts>
    decreases |names|
  {
    if names == [] then Some(at)
    else
      match Step(at, names[0])
      case None => None
      case Some(next) => Steps(next, names[1..])
  }

  lemma {:induction false} StepsShorten(at: Parts, names: Parts)
    ensures Steps(at, names).Some? ==> |Steps(at, names).value| <= |at| + |names|
    decreases |names|
  {
    if names != [] {
      match Step(at, names[0])
      case None =>
      case Some(next) => StepsShorten(next, names[1..]);
    }
  }

  /** Every name goes one level down exactly when none is empty or made of dots. */
  lemma {:induction false} StepsDescend(at: Parts, names: Parts)
    ensures Steps(at, names) == Some(at + names) <==> forall i :: 0 <= i < |names| ==> ValidComponent(names[i])
    decreases |names|
  {
    if names == [] {
      assert at + names == at;
    } else {
      match Step(at, names[0])
      case None =>
      case Some(next) =>
        StepsShorten(next, names[1..]);
        StepsDescend(next, names[1..]);
        if ValidComponent(names[0]) {
          assert next + names[1..] == at + names;
          assert forall i :: 1 <= i < |names| ==> names[i] == names[1..][i - 1];
        }
    }
  }

  lemma FirstEmpty(path: Text)
    ensures path == [] || path[0] == SLASH ==> Split(path)[0] == []
  {
  }

  /** An accepted path is printable ASCII without backslashes, and following it from any root goes down at
      every name, so that it never leaves the root and names its file in the only way there is; nothing
      else is accepted. */
  lemma AcceptedDescends(path: Text)
    ensures ValidRelativePath(path)
       <==> && (forall c <- path :: 0x20 <= c <= 0x7E && c != 0x5C)
            && Steps([], Split(path)) == Some(Split(path))
  {
    hide Steps;
    var parts := Split(path);
    StepsDescend([], parts);
    assert [] + parts == parts;
    FirstEmpty(path);
    forall i | 0 <= i < |path| ensures path[i] in path { }
  }

  /** Wherever one stops on the way, one is below the root at the names followed so far. */
  lemma NeverOutside(path: Text, k: nat)
    requires ValidRelativePath(path) && k <= |Split(path)|
    ensures Steps([], Split(path)[..k]) == Some(Split(path)[..k])
  {
    hide Steps, Split;
    StepsDescend([], Split(path)[..k]);
    assert [] + Split(path)[..k] == Split(path)[..k];
  }

  /** `casefold` on printable ASCII. */
  function Fold(t: Text): (f: Text)
    ensures |f| == |t|
  {
    seq(|t|, i requires 0 <= i < |t| => if 0x41 <= t[i] <= 0x5A then t[i] + 0x20 else t[i])
  }

  /** The prefix of `path` with its first `k` components. */
  function Prefix(path: Text, k: nat): Text
    requires k <= |Split(path)|
  {
    Join(Split(path)[..k])
  }

  function Depth(path: Text): nat {
    |Split(path)|
  }

  predicate IsPrefix(d: Text, path: Text) {
    exists k :: 1 <= k <= Depth(path) && d == Prefix(path, k)
  }

  /** `d` names a directory above `path`. */
  predicate IsAncestor(d: Text, path: Text) {
    exists k :: 1 <= k < Depth(path) && d == Prefix(path, k)
  }

  // ---- canonical sets ------------------------------------------------------------------------

  predicate Clash(d: Text, e: Text) {
    Fold(d) == Fold(e) && d != e
  }

  ghost predicate PathsClash(p: Text, q: Text) {
    exists d, e :: IsPrefix(d, p) && IsPrefix(e, q) && Clash(d, e)
  }

  /** Valid, distinct, no path below another, and no two spellings of one case-folded prefix. */
  ghost predicate Canonical(paths: seq<Text>) {
    && (forall p <- paths :: ValidRelativePath(p))
    && Distinct(paths)
    && (forall p <- paths, q <- paths :: !IsAncestor(p, q))
    && (forall p <- paths, q <- paths :: !PathsClash(p, q))
  }

  /** Only the collection matters, not the order it is given in. */
  lemma CanonicalPermutation(a: seq<Text>, b: seq<Text>)
    requires multiset(a) == multiset(b)
    ensures Canonical(a) <==> Canonical(b)
    ensures Sort(a) == Sort(b)
  {
    hide ValidRelativePath, IsAncestor, PathsClash, Sort;
    assert forall x :: x in a <==> x in multiset(a);
    assert forall x :: x in b <==> x in multiset(b);
    SortIsUnique(a, Sort(b));
    if Distinct(a) { DistinctMultiset(a); MultisetDistinct(b); }
    if Distinct(b) { DistinctMultiset(b); MultisetDistinct(a); }
  }

  lemma {:induction false} PrefixBefore(a: Text, b: Text)
    requires a < b
    ensures Before(a, b)
  {
    if a != [] {
      assert a[0] == b[0] && a[1..] < b[1..];
      PrefixBefore(a[1..], b[1..]);
    }
  }

  lemma {:induction false} JoinPrefix(parts: Parts, k: nat)
    requires 1 <= k < |parts|
    ensures Join(parts[..k]) + [SLASH] <= Join(parts)
  {
    if k == 1 {
      assert parts[..1] == [parts[0]];
    } else {
      JoinPrefix(parts[1..], k - 1);
      assert parts[..k][1..] == parts[1..][..k - 1] && parts[..k][0] == parts[0];
      var head := parts[0] + [SLASH];
      assert head + (Join(parts[1..][..k - 1]) + [SLASH]) == (head + Join(parts[1..][..k - 1])) + [SLASH];
    }
  }

  /** A directory sorts before everything below it. */
  lemma AncestorBefore(d: Text, path: Text)
    requires IsAncestor(d, path)
    ensures Before(d, path)
  {
    var k :| 1 <= k < Depth(path) && d == Prefix(path, k);
    JoinPrefix(Split(path), k);
    JoinSplit(path);
    PrefixBefore(d, path);
  }

  // ---- canonical_relative_paths --------------------------------------------------------------

  datatype PathError = InvalidPath | NotSorted | CaseCollision | FileAndDirectory | Duplicate

  ghost function PrefixSet(path: Text): (s: set<Text>)
    ensures forall d :: d in s <==> IsPrefix(d, path)
  {
    set k | 1 <= k <= Depth(path) :: Prefix(path, k)
  }

  ghost function AncestorSet(path: Text): (s: set<Text>)
    ensures forall d :: d in s <==> IsAncestor(d, path)
  {
    set k | 1 <= k < Depth(path) :: Prefix(path, k)
  }

  lemma PrefixGrows(path: Text, k: nat, l: nat)
    requires 1 <= k < l <= Depth(path)
    ensures |Prefix(path, k)| < |Prefix(path, l)|
  {
    var parts := Split(path)[..l];
    assert parts[..k] == Split(path)[..k];
    JoinPrefix(parts, k);
  }

  lemma NoSelfClash(path: Text, d: Text, e: Text)
    requires IsPrefix(d, path) && IsPrefix(e, path)
    ensures !Clash(d, e)
  {
    var k :| 1 <= k <= Depth(path) && d == Prefix(path, k);
    var l :| 1 <= l <= Depth(path) && e == Prefix(path, l);
    if k < l { PrefixGrows(path, k, l); } else if l < k { PrefixGrows(path, l, k); }
    assert |Fold(d)| == |d| && |Fold(e)| == |e|;
  }

  /** `seen` maps each case-folded known prefix to its one spelling. */
  ghost predicate SeenFor(seen: map<Text, Text>, known: set<Text>) {
    && (forall d <- known :: Fold(d) in seen && seen[Fold(d)] == d)
    && (forall f <- seen :: seen[f] in known && Fold(seen[f]) == f)
  }

  ghost predicate NoClash(path: Text, known: set<Text>) {
    forall d <- PrefixSet(path), e <- known :: !Clash(d, e)
  }

  /** The inner loop over the prefixes of one path. */
  method RecordPrefixes(
    path: Text, seen: map<Text, Text>, ghost known: set<Text>) returns (ok: bool, after: map<Text, Text>)
    requires SeenFor(seen, known)
    ensures ok <==> NoClash(path, known)
    ensures ok ==> SeenFor(after, known + PrefixSet(path))
  {
    hide Prefix, Split, Fold;
    ghost var done: set<Text> := {};
    after := seen;
    var k := 1;
    while k <= Depth(path)
      invariant 1 <= k <= Depth(path) + 1
      invariant done == set j | 1 <= j < k :: Prefix(path, j)
      invariant SeenFor(after, known + done)
      invariant forall d <- done, e <- known :: !Clash(d, e)
    {
      var prefix := Prefix(path, k);
      assert IsPrefix(prefix, path);
      var folded := Fold(prefix);
      if folded in after && after[folded] != prefix {
        var previous := after[folded];
        assert Clash(prefix, previous);
        if previous in done { NoSelfClash(path, prefix, previous); }
        return false, after;
      }
      forall e | e in known ensures !Clash(prefix, e) {
        assert after[Fold(e)] == e;
      }
      after := after[folded := prefix];
      done := done + {prefix};
      k := k + 1;
    }
    assert done == PrefixSet(path);
    ok := true;
  }

  /** The inner loop over the directories above one path. */
  method RecordDirectories(path: Text, complete: set<Text>, directories: set<Text>) returns (ok: bool, after: set<Text>)
    ensures ok <==> forall d <- AncestorSet(path) :: d !in complete
    ensures ok ==> after == directories + AncestorSet(path)
  {
    hide Prefix, Split;
    after := directories;
    var k := 1;
    while k < Depth(path)
      invariant 1 <= k && (k <= Depth(path) || k == 1)
      invariant after == directories + set j | 1 <= j < k && j < Depth(path) :: Prefix(path, j)
      invariant forall j :: 1 <= j < k && j < Depth(path) ==> Prefix(path, j) !in complete
    {
      var directory := Prefix(path, k);
      assert IsAncestor(directory, path);
      if directory in complete { return false, after; }
      after := after + {directory};
      k := k + 1;
    }
    ok := true;
  }

  ghost predicate Elements(s: seq<Text>, t: set<Text>) {
    forall x :: x in s <==> x in t
  }

  /** What the tables hold once the paths in `done` have been accepted. */
  ghost predicate Accepted(
    done: seq<Text>, seen: map<Text, Text>, known: set<Text>, directories: set<Text>, complete: set<Text>) {
    && Elements(done, complete)
    && (forall d :: d in known <==> exists p <- done :: IsPrefix(d, p))
    && (forall d :: d in directories <==> exists p <- done :: IsAncestor(d, p))
    && SeenFor(seen, known)
    && Distinct(done)
    && (forall p <- done, q <- done :: !IsAncestor(p, q))
  }

  lemma AcceptedStep(
    done: seq<Text>, seen: map<Text, Text>, known: set<Text>, directories: set<Text>, complete: set<Text>,
    path: Text, seen': map<Text, Text>)
    requires Accepted(done, seen, known, directories, complete)
    requires SeenFor(seen', known + PrefixSet(path))
    requires path !in complete && path !in directories
    requires forall d <- AncestorSet(path) :: d !in complete
    ensures Accepted(done + [path], seen', known + PrefixSet(path), directories + AncestorSet(path), complete + {path})
  {
    hide SeenFor, Prefix, IsPrefix, IsAncestor;
    var all := done + [path];
    forall d ensures d in known + PrefixSet(path) <==> exists p <- all :: IsPrefix(d, p) {
      if d in PrefixSet(path) { assert path in all && IsPrefix(d, path); }
      if exists p <- done :: IsPrefix(d, p) { var p :| p in done && IsPrefix(d, p); assert p in all; }
    }
    forall d ensures d in directories + AncestorSet(path) <==> exists p <- all :: IsAncestor(d, p) {
      if d in AncestorSet(path) { assert path in all && IsAncestor(d, path); }
      if exists p <- done :: IsAncestor(d, p) { var p :| p in done && IsAncestor(d, p); assert p in all; }
    }
    NotOwnAncestor(path);
  }

  lemma NotOwnAncestor(path: Text)
    ensures !IsAncestor(path, path)
  {
    if IsAncestor(path, path) {
      AncestorBefore(path, path);
      BeforeIrreflexive(path);
    }
  }

  /** One spelling per folded prefix leaves no two paths to clash. */
  lemma SeenMeansNoClash(
    done: seq<Text>, seen: map<Text, Text>, known: set<Text>, directories: set<Text>, complete: set<Text>)
    requires Accepted(done, seen, known, directories, complete)
    ensures forall p <- done, q <- done :: !PathsClash(p, q)
  {
    hide IsPrefix, Fold, IsAncestor;
    forall p, q | p in done && q in done ensures !PathsClash(p, q) {
      forall d, e | IsPrefix(d, p) && IsPrefix(e, q) ensures !Clash(d, e) {
        assert d in known && e in known;
      }
    }
  }

  /** In sorted order nothing earlier lies below a later path: the last file-and-directory check
      can never fire. */
  lemma EarlierNotBelow(ordered: seq<Text>, i: nat, q: Text)
    requires Ascending(ordered) && i < |ordered| && q in ordered[..i]
    ensures !IsAncestor(ordered[i], q)
  {
    hide Before;
    var j :| 0 <= j < i && ordered[..i][j] == q;
    assert ordered[j] == q == ordered[i] || Before(q, ordered[i]);
    if IsAncestor(ordered[i], q) {
      AncestorBefore(ordered[i], q);
      BeforeAsymmetric(ordered[i], q);
    }
  }

  method CanonicalRelativePaths(paths: seq<Text>, requireSorted: bool) returns (r: Result<seq<Text>, PathError>)
    ensures r.Ok? <==> Canonical(paths) && (requireSorted ==> paths == Sort(paths))
    ensures r.Ok? ==> r.value == Sort(paths)
  {
    hide Canonical, ValidRelativePath, IsAncestor, IsPrefix, PathsClash, Sort, SeenFor, Before, Accepted, NoClash;
    var valid := ValidateAll(paths);
    if !valid {
      InvalidMeansNotCanonical(paths);
      return Err(InvalidPath);
    }
    var ordered := Sort(paths);
    CanonicalPermutation(paths, ordered);
    if requireSorted && paths != ordered { return Err(NotSorted); }
    var seen: map<Text, Text> := map[];
    var directories, complete: set<Text>, i := {}, {}, 0;
    ghost var known: set<Text> := {};
    NothingAccepted();
    assert ordered[..0] == [];
    while i < |ordered|
      invariant 0 <= i <= |ordered|
      invariant Accepted(ordered[..i], seen, known, directories, complete)
    {
      var path := ordered[i];
      AcceptedSeen(ordered[..i], seen, known, directories, complete);
      var ok, after := RecordPrefixes(path, seen, known);
      if !ok {
        ClashMeansNotCanonical(ordered, i, seen, known, directories, complete);
        return Err(CaseCollision);
      }
      var below;
      ok, below := RecordDirectories(path, complete, directories);
      if !ok {
        AboveMeansNotCanonical(ordered, i, seen, known, directories, complete);
        return Err(FileAndDirectory);
      }
      if path in directories {
        NoFileBelow(ordered, i, seen, known, directories, complete);
        assert false;
      }
      if path in complete {
        DuplicateMeansNotCanonical(ordered, i, seen, known, directories, complete);
        return Err(Duplicate);
      }
      AcceptedStep(ordered[..i], seen, known, directories, complete, path, after);
      assert ordered[..i + 1] == ordered[..i] + [path];
      seen, directories, complete, known := after, below, complete + {path}, known + PrefixSet(path);
      i := i + 1;
    }
    assert ordered[..|ordered|] == ordered;
    AcceptedIsCanonical(paths, ordered, seen, known, directories, complete);
    return Ok(ordered);
  }

  lemma NothingAccepted()
    ensures Accepted([], map[], {}, {}, {})
  {
  }

  lemma AcceptedSeen(
    done: seq<Text>, seen: map<Text, Text>, known: set<Text>, directories: set<Text>, complete: set<Text>)
    requires Accepted(done, seen, known, directories, complete)
    ensures SeenFor(seen, known)
  {
  }

  lemma AcceptedIsCanonical(
    paths: seq<Text>, ordered: seq<Text>, seen: map<Text, Text>, known: set<Text>, directories: set<Text>, complete: set<Text>)
    requires Accepted(ordered, seen, known, directories, complete)
    requires multiset(ordered) == multiset(paths) && forall p <- paths :: ValidRelativePath(p)
    ensures Canonical(ordered)
  {
    hide ValidRelativePath, IsAncestor, PathsClash, SeenFor, IsPrefix;
    SeenMeansNoClash(ordered, seen, known, directories, complete);
    SameElements(paths, ordered);
  }

  lemma SameElements(a: seq<Text>, b: seq<Text>)
    requires multiset(a) == multiset(b)
    ensures forall x :: x in a <==> x in b
  {
    assert forall x :: x in a <==> x in multiset(a);
    assert forall x :: x in b <==> x in multiset(b);
  }

  lemma InvalidMeansNotCanonical(paths: seq<Text>)
    requires exists p <- paths :: !ValidRelativePath(p)
    ensures !Canonical(paths)
  {
  }

  lemma ClashMeansNotCanonical(
    ordered: seq<Text>, i: nat, seen: map<Text, Text>, known: set<Text>, directories: set<Text>, complete: set<Text>)
    requires i < |ordered| && Accepted(ordered[..i], seen, known, directories, complete)
    requires !NoClash(ordered[i], known)
    ensures !Canonical(ordered)
  {
    hide ValidRelativePath, IsAncestor, SeenFor, Clash, IsPrefix;
    var d, e :| d in PrefixSet(ordered[i]) && e in known && Clash(d, e);
    var p :| p in ordered[..i] && IsPrefix(e, p);
    assert PathsClash(ordered[i], p);
    assert p in ordered;
  }

  lemma AboveMeansNotCanonical(
    ordered: seq<Text>, i: nat, seen: map<Text, Text>, known: set<Text>, directories: set<Text>, complete: set<Text>)
    requires i < |ordered| && Accepted(ordered[..i], seen, known, directories, complete)
    requires exists d <- AncestorSet(ordered[i]) :: d in complete
    ensures !Canonical(ordered)
  {
    hide ValidRelativePath, IsAncestor, SeenFor, IsPrefix, PathsClash;
    var d :| d in AncestorSet(ordered[i]) && d in complete;
    assert d in ordered[..i] && d in ordered;
  }

  lemma DuplicateMeansNotCanonical(
    ordered: seq<Text>, i: nat, seen: map<Text, Text>, known: set<Text>, directories: set<Text>, complete: set<Text>)
    requires i < |ordered| && Accepted(ordered[..i], seen, known, directories, complete)
    requires ordered[i] in complete
    ensures !Canonical(ordered)
  {
    hide ValidRelativePath, IsAncestor, SeenFor, IsPrefix, PathsClash;
    var j :| 0 <= j < i && ordered[..i][j] == ordered[i];
    assert ordered[j] == ordered[i];
  }

  /** The last check of the loop never fires. */
  lemma NoFileBelow(
    ordered: seq<Text>, i: nat, seen: map<Text, Text>, known: set<Text>, directories: set<Text>, complete: set<Text>)
    requires i < |ordered| && Ascending(ordered) && Accepted(ordered[..i], seen, known, directories, complete)
    ensures ordered[i] !in directories
  {
    hide IsAncestor, SeenFor, IsPrefix, Ascending;
    if ordered[i] in directories {
      var q :| q in ordered[..i] && IsAncestor(ordered[i], q);
      EarlierNotBelow(ordered, i, q);
    }
  }

  method ValidateAll(paths: seq<Text>) returns (ok: bool)
    ensures ok <==> forall p <- paths :: ValidRelativePath(p)
  {
    hide ValidRelativePath;
    var i := 0;
    while i < |paths|
      invariant 0 <= i <= |paths|
      invariant forall j :: 0 <= j < i ==> ValidRelativePath(paths[j])
    {
      if !ValidRelativePath(paths[i]) {
        assert paths[i] in paths;
        return false;
      }
      i := i + 1;
    }
    return true;
  }
}
