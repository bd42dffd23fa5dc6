// A filesystem that an adversary changes between any two system calls of the observer.
//
// A history gives the whole inode table at every instant; a schedule gives the instant at which
// each of the observer's system calls takes effect.  Every adversary is some history and some
// schedule, so a statement about all of them is a statement about every interleaving.
module SnapshotWorld {
  import opened Bytes
  import opened Unicode
  import opened Wrappers
  import opened TextOrder

  type Ino = nat
  type Name = Text
  type Path = seq<Name>

  datatype Node = Dir(entries: map<Name, Ino>, size: nat) | File(data: Octets) | Link | Special

  /** `stamp` is what mode, mtime and ctime together distinguish. */
  datatype Inode = Inode(node: Node, stamp: nat)

  /** The whole inode table at every instant. */
  type History = nat -> Ino -> Inode

  function At(h: History, t: nat, i: Ino): Inode {
    h(t)(i)
  }

  datatype Kind = IsDir | IsReg | IsLink | IsSpecial

  datatype Stat = Stat(ino: Ino, kind: Kind, size: nat, stamp: nat)

  function StatAt(h: History, t: nat, i: Ino): Stat {
    var inode := At(h, t, i);
    match inode.node
    case Dir(_, size) => Stat(i, IsDir, size, inode.stamp)
    case File(data) => Stat(i, IsReg, |data|, inode.stamp)
    case Link => Stat(i, IsLink, 0, inode.stamp)
    case Special => Stat(i, IsSpecial, 0, inode.stamp)
  }

  // ---- the environment ---------------------------------------------------------------------

  /** `history(t)` is the world at instant t; system call k takes effect at `schedule(k)`;
      `listing(k, d)` is what a directory scan of d spanning calls k and k+1 returns, and
      `chunk(k)` bounds how many octets a read at call k returns. */
  datatype Env = Env(history: History, schedule: nat -> nat, listing: (nat, Ino) -> seq<Name>, chunk: nat -> nat)

  function Instant(env: Env, k: nat): nat {
    env.schedule(k)
  }

  function Listing(env: Env, k: nat, d: Ino): seq<Name> {
    env.listing(k, d)
  }

  /** Every change to an inode gives it a stamp that inode never had before. */
  ghost predicate FreshStamps(h: History) {
    forall t: nat, u: nat, i: Ino :: u == t + 1 ==>
      At(h, u, i) == At(h, t, i) || forall s: nat :: s <= t ==> At(h, s, i).stamp != At(h, u, i).stamp
  }

  ghost predicate Forward(env: Env) {
    forall j: nat, k: nat :: j <= k ==> Instant(env, j) <= Instant(env, k)
  }

  /** Inode `i` is the same at every instant from `a` to `b`. */
  ghost predicate Steady(h: History, i: Ino, a: nat, b: nat) {
    forall t: nat :: a <= t <= b ==> At(h, t, i) == At(h, a, i)
  }

  /** A scan need not be atomic: only one that a directory holds still for must be exact. */
  ghost predicate HonestListings(env: Env) {
    forall k: nat, d: Ino {:trigger Listing(env, k, d)} ::
      Steady(env.history, d, Instant(env, k), Instant(env, k + 1)) && At(env.history, Instant(env, k), d).node.Dir? ==>
        Distinct(Listing(env, k, d)) && Lists(Listing(env, k, d), At(env.history, Instant(env, k), d).node.entries)
  }

  ghost predicate Lists(names: seq<Name>, entries: map<Name, Ino>) {
    forall n :: n in names <==> n in entries
  }

  ghost predicate Sound(env: Env) {
    FreshStamps(env.history) && Forward(env) && HonestListings(env)
  }

  // ---- what equal stamps prove -------------------------------------------------------------

  /** Two sightings with one stamp: nothing happened to the inode in between. */
  lemma {:induction false} StampPins(h: History, i: Ino, a: nat, b: nat)
    requires FreshStamps(h) && a <= b
    requires At(h, a, i).stamp == At(h, b, i).stamp
    ensures Steady(h, i, a, b)
  {
    hide At;
    if a < b && At(h, b, i) == At(h, b - 1, i) {
      StampPins(h, i, a, b - 1);
    }
  }

  lemma SteadyWithin(h: History, i: Ino, a: nat, b: nat, c: nat, d: nat)
    requires Steady(h, i, a, b) && a <= c <= d <= b
    ensures Steady(h, i, c, d) && At(h, c, i) == At(h, d, i) == At(h, a, i)
  {
  }

  // ---- what a sequential reader of one world would report ------------------------------------

  datatype Captured = Captured(path: Path, data: Octets)

  ghost predicate IsLeast(s: set<Name>, m: Name) {
    m in s && forall x <- s :: x == m || Before(m, x)
  }

  ghost function Least(s: set<Name>): (m: Name)
    requires s != {}
    ensures IsLeast(s, m)
  {
    LeastExists(s);
    var m :| IsLeast(s, m);
    m
  }

  lemma LeastExists(s: set<Name>)
    requires s != {}
    ensures exists m :: IsLeast(s, m)
  {
    var m := FindLeast(s);
  }

  lemma {:induction false} FindLeast(s: set<Name>) returns (m: Name)
    requires s != {}
    ensures IsLeast(s, m)
    decreases |s|
  {
    hide Before;
    var y :| y in s;
    var rest := s - {y};
    m := y;
    assert forall x <- s :: x == y || x in rest;
    if rest != {} {
      var z := FindLeast(rest);
      BeforeTotal(y, z);
      if Before(z, y) {
        m := z;
      } else {
        forall x | x in s ensures x == y || Before(y, x) {
          if x != y && x != z { BeforeTransitive(y, z, x); }
        }
      }
    }
  }

  /** The names of a directory in sorted order. */
  ghost function SortedNames(s: set<Name>): (r: seq<Name>)
    ensures Ascending(r) && Distinct(r) && forall x :: x in r <==> x in s
    decreases |s|
  {
    if s == {} then []
    else
      var m := Least(s);
      var rest := SortedNames(s - {m});
      PrependLeast(m, rest);
      [m] + rest
  }

  lemma PrependLeast(m: Name, rest: seq<Name>)
    requires Ascending(rest) && Distinct(rest)
    requires forall x <- rest :: x != m && Before(m, x)
    ensures Ascending([m] + rest) && Distinct([m] + rest)
  {
    var r := [m] + rest;
    forall i, j | 0 <= i < j < |r| ensures r[i] != r[j] && Before(r[i], r[j]) {
      if i == 0 {
        assert r[j] == rest[j - 1] && rest[j - 1] in rest;
      } else {
        assert r[i] == rest[i - 1] && r[j] == rest[j - 1];
      }
    }
  }

  /** The included files at and below `i` at one instant, in traversal order; None when the
      tree holds anything but directories and regular files or is deeper than `depth`. */
  ghost function ReadTree(
    h: History, t: nat, i: Ino, parts: Path, wanted: Path -> bool, depth: nat): Option<seq<Captured>>
    decreases depth, 1, 0
  {
    match At(h, t, i).node
    case File(data) => Some(if wanted(parts) then [Captured(parts, data)] else [])
    case Dir(entries, _) => if depth == 0 then None else ReadEntries(h, t, entries, SortedNames(entries.Keys), parts, wanted, depth - 1)
    case Link => None
    case Special => None
  }

  ghost function ReadEntries(
    h: History, t: nat, entries: map<Name, Ino>, names: seq<Name>, parts: Path, wanted: Path -> bool, depth: nat)
    : Option<seq<Captured>>
    requires forall n <- names :: n in entries
    decreases depth, 2, |names|
  {
    if names == [] then Some([])
    else
      match ReadTree(h, t, entries[names[0]], parts + [names[0]], wanted, depth)
      case None => None
      case Some(first) =>
        match ReadEntries(h, t, entries, names[1..], parts, wanted, depth)
        case None => None
        case Some(rest) => Some(first + rest)
  }
}
