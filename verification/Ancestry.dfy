// The walk from a held directory to its root along `..` edges.
module Ancestry {
  import opened Wrappers
  import opened TextOrder

  /** A directory's device and inode numbers. */
  type Identity = (nat, nat)

  /** Where `..` leads; a directory without an image cannot be climbed out of (an error of the
      system call, or a parent that is not a directory). */
  type Edges = map<Identity, Identity>

  datatype AncestryError = BadDepth | Cycle | Unreadable | TooDeep

  function Climb(up: Edges, start: Identity, k: nat): Option<Identity> {
    if k == 0 then Some(start)
    else
      match Climb(up, start, k - 1)
      case None => None
      case Some(d) => if d in up then Some(up[d]) else None
  }

  /** The `k`-th ancestor is a root: its own parent. */
  predicate RootAt(up: Edges, start: Identity, k: nat) {
    var d := Climb(up, start, k);
    d.Some? && d.value in up && up[d.value] == d.value
  }

  /** Every identity from the directory to its root, once each. */
  ghost predicate IsChain(up: Edges, start: Identity, chain: seq<Identity>) {
    && chain != [] && Distinct(chain)
    && (forall i :: 0 <= i < |chain| ==> Climb(up, start, i) == Some(chain[i]))
    && (forall i :: 0 <= i < |chain| ==> (RootAt(up, start, i) <==> i == |chain| - 1))
  }

  /** A repeated identity below the first root means there is no root at any height. */
  lemma {:induction false} CycleNeverEnds(up: Edges, start: Identity, j: nat, i: nat, k: nat)
    requires j < i && Climb(up, start, i).Some? && Climb(up, start, j) == Climb(up, start, i)
    requires forall m :: 0 <= m < i ==> !RootAt(up, start, m)
    ensures !RootAt(up, start, k)
    ensures exists m :: 0 <= m < i && Climb(up, start, k) == Climb(up, start, m)
  {
    if k >= i {
      CycleNeverEnds(up, start, j, i, k - 1);
      var m :| 0 <= m < i && Climb(up, start, k - 1) == Climb(up, start, m);
      assert Climb(up, start, k) == Climb(up, start, m + 1);
      var n := if m + 1 < i then m + 1 else j;
      assert 0 <= n < i && Climb(up, start, k) == Climb(up, start, n);
      assert !RootAt(up, start, n);
    }
  }

  /** Past a directory that cannot be climbed out of there is nothing. */
  lemma {:induction false} NothingAbove(up: Edges, start: Identity, i: nat, k: nat)
    requires Climb(up, start, i).Some? && Climb(up, start, i).value !in up && k > i
    ensures Climb(up, start, k).None?
  {
    if k > i + 1 { NothingAbove(up, start, i, k - 1); }
  }

  method DirectoryAncestrySnapshot(
    up: Edges, start: Identity, maxDepth: int) returns (r: Result<seq<Identity>, AncestryError>)
    ensures r.Ok? <==> exists k: nat :: k < maxDepth && RootAt(up, start, k)
    ensures r.Ok? ==> IsChain(up, start, r.value) && |r.value| <= maxDepth
    ensures r.Err? && r.error.Cycle? ==> forall k: nat :: !RootAt(up, start, k)
    ensures r.Err? && r.error.Unreadable? ==> forall k: nat :: !RootAt(up, start, k)
  {
    if maxDepth < 1 { return Err(BadDepth); }
    var current, ancestry, depth := start, [], 0;
    while depth < maxDepth
      invariant 0 <= depth <= maxDepth && |ancestry| == depth
      invariant Climb(up, start, depth) == Some(current)
      invariant forall i :: 0 <= i < depth ==> Climb(up, start, i) == Some(ancestry[i])
      invariant forall i :: 0 <= i < depth ==> !RootAt(up, start, i)
      invariant Distinct(ancestry)
    {
      if current in ancestry {
        var j :| 0 <= j < depth && ancestry[j] == current;
        forall k: nat ensures !RootAt(up, start, k) { CycleNeverEnds(up, start, j, depth, k); }
        return Err(Cycle);
      }
      ancestry := ancestry + [current];
      if current !in up {
        forall k: nat ensures !RootAt(up, start, k) {
          if k > depth { NothingAbove(up, start, depth, k); }
        }
        return Err(Unreadable);
      }
      var parent := up[current];
      if parent == current {
        assert RootAt(up, start, depth);
        return Ok(ancestry);
      }
      current := parent;
      depth := depth + 1;
    }
    return Err(TooDeep);
  }
}
