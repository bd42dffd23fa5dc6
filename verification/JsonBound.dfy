// The explicit-stack structure bound of validate_cyclonedx.py.
module JsonBound {
  import opened Unicode
  import opened Json

  const MAX_NODES: nat := 250_000
  const MAX_DEPTH: nat := 128

  predicate NoSurrogate(t: Text) {
    forall i :: 0 <= i < |t| ==> !IsSurrogate(t[i])
  }

  /** The texts of one value, not of what is inside it. */
  predicate OwnClean(v: Json) {
    match v
    case Str(text) => NoSurrogate(text)
    case Object(members) => forall i :: 0 <= i < |members| ==> NoSurrogate(members[i].key)
    case _ => true
  }

  /** No key and no string anywhere in the document contains a surrogate. */
  predicate AllClean(v: Json) {
    OwnClean(v) &&
    match v
    case List(items) => forall i :: 0 <= i < |items| ==> AllClean(items[i])
    case Object(members) => forall i :: 0 <= i < |members| ==> AllClean(members[i].value)
    case _ => true
  }

  lemma CleanChildren(v: Json)
    ensures AllClean(v) <==> OwnClean(v) && forall i :: 0 <= i < |Children(v)| ==> AllClean(Children(v)[i])
  {
    hide OwnClean;
    match v
    case List(items) =>
      assert Children(v) == items;
    case Object(members) =>
      assert forall i :: 0 <= i < |members| ==> Children(v)[i] == members[i].value;
    case _ =>
      assert Children(v) == [];
  }

  // ---- the worklist --------------------------------------------------------------------------

  type Pending = seq<(Json, nat)>

  function Remaining(pending: Pending): nat {
    if pending == [] then 0 else Count(pending[0].0) + Remaining(pending[1..])
  }

  lemma {:induction false} RemainingConcat(a: Pending, b: Pending)
    ensures Remaining(a + b) == Remaining(a) + Remaining(b)
  {
    if a == [] {
      assert a + b == b;
    } else {
      RemainingConcat(a[1..], b);
      assert (a + b)[1..] == a[1..] + b;
    }
  }

  lemma RemainingTaken(pending: Pending, k: nat)
    requires k < |pending|
    ensures Remaining(pending) == Count(pending[k].0) + Remaining(pending[..k] + pending[k + 1..])
  {
    var before, from := pending[..k], pending[k..];
    assert pending == before + from;
    assert from[0] == pending[k] && from[1..] == pending[k + 1..];
    RemainingConcat(before, from);
    RemainingConcat(before, from[1..]);
  }

  /** The children of a value, one level deeper. */
  function Deeper(values: seq<Json>, depth: nat): (pending: Pending)
    ensures |pending| == |values|
  {
    seq(|values|, i requires 0 <= i < |values| => (values[i], depth))
  }

  lemma {:induction false} RemainingDeeper(values: seq<Json>, depth: nat)
    ensures Remaining(Deeper(values, depth)) == CountItems(values)
  {
    if values != [] {
      RemainingDeeper(values[1..], depth);
      assert Deeper(values, depth)[1..] == Deeper(values[1..], depth);
    }
  }

  /** A pending value that will raise nothing but a node-count error. */
  predicate Fits(p: (Json, nat)) {
    p.1 >= 1 && p.1 - 1 + Depth(p.0) <= MAX_DEPTH && AllClean(p.0)
  }

  predicate AllFit(pending: Pending) {
    forall i :: 0 <= i < |pending| ==> Fits(pending[i])
  }

  lemma FitsChildren(v: Json, depth: nat)
    requires depth >= 1
    ensures Fits((v, depth)) <==> depth <= MAX_DEPTH && OwnClean(v) && AllFit(Deeper(Children(v), depth + 1))
  {
    hide AllClean, OwnClean, Count;
    CleanChildren(v);
    if depth <= MAX_DEPTH {
      DepthChildren(v, MAX_DEPTH - depth);
      var next := Deeper(Children(v), depth + 1);
      assert forall i :: 0 <= i < |next| ==> next[i] == (Children(v)[i], depth + 1);
    }
  }

  /** Taking out one pending value, wherever it is, and putting its children in. */
  function Replace(pending: Pending, k: nat): Pending
    requires k < |pending|
  {
    pending[..k] + pending[k + 1..] + Deeper(Children(pending[k].0), pending[k].1 + 1)
  }

  lemma ReplaceKeeps(pending: Pending, k: nat)
    requires k < |pending| && pending[k].1 >= 1
    ensures Remaining(Replace(pending, k)) == Remaining(pending) - 1
    ensures AllFit(pending) <==> pending[k].1 <= MAX_DEPTH && OwnClean(pending[k].0) && AllFit(Replace(pending, k))
    ensures (forall i :: 0 <= i < |pending| ==> pending[i].1 >= 1) ==>
              forall i :: 0 <= i < |Replace(pending, k)| ==> Replace(pending, k)[i].1 >= 1
  {
    hide Fits, OwnClean, Children, Remaining;
    var (v, depth) := pending[k];
    var rest, next := pending[..k] + pending[k + 1..], Deeper(Children(v), depth + 1);
    RemainingTaken(pending, k);
    RemainingConcat(rest, next);
    RemainingDeeper(Children(v), depth + 1);
    CountChildren(v);
    FitsChildren(v, depth);
    assert forall i :: 0 <= i < |rest| ==> rest[i] == if i < k then pending[i] else pending[i + 1];
    FitConcat(rest, next);
    FitTaken(pending, k);
  }

  lemma FitConcat(a: Pending, b: Pending)
    ensures AllFit(a + b) <==> AllFit(a) && AllFit(b)
  {
    hide Fits;
    var all := a + b;
    assert forall i :: 0 <= i < |a| ==> all[i] == a[i];
    assert forall i :: 0 <= i < |b| ==> all[|a| + i] == b[i];
  }

  lemma FitTaken(pending: Pending, k: nat)
    requires k < |pending|
    ensures AllFit(pending) <==> Fits(pending[k]) && AllFit(pending[..k] + pending[k + 1..])
  {
    hide Fits;
    var rest := pending[..k] + pending[k + 1..];
    assert forall i :: 0 <= i < |rest| ==> rest[i] == if i < k then pending[i] else pending[i + 1];
    forall i | 0 <= i < |pending| && i != k ensures exists j :: 0 <= j < |rest| && rest[j] == pending[i] {
      assert rest[if i < k then i else i - 1] == pending[i];
    }
  }

  /** `_bound_json_structure`: true when it returns rather than raises.  The source pops the last
      pending value; the verdict is the same whichever is popped. */
  method BoundJsonStructure(document: Json) returns (ok: bool)
    ensures ok <==> Count(document) <= MAX_NODES && Depth(document) <= MAX_DEPTH && AllClean(document)
  {
    hide Replace, AllFit, OwnClean, Remaining, Count;
    var pending, nodes := [(document, 1)], 0;
    Start(document);
    while pending != []
      invariant nodes + Remaining(pending) == Count(document) && nodes <= MAX_NODES
      invariant AllFit(pending) <==> Depth(document) <= MAX_DEPTH && AllClean(document)
      invariant forall i :: 0 <= i < |pending| ==> pending[i].1 >= 1
      decreases Remaining(pending)
    {
      var k: nat :| k < |pending|;
      var (value, depth) := pending[k];
      ReplaceKeeps(pending, k);
      nodes := nodes + 1;
      if nodes > MAX_NODES { return false; }
      if depth > MAX_DEPTH { return false; }
      if !OwnClean(value) { return false; }
      pending := Replace(pending, k);
    }
    NothingLeft();
    ok := true;
  }

  lemma Start(document: Json)
    ensures Remaining([(document, 1)]) == Count(document)
    ensures AllFit([(document, 1)]) <==> Depth(document) <= MAX_DEPTH && AllClean(document)
  {
    hide Depth, AllClean, Count;
    var pending := [(document, 1)];
    assert pending[1..] == [];
    assert AllFit(pending) <==> Fits(pending[0]);
  }

  lemma NothingLeft()
    ensures Remaining([]) == 0 && AllFit([])
  {
  }
}
