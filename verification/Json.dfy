// JSON documents as the repository's loaders produce them: integers only, objects in member order.
module Json {
  import opened Unicode
  import opened Wrappers

  datatype Json =
    | Null
    | Bool(flag: bool)
    | Num(value: int)
    | Str(text: Text)
    | List(items: seq<Json>)
    | Object(members: seq<Member>)

  datatype Member = Member(key: Text, value: Json)

  function Values(members: seq<Member>): (values: seq<Json>)
    ensures |values| == |members|
  {
    seq(|members|, i requires 0 <= i < |members| => members[i].value)
  }

  /** The values directly inside. */
  function Children(v: Json): seq<Json> {
    match v
    case List(items) => items
    case Object(members) => Values(members)
    case _ => []
  }

  function Find(members: seq<Member>, key: Text): Option<Json> {
    if members == [] then None
    else if members[0].key == key then Some(members[0].value)
    else Find(members[1..], key)
  }

  /** `document.get(key)`; None when absent or when the document is not an object. */
  function Get(v: Json, key: Text): Option<Json> {
    if v.Object? then Find(v.members, key) else None
  }

  lemma {:induction false} FindAt(members: seq<Member>, key: Text)
    ensures Find(members, key).Some? ==> exists i :: 0 <= i < |members| && members[i].key == key && members[i].value == Find(members, key).value
    ensures Find(members, key).None? ==> forall i :: 0 <= i < |members| ==> members[i].key != key
  {
    if members != [] && members[0].key != key {
      FindAt(members[1..], key);
      if Find(members, key).Some? {
        var i :| 0 <= i < |members[1..]| && members[1..][i].key == key && members[1..][i].value == Find(members, key).value;
        assert members[i + 1].key == key && members[i + 1].value == Find(members, key).value;
      } else {
        assert forall i :: 1 <= i < |members| ==> members[i] == members[1..][i - 1];
      }
    }
  }

  // ---- size and nesting ----------------------------------------------------------------------

  /** The number of values in a document, itself included. */
  function Count(v: Json): (n: nat)
    ensures n >= 1
  {
    match v
    case List(items) => 1 + CountItems(items)
    case Object(members) => 1 + CountMembers(members)
    case _ => 1
  }

  function CountItems(items: seq<Json>): nat {
    if items == [] then 0 else Count(items[0]) + CountItems(items[1..])
  }

  function CountMembers(members: seq<Member>): nat {
    if members == [] then 0 else Count(members[0].value) + CountMembers(members[1..])
  }

  lemma {:induction false} CountMembersIsItems(members: seq<Member>)
    ensures CountMembers(members) == CountItems(Values(members))
  {
    if members != [] {
      CountMembersIsItems(members[1..]);
      assert Values(members)[1..] == Values(members[1..]);
    }
  }

  lemma CountChildren(v: Json)
    ensures Count(v) == 1 + CountItems(Children(v))
  {
    if v.Object? { CountMembersIsItems(v.members); }
  }

  /** Levels of nesting; a scalar or an empty container has one. */
  function Depth(v: Json): (d: nat)
    ensures d >= 1
  {
    match v
    case List(items) => 1 + DepthItems(items)
    case Object(members) => 1 + DepthMembers(members)
    case _ => 1
  }

  function DepthItems(items: seq<Json>): nat {
    if items == [] then 0
    else
      var d, rest := Depth(items[0]), DepthItems(items[1..]);
      if d > rest then d else rest
  }

  function DepthMembers(members: seq<Member>): nat {
    if members == [] then 0
    else
      var d, rest := Depth(members[0].value), DepthMembers(members[1..]);
      if d > rest then d else rest
  }

  lemma {:induction false} DepthMembersIsItems(members: seq<Member>)
    ensures DepthMembers(members) == DepthItems(Values(members))
  {
    if members != [] {
      DepthMembersIsItems(members[1..]);
      assert Values(members)[1..] == Values(members[1..]);
    }
  }

  lemma {:induction false} DepthItemsMax(items: seq<Json>, d: nat)
    ensures DepthItems(items) <= d <==> forall i :: 0 <= i < |items| ==> Depth(items[i]) <= d
  {
    if items != [] {
      DepthItemsMax(items[1..], d);
      if forall i :: 0 <= i < |items| ==> Depth(items[i]) <= d {
        assert forall i :: 0 <= i < |items[1..]| ==> items[1..][i] == items[i + 1];
      }
      if DepthItems(items) <= d {
        assert forall i :: 1 <= i < |items| ==> items[i] == items[1..][i - 1];
      }
    }
  }

  /** A document is no deeper than `d + 1` exactly when nothing inside is deeper than `d`. */
  lemma DepthChildren(v: Json, d: nat)
    ensures Depth(v) <= d + 1 <==> forall i :: 0 <= i < |Children(v)| ==> Depth(Children(v)[i]) <= d
  {
    DepthItemsMax(Children(v), d);
    if v.Object? { DepthMembersIsItems(v.members); }
  }

  lemma ChildIsShallower(v: Json, i: nat)
    requires i < |Children(v)|
    ensures Depth(Children(v)[i]) < Depth(v)
  {
    DepthChildren(v, Depth(v) - 1);
  }
}
