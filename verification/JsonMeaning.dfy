// What the attestation's equality of JSON values decides.
module JsonMeaning {
  import opened Unicode
  import opened Wrappers
  import opened Json
  import opened Schema

  /** A JSON value as what it stands for: an object is a map, and its members have no order. */
  datatype Value =
    | NullValue
    | BoolValue(flag: bool)
    | NumValue(value: int)
    | StrValue(text: Text)
    | ListValue(items: seq<Value>)
    | ObjectValue(members: map<Text, Value>)

  function Meaning(v: Json): Value
    decreases v
  {
    match v
    case Null => NullValue
    case Bool(flag) => BoolValue(flag)
    case Num(value) => NumValue(value)
    case Str(text) => StrValue(text)
    case List(items) => ListValue(seq(|items|, i requires 0 <= i < |items| => Meaning(items[i])))
    case Object(members) => ObjectValue(MembersMeaning(members))
  }

  function MembersMeaning(members: seq<Member>): map<Text, Value>
    decreases members
  {
    if members == [] then map[] else MembersMeaning(members[1..])[members[0].key := Meaning(members[0].value)]
  }

  /** No object repeats a member name, which the loaders refuse. */
  predicate DistinctKeys(v: Json)
    decreases v
  {
    match v
    case List(items) => forall i :: 0 <= i < |items| ==> DistinctKeys(items[i])
    case Object(members) => DistinctMembers(members) && forall i :: 0 <= i < |members| ==> DistinctKeys(members[i].value)
    case _ => true
  }

  predicate DistinctMembers(members: seq<Member>) {
    forall i, j :: 0 <= i < j < |members| ==> members[i].key != members[j].key
  }

  lemma {:induction false} MeaningOfMember(members: seq<Member>, key: Text)
    ensures key in MembersMeaning(members) <==> Find(members, key).Some?
    ensures key in MembersMeaning(members) ==> MembersMeaning(members)[key] == Meaning(Find(members, key).value)
  {
    if members != [] { MeaningOfMember(members[1..], key); }
  }

  /** With distinct names, a member is what its name finds. */
  lemma {:induction false} FindMember(members: seq<Member>, i: nat)
    requires DistinctMembers(members) && i < |members|
    ensures Find(members, members[i].key) == Some(members[i].value)
  {
    if i > 0 {
      assert forall j, k :: 0 <= j < k < |members[1..]| ==> members[1..][j] == members[j + 1] && members[1..][k] == members[k + 1];
      FindMember(members[1..], i - 1);
    }
  }

  /** `_json_equal` decides whether two documents mean the same value.  So it is an equivalence, it tells
      values of different types apart, and it does not depend on the order of members. */
  lemma {:induction false} EqualMeansSame(left: Json, right: Json)
    requires DistinctKeys(left) && DistinctKeys(right)
    ensures JsonEqual(left, right) <==> Meaning(left) == Meaning(right)
    decreases left
  {
    match left
    case List(items) =>
      if right.List? {
        assert |Meaning(left).items| == |items| && |Meaning(right).items| == |right.items|;
        if |items| == |right.items| { EqualLists(items, right.items); }
      }
    case Object(members) =>
      if right.Object? { EqualObjects(members, right.members); }
    case _ =>
  }

  lemma {:induction false} EqualLists(left: seq<Json>, right: seq<Json>)
    requires |left| == |right| && DistinctKeys(List(left)) && DistinctKeys(List(right))
    ensures JsonEqual(List(left), List(right)) <==> Meaning(List(left)) == Meaning(List(right))
    decreases left
  {
    hide JsonEqual, DistinctKeys;
    EqualItems(left, right);
    ItemsDistinct(left);
    ItemsDistinct(right);
    forall i | 0 <= i < |left| ensures JsonEqual(left[i], right[i]) <==> Meaning(left[i]) == Meaning(right[i]) {
      EqualMeansSame(left[i], right[i]);
    }
    var a, b := Meaning(List(left)).items, Meaning(List(right)).items;
    assert forall i :: 0 <= i < |left| ==> a[i] == Meaning(left[i]) && b[i] == Meaning(right[i]);
  }

  lemma EqualItems(left: seq<Json>, right: seq<Json>)
    requires |left| == |right|
    ensures JsonEqual(List(left), List(right)) <==> forall i :: 0 <= i < |left| ==> JsonEqual(left[i], right[i])
  {
  }

  lemma ItemsDistinct(items: seq<Json>)
    requires DistinctKeys(List(items))
    ensures forall i :: 0 <= i < |items| ==> DistinctKeys(items[i])
  {
  }

  lemma {:induction false} EqualObjects(left: seq<Member>, right: seq<Member>)
    requires DistinctKeys(Object(left)) && DistinctKeys(Object(right))
    ensures JsonEqual(Object(left), Object(right)) <==> MembersMeaning(left) == MembersMeaning(right)
    decreases left
  {
    hide JsonEqual, DistinctKeys, MembersMeaning, Meaning, Find;
    EqualMembers(left, right);
    MembersDistinct(left);
    MembersDistinct(right);
    forall i | 0 <= i < |left|
      ensures MemberMet(left[i], right) <==>
                left[i].key in MembersMeaning(right) && MembersMeaning(right)[left[i].key] == Meaning(left[i].value)
    {
      MeaningOfMember(right, left[i].key);
      if Find(right, left[i].key).Some? {
        FindAt(right, left[i].key);
        EqualMeansSame(left[i].value, Find(right, left[i].key).value);
      }
    }
    SameMap(left, right);
  }

  /** This member is in the other object, with an equal value. */
  predicate MemberMet(m: Member, others: seq<Member>) {
    var other := Find(others, m.key);
    other.Some? && JsonEqual(m.value, other.value)
  }

  lemma EqualMembers(left: seq<Member>, right: seq<Member>)
    ensures JsonEqual(Object(left), Object(right)) <==>
              && (forall i :: 0 <= i < |right| ==> Find(left, right[i].key).Some?)
              && (forall i :: 0 <= i < |left| ==> MemberMet(left[i], right))
  {
  }

  lemma MembersDistinct(members: seq<Member>)
    requires DistinctKeys(Object(members))
    ensures DistinctMembers(members) && forall i :: 0 <= i < |members| ==> DistinctKeys(members[i].value)
  {
  }

  /** Two objects are the same map when each has the other's names and the values agree. */
  lemma SameMap(left: seq<Member>, right: seq<Member>)
    requires DistinctMembers(left) && DistinctMembers(right)
    ensures MembersMeaning(left) == MembersMeaning(right) <==>
              && (forall i :: 0 <= i < |right| ==> Find(left, right[i].key).Some?)
              && (forall i :: 0 <= i < |left| ==>
                    left[i].key in MembersMeaning(right) && MembersMeaning(right)[left[i].key] == Meaning(left[i].value))
  {
    hide MembersMeaning, Meaning, Find, DistinctMembers;
    var a, b := MembersMeaning(left), MembersMeaning(right);
    forall i | 0 <= i < |left| ensures left[i].key in a && a[left[i].key] == Meaning(left[i].value) {
      FindMember(left, i);
      MeaningOfMember(left, left[i].key);
    }
    forall i | 0 <= i < |right| ensures right[i].key in b && (right[i].key in a <==> Find(left, right[i].key).Some?) {
      FindMember(right, i);
      MeaningOfMember(right, right[i].key);
      MeaningOfMember(left, right[i].key);
    }
    forall key ensures key in a <==> exists i :: 0 <= i < |left| && left[i].key == key { NamedBy(left, key); }
    forall key ensures key in b <==> exists i :: 0 <= i < |right| && right[i].key == key { NamedBy(right, key); }
  }

  lemma NamedBy(members: seq<Member>, key: Text)
    ensures key in MembersMeaning(members) <==> exists i :: 0 <= i < |members| && members[i].key == key
  {
    MeaningOfMember(members, key);
    FindAt(members, key);
  }

  /** Rearranging the members of an object gives an equal object. */
  lemma MemberOrderIrrelevant(left: seq<Member>, right: seq<Member>)
    requires DistinctKeys(Object(left)) && multiset(left) == multiset(right)
    ensures JsonEqual(Object(left), Object(right))
  {
    hide JsonEqual, Find;
    assert forall m :: m in left <==> m in multiset(left);
    assert forall m :: m in right <==> m in multiset(right);
    Rearranged(left, right);
    EqualMembers(left, right);
    MembersDistinct(left);
    forall i | 0 <= i < |right| ensures Find(left, right[i].key).Some? {
      assert right[i] in right;
      FindAt(left, right[i].key);
    }
    forall i | 0 <= i < |left| ensures MemberMet(left[i], right) {
      assert left[i] in right;
      var j :| 0 <= j < |right| && right[j] == left[i];
      FindMember(right, j);
      EqualMeansSame(left[i].value, right[j].value);
    }
  }

  lemma {:induction false} Rearranged(left: seq<Member>, right: seq<Member>)
    requires DistinctMembers(left) && multiset(left) == multiset(right)
    ensures DistinctMembers(right)
  {
    forall i, j | 0 <= i < j < |right| ensures right[i].key != right[j].key {
      if right[i].key == right[j].key {
        RepeatedOrTwo(left, right, i, j);
      }
    }
  }

  lemma RepeatedOrTwo(left: seq<Member>, right: seq<Member>, i: nat, j: nat)
    requires multiset(left) == multiset(right) && i < j < |right| && right[i].key == right[j].key
    ensures !DistinctMembers(left)
  {
    var x, y := right[i], right[j];
    assert right == right[..i] + [x] + right[i + 1..j] + [y] + right[j + 1..];
    assert multiset(right) >= multiset{x, y};
    assert x in multiset(left) && y in multiset(left);
    if x == y {
      TwiceInside(left, x);
    } else {
      var k :| 0 <= k < |left| && left[k] == x;
      var l :| 0 <= l < |left| && left[l] == y;
      assert left[k].key == left[l].key && k != l;
    }
  }

  lemma {:induction false} TwiceInside(s: seq<Member>, x: Member)
    requires multiset(s)[x] >= 2
    ensures !DistinctMembers(s)
  {
    assert s == [s[0]] + s[1..];
    if s[0] == x {
      assert x in multiset(s[1..]);
      var k :| 0 <= k < |s[1..]| && s[1..][k] == x;
      assert s[k + 1].key == s[0].key;
    } else {
      TwiceInside(s[1..], x);
      var i, j :| 0 <= i < j < |s[1..]| && s[1..][i].key == s[1..][j].key;
      assert s[i + 1].key == s[j + 1].key;
    }
  }
}
