// The order Python sorts text in: lexicographic by code point.  Sorted sequences are unique, so
// "sorted" names one result however it was reached.
module TextOrder {
  import opened Unicode

  predicate Before(a: Text, b: Text) {
    b != [] && (a == [] || a[0] < b[0] || (a[0] == b[0] && Before(a[1..], b[1..])))
  }

  lemma {:induction false} BeforeIrreflexive(a: Text)
    ensures !Before(a, a)
  {
    if a != [] { BeforeIrreflexive(a[1..]); }
  }

  lemma {:induction false} BeforeTransitive(a: Text, b: Text, c: Text)
    requires Before(a, b) && Before(b, c)
    ensures Before(a, c)
  {
    if a != [] && a[0] == b[0] == c[0] { BeforeTransitive(a[1..], b[1..], c[1..]); }
  }

  lemma BeforeAsymmetric(a: Text, b: Text)
    requires Before(a, b)
    ensures !Before(b, a) && a != b
  {
    BeforeIrreflexive(a);
    if Before(b, a) { BeforeTransitive(a, b, a); }
  }

  lemma {:induction false} BeforeTotal(a: Text, b: Text)
    ensures a == b || Before(a, b) || Before(b, a)
  {
    if a != [] && b != [] && a[0] == b[0] {
      BeforeTotal(a[1..], b[1..]);
      assert a == [a[0]] + a[1..] && b == [b[0]] + b[1..];
    }
  }

  predicate Ascending(s: seq<Text>) {
    forall i, j :: 0 <= i < j < |s| ==> s[i] == s[j] || Before(s[i], s[j])
  }

  predicate Distinct<T(==)>(s: seq<T>) {
    forall i, j :: 0 <= i < j < |s| ==> s[i] != s[j]
  }

  lemma DistinctConcat<T>(a: seq<T>, b: seq<T>)
    requires Distinct(a) && Distinct(b) && forall x <- a, y <- b :: x != y
    ensures Distinct(a + b)
  {
    var s := a + b;
    forall i, j | 0 <= i < j < |s| ensures s[i] != s[j] {
      assert i < |a| ==> s[i] in a;
      assert j >= |a| ==> s[j] == b[j - |a|] && s[j] in b;
    }
  }

  /** `sorted(s)`. */
  function Sort(s: seq<Text>): (r: seq<Text>)
    ensures Ascending(r) && multiset(r) == multiset(s) && |r| == |s|
  {
    if s == [] then []
    else
      assert s == [s[0]] + s[1..];
      Insert(s[0], Sort(s[1..]))
  }

  function Insert(x: Text, s: seq<Text>): (r: seq<Text>)
    requires Ascending(s)
    ensures Ascending(r) && multiset(r) == multiset(s) + multiset{x} && |r| == |s| + 1
  {
    if s == [] then [x]
    else if x == s[0] || Before(x, s[0]) then
      InsertFirst(x, s);
      [x] + s
    else
      BeforeTotal(x, s[0]);
      InsertLater(x, s, Insert(x, s[1..]));
      [s[0]] + Insert(x, s[1..])
  }

  lemma InsertFirst(x: Text, s: seq<Text>)
    requires Ascending(s) && s != [] && (x == s[0] || Before(x, s[0]))
    ensures Ascending([x] + s) && multiset([x] + s) == multiset(s) + multiset{x}
  {
    hide Before;
    var r := [x] + s;
    forall i, j | 0 <= i < j < |r| ensures r[i] == r[j] || Before(r[i], r[j]) {
      if i == 0 && j > 1 && x != s[0] && s[0] != s[j - 1] { BeforeTransitive(x, s[0], s[j - 1]); }
    }
  }

  lemma InsertLater(x: Text, s: seq<Text>, rest: seq<Text>)
    requires Ascending(s) && s != [] && Before(s[0], x)
    requires Ascending(rest) && multiset(rest) == multiset(s[1..]) + multiset{x}
    ensures Ascending([s[0]] + rest) && multiset([s[0]] + rest) == multiset(s) + multiset{x}
  {
    hide Before;
    var r := [s[0]] + rest;
    assert s == [s[0]] + s[1..];
    forall i, j | 0 <= i < j < |r| ensures r[i] == r[j] || Before(r[i], r[j]) {
      if i == 0 {
        assert rest[j - 1] in multiset(rest);
        assert rest[j - 1] == x || rest[j - 1] in s[1..];
        if rest[j - 1] != x {
          var k :| 0 <= k < |s[1..]| && s[1..][k] == rest[j - 1];
          assert s[k + 1] == rest[j - 1];
        }
      }
    }
  }

  lemma LeastIsFirst(a: seq<Text>, b: seq<Text>)
    requires Ascending(a) && Ascending(b) && a != [] && b != []
    requires b[0] in a && a[0] in b
    ensures a[0] == b[0]
  {
    hide Before;
    var i :| 0 <= i < |b| && b[i] == a[0];
    var j :| 0 <= j < |a| && a[j] == b[0];
    if a[0] != b[0] { BeforeAsymmetric(a[0], b[0]); }
  }

  lemma TailMultiset(a: seq<Text>)
    requires a != []
    ensures multiset(a[1..]) == multiset(a) - multiset{a[0]}
  {
    assert a == [a[0]] + a[1..];
  }

  /** There is one ascending arrangement of a bag of texts. */
  lemma {:induction false} AscendingUnique(a: seq<Text>, b: seq<Text>)
    requires Ascending(a) && Ascending(b) && multiset(a) == multiset(b)
    ensures a == b
  {
    hide Before;
    assert |multiset(a)| == |a| && |multiset(b)| == |b|;
    if a != [] {
      assert a[0] in multiset(b) && b[0] in multiset(a);
      LeastIsFirst(a, b);
      TailMultiset(a);
      TailMultiset(b);
      AscendingUnique(a[1..], b[1..]);
      assert a == [a[0]] + a[1..] && b == [b[0]] + b[1..];
    }
  }

  lemma SortIsUnique(s: seq<Text>, r: seq<Text>)
    requires Ascending(r) && multiset(r) == multiset(s)
    ensures Sort(s) == r
  {
    AscendingUnique(Sort(s), r);
  }

  lemma SortKeepsDistinct(s: seq<Text>)
    requires Distinct(s)
    ensures Distinct(Sort(s)) && (forall x :: x in Sort(s) <==> x in s)
  {
    var r := Sort(s);
    assert forall x :: x in r <==> x in multiset(r);
    assert forall x :: x in s <==> x in multiset(s);
    DistinctMultiset(s);
    MultisetDistinct(r);
  }

  lemma {:induction false} DistinctMultiset<T>(s: seq<T>)
    requires Distinct(s)
    ensures forall x :: multiset(s)[x] <= 1
  {
    if s != [] {
      assert s == [s[0]] + s[1..];
      assert s[0] !in s[1..];
      assert multiset(s)[s[0]] == 1 + multiset(s[1..])[s[0]];
      DistinctMultiset(s[1..]);
      assert forall x :: x != s[0] ==> multiset(s)[x] == multiset(s[1..])[x];
    }
  }

  lemma {:induction false} MultisetDistinct<T>(s: seq<T>)
    requires forall x :: multiset(s)[x] <= 1
    ensures Distinct(s)
  {
    if s != [] {
      assert s == [s[0]] + s[1..];
      assert forall x :: multiset(s[1..])[x] <= multiset(s)[x];
      MultisetDistinct(s[1..]);
      assert multiset(s)[s[0]] == 1 + multiset(s[1..])[s[0]];
    }
  }

  /** Distinct sequences over the same elements are permutations of each other. */
  lemma SameElementsPermuted<T(!new)>(a: seq<T>, b: seq<T>)
    requires Distinct(a) && Distinct(b)
    requires forall x :: x in a <==> x in b
    ensures multiset(a) == multiset(b)
  {
    DistinctMultiset(a);
    DistinctMultiset(b);
    forall x ensures multiset(a)[x] == multiset(b)[x] {
      assert (x in a <==> multiset(a)[x] > 0) && (x in b <==> multiset(b)[x] > 0);
    }
  }

  /** Distinct ascending sequences over the same elements are equal. */
  lemma SameElementsSame(a: seq<Text>, b: seq<Text>)
    requires Ascending(a) && Ascending(b) && Distinct(a) && Distinct(b)
    requires forall x :: x in a <==> x in b
    ensures a == b
  {
    SameElementsPermuted(a, b);
    AscendingUnique(a, b);
  }

  lemma MultisetSplit<T>(a: seq<T>, b: seq<T>)
    ensures multiset(a + b) == multiset(a) + multiset(b)
  {
  }

  /** The first element of one arrangement, found and removed in another. */
  lemma TakeOut<T>(a: seq<T>, c: seq<T>) returns (i: nat)
    requires a != [] && multiset(a) == multiset(c)
    ensures i < |c| && c[i] == a[0] && c == c[..i] + ([c[i]] + c[i + 1..])
    ensures multiset(a[1..]) == multiset(c[..i] + c[i + 1..])
  {
    assert [a[0]] + a[1..] == a;
    MultisetSplit([a[0]], a[1..]);
    assert a[0] in multiset(c);
    i :| 0 <= i < |c| && c[i] == a[0];
    var before, after := c[..i], c[i + 1..];
    assert c == before + ([c[i]] + after);
    MultisetSplit(before, [c[i]] + after);
    MultisetSplit([c[i]], after);
    MultisetSplit(before, after);
    MultisetCancel(multiset([a[0]]), multiset(a[1..]), multiset(before) + multiset(after));
  }

  lemma MultisetCancel<T>(x: multiset<T>, a: multiset<T>, b: multiset<T>)
    requires x + a == x + b
    ensures a == b
  {
    assert a == (x + a) - x;
    assert b == (x + b) - x;
  }
}
