// `str.split` and `str.join` with a one-character separator, and that they are inverse.
module TextSplit {
  import opened Unicode

  /** `s.split(sep)`. */
  function SplitOn(s: Text, sep: CodePoint): (parts: seq<Text>)
    ensures |parts| >= 1
  {
    if s == [] then [[]]
    else
      var rest := SplitOn(s[1..], sep);
      if s[0] == sep then [[]] + rest else [[s[0]] + rest[0]] + rest[1..]
  }

  /** `sep.join(parts)`. */
  function JoinOn(parts: seq<Text>, sep: CodePoint): Text {
    if parts == [] then []
    else if |parts| == 1 then parts[0]
    else parts[0] + [sep] + JoinOn(parts[1..], sep)
  }

  predicate Without(t: Text, sep: CodePoint) {
    forall i :: 0 <= i < |t| ==> t[i] != sep
  }

  lemma {:induction false} JoinSplitOn(s: Text, sep: CodePoint)
    ensures JoinOn(SplitOn(s, sep), sep) == s
    ensures forall i :: 0 <= i < |SplitOn(s, sep)| ==> Without(SplitOn(s, sep)[i], sep)
  {
    if s != [] {
      JoinSplitOn(s[1..], sep);
      var rest := SplitOn(s[1..], sep);
      assert s == [s[0]] + s[1..];
      if s[0] == sep {
        assert ([[]] + rest)[1..] == rest;
        assert [] + [sep] + s[1..] == s;
      } else {
        var first := [s[0]] + rest[0];
        assert ([first] + rest[1..])[1..] == rest[1..];
        if |rest| > 1 { assert [s[0]] + (rest[0] + [sep] + JoinOn(rest[1..], sep)) == first + [sep] + JoinOn(rest[1..], sep); }
      }
    }
  }

  lemma {:induction false} SplitWithout(t: Text, sep: CodePoint)
    requires Without(t, sep)
    ensures SplitOn(t, sep) == [t]
  {
    if t != [] {
      SplitWithout(t[1..], sep);
      assert t == [t[0]] + t[1..];
    }
  }

  lemma {:induction false} SplitFirst(t: Text, rest: Text, sep: CodePoint)
    requires Without(t, sep)
    ensures SplitOn(t + [sep] + rest, sep) == [t] + SplitOn(rest, sep)
  {
    if t == [] {
      assert [] + [sep] + rest == [sep] + rest;
      assert ([sep] + rest)[1..] == rest;
    } else {
      SplitFirst(t[1..], rest, sep);
      var s := t + [sep] + rest;
      assert s[1..] == t[1..] + [sep] + rest;
      assert t == [t[0]] + t[1..];
      assert SplitOn(s[1..], sep)[0] == t[1..] && SplitOn(s[1..], sep)[1..] == SplitOn(rest, sep);
    }
  }

  lemma {:induction false} SplitJoinOn(parts: seq<Text>, sep: CodePoint)
    requires parts != [] && forall i :: 0 <= i < |parts| ==> Without(parts[i], sep)
    ensures SplitOn(JoinOn(parts, sep), sep) == parts
  {
    if |parts| == 1 {
      SplitWithout(parts[0], sep);
      assert parts == [parts[0]];
    } else {
      SplitJoinOn(parts[1..], sep);
      SplitFirst(parts[0], JoinOn(parts[1..], sep), sep);
      assert parts == [parts[0]] + parts[1..];
    }
  }

  /** Every character of a text other than the separator is in one of its parts. */
  lemma {:induction false} SplitCovers(s: Text, sep: CodePoint, i: nat) returns (j: nat, k: nat)
    requires i < |s| && s[i] != sep
    ensures j < |SplitOn(s, sep)| && k < |SplitOn(s, sep)[j]| && SplitOn(s, sep)[j][k] == s[i]
  {
    if i == 0 {
      j, k := 0, 0;
    } else {
      j, k := SplitCovers(s[1..], sep, i - 1);
      if s[0] == sep { j := j + 1; }
      else if j == 0 { k := k + 1; }
    }
  }
}
