// Python text as a sequence of code points, with the two Unicode encodings the repository
// writes.  Code points include the surrogates, which strict encoding refuses.
module Unicode {
  import opened Bytes
  import opened Wrappers

  type CodePoint = x: int | 0 <= x < 0x11_0000

  type Text = seq<CodePoint>

  /** The code points of a literal. */
  function Literal(s: string): (t: Text)
    ensures |t| == |s|
  {
    seq(|s|, i requires 0 <= i < |s| => s[i] as int)
  }

  predicate IsSurrogate(c: CodePoint) {
    0xD800 <= c <= 0xDFFF
  }

  /** What `encode(..., errors="strict")` demands of its argument. */
  predicate Encodable(t: Text) {
    forall i :: 0 <= i < |t| ==> !IsSurrogate(t[i])
  }

  predicate IsAscii(t: Text) {
    forall i :: 0 <= i < |t| ==> t[i] < 0x80
  }

  // ---- UTF-16LE ----------------------------------------------------------------------------

  function Utf16Unit(c: CodePoint): (s: Octets)
    ensures |s| == if c < 0x1_0000 then 2 else 4
  {
    if c < 0x1_0000 then [c % 256, c / 256]
    else
      var high, low := 0xD800 + (c - 0x1_0000) / 0x400, 0xDC00 + (c - 0x1_0000) % 0x400;
      [high % 256, high / 256, low % 256, low / 256]
  }

  function Utf16(t: Text): Octets {
    if t == [] then [] else Utf16Unit(t[0]) + Utf16(t[1..])
  }

  function FromUtf16(s: Octets): Option<Text> {
    if s == [] then Some([])
    else if |s| < 2 then None
    else
      var u := (s[0] as int) + 256 * (s[1] as int);
      if 0xD800 <= u < 0xDC00 then
        if |s| < 4 then None
        else
          var v := (s[2] as int) + 256 * (s[3] as int);
          if !(0xDC00 <= v < 0xE000) then None
          else
            match FromUtf16(s[4..])
            case None => None
            case Some(rest) => Some([0x1_0000 + (u - 0xD800) * 0x400 + (v - 0xDC00)] + rest)
      else if 0xDC00 <= u < 0xE000 then None
      else
        match FromUtf16(s[2..])
        case None => None
        case Some(rest) => Some([u] + rest)
  }

  lemma {:induction false} Utf16RoundTrip(t: Text)
    requires Encodable(t)
    ensures FromUtf16(Utf16(t)) == Some(t)
  {
    if t != [] {
      Utf16RoundTrip(t[1..]);
      var head, rest := Utf16Unit(t[0]), Utf16(t[1..]);
      assert Utf16(t)[|head|..] == rest;
      assert t == [t[0]] + t[1..];
    }
  }

  // ---- UTF-8 -------------------------------------------------------------------------------

  function Utf8Unit(c: CodePoint): (s: Octets)
    ensures 1 <= |s| <= 4
  {
    var q1 := c / 0x40;
    var q2 := q1 / 0x40;
    if c < 0x80 then [c]
    else if c < 0x800 then [0xC0 + q1, 0x80 + c % 0x40]
    else if c < 0x1_0000 then [0xE0 + q2, 0x80 + q1 % 0x40, 0x80 + c % 0x40]
    else [0xF0 + q2 / 0x40, 0x80 + q2 % 0x40, 0x80 + q1 % 0x40, 0x80 + c % 0x40]
  }

  function Utf8(t: Text): (s: Octets)
    ensures |s| >= |t|
  {
    if t == [] then [] else Utf8Unit(t[0]) + Utf8(t[1..])
  }

  /** The first octet of a code point's encoding tells how many octets it has. */
  lemma Utf8UnitPrefixFree(c: CodePoint, d: CodePoint, x: Octets, y: Octets)
    requires Utf8Unit(c) + x == Utf8Unit(d) + y
    ensures c == d && x == y
  {
    var s := Utf8Unit(c) + x;
    assert s[0] == Utf8Unit(c)[0] == Utf8Unit(d)[0];
    assert |Utf8Unit(c)| == |Utf8Unit(d)|;
    var n := |Utf8Unit(c)|;
    assert Utf8Unit(c) == s[..n] == Utf8Unit(d);
    assert x == s[n..] == y;
    Utf8UnitInjective(c, d);
  }

  lemma Utf8UnitInjective(c: CodePoint, d: CodePoint)
    requires Utf8Unit(c) == Utf8Unit(d)
    ensures c == d
  {
    var x, y := Utf8Unit(c), Utf8Unit(d);
    assert x[0] == y[0];
    if |x| >= 2 { assert x[1] == y[1]; }
    if |x| >= 3 { assert x[2] == y[2]; }
    if |x| == 4 { assert x[3] == y[3]; }
  }

  lemma {:induction false} Utf8Injective(t: Text, u: Text)
    requires Utf8(t) == Utf8(u)
    ensures t == u
  {
    if t != [] && u != [] {
      Utf8UnitPrefixFree(t[0], u[0], Utf8(t[1..]), Utf8(u[1..]));
      Utf8Injective(t[1..], u[1..]);
      assert t == [t[0]] + t[1..] && u == [u[0]] + u[1..];
    }
  }
}
