// JSON Pointer references (RFC 6901) as scanner_attestation.py resolves them: reference tokens are
// decoded by two whole-string replacements.
module JsonPointer {
  import opened Unicode
  import opened Wrappers
  import opened TextSplit
  import opened RelativePaths
  import opened Json

  const TILDE: CodePoint := 0x7E
  const ZERO: CodePoint := 0x30
  const ONE: CodePoint := 0x31

  /** `s.replace("~" + digit, with)`: leftmost first, without overlaps. */
  function ReplacePair(s: Text, digit: CodePoint, with: CodePoint): Text {
    if |s| < 2 then s
    else if s[0] == TILDE && s[1] == digit then [with] + ReplacePair(s[2..], digit, with)
    else [s[0]] + ReplacePair(s[1..], digit, with)
  }

  /** How a reference token becomes a member name: in the order of section 4 of RFC 6901. */
  function DecodeToken(token: Text): Text {
    ReplacePair(ReplacePair(token, ONE, SLASH), ZERO, TILDE)
  }

  /** Section 3 of RFC 6901: `~` is written `~0` and `/` is written `~1`. */
  function EncodeToken(name: Text): Text {
    if name == [] then []
    else
      (if name[0] == TILDE then [TILDE, ZERO] else if name[0] == SLASH then [TILDE, ONE] else [name[0]]) + EncodeToken(name[1..])
  }

  /** A token with its slashes decoded and its tildes not. */
  function HalfDecoded(name: Text): Text {
    if name == [] then []
    else (if name[0] == TILDE then [TILDE, ZERO] else [name[0]]) + HalfDecoded(name[1..])
  }

  lemma ReplaceHead(x: CodePoint, s: Text, digit: CodePoint, with: CodePoint)
    requires x != TILDE
    ensures ReplacePair([x] + s, digit, with) == [x] + ReplacePair(s, digit, with)
  {
    assert ([x] + s)[1..] == s;
  }

  lemma ReplaceEscape(d: CodePoint, s: Text, digit: CodePoint, with: CodePoint)
    requires d != TILDE
    ensures ReplacePair([TILDE, d] + s, digit, with)
         == (if d == digit then [with] else [TILDE, d]) + ReplacePair(s, digit, with)
  {
    var t := [TILDE, d] + s;
    assert t[1..] == [d] + s && t[2..] == s;
    ReplaceHead(d, s, digit, with);
    if d != digit { assert [TILDE] + ([d] + ReplacePair(s, digit, with)) == [TILDE, d] + ReplacePair(s, digit, with); }
  }

  lemma {:induction false} FirstPass(name: Text)
    ensures ReplacePair(EncodeToken(name), ONE, SLASH) == HalfDecoded(name)
  {
    if name != [] {
      var rest := EncodeToken(name[1..]);
      FirstPass(name[1..]);
      if name[0] == TILDE { ReplaceEscape(ZERO, rest, ONE, SLASH); }
      else if name[0] == SLASH { ReplaceEscape(ONE, rest, ONE, SLASH); }
      else { ReplaceHead(name[0], rest, ONE, SLASH); }
    }
  }

  lemma {:induction false} SecondPass(name: Text)
    ensures ReplacePair(HalfDecoded(name), ZERO, TILDE) == name
  {
    if name != [] {
      var rest := HalfDecoded(name[1..]);
      SecondPass(name[1..]);
      assert name == [name[0]] + name[1..];
      if name[0] == TILDE { ReplaceEscape(ZERO, rest, ZERO, TILDE); } else { ReplaceHead(name[0], rest, ZERO, TILDE); }
    }
  }

  /** Decoding inverts encoding for every name, including names that contain escapes themselves. */
  lemma DecodeEncode(name: Text)
    ensures DecodeToken(EncodeToken(name)) == name
  {
    FirstPass(name);
    SecondPass(name);
  }

  /** The order of the passes matters: the other order turns the name `~1` into `/`. */
  lemma PassOrderMatters()
    ensures var name := [TILDE, ONE];
            ReplacePair(ReplacePair(EncodeToken(name), ZERO, TILDE), ONE, SLASH) == [SLASH] != name
  {
    var name := [TILDE, ONE];
    assert name[1..] == [ONE] && [ONE][1..] == [];
    assert EncodeToken([]) == [] && EncodeToken([ONE]) == [ONE] + EncodeToken([]);
    assert EncodeToken(name) == [TILDE, ZERO] + EncodeToken([ONE]);
    ReplaceEscape(ZERO, [ONE], ZERO, TILDE);
    assert [TILDE] + [ONE] == [TILDE, ONE] + [];
    ReplaceEscape(ONE, [], ONE, SLASH);
  }

  lemma {:induction false} EncodedHasNoSlash(name: Text)
    ensures Without(EncodeToken(name), SLASH)
  {
    if name != [] { EncodedHasNoSlash(name[1..]); }
  }

  // ---- references ----------------------------------------------------------------------------

  const START: Text := [0x23, SLASH]

  /** The loop over the encoded parts of a reference. */
  function Walk(value: Json, encoded: seq<Text>): Option<Json>
    decreases |encoded|
  {
    if encoded == [] then Some(value)
    else
      match Get(value, DecodeToken(encoded[0]))
      case None => None
      case Some(inner) => Walk(inner, encoded[1..])
  }

  /** `_resolve_schema_ref`: the object a reference names, unless it raises. */
  function ResolveRef(root: Json, reference: Text): Option<Json> {
    if !(START <= reference) then None
    else
      match Walk(root, Split(reference[2..]))
      case None => None
      case Some(value) => if value.Object? then Some(value) else None
  }

  /** Following member names from a document. */
  function Follow(value: Json, names: seq<Text>): Option<Json>
    decreases |names|
  {
    if names == [] then Some(value)
    else
      match Get(value, names[0])
      case None => None
      case Some(inner) => Follow(inner, names[1..])
  }

  function EncodeAll(names: seq<Text>): (tokens: seq<Text>)
    ensures |tokens| == |names|
  {
    seq(|names|, i requires 0 <= i < |names| => EncodeToken(names[i]))
  }

  /** The JSON Pointer to the value under these member names. */
  function Pointer(names: seq<Text>): Text {
    START + Join(EncodeAll(names))
  }

  lemma {:induction false} WalkEncoded(value: Json, names: seq<Text>)
    ensures Walk(value, EncodeAll(names)) == Follow(value, names)
    decreases |names|
  {
    hide Get, DecodeToken, EncodeToken;
    if names != [] {
      DecodeEncode(names[0]);
      assert EncodeAll(names)[1..] == EncodeAll(names[1..]);
      match Get(value, names[0])
      case None =>
      case Some(inner) => WalkEncoded(inner, names[1..]);
    }
  }

  /** A JSON Pointer built from member names resolves to the object they lead to, whatever characters the
      names contain. */
  lemma PointerResolves(root: Json, names: seq<Text>)
    requires names != []
    ensures ResolveRef(root, Pointer(names))
         == match Follow(root, names) case None => None case Some(v) => if v.Object? then Some(v) else None
  {
    hide EncodeToken, Walk, Follow, Split, Join;
    var tokens := EncodeAll(names);
    forall i | 0 <= i < |tokens| ensures NoSlash(tokens[i]) { EncodedHasNoSlash(names[i]); }
    SplitJoin(tokens);
    assert Pointer(names)[2..] == Join(tokens);
    WalkEncoded(root, names);
  }

  /** The member names a reference steps through. */
  function Tokens(reference: Text): (names: seq<Text>)
    requires START <= reference
  {
    Decoded(Split(reference[2..]))
  }

  function Decoded(encoded: seq<Text>): (names: seq<Text>)
    ensures |names| == |encoded|
  {
    seq(|encoded|, i requires 0 <= i < |encoded| => DecodeToken(encoded[i]))
  }

  lemma {:induction false} WalkDecoded(v: Json, encoded: seq<Text>)
    ensures Walk(v, encoded) == Follow(v, Decoded(encoded))
    decreases |encoded|
  {
    hide Get, DecodeToken;
    if encoded != [] {
      assert Decoded(encoded)[1..] == Decoded(encoded[1..]);
      match Get(v, DecodeToken(encoded[0]))
      case None =>
      case Some(inner) => WalkDecoded(inner, encoded[1..]);
    }
  }

  lemma ResolveFollows(root: Json, reference: Text, v: Json)
    ensures ResolveRef(root, reference) == Some(v) <==>
              START <= reference && Follow(root, Tokens(reference)) == Some(v) && v.Object?
  {
    hide Walk, Follow, Split, Decoded;
    if START <= reference { WalkDecoded(root, Split(reference[2..])); }
  }
}
