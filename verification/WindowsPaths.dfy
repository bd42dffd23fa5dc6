// The lexical rules hive.py puts on absolute Windows paths, and what they amount to.
module WindowsPaths {
  import opened Unicode
  import opened TextSplit

  const BACKSLASH: CodePoint := 0x5C
  const SLASH: CodePoint := 0x2F
  const COLON: CodePoint := 0x3A
  const DOT: CodePoint := 0x2E
  const SPACE: CodePoint := 0x20

  const MAX_COMPONENT: nat := 255

  const RESERVED: seq<string> := [
    "CON", "PRN", "AUX", "NUL",
    "COM1", "COM2", "COM3", "COM4", "COM5", "COM6", "COM7", "COM8", "COM9",
    "LPT1", "LPT2", "LPT3", "LPT4", "LPT5", "LPT6", "LPT7", "LPT8", "LPT9"]

  predicate Letter(c: CodePoint) {
    0x41 <= c <= 0x5A || 0x61 <= c <= 0x7A
  }

  /** One of `<>:"|?*`. */
  predicate InvalidCharacter(c: CodePoint) {
    c == 0x3C || c == 0x3E || c == COLON || c == 0x22 || c == 0x7C || c == 0x3F || c == 0x2A
  }

  /** `component.split(".", 1)[0]`. */
  function Stem(component: Text): Text {
    SplitOn(component, DOT)[0]
  }

  /** The last loop's conditions on one component; `upper` is Unicode upper-casing. */
  predicate ComponentOk(component: Text, upper: Text -> Text)
    requires component != []
  {
    && |Utf16(component)| <= 2 * MAX_COMPONENT
    && component[|component| - 1] != SPACE && component[|component| - 1] != DOT
    && (forall i :: 0 <= i < |component| ==> !InvalidCharacter(component[i]))
    && !exists i :: 0 <= i < |RESERVED| && Literal(RESERVED[i]) == upper(Stem(component))
  }

  /** `ntpath.splitdrive` gives a drive letter, and the tail starts with exactly one separator. */
  predicate DriveRooted(value: Text) {
    && |value| >= 3 && Letter(value[0]) && value[1] == COLON && value[2] == BACKSLASH
    && !(|value| >= 4 && value[3] == BACKSLASH)
  }

  function Components(value: Text): (parts: seq<Text>)
    requires |value| >= 3
    ensures |parts| >= 1
  {
    SplitOn(value[3..], BACKSLASH)
  }

  /** The components `ntpath.normpath` keeps below a root. */
  function Resolved(parts: seq<Text>, done: seq<Text>): seq<Text>
    decreases |parts|
  {
    if parts == [] then done
    else if parts[0] == [] || parts[0] == [DOT] then Resolved(parts[1..], done)
    else if parts[0] == [DOT, DOT] then Resolved(parts[1..], if done == [] then [] else done[..|done| - 1])
    else Resolved(parts[1..], done + [parts[0]])
  }

  function Normalised(value: Text): Text
    requires |value| >= 3
  {
    value[..3] + JoinOn(Resolved(Components(value), []), BACKSLASH)
  }

  /** `_windows_path` past its bounds on the text as a whole. */
  predicate WindowsPath(value: Text, upper: Text -> Text) {
    && (forall i :: 0 <= i < |value| ==> value[i] != SLASH)
    && DriveRooted(value)
    && var parts := Components(value);
       && (forall i :: 0 <= i < |parts| ==> parts[i] != [])
       && Normalised(value) == value && (forall i :: 0 <= i < |parts| ==> parts[i] != [DOT] && parts[i] != [DOT, DOT])
       && forall i :: 0 <= i < |parts| ==> ComponentOk(parts[i], upper)
  }

  // ---- the name of one file --------------------------------------------------------------------

  /** What comes before the first dot. */
  function BeforeDot(part: Text): Text {
    if part == [] || part[0] == '.' as int then [] else [part[0]] + BeforeDot(part[1..])
  }

  /** Names that Windows gives to devices, in any directory and with any extension. */
  predicate Device(name: Text) {
    || name == Literal("CON") || name == Literal("PRN") || name == Literal("AUX") || name == Literal("NUL")
    || (|name| == 4 && (name[..3] == Literal("COM") || name[..3] == Literal("LPT")) && '1' as int <= name[3] <= '9' as int)
  }

  /** A component as it may stand in a path: the name of a file that is no device. */
  predicate GoodPart(part: Text, upper: Text -> Text) {
    && part != [] && |Utf16(part)| <= 510
    && part[|part| - 1] != ' ' as int && part[|part| - 1] != '.' as int
    && (forall i :: 0 <= i < |part| ==>
          part[i] !in {'/' as int, '\\' as int, '<' as int, '>' as int, ':' as int, '"' as int, '|' as int, '?' as int, '*' as int})
    && !Device(upper(BeforeDot(part)))
  }

  lemma {:induction false} StemIs(part: Text)
    ensures Stem(part) == BeforeDot(part)
  {
    if part != [] && part[0] != DOT { StemIs(part[1..]); }
  }

  lemma ReservedIsDevice(i: nat)
    requires i < |RESERVED|
    ensures Device(Literal(RESERVED[i]))
  {
    if i >= 4 { PortsAre(i); }
  }

  lemma DeviceIsReserved(name: Text)
    requires Device(name)
    ensures exists i :: 0 <= i < |RESERVED| && Literal(RESERVED[i]) == name
  {
    hide Literal;
    if name == Literal("CON") || name == Literal("PRN") || name == Literal("AUX") || name == Literal("NUL") {
      assert Literal(RESERVED[0]) == name || Literal(RESERVED[1]) == name || Literal(RESERVED[2]) == name || Literal(RESERVED[3]) == name;
    } else {
      PortIsReserved(name);
    }
  }

  lemma PortIsReserved(name: Text)
    requires |name| == 4 && (name[..3] == Literal("COM") || name[..3] == Literal("LPT")) && '1' as int <= name[3] <= '9' as int
    ensures exists i :: 0 <= i < |RESERVED| && Literal(RESERVED[i]) == name
  {
    var i := name[3] - '1' as int + if name[..3] == Literal("COM") then 4 else 13;
    PortsAre(i);
    assert forall k :: 0 <= k < 3 ==> name[k] == name[..3][k];
    assert Literal(RESERVED[i]) == name;
  }

  lemma PortsAre(i: nat)
    requires 4 <= i < 22
    ensures var name := RESERVED[i];
            && |name| == 4 && name[..3] == (if i < 13 then "COM" else "LPT")
            && name[3] as int == '1' as int + if i < 13 then i - 4 else i - 13
  {
  }

  lemma GoodExactly(part: Text, upper: Text -> Text)
    ensures GoodPart(part, upper) <==> part != [] && ComponentOk(part, upper) && Without(part, SLASH) && Without(part, BACKSLASH)
  {
    hide Device, Literal, Utf16;
    StemIs(part);
    var stem := upper(BeforeDot(part));
    if Device(stem) { DeviceIsReserved(stem); }
    if i: nat :| i < |RESERVED| && Literal(RESERVED[i]) == stem { ReservedIsDevice(i); }
  }

  lemma {:induction false} ResolvedKeeps(parts: seq<Text>, done: seq<Text>)
    requires forall i :: 0 <= i < |parts| ==> parts[i] != [] && parts[i] != [DOT] && parts[i] != [DOT, DOT]
    ensures Resolved(parts, done) == done + parts
    decreases |parts|
  {
    if parts != [] {
      ResolvedKeeps(parts[1..], done + [parts[0]]);
      assert done + [parts[0]] + parts[1..] == done + parts;
    }
  }

  /** The normalisation check never decides: the checks of the components already imply it. */
  lemma NormalAlready(value: Text)
    requires |value| >= 3
    requires forall i :: 0 <= i < |Components(value)| ==>
               Components(value)[i] != [] && Components(value)[i] != [DOT] && Components(value)[i] != [DOT, DOT]
    ensures Normalised(value) == value
  {
    var parts := Components(value);
    ResolvedKeeps(parts, []);
    assert [] + parts == parts;
    JoinSplitOn(value[3..], BACKSLASH);
    assert value == value[..3] + value[3..];
  }

  /** A component that ends neither in a dot nor in a space is no dot component. */
  lemma NoDots(part: Text, upper: Text -> Text)
    requires part != [] && ComponentOk(part, upper)
    ensures part != [DOT] && part != [DOT, DOT]
  {
  }

  /** The path with this drive and these components. */
  function Built(drive: CodePoint, parts: seq<Text>): Text {
    [drive, COLON, BACKSLASH] + JoinOn(parts, BACKSLASH)
  }

  lemma {:induction false} JoinedWithout(parts: seq<Text>, c: CodePoint)
    requires c != BACKSLASH && forall i :: 0 <= i < |parts| ==> Without(parts[i], c)
    ensures Without(JoinOn(parts, BACKSLASH), c)
  {
    if |parts| > 1 { JoinedWithout(parts[1..], c); }
  }

  lemma {:induction false} SplitPartsWithout(s: Text, sep: CodePoint, c: CodePoint)
    requires Without(s, c)
    ensures forall i :: 0 <= i < |SplitOn(s, sep)| ==> Without(SplitOn(s, sep)[i], c)
  {
    if s != [] { SplitPartsWithout(s[1..], sep, c); }
  }

  /** Exactly the paths built of a drive letter and good components are accepted. */
  lemma BuiltIsAccepted(drive: CodePoint, parts: seq<Text>, upper: Text -> Text)
    requires Letter(drive) && parts != [] && forall i :: 0 <= i < |parts| ==> GoodPart(parts[i], upper)
    ensures WindowsPath(Built(drive, parts), upper) && Components(Built(drive, parts)) == parts
  {
    hide ComponentOk, GoodPart;
    var value := Built(drive, parts);
    forall i | 0 <= i < |parts|
      ensures Without(parts[i], BACKSLASH) && Without(parts[i], SLASH) && parts[i] != [] && ComponentOk(parts[i], upper)
      ensures parts[i] != [DOT] && parts[i] != [DOT, DOT]
    {
      GoodExactly(parts[i], upper);
      NoDots(parts[i], upper);
    }
    assert value[3..] == JoinOn(parts, BACKSLASH);
    SplitJoinOn(parts, BACKSLASH);
    JoinedWithout(parts, SLASH);
    FirstOfJoin(parts);
    NormalAlready(value);
  }

  lemma FirstOfJoin(parts: seq<Text>)
    requires parts != [] && parts[0] != [] && Without(parts[0], BACKSLASH)
    ensures JoinOn(parts, BACKSLASH) != [] && JoinOn(parts, BACKSLASH)[0] != BACKSLASH
  {
  }

  lemma AcceptedIsBuilt(value: Text, upper: Text -> Text)
    requires WindowsPath(value, upper)
    ensures |value| >= 3 && Letter(value[0]) && value == Built(value[0], Components(value))
    ensures forall i :: 0 <= i < |Components(value)| ==> GoodPart(Components(value)[i], upper)
  {
    hide ComponentOk, GoodPart;
    JoinSplitOn(value[3..], BACKSLASH);
    assert Without(value[3..], SLASH);
    SplitPartsWithout(value[3..], BACKSLASH, SLASH);
    assert value == value[..3] + value[3..] && value[..3] == [value[0], COLON, BACKSLASH];
    forall i | 0 <= i < |Components(value)| ensures GoodPart(Components(value)[i], upper) {
      assert Without(Components(value)[i], SLASH) && Without(Components(value)[i], BACKSLASH);
      GoodExactly(Components(value)[i], upper);
    }
  }
}
