// Extended Bash history: the writer of artifacts/linux.py and the independent reader of
// gates/oracles/bash_history_subset.py are inverse to each other.
module History {
  import opened Bytes
  import opened Unicode
  import opened Wrappers
  import opened TextOrder
  import opened TextSplit
  import opened RelativePaths

  const MAX_BYTES: nat := 1024 * 1024
  const MAX_RECORDS: nat := 1024
  const MAX_RESIDENTS: nat := 128
  const MAX_LINE: nat := 4096
  const MAX_PATH: nat := 1024
  const MAX_EPOCH: nat := 0x8000_0000_0000_0000

  const NEWLINE: CodePoint := 0x0A
  const HASH: CodePoint := 0x23
  const QUOTE: CodePoint := 0x27

  // ---- permitted commands --------------------------------------------------------------------

  predicate Upper(c: CodePoint) { 0x41 <= c <= 0x5A }
  predicate Lower(c: CodePoint) { 0x61 <= c <= 0x7A }
  predicate Digit(c: CodePoint) { 0x30 <= c <= 0x39 }

  /** `[A-Za-z0-9._+@-]`. */
  predicate PathChar(c: CodePoint) {
    Upper(c) || Lower(c) || Digit(c) || c == 0x2E || c == 0x5F || c == 0x2B || c == 0x40 || c == 0x2D
  }

  /** `[A-Z0-9._-]`. */
  predicate TokenChar(c: CodePoint) {
    Upper(c) || Digit(c) || c == 0x2E || c == 0x5F || c == 0x2D
  }

  function MarkerStart(): Text {
    Literal(": 'ARTIFACTFORGE-SYNTHETIC-")
  }

  /** The no-op disclosure form: a token of 1 to 64 characters between the start and a quote. */
  predicate IsMarker(c: Text) {
    var n := |MarkerStart()|;
    && n + 2 <= |c| <= n + 65
    && c[..n] == MarkerStart() && c[|c| - 1] == QUOTE
    && (Upper(c[n]) || Digit(c[n]))
    && forall i :: n <= i < |c| - 1 ==> TokenChar(c[i])
  }

  predicate PathPart(part: Text) {
    part != [] && part != [DOT] && part != [DOT, DOT] && forall i :: 0 <= i < |part| ==> PathChar(part[i])
  }

  function Meaningful(parts: Parts): Parts {
    if parts == [] then []
    else (if parts[0] == [] || parts[0] == [DOT] then [] else [parts[0]]) + Meaningful(parts[1..])
  }

  /** `PurePosixPath(value).as_posix()` of an absolute path with one leading slash. */
  function AsPosix(value: Text): Text {
    [SLASH] + Join(Meaningful(Split(value)[1..]))
  }

  /** `_absolute_program_path` returns. */
  predicate ProgramPath(value: Text) {
    && IsAscii(value)
    && 2 <= |value| <= MAX_PATH && value[0] == SLASH && value[1] != SLASH && value[|value| - 1] != SLASH
    && Without(value, BACKSLASH)
    && AsPosix(value) == value
    && |Split(value)| > 1
    && forall i :: 1 <= i < |Split(value)| ==> PathPart(Split(value)[i])
  }

  const DANGEROUS: seq<string> := [
    ".", "bash", "dash", "doas", "eval", "exec", "fish", "ksh", "perl", "python", "python2", "python3", "ruby", "sh",
    "source", "su", "sudo", "xargs", "zsh", "curl", "ftp", "nc", "ncat", "netcat", "rsync", "scp", "sftp", "socat", "ssh",
    "telnet", "wget", "cfdisk", "dd", "fdisk", "halt", "kill", "killall", "mkfs", "parted", "pkill", "poweroff", "reboot",
    "rm", "rmdir", "sfdisk", "shutdown", "shred", "unlink", "wipefs"]

  predicate Dangerous(name: Text) {
    || (exists i :: 0 <= i < |DANGEROUS| && Literal(DANGEROUS[i]) == name)
    || Literal("mkfs.") <= name
  }

  /** `_safe_resident_path` returns. */
  predicate SafeResident(value: Text) {
    ProgramPath(value) && !Dangerous(Fold(Split(value)[|Split(value)| - 1]))
  }

  /** `_resident_allowlist` returns. */
  predicate Allowlist(residents: seq<Text>) {
    && 1 <= |residents| <= MAX_RESIDENTS
    && (forall i :: 0 <= i < |residents| ==> SafeResident(residents[i]))
    && Distinct(residents)
  }

  /** `_safe_history_command` returns. */
  predicate Permitted(command: Text, residents: seq<Text>) {
    IsAscii(command) && (IsMarker(command) || (SafeResident(command) && command in residents))
  }

  /** Characters that can be in a line of the file. */
  predicate LineChar(c: CodePoint) {
    0x20 <= c < 0x7F
  }

  predicate IsLine(line: Text) {
    line != [] && forall i :: 0 <= i < |line| ==> LineChar(line[i])
  }

  lemma MarkerIsLine(c: Text)
    requires IsMarker(c)
    ensures IsLine(c) && c[0] != HASH
  {
    var start := MarkerStart();
    var n := |start|;
    forall i | 0 <= i < n ensures LineChar(c[i]) && (i == 0 ==> c[i] != HASH) {
      assert c[i] == c[..n][i] == start[i];
    }
  }

  lemma PathIsLine(c: Text)
    requires ProgramPath(c)
    ensures IsLine(c) && c[0] != HASH
  {
    hide AsPosix;
    forall i | 0 <= i < |c| ensures LineChar(c[i]) {
      if c[i] != SLASH {
        var j, k := SplitCovers(c, SLASH, i);
        assert Split(c)[j][k] == c[i];
        if j == 0 { FirstPart(c); } else { assert PathPart(Split(c)[j]); }
      }
    }
  }

  lemma FirstPart(c: Text)
    requires c != [] && c[0] == SLASH
    ensures Split(c)[0] == []
  {
  }

  /** A permitted command is one line and cannot be taken for a time stamp. */
  lemma PermittedIsLine(c: Text, residents: seq<Text>)
    requires Permitted(c, residents)
    ensures IsLine(c) && c[0] != HASH
  {
    hide ProgramPath, IsMarker, Dangerous;
    if IsMarker(c) { MarkerIsLine(c); } else { PathIsLine(c); }
  }

  lemma {:induction false} MeaningfulAll(parts: Parts)
    requires forall i :: 0 <= i < |parts| ==> PathPart(parts[i])
    ensures Meaningful(parts) == parts
  {
    if parts != [] { MeaningfulAll(parts[1..]); }
  }

  /** The normalisation check never decides: the component checks already imply it. */
  lemma AlreadyNormal(value: Text)
    requires value != [] && value[0] == SLASH && |Split(value)| > 1
    requires forall i :: 1 <= i < |Split(value)| ==> PathPart(Split(value)[i])
    ensures AsPosix(value) == value
  {
    FirstPart(value);
    JoinSplit(value);
    MeaningfulAll(Split(value)[1..]);
    assert [] + [SLASH] == [SLASH];
  }

  // ---- decimal numbers -----------------------------------------------------------------------

  /** `f"{n}"`. */
  function Decimal(n: nat): (t: Text)
    ensures t != []
    ensures forall i :: 0 <= i < |t| ==> Digit(t[i])
  {
    if n < 10 then [0x30 + n] else Decimal(n / 10) + [0x30 + n % 10]
  }

  predicate AllDigits(t: Text) {
    forall i :: 0 <= i < |t| ==> Digit(t[i])
  }

  function FromDecimal(t: Text): nat
    requires AllDigits(t)
  {
    if t == [] then 0
    else
      var last := |t| - 1;
      10 * FromDecimal(t[..last]) + (t[last] - 0x30)
  }

  lemma {:induction false} FromDecimalOf(n: nat)
    ensures FromDecimal(Decimal(n)) == n
  {
    if n < 10 {
      assert Decimal(n)[..0] == [];
    } else {
      FromDecimalOf(n / 10);
      assert Decimal(n)[..|Decimal(n)| - 1] == Decimal(n / 10);
    }
  }

  lemma {:induction false} NoLeadingZero(n: nat)
    requires n > 0
    ensures Decimal(n)[0] != 0x30
  {
    if n >= 10 { NoLeadingZero(n / 10); }
  }

  function Pow10(k: nat): nat {
    if k == 0 then 1 else 10 * Pow10(k - 1)
  }

  lemma {:induction false} DecimalLength(n: nat, k: nat)
    requires k >= 1 && n < Pow10(k)
    ensures |Decimal(n)| <= k
  {
    if n >= 10 {
      assert k > 1 by { assert Pow10(1) == 10 * Pow10(0); }
      DecimalLength(n / 10, k - 1);
    }
  }

  lemma EpochLength(n: nat)
    requires n < MAX_EPOCH
    ensures |Decimal(n)| <= 19
  {
    assert Pow10(4) == 10_000 by { assert Pow10(2) == 100; }
    assert Pow10(8) == 100_000_000 by { assert Pow10(6) == 1_000_000; }
    assert Pow10(12) == 1_000_000_000_000 by { assert Pow10(10) == 10_000_000_000; }
    assert Pow10(16) == 1_0000_0000_0000_0000 by { assert Pow10(14) == 100_000_000_000_000; }
    assert Pow10(19) == 10_000_000_000_000_000_000 by { assert Pow10(18) == 1_000_000_000_000_000_000; }
    DecimalLength(n, 19);
  }

  lemma {:induction false} DecimalOf(t: Text)
    requires t != [] && AllDigits(t) && t[0] != 0x30
    ensures Decimal(FromDecimal(t)) == t && FromDecimal(t) > 0
  {
    var last := |t| - 1;
    assert t == t[..last] + [t[last]];
    if last == 0 {
      assert t[..0] == [] && t == [t[0]];
    } else {
      DecimalOf(t[..last]);
    }
  }

  // ---- rows and lines ------------------------------------------------------------------------

  datatype Row = Row(epoch: int, command: Text)

  function LinesOf(rows: seq<Row>): (lines: seq<Text>)
    requires forall i :: 0 <= i < |rows| ==> rows[i].epoch >= 0
    ensures |lines| == 2 * |rows|
  {
    if rows == [] then [] else [[HASH] + Decimal(rows[0].epoch), rows[0].command] + LinesOf(rows[1..])
  }

  predicate RowOk(row: Row, residents: seq<Text>) {
    0 < row.epoch < MAX_EPOCH && Permitted(row.command, residents) && |row.command| <= MAX_LINE
  }

  predicate RowsOk(rows: seq<Row>, residents: seq<Text>, previous: int) {
    if rows == [] then true
    else RowOk(rows[0], residents) && rows[0].epoch > previous && RowsOk(rows[1..], residents, rows[0].epoch)
  }

  lemma {:induction false} RowsEach(rows: seq<Row>, residents: seq<Text>, previous: int)
    requires RowsOk(rows, residents, previous)
    ensures forall i :: 0 <= i < |rows| ==> RowOk(rows[i], residents) && rows[i].epoch > previous
    ensures forall i, j :: 0 <= i < j < |rows| ==> rows[i].epoch < rows[j].epoch
  {
    hide RowOk;
    if rows != [] {
      RowsEach(rows[1..], residents, rows[0].epoch);
      assert forall i :: 1 <= i < |rows| ==> rows[i] == rows[1..][i - 1];
    }
  }

  /** The text of the file. */
  function TextOf(rows: seq<Row>): Text
    requires forall i :: 0 <= i < |rows| ==> rows[i].epoch >= 0
  {
    JoinOn(LinesOf(rows), NEWLINE) + [NEWLINE]
  }

  /** `encode("ascii")`. */
  function EncodeAscii(t: Text): (s: Octets)
    requires IsAscii(t)
    ensures |s| == |t|
  {
    seq(|t|, i requires 0 <= i < |t| => t[i])
  }

  function DecodeAscii(s: Octets): (t: Text)
    ensures |t| == |s|
  {
    seq(|s|, i requires 0 <= i < |s| => s[i])
  }

  /** What the writer accepts. */
  ghost predicate Accepted(rows: seq<Row>, residents: seq<Text>) {
    && Allowlist(residents)
    && 1 <= |rows| <= MAX_RECORDS
    && RowsOk(rows, residents, 0)
    && (RowsEach(rows, residents, 0); |TextOf(rows)| <= MAX_BYTES)
  }

  lemma {:induction false} LinesAreLines(rows: seq<Row>, residents: seq<Text>, previous: int)
    requires RowsOk(rows, residents, previous) && previous >= 0
    ensures forall i :: 0 <= i < |rows| ==> rows[i].epoch >= 0
    ensures forall i :: 0 <= i < |LinesOf(rows)| ==> IsLine(LinesOf(rows)[i]) && |LinesOf(rows)[i]| <= MAX_LINE
  {
    hide Permitted, IsLine;
    RowsEach(rows, residents, previous);
    if rows != [] {
      LinesAreLines(rows[1..], residents, rows[0].epoch);
      PermittedIsLine(rows[0].command, residents);
      StampIsLine(rows[0].epoch);
    }
  }

  lemma StampIsLine(epoch: nat)
    requires epoch < MAX_EPOCH
    ensures IsLine([HASH] + Decimal(epoch)) && |[HASH] + Decimal(epoch)| <= 20
  {
    EpochLength(epoch);
  }

  /** Line characters and newlines only. */
  predicate FileText(t: Text) {
    forall i :: 0 <= i < |t| ==> LineChar(t[i]) || t[i] == NEWLINE
  }

  lemma FileTextConcat(a: Text, b: Text)
    requires FileText(a) && FileText(b)
    ensures FileText(a + b)
  {
  }

  lemma LineIsFileText(line: Text)
    requires IsLine(line)
    ensures FileText(line)
  {
  }

  lemma {:induction false} JoinedLines(lines: seq<Text>)
    requires forall i :: 0 <= i < |lines| ==> IsLine(lines[i])
    ensures FileText(JoinOn(lines, NEWLINE))
  {
    hide IsLine, FileText;
    NewlineIsFileText();
    if lines != [] { LineIsFileText(lines[0]); }
    if |lines| > 1 {
      JoinedLines(lines[1..]);
      FileTextConcat(lines[0], [NEWLINE]);
      FileTextConcat(lines[0] + [NEWLINE], JoinOn(lines[1..], NEWLINE));
    }
  }

  lemma NewlineIsFileText()
    ensures FileText([NEWLINE]) && FileText([])
  {
  }

  lemma TextIsAscii(rows: seq<Row>, residents: seq<Text>)
    requires Accepted(rows, residents)
    ensures forall i :: 0 <= i < |rows| ==> rows[i].epoch >= 0
    ensures IsAscii(TextOf(rows)) && Without(TextOf(rows), 0x0D) && Without(TextOf(rows), 0)
  {
    hide RowsOk, Allowlist, IsLine, LinesOf, JoinOn;
    LinesAreLines(rows, residents, 0);
    JoinedLines(LinesOf(rows));
    NewlineIsFileText();
    FileTextConcat(JoinOn(LinesOf(rows), NEWLINE), [NEWLINE]);
  }

  function Encode(rows: seq<Row>, residents: seq<Text>): Octets
    requires Accepted(rows, residents)
  {
    TextIsAscii(rows, residents);
    EncodeAscii(TextOf(rows))
  }

  // ---- the reader ----------------------------------------------------------------------------

  /** `#([1-9][0-9]{0,18})`. */
  predicate IsStamp(line: Text) {
    2 <= |line| <= 20 && line[0] == HASH && line[1] != 0x30 && AllDigits(line[1..])
  }

  /** The reader's loop over alternating time stamps and commands. */
  function ReadRows(lines: seq<Text>, residents: seq<Text>, previous: int): Option<seq<Row>> {
    if lines == [] then Some([])
    else if |lines| < 2 || !IsStamp(lines[0]) then None
    else
      var epoch := FromDecimal(lines[0][1..]);
      if epoch >= MAX_EPOCH || epoch <= previous || !Permitted(lines[1], residents) then None
      else
        match ReadRows(lines[2..], residents, epoch)
        case None => None
        case Some(rest) => Some([Row(epoch, lines[1])] + rest)
  }

  predicate LinesFit(lines: seq<Text>) {
    && |lines| % 2 == 0 && 1 <= |lines| / 2 <= MAX_RECORDS
    && forall i :: 0 <= i < |lines| ==> lines[i] != [] && |lines[i]| <= MAX_LINE
  }

  predicate TextFits(data: Octets) {
    && 1 <= |data| <= MAX_BYTES && data[|data| - 1] == 0x0A
    && 0x0D !in data && 0 !in data
    && forall i :: 0 <= i < |data| ==> data[i] < 0x80
  }

  /** `loads_bash_history` with its default limits. */
  function Read(data: Octets, residents: seq<Text>): Option<seq<Row>> {
    if !TextFits(data) then None
    else
      var text := DecodeAscii(data);
      var lines := SplitOn(text[..|text| - 1], NEWLINE);
      if !LinesFit(lines) || !Allowlist(residents) then None
      else ReadRows(lines, residents, 0)
  }

  lemma StampOf(epoch: nat)
    requires 0 < epoch < MAX_EPOCH
    ensures var line := [HASH] + Decimal(epoch);
            line[1..] == Decimal(epoch) && IsStamp(line) && FromDecimal(line[1..]) == epoch
  {
    var line := [HASH] + Decimal(epoch);
    assert line[1..] == Decimal(epoch);
    EpochLength(epoch);
    NoLeadingZero(epoch);
    FromDecimalOf(epoch);
  }

  lemma OfStamp(line: Text)
    requires IsStamp(line)
    ensures FromDecimal(line[1..]) > 0 && [HASH] + Decimal(FromDecimal(line[1..])) == line
  {
    assert line == [HASH] + line[1..];
    DecimalOf(line[1..]);
  }

  /** Reading the lines of acceptable rows gives the rows. */
  lemma {:induction false} ReadRowsOf(rows: seq<Row>, residents: seq<Text>, previous: int)
    requires RowsOk(rows, residents, previous) && previous >= 0
    ensures forall i :: 0 <= i < |rows| ==> rows[i].epoch >= 0
    ensures ReadRows(LinesOf(rows), residents, previous) == Some(rows)
  {
    hide Permitted, IsStamp, FromDecimal, Decimal;
    RowsEach(rows, residents, previous);
    if rows != [] {
      ReadRowsOf(rows[1..], residents, rows[0].epoch);
      StampOf(rows[0].epoch);
      var lines := LinesOf(rows);
      assert lines[2..] == LinesOf(rows[1..]);
      assert [Row(rows[0].epoch, rows[0].command)] + rows[1..] == rows;
    }
  }

  /** Lines that can be read are the lines of the rows read, and those rows are acceptable. */
  lemma {:induction false} ReadRowsInverse(lines: seq<Text>, residents: seq<Text>, previous: int)
    requires previous >= 0 && ReadRows(lines, residents, previous).Some?
    requires forall i :: 0 <= i < |lines| ==> |lines[i]| <= MAX_LINE
    ensures var rows := ReadRows(lines, residents, previous).value;
            && RowsOk(rows, residents, previous)
            && (forall i :: 0 <= i < |rows| ==> rows[i].epoch >= 0)
            && LinesOf(rows) == lines
    decreases |lines|
  {
    hide Permitted, IsStamp, FromDecimal, Decimal;
    var rows := ReadRows(lines, residents, previous).value;
    if lines != [] {
      OfStamp(lines[0]);
      var epoch := FromDecimal(lines[0][1..]);
      ReadRowsInverse(lines[2..], residents, epoch);
      assert rows[1..] == ReadRows(lines[2..], residents, epoch).value;
      assert lines == [lines[0], lines[1]] + lines[2..];
      RowsEach(rows, residents, previous);
    }
  }

  lemma LinesHaveNoNewline(lines: seq<Text>)
    requires forall i :: 0 <= i < |lines| ==> IsLine(lines[i])
    ensures forall i :: 0 <= i < |lines| ==> Without(lines[i], NEWLINE)
  {
  }

  lemma SplitText(rows: seq<Row>, residents: seq<Text>)
    requires Accepted(rows, residents)
    ensures forall i :: 0 <= i < |rows| ==> rows[i].epoch >= 0
    ensures var t := TextOf(rows); t[..|t| - 1] == JoinOn(LinesOf(rows), NEWLINE)
    ensures SplitOn(JoinOn(LinesOf(rows), NEWLINE), NEWLINE) == LinesOf(rows)
    ensures LinesFit(LinesOf(rows))
  {
    hide RowsOk, Allowlist, LinesOf;
    LinesAreLines(rows, residents, 0);
    LinesHaveNoNewline(LinesOf(rows));
    SplitJoinOn(LinesOf(rows), NEWLINE);
  }

  /** Every history the writer emits is read back as the rows it was given. */
  lemma WrittenIsRead(rows: seq<Row>, residents: seq<Text>)
    requires Accepted(rows, residents)
    ensures Read(Encode(rows, residents), residents) == Some(rows)
  {
    hide RowsOk, Allowlist, LinesOf, LinesFit, ReadRows, SplitOn, JoinOn;
    SplitText(rows, residents);
    TextIsAscii(rows, residents);
    var data := Encode(rows, residents);
    assert DecodeAscii(data) == TextOf(rows);
    ReadRowsOf(rows, residents, 0);
  }

  /** Every history the reader accepts is what the writer emits for the rows read. */
  lemma ReadIsWritten(data: Octets, residents: seq<Text>)
    requires Read(data, residents).Some?
    ensures Accepted(Read(data, residents).value, residents)
    ensures Encode(Read(data, residents).value, residents) == data
  {
    hide RowsOk, Allowlist, LinesOf, ReadRows, SplitOn, JoinOn;
    var rows := Read(data, residents).value;
    var text := DecodeAscii(data);
    var lines := SplitOn(text[..|text| - 1], NEWLINE);
    ReadRowsInverse(lines, residents, 0);
    JoinSplitOn(text[..|text| - 1], NEWLINE);
    assert text == text[..|text| - 1] + [NEWLINE];
    assert TextOf(rows) == text;
    TextIsAscii(rows, residents);
  }

  /** Reader and writer are inverse: a file is accepted as these rows exactly when it is what the
      writer emits for them. */
  lemma ReaderInvertsWriter(data: Octets, rows: seq<Row>, residents: seq<Text>)
    ensures Read(data, residents) == Some(rows) <==> Accepted(rows, residents) && Encode(rows, residents) == data
  {
    hide Read, Encode, Accepted;
    if Read(data, residents) == Some(rows) { ReadIsWritten(data, residents); }
    if Accepted(rows, residents) && Encode(rows, residents) == data { WrittenIsRead(rows, residents); }
  }

  // ---- what a shell would make of the file -----------------------------------------------------

  /** What follows the last slash: the name of the program a path runs. */
  function Program(path: Text): Text {
    if Without(path, SLASH) then path else Program(path[1..])
  }

  lemma {:induction false} ProgramIsLast(path: Text)
    ensures Program(path) == Split(path)[|Split(path)| - 1]
  {
    if Without(path, SLASH) {
      SplitWithout(path, SLASH);
    } else {
      ProgramIsLast(path[1..]);
      if path[0] != SLASH { SlashMeansTwo(path[1..]); }
    }
  }

  lemma {:induction false} SlashMeansTwo(t: Text)
    requires !Without(t, SLASH)
    ensures |Split(t)| >= 2
  {
    if t[0] != SLASH { SlashMeansTwo(t[1..]); }
  }

  /** A time stamp: a comment to a shell. */
  predicate Comment(line: Text) {
    line != [] && line[0] == 0x23
  }

  /** The null command with one quoted word of capitals, digits, dots, dashes and underscores. */
  ghost predicate NullCommand(line: Text) {
    && |line| > 4 && line[..3] == [0x3A, 0x20, 0x27] && line[|line| - 1] == 0x27
    && forall i :: 3 <= i < |line| - 1 ==> 0x41 <= line[i] <= 0x5A || 0x30 <= line[i] <= 0x39 || line[i] in {0x2E, 0x5F, 0x2D}
  }

  /** One word without any character that a shell gives a meaning to, which is a listed program's absolute path;
      in no spelling of its letters is the program a dangerous one. */
  ghost predicate PlainProgram(line: Text, residents: seq<Text>) {
    && line in residents && line != [] && line[0] == 0x2F
    && (forall c <- line ::
          0x41 <= c <= 0x5A || 0x61 <= c <= 0x7A || 0x30 <= c <= 0x39 || c in {0x2E, 0x5F, 0x2B, 0x40, 0x2D, 0x2F})
    && (forall i :: 0 <= i < |DANGEROUS| ==> Fold(Program(line)) != Literal(DANGEROUS[i]))
    && !(Literal("mkfs.") <= Fold(Program(line)))
  }

  lemma MarkerIsNull(c: Text)
    requires IsMarker(c)
    ensures NullCommand(c)
  {
    var n := |MarkerStart()|;
    MarkerStarts();
    assert c[..3] == c[..n][..3];
    forall i | 3 <= i < |c| - 1 ensures 0x41 <= c[i] <= 0x5A || 0x30 <= c[i] <= 0x39 || c[i] in {0x2E, 0x5F, 0x2D} {
      if i < n { assert c[..n][i] == MarkerStart()[i]; } else { assert TokenChar(c[i]); }
    }
  }

  lemma MarkerStarts()
    ensures var m := MarkerStart();
            |m| == 27 && m[..3] == [0x3A, 0x20, 0x27] && forall i :: 3 <= i < |m| ==> 0x41 <= m[i] <= 0x5A || m[i] == 0x2D
  {
  }

  lemma ResidentIsPlain(value: Text, residents: seq<Text>)
    requires SafeResident(value) && value in residents
    ensures PlainProgram(value, residents)
  {
    hide AsPosix, Literal;
    ProgramIsLast(value);
    forall x | x in value
      ensures 0x41 <= x <= 0x5A || 0x61 <= x <= 0x7A || 0x30 <= x <= 0x39 || x in {0x2E, 0x5F, 0x2B, 0x40, 0x2D, 0x2F}
    {
      var i :| 0 <= i < |value| && value[i] == x;
      if x != SLASH {
        var j, k := SplitCovers(value, SLASH, i);
        assert Split(value)[j][k] == x;
        FirstPart(value);
        assert j > 0 && PathPart(Split(value)[j]);
      }
    }
  }

  lemma PermittedHarmless(command: Text, residents: seq<Text>)
    requires Permitted(command, residents)
    ensures NullCommand(command) || PlainProgram(command, residents)
  {
    hide IsMarker, SafeResident, NullCommand, PlainProgram;
    if IsMarker(command) { MarkerIsNull(command); } else { ResidentIsPlain(command, residents); }
  }

  lemma {:induction false} LinesHarmless(rows: seq<Row>, residents: seq<Text>, previous: int)
    requires RowsOk(rows, residents, previous) && previous >= 0
    ensures forall i :: 0 <= i < |rows| ==> rows[i].epoch >= 0
    ensures forall line <- LinesOf(rows) :: Comment(line) || NullCommand(line) || PlainProgram(line, residents)
  {
    hide Permitted, NullCommand, PlainProgram, Decimal;
    RowsEach(rows, residents, previous);
    if rows != [] {
      PermittedHarmless(rows[0].command, residents);
      LinesHarmless(rows[1..], residents, rows[0].epoch);
    }
  }

  /** No line of a file that is written runs a dangerous program: taken as shell input, every line is a
      comment, does nothing, or names a listed program that is not one of them. */
  lemma WrittenIsHarmless(rows: seq<Row>, residents: seq<Text>)
    requires Accepted(rows, residents)
    ensures var text := DecodeAscii(Encode(rows, residents));
            && text != [] && text[|text| - 1] == 0x0A
            && forall line <- SplitOn(text[..|text| - 1], 0x0A) ::
                 Comment(line) || NullCommand(line) || PlainProgram(line, residents)
  {
    hide RowsOk, Allowlist, LinesOf, SplitOn, JoinOn, NullCommand, PlainProgram, LinesFit;
    SplitText(rows, residents);
    TextIsAscii(rows, residents);
    LinesHarmless(rows, residents, 0);
    assert DecodeAscii(Encode(rows, residents)) == TextOf(rows);
  }

  // ---- which commands there are ----------------------------------------------------------------

  /** The start, a token of 1 to 64 capitals, digits and, not in front, dots, dashes and underscores, and a quote. */
  ghost predicate MarkerOf(c: Text, token: Text) {
    && 1 <= |token| <= 64 && c == MarkerStart() + token + [0x27]
    && forall k :: 0 <= k < |token| ==>
         0x41 <= token[k] <= 0x5A || 0x30 <= token[k] <= 0x39 || (k > 0 && token[k] in {0x2D, 0x2E, 0x5F})
  }

  lemma MarkerExactly(c: Text)
    ensures IsMarker(c) <==> exists token :: MarkerOf(c, token)
  {
    hide MarkerStart;
    var n := |MarkerStart()|;
    if IsMarker(c) {
      var token := c[n..|c| - 1];
      assert c == c[..n] + token + [c[|c| - 1]];
      forall k | 0 <= k < |token|
        ensures 0x41 <= token[k] <= 0x5A || 0x30 <= token[k] <= 0x39 || (k > 0 && token[k] in {0x2D, 0x2E, 0x5F})
      {
        assert TokenChar(c[n + k]);
      }
      assert MarkerOf(c, token);
    }
    if exists token :: MarkerOf(c, token) {
      var token :| MarkerOf(c, token);
      assert c[..n] == MarkerStart();
      forall i | n <= i < |c| - 1 ensures TokenChar(c[i]) {
        assert c[i] == token[i - n];
      }
    }
  }

  predicate PlainPart(n: Text) {
    && n != [] && n != ['.' as int] && n != ['.' as int, '.' as int]
    && forall x <- n :: 0x41 <= x <= 0x5A || 0x61 <= x <= 0x7A || 0x30 <= x <= 0x39 || x in {0x2B, 0x2D, 0x2E, 0x40, 0x5F}
  }

  /** Names, each behind a slash. */
  ghost predicate PathOf(value: Text, names: Parts) {
    && names != [] && |value| <= 1024 && value == [0x2F] + Join(names)
    && forall n <- names :: PlainPart(n)
  }

  lemma PartExactly(n: Text)
    ensures PathPart(n) <==> PlainPart(n)
  {
    if PlainPart(n) {
      forall i | 0 <= i < |n| ensures PathChar(n[i]) { assert n[i] in n; }
    }
  }

  /** What is accepted as the path of a program. */
  lemma PathExactly(value: Text)
    ensures ProgramPath(value) <==> exists names :: PathOf(value, names)
  {
    hide ProgramPath, PathOf;
    if ProgramPath(value) { PathIsBuilt(value); }
    if exists names :: PathOf(value, names) {
      var names :| PathOf(value, names);
      BuiltIsPath(value, names);
    }
  }

  lemma PathIsBuilt(value: Text)
    requires ProgramPath(value)
    ensures PathOf(value, Split(value)[1..])
  {
    hide AsPosix, SplitOn, JoinOn, PathPart, PlainPart;
    FirstPart(value);
    JoinSplit(value);
    JoinFirst(Split(value));
    var names := Split(value)[1..];
    forall n | n in names ensures PlainPart(n) {
      var i :| 0 <= i < |names| && names[i] == n;
      assert n == Split(value)[i + 1];
      PartExactly(n);
    }
  }

  lemma JoinFirst(parts: Parts)
    requires |parts| > 1 && parts[0] == []
    ensures Join(parts) == [SLASH] + Join(parts[1..])
  {
    assert [] + [SLASH] == [SLASH];
  }

  lemma BuiltIsPath(value: Text, names: Parts)
    requires PathOf(value, names)
    ensures ProgramPath(value)
  {
    hide AsPosix, SplitOn, JoinOn, PathPart, PlainPart;
    var parts := [[]] + names;
    forall i | 0 <= i < |names| ensures PathPart(names[i]) && NoSlash(names[i]) {
      assert names[i] in names;
      PartExactly(names[i]);
      PartHasNoSlash(names[i]);
    }
    assert AllNoSlash(parts) by { EmptyNoSlash(); }
    SplitJoin(parts);
    assert parts[1..] == names;
    JoinFirst(parts);
    assert value == Join(parts) && Split(value) == parts;
    forall i | 1 <= i < |parts| ensures PathPart(parts[i]) { assert parts[i] == names[i - 1]; }
    AlreadyNormal(value);
    forall i | 0 <= i < |value| ensures value[i] == SLASH || PathChar(value[i]) {
      if value[i] != SLASH {
        var j, k := SplitCovers(value, SLASH, i);
        assert Split(value)[j][k] == value[i] && j > 0;
        PartChar(Split(value)[j], k);
      }
    }
    PathEnds(value, names);
  }

  lemma EmptyNoSlash()
    ensures NoSlash([])
  {
  }

  lemma PartHasNoSlash(n: Text)
    requires PathPart(n)
    ensures NoSlash(n)
  {
  }

  lemma PartChar(n: Text, k: nat)
    requires PathPart(n) && k < |n|
    ensures PathChar(n[k])
  {
  }

  /** The character behind the first slash and the last one belong to names. */
  lemma PathEnds(value: Text, names: Parts)
    requires names != [] && value == [SLASH] + Join(names) && forall i :: 0 <= i < |names| ==> PathPart(names[i])
    ensures |value| >= 2 && value[1] != SLASH && value[|value| - 1] != SLASH
  {
    hide PathChar;
    JoinEnds(names);
    PartHasNoSlash(names[0]);
    PartHasNoSlash(names[|names| - 1]);
  }

  lemma {:induction false} JoinEnds(names: Parts)
    requires names != [] && forall i :: 0 <= i < |names| ==> names[i] != []
    ensures var last := names[|names| - 1];
            Join(names) != [] && Join(names)[0] == names[0][0] && Join(names)[|Join(names)| - 1] == last[|last| - 1]
  {
    if |names| > 1 { JoinEnds(names[1..]); }
  }

  /** Among admitted programs the test of a command asks for no more than that it is one of them. */
  lemma PermittedExactly(command: Text, residents: seq<Text>)
    requires Allowlist(residents)
    ensures Permitted(command, residents) <==> IsMarker(command) || command in residents
  {
    hide ProgramPath, Dangerous, IsMarker;
    if IsMarker(command) { MarkerIsLine(command); }
    if command in residents {
      var i :| 0 <= i < |residents| && residents[i] == command;
      assert SafeResident(residents[i]);
      PathIsLine(command);
    }
  }

  /** A program is refused for its name alone. */
  lemma SafeExactly(value: Text)
    ensures SafeResident(value)
       <==> ProgramPath(value)
            && (forall i :: 0 <= i < |DANGEROUS| ==> Fold(Program(value)) != Literal(DANGEROUS[i]))
            && !(Literal("mkfs.") <= Fold(Program(value)))
  {
    hide ProgramPath, Literal, Fold;
    ProgramIsLast(value);
  }

  lemma {:induction false} RowsExactly(rows: seq<Row>, residents: seq<Text>, previous: int)
    ensures RowsOk(rows, residents, previous)
       <==> && (forall i :: 0 <= i < |rows| ==> RowOk(rows[i], residents) && rows[i].epoch > previous)
            && forall i, j :: 0 <= i < j < |rows| ==> rows[i].epoch < rows[j].epoch
  {
    hide RowOk;
    if rows != [] {
      RowsExactly(rows[1..], residents, rows[0].epoch);
      assert forall i :: 1 <= i < |rows| ==> rows[i] == rows[1..][i - 1];
      assert forall i :: 0 <= i < |rows| - 1 ==> rows[1..][i] == rows[i + 1];
    }
  }

  /** A listed program: a path built of plain names, the last of which is none of the dangerous ones. */
  ghost predicate Harmless(path: Text) {
    && (exists names :: PathOf(path, names))
    && (forall i :: 0 <= i < |DANGEROUS| ==> Fold(Program(path)) != Literal(DANGEROUS[i]))
    && !(Literal("mkfs.") <= Fold(Program(path)))
  }

  lemma AllowlistExactly(residents: seq<Text>)
    ensures Allowlist(residents)
       <==> && 1 <= |residents| <= 128 && (forall i :: 0 <= i < |residents| ==> Harmless(residents[i]))
            && forall i, j :: 0 <= i < j < |residents| ==> residents[i] != residents[j]
  {
    hide SafeResident, Harmless;
    forall i | 0 <= i < |residents| ensures SafeResident(residents[i]) <==> Harmless(residents[i]) {
      ResidentExactly(residents[i]);
    }
  }

  lemma ResidentExactly(path: Text)
    ensures SafeResident(path) <==> Harmless(path)
  {
    hide ProgramPath, PathOf, Literal, Fold, Program, SafeResident;
    PathExactly(path);
    SafeExactly(path);
  }

  /** What is written, said in full: 1 to 128 different harmless programs; 1 to 1024 rows with increasing positive
      times below 2^63; every command one of the programs or a marker; lines and file within their sizes. */
  lemma AcceptedExactly(rows: seq<Row>, residents: seq<Text>)
    ensures Accepted(rows, residents)
       <==> && 1 <= |residents| <= 128 && (forall i :: 0 <= i < |residents| ==> Harmless(residents[i]))
            && (forall i, j :: 0 <= i < j < |residents| ==> residents[i] != residents[j])
            && 1 <= |rows| <= 1024
            && (forall i :: 0 <= i < |rows| ==>
                  && 0 < rows[i].epoch < 0x8000_0000_0000_0000 && |rows[i].command| <= 4096
                  && (rows[i].command in residents || exists token :: MarkerOf(rows[i].command, token)))
            && (forall i, j :: 0 <= i < j < |rows| ==> rows[i].epoch < rows[j].epoch)
            && |TextOf(rows)| <= 1024 * 1024
  {
    hide Allowlist, Harmless, MarkerOf, RowsOk, Permitted, TextOf, IsMarker;
    AllowlistExactly(residents);
    RowsExactly(rows, residents, 0);
    if Allowlist(residents) {
      forall i | 0 <= i < |rows|
        ensures Permitted(rows[i].command, residents)
           <==> rows[i].command in residents || exists token :: MarkerOf(rows[i].command, token)
      {
        PermittedExactly(rows[i].command, residents);
        MarkerExactly(rows[i].command);
      }
    }
  }

  // ---- build_bash_history --------------------------------------------------------------------

  method BuildBashHistory(rows: seq<Row>, residents: seq<Text>) returns (r: Option<Octets>)
    ensures r.Some? <==> Accepted(rows, residents)
    ensures r.Some? ==> r.value == Encode(rows, residents)
  {
    hide Allowlist, Permitted, RowsOk, LinesOf, Decimal, JoinOn;
    if !Allowlist(residents) { return None; }
    if !(1 <= |rows| <= MAX_RECORDS) { return None; }
    var lines: seq<Text>, previous, i := [], 0, 0;
    WritingStarts(rows, residents);
    while i < |rows|
      invariant 0 <= i <= |rows| && previous >= 0
      invariant WrittenSoFar(rows, residents, lines, previous, i)
    {
      WritingStep(rows, residents, lines, previous, i);
      var row := rows[i];
      if !(0 < row.epoch < MAX_EPOCH) { return None; }
      if row.epoch <= previous { return None; }
      if !Permitted(row.command, residents) { return None; }
      if |row.command| > MAX_LINE { return None; }
      lines := lines + [[HASH] + Decimal(row.epoch), row.command];
      previous := row.epoch;
      i := i + 1;
    }
    WritingEnds(rows, residents, lines, previous);
    var text := JoinOn(lines, NEWLINE) + [NEWLINE];
    if |text| > MAX_BYTES { return None; }
    TextIsAscii(rows, residents);
    return Some(EncodeAscii(text));
  }

  /** The loop of the writer after `i` rows. */
  ghost predicate WrittenSoFar(rows: seq<Row>, residents: seq<Text>, lines: seq<Text>, previous: int, i: nat) {
    && i <= |rows|
    && (forall j :: 0 <= j < i ==> rows[j].epoch >= 0)
    && lines == LinesOf(rows[..i])
    && (RowsOk(rows, residents, 0) <==> RowsOk(rows[i..], residents, previous))
  }

  lemma WritingStarts(rows: seq<Row>, residents: seq<Text>)
    ensures WrittenSoFar(rows, residents, [], 0, 0)
  {
    assert rows[0..] == rows && rows[..0] == [];
  }

  lemma WritingStep(rows: seq<Row>, residents: seq<Text>, lines: seq<Text>, previous: int, i: nat)
    requires i < |rows| && WrittenSoFar(rows, residents, lines, previous, i)
    ensures var row := rows[i];
            if RowOk(row, residents) && row.epoch > previous then
              WrittenSoFar(rows, residents, lines + [[HASH] + Decimal(row.epoch), row.command], row.epoch, i + 1)
            else
              !RowsOk(rows, residents, 0)
  {
    hide RowOk, Decimal;
    var row := rows[i];
    assert rows[i..][0] == row && rows[i..][1..] == rows[i + 1..];
    if RowOk(row, residents) && row.epoch > previous {
      EpochPositive(row, residents);
      assert rows[..i + 1] == rows[..i] + [row];
      LinesAppend(rows[..i], row);
    }
  }

  lemma EpochPositive(row: Row, residents: seq<Text>)
    requires RowOk(row, residents)
    ensures row.epoch > 0
  {
  }

  lemma {:induction false} LinesAppend(rows: seq<Row>, row: Row)
    requires row.epoch >= 0 && forall i :: 0 <= i < |rows| ==> rows[i].epoch >= 0
    ensures forall i :: 0 <= i < |rows + [row]| ==> (rows + [row])[i].epoch >= 0
    ensures LinesOf(rows + [row]) == LinesOf(rows) + [[HASH] + Decimal(row.epoch), row.command]
  {
    hide Decimal;
    var all := rows + [row];
    if rows == [] {
      assert all == [row] && all[1..] == [];
    } else {
      LinesAppend(rows[1..], row);
      assert all[1..] == rows[1..] + [row];
    }
  }

  lemma WritingEnds(rows: seq<Row>, residents: seq<Text>, lines: seq<Text>, previous: int)
    requires WrittenSoFar(rows, residents, lines, previous, |rows|)
    ensures RowsOk(rows, residents, 0)
    ensures forall i :: 0 <= i < |rows| ==> rows[i].epoch >= 0
    ensures lines == LinesOf(rows)
  {
    assert rows[|rows|..] == [] && rows[..|rows|] == rows;
  }
}
