// Two threads drain a child's output pipes into buffers that share one byte budget
// (attest_windows_native.py).  Every interleaving of their atomic steps is a run of this machine.
module Drain {
  import opened Bytes
  import opened Wrappers

  const CHUNK: nat := 64 * 1024

  datatype Side = Stdout | Stderr

  /** Where a drain thread is between two atomic steps. */
  datatype Phase =
    | Reading
    | Holding(chunk: Octets)  // read, not yet under the lock
    | Marking                 // exceeded, about to set the overflow event
    | Ended                   // end of file
    | Raised                  // a read raised

  /** `stream` is everything the pipe delivers before end of file; `consumed` counts what was read. */
  datatype Thread = Thread(phase: Phase, stream: Octets, consumed: nat, buffer: Octets)

  datatype State = State(out: Thread, err: Thread, total: int, overflow: bool, maximum: int) {
    function At(side: Side): Thread {
      if side.Stdout? then out else err
    }

    function With(side: Side, t: Thread): State {
      if side.Stdout? then this.(out := t) else this.(err := t)
    }
  }

  function Initial(out: Octets, err: Octets, maximum: int): State {
    State(Thread(Reading, out, 0, []), Thread(Reading, err, 0, []), 0, false, maximum)
  }

  // ---- the locked region ---------------------------------------------------------------------

  function Room(maximum: int, total: int): nat {
    if maximum - total > 0 then maximum - total else 0
  }

  function Kept(chunk: Octets, room: nat): Octets {
    if |chunk| <= room then chunk else chunk[..room]
  }

  /** What the lock's holder does to the shared state. */
  function Admit(s: State, side: Side): State
    requires s.At(side).phase.Holding?
  {
    var t := s.At(side);
    var chunk, room := t.phase.chunk, Room(s.maximum, s.total);
    var kept := Kept(chunk, room);
    s.With(side, t.(buffer := t.buffer + kept, phase := if |chunk| > room then Marking else Reading))
     .(total := s.total + |kept|)
  }

  /** The machine's shared state agrees with these variables. */
  predicate Mirrors(s: State, stdout: Octets, stderr: Octets, total: int, maximum: int) {
    s.out.buffer == stdout && s.err.buffer == stderr && s.total == total && s.maximum == maximum
  }

  /** The same region as the source writes it: shared buffers and a shared count, updated in place. */
  class Capture {
    var stdout: Octets
    var stderr: Octets
    var total: int
    const maximum: int

    constructor (maximum: int)
      ensures this.maximum == maximum && stdout == [] && stderr == [] && total == 0
    {
      this.maximum, stdout, stderr, total := maximum, [], [], 0;
    }

    method Extend(side: Side, chunk: Octets) returns (exceeded: bool)
      modifies this`stdout, this`stderr, this`total
      ensures forall s: State | Mirrors(s, old(stdout), old(stderr), old(total), maximum) && s.At(side).phase == Holding(chunk) ::
                var after := Admit(s, side);
                Mirrors(after, stdout, stderr, total, maximum) && (exceeded <==> after.At(side).phase.Marking?)
    {
      var room := if 0 > maximum - total then 0 else maximum - total;
      var kept := if |chunk| <= room then chunk else chunk[..room];
      match side {
        case Stdout => stdout := stdout + kept;
        case Stderr => stderr := stderr + kept;
      }
      total := total + if |chunk| <= room then |chunk| else room;
      exceeded := |chunk| > room;
    }
  }

  // ---- steps and runs ------------------------------------------------------------------------

  /** One atomic step of one thread.  Reads return between one octet and a whole chunk, nothing only
      at end of file, or raise; killing the process tree after an overflow may raise too. */
  ghost predicate StepOf(s: State, s': State, side: Side) {
    var t := s.At(side);
    match t.phase
    case Reading =>
      || (t.consumed == |t.stream| && s' == s.With(side, t.(phase := Ended)))
      || s' == s.With(side, t.(phase := Raised))
      || exists n :: ReadOf(s, s', side, n)
    case Holding(_) => s' == Admit(s, side)
    case Marking =>
      || s' == s.With(side, t.(phase := Reading)).(overflow := true)
      || s' == s.With(side, t.(phase := Raised)).(overflow := true)
    case Ended => false
    case Raised => false
  }

  ghost predicate ReadOf(s: State, s': State, side: Side, n: nat) {
    var t := s.At(side);
    && 1 <= n <= CHUNK && t.consumed + n <= |t.stream|
    && s' == s.With(side, t.(phase := Holding(t.stream[t.consumed..t.consumed + n]), consumed := t.consumed + n))
  }

  ghost predicate Step(s: State, s': State) {
    StepOf(s, s', Stdout) || StepOf(s, s', Stderr)
  }

  ghost predicate Run(states: seq<State>, out: Octets, err: Octets, maximum: int) {
    && states != [] && states[0] == Initial(out, err, maximum)
    && forall i :: 0 <= i < |states| - 1 ==> Step(states[i], states[i + 1])
  }

  // ---- the invariant -------------------------------------------------------------------------

  function Budget(maximum: int): nat {
    if maximum > 0 then maximum else 0
  }

  /** Octets a thread has passed through the lock. */
  function Processed(t: Thread): int {
    t.consumed - if t.phase.Holding? then |t.phase.chunk| else 0
  }

  ghost predicate ThreadOk(t: Thread, complete: bool) {
    && t.consumed <= |t.stream|
    && (t.phase.Holding? ==> |t.phase.chunk| <= t.consumed && t.phase.chunk == t.stream[t.consumed - |t.phase.chunk|..t.consumed])
    && (t.phase.Ended? ==> t.consumed == |t.stream|)
    && t.buffer <= t.stream && |t.buffer| <= Processed(t)
    && (complete ==> |t.buffer| == Processed(t))
  }

  ghost predicate Invariant(s: State) {
    var processed := Processed(s.out) + Processed(s.err);
    && s.total == |s.out.buffer| + |s.err.buffer|
    && s.total == (if processed <= Budget(s.maximum) then processed else Budget(s.maximum))
    && ThreadOk(s.out, processed <= Budget(s.maximum))
    && ThreadOk(s.err, processed <= Budget(s.maximum))
    && ((s.overflow || s.out.phase.Marking? || s.err.phase.Marking?) <==> processed > Budget(s.maximum))
  }

  lemma StepKeeps(s: State, s': State, side: Side)
    requires Invariant(s) && StepOf(s, s', side)
    ensures Invariant(s')
    ensures s'.maximum == s.maximum && s'.out.stream == s.out.stream && s'.err.stream == s.err.stream
  {
    hide Invariant;
    var t := s.At(side);
    match t.phase
    case Reading =>
      if s' == s.With(side, t.(phase := Ended)) && t.consumed == |t.stream| {
        PhaseKeeps(s, side, Ended, s.overflow);
      } else if s' == s.With(side, t.(phase := Raised)) {
        PhaseKeeps(s, side, Raised, s.overflow);
      } else {
        var n :| ReadOf(s, s', side, n);
        ReadKeeps(s, s', side, n);
      }
    case Holding(_) => AdmitKeeps(s, side);
    case Marking =>
      PhaseKeeps(s, side, Reading, true);
      PhaseKeeps(s, side, Raised, true);
  }

  /** Steps that move no octets. */
  lemma PhaseKeeps(s: State, side: Side, phase: Phase, overflow: bool)
    requires Invariant(s) && !s.At(side).phase.Holding? && !phase.Holding? && !phase.Marking?
    requires phase.Ended? ==> s.At(side).consumed == |s.At(side).stream|
    requires if s.At(side).phase.Marking? then overflow else overflow == s.overflow
    ensures Invariant(s.With(side, s.At(side).(phase := phase)).(overflow := overflow))
  {
  }

  lemma ReadKeeps(s: State, s': State, side: Side, n: nat)
    requires Invariant(s) && s.At(side).phase.Reading? && ReadOf(s, s', side, n)
    ensures Invariant(s')
  {
    hide ThreadOk;
    ReadThread(s.At(side), n, Processed(s.out) + Processed(s.err) <= Budget(s.maximum));
    if side.Stdout? { assert s'.err == s.err; } else { assert s'.out == s.out; }
  }

  lemma ReadThread(t: Thread, n: nat, complete: bool)
    requires ThreadOk(t, complete) && t.phase.Reading? && t.consumed + n <= |t.stream|
    ensures var after := t.(phase := Holding(t.stream[t.consumed..t.consumed + n]), consumed := t.consumed + n);
            ThreadOk(after, complete) && Processed(after) == Processed(t)
  {
  }

  lemma AdmitKeeps(s: State, side: Side)
    requires Invariant(s) && s.At(side).phase.Holding?
    ensures Invariant(Admit(s, side))
  {
    hide ThreadOk, Kept;
    var t := s.At(side);
    var room, complete := Room(s.maximum, s.total), Processed(s.out) + Processed(s.err) <= Budget(s.maximum);
    AdmitThread(t, room, complete, if |t.phase.chunk| > room then Marking else Reading);
    if side.Stdout? {
      FewerComplete(s.err, complete, complete && |t.phase.chunk| <= room);
    } else {
      FewerComplete(s.out, complete, complete && |t.phase.chunk| <= room);
    }
  }

  /** What is kept of a chunk continues the buffer's prefix, unless an earlier chunk was cut. */
  lemma AdmitThread(t: Thread, room: nat, complete: bool, phase: Phase)
    requires ThreadOk(t, complete) && t.phase.Holding? && (!complete ==> room == 0)
    requires phase.Marking? || phase.Reading?
    ensures |Kept(t.phase.chunk, room)| == if |t.phase.chunk| <= room then |t.phase.chunk| else room
    ensures ThreadOk(t.(buffer := t.buffer + Kept(t.phase.chunk, room), phase := phase), complete && |t.phase.chunk| <= room)
  {
    var all := t.buffer + Kept(t.phase.chunk, room);
    forall i | 0 <= i < |all| ensures all[i] == t.stream[i] {
      if i >= |t.buffer| { assert all[i] == t.phase.chunk[i - |t.buffer|]; }
    }
  }

  lemma FewerComplete(t: Thread, complete: bool, still: bool)
    requires ThreadOk(t, complete) && (still ==> complete)
    ensures ThreadOk(t, still)
  {
  }

  lemma {:induction false} RunKeeps(states: seq<State>, out: Octets, err: Octets, maximum: int, i: nat)
    requires Run(states, out, err, maximum) && i < |states|
    ensures Invariant(states[i])
    ensures states[i].maximum == maximum && states[i].out.stream == out && states[i].err.stream == err
  {
    hide StepOf, Invariant;
    if i == 0 {
      InitialOk(out, err, maximum);
    } else {
      RunKeeps(states, out, err, maximum, i - 1);
      assert Step(states[i - 1], states[i - 1 + 1]);
      if StepOf(states[i - 1], states[i], Stdout) {
        StepKeeps(states[i - 1], states[i], Stdout);
      } else {
        StepKeeps(states[i - 1], states[i], Stderr);
      }
    }
  }

  lemma InitialOk(out: Octets, err: Octets, maximum: int)
    ensures Invariant(Initial(out, err, maximum))
  {
  }

  // ---- every state of every run --------------------------------------------------------------

  /** The shared budget is never exceeded and no buffer holds anything but a prefix of its own
      stream. */
  lemma BudgetAlwaysHolds(states: seq<State>, out: Octets, err: Octets, maximum: int, i: nat)
    requires Run(states, out, err, maximum) && i < |states|
    ensures |states[i].out.buffer| + |states[i].err.buffer| <= Budget(maximum)
    ensures states[i].out.buffer <= out && states[i].err.buffer <= err
  {
    RunKeeps(states, out, err, maximum, i);
  }

  /** The event is set only once more octets than the budget have been read. */
  lemma OverflowMeansDropped(states: seq<State>, out: Octets, err: Octets, maximum: int, i: nat)
    requires Run(states, out, err, maximum) && i < |states| && states[i].overflow
    ensures states[i].out.consumed + states[i].err.consumed > Budget(maximum)
    ensures states[i].out.buffer != out || states[i].err.buffer != err
  {
    RunKeeps(states, out, err, maximum, i);
  }

  // ---- the runner's result -------------------------------------------------------------------

  datatype RunError = TimedOut | StillAlive | TooMuchOutput

  predicate Alive(t: Thread) {
    !t.phase.Ended? && !t.phase.Raised?
  }

  /** What the runner does after joining the threads. */
  function Outcome(s: State, timedOut: bool): Result<(Octets, Octets), RunError> {
    if timedOut then Err(TimedOut)
    else if Alive(s.out) || Alive(s.err) then Err(StillAlive)
    else if s.overflow then Err(TooMuchOutput)
    else Ok((s.out.buffer, s.err.buffer))
  }

  /** A successful return carries both streams whole exactly when both were read to their ends.  The
      runner has no such check: a thread whose read raised is joined like one at end of file. */
  lemma SuccessIsComplete(states: seq<State>, out: Octets, err: Octets, maximum: int, i: nat, timedOut: bool)
    requires Run(states, out, err, maximum) && i < |states| && Outcome(states[i], timedOut).Ok?
    ensures states[i].out.consumed <= |out| && states[i].err.consumed <= |err|
    ensures Outcome(states[i], timedOut).value == (out, err)
        <==> states[i].out.consumed == |out| && states[i].err.consumed == |err|
    ensures Outcome(states[i], timedOut).value == (out[..states[i].out.consumed], err[..states[i].err.consumed])
  {
    RunKeeps(states, out, err, maximum, i);
    SettledOk(states[i].out);
    SettledOk(states[i].err);
  }

  /** A joined thread within the budget keeps all it has read. */
  lemma SettledOk(t: Thread)
    requires ThreadOk(t, true) && !Alive(t)
    ensures t.buffer == t.stream[..t.consumed]
    ensures t.buffer == t.stream <==> t.consumed == |t.stream|
  {
    assert |t.buffer| == t.consumed;
  }

  /** When no read raised, a successful return is complete, and the runner succeeds exactly when both
      threads are at end of file in time and the streams fit the budget together. */
  lemma QuietSuccess(states: seq<State>, out: Octets, err: Octets, maximum: int, i: nat, timedOut: bool)
    requires Run(states, out, err, maximum) && i < |states|
    requires !states[i].out.phase.Raised? && !states[i].err.phase.Raised?
    ensures Outcome(states[i], timedOut).Ok? ==> Outcome(states[i], timedOut).value == (out, err)
    ensures Outcome(states[i], timedOut).Ok? <==>
              !timedOut && !Alive(states[i].out) && !Alive(states[i].err) && |out| + |err| <= Budget(maximum)
  {
    RunKeeps(states, out, err, maximum, i);
    if Outcome(states[i], timedOut).Ok? { SuccessIsComplete(states, out, err, maximum, i, timedOut); }
  }

  /** A read that raises ends its thread without setting the event: whatever is cut off either stream
      behind a part that fits the budget, some run returns just those parts as a success. */
  lemma RaisedReadTruncates(out: Octets, err: Octets, maximum: int, m: nat, n: nat)
    requires m <= |out| && n <= |err| && m + n <= Budget(maximum)
    ensures exists states: seq<State> ::
              Run(states, out, err, maximum) && Outcome(states[|states| - 1], false) == Ok((out[..m], err[..n]))
  {
    hide StepOf;
    var states := ReadRun(out, err, maximum, m, n);
    var s := states[|states| - 1];
    var s1 := s.With(Stdout, s.out.(phase := Raised));
    RaiseStep(s, Stdout);
    var more := Extend(states, out, err, maximum, s1, Stdout);
    var s2 := s1.With(Stderr, s1.err.(phase := Raised));
    RaiseStep(s1, Stderr);
    more := Extend(more, out, err, maximum, s2, Stderr);
    assert Outcome(more[|more| - 1], false) == Ok((out[..m], err[..n]));
  }

  lemma RaiseStep(s: State, side: Side)
    requires s.At(side).phase.Reading?
    ensures StepOf(s, s.With(side, s.At(side).(phase := Raised)), side)
  {
  }

  lemma Extend(states: seq<State>, out: Octets, err: Octets, maximum: int, s: State, side: Side) returns (more: seq<State>)
    requires Run(states, out, err, maximum) && StepOf(states[|states| - 1], s, side)
    ensures Run(more, out, err, maximum) && more[|more| - 1] == s
  {
    hide StepOf;
    more := states + [s];
    forall i | 0 <= i < |more| - 1 ensures Step(more[i], more[i + 1]) {
      if i < |states| - 1 { assert Step(states[i], states[i + 1]); }
    }
  }

  /** Both threads reading on, with all they have read in their buffers. */
  function ReadSoFar(out: Octets, err: Octets, maximum: int, m: nat, n: nat): State
    requires m <= |out| && n <= |err|
  {
    State(Thread(Reading, out, m, out[..m]), Thread(Reading, err, n, err[..n]), m + n, false, maximum)
  }

  lemma {:induction false} ReadRun(out: Octets, err: Octets, maximum: int, m: nat, n: nat) returns (states: seq<State>)
    requires m <= |out| && n <= |err| && m + n <= Budget(maximum)
    ensures Run(states, out, err, maximum) && states[|states| - 1] == ReadSoFar(out, err, maximum, m, n)
    decreases m + n
  {
    hide StepOf, Run, Admit;
    if m == 0 && n == 0 {
      states := [Initial(out, err, maximum)];
      StartRun(out, err, maximum);
    } else {
      var side := if m > 0 then Stdout else Stderr;
      var m', n' := if m > 0 then m - 1 else m, if m > 0 then n else n - 1;
      states := ReadRun(out, err, maximum, m', n');
      var held := ReadOneMore(out, err, maximum, m', n', side);
      states := Extend(states, out, err, maximum, held, side);
      states := Extend(states, out, err, maximum, Admit(held, side), side);
    }
  }

  lemma StartRun(out: Octets, err: Octets, maximum: int)
    ensures Run([Initial(out, err, maximum)], out, err, maximum)
    ensures Initial(out, err, maximum) == ReadSoFar(out, err, maximum, 0, 0)
  {
  }

  /** One thread reads one octet and takes it through the lock. */
  lemma ReadOneMore(out: Octets, err: Octets, maximum: int, m: nat, n: nat, side: Side) returns (held: State)
    requires m <= |out| && n <= |err| && m + n < Budget(maximum)
    requires if side.Stdout? then m < |out| else n < |err|
    ensures StepOf(ReadSoFar(out, err, maximum, m, n), held, side)
    ensures held.At(side).phase.Holding? && StepOf(held, Admit(held, side), side)
    ensures Admit(held, side) == if side.Stdout? then ReadSoFar(out, err, maximum, m + 1, n) else ReadSoFar(out, err, maximum, m, n + 1)
  {
    var s := ReadSoFar(out, err, maximum, m, n);
    var t := s.At(side);
    held := s.With(side, t.(phase := Holding(t.stream[t.consumed..t.consumed + 1]), consumed := t.consumed + 1));
    assert ReadOf(s, held, side, 1);
    assert t.stream[..t.consumed + 1] == t.stream[..t.consumed] + t.stream[t.consumed..t.consumed + 1];
  }

  // ---- the threads finish --------------------------------------------------------------------

  function Rank(phase: Phase): nat {
    match phase
    case Reading => 1
    case Holding(_) => 3
    case Marking => 2
    case Ended => 0
    case Raised => 0
  }

  function Left(s: State): int {
    3 * (|s.out.stream| - s.out.consumed) + Rank(s.out.phase) + 3 * (|s.err.stream| - s.err.consumed) + Rank(s.err.phase)
  }

  /** Draining goes on after overflow, and every step brings the end nearer: no run is longer than
      a bound fixed by the two streams. */
  lemma {:induction false} RunsAreBounded(states: seq<State>, out: Octets, err: Octets, maximum: int, i: nat)
    requires Run(states, out, err, maximum) && i < |states|
    ensures 0 <= Left(states[i]) <= 3 * (|out| + |err|) + 2 - i
  {
    hide Invariant, StepOf;
    RunKeeps(states, out, err, maximum, i);
    LeftNonnegative(states[i]);
    if i > 0 {
      RunsAreBounded(states, out, err, maximum, i - 1);
      assert Step(states[i - 1], states[i - 1 + 1]);
      StepCloser(states[i - 1], states[i]);
    }
  }

  lemma LeftNonnegative(s: State)
    requires Invariant(s)
    ensures Left(s) >= 0
  {
  }

  lemma StepCloser(s: State, s': State)
    requires Step(s, s')
    ensures Left(s') < Left(s)
  {
  }

  /** A live thread can always take a step, so a run that cannot be extended has joined threads. */
  lemma LiveThreadsCanStep(s: State, side: Side)
    requires Invariant(s) && Alive(s.At(side))
    ensures exists s' :: StepOf(s, s', side) && !s'.At(side).phase.Raised?
  {
    var t := s.At(side);
    match t.phase
    case Reading =>
      if t.consumed < |t.stream| {
        var next := t.(phase := Holding(t.stream[t.consumed..t.consumed + 1]), consumed := t.consumed + 1);
        assert ReadOf(s, s.With(side, next), side, 1);
        assert StepOf(s, s.With(side, next), side);
      } else {
        assert StepOf(s, s.With(side, t.(phase := Ended)), side);
      }
    case Holding(_) => assert StepOf(s, Admit(s, side), side);
    case Marking => assert StepOf(s, s.With(side, t.(phase := Reading)).(overflow := true), side);
  }
}
