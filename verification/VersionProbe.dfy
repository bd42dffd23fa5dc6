// The version probe of publish_rehearsal.py: two readers admit one octet at a time to a shared
// budget while a supervising loop polls overflow first, failure second and liveness last.
module VersionProbe {
  import opened Bytes

  datatype Side = Stdout | Stderr

  datatype Why = EndOfFile | OverBudget | Raised

  datatype Phase =
    | Reading
    | Holding(octet: byte)  // read, not yet under the lock
    | Failing               // a read raised; the failure event is not set yet
    | Leaving(why: Why)     // returning, but still alive
    | Gone(why: Why)

  datatype Reader = Reader(phase: Phase, stream: Octets, consumed: nat, buffer: Octets)

  datatype Supervisor = AtOverflow | AtFailed | AtAlive | AtWait | Succeeded | Refused

  datatype State = State(out: Reader, err: Reader, captured: nat, overflow: bool, failed: bool, supervisor: Supervisor, limit: nat) {
    function At(side: Side): Reader {
      if side.Stdout? then out else err
    }

    function With(side: Side, t: Reader): State {
      if side.Stdout? then this.(out := t) else this.(err := t)
    }
  }

  function Initial(out: Octets, err: Octets, limit: nat): State {
    State(Reader(Reading, out, 0, []), Reader(Reading, err, 0, []), 0, false, false, AtOverflow, limit)
  }

  // ---- steps ---------------------------------------------------------------------------------

  /** The region under the capture lock. */
  function Admit(s: State, side: Side): State
    requires s.At(side).phase.Holding?
  {
    var t := s.At(side);
    if s.limit - s.captured <= 0 then s.With(side, t.(phase := Leaving(OverBudget))).(overflow := true)
    else s.With(side, t.(phase := Reading, buffer := t.buffer + [t.phase.octet])).(captured := s.captured + 1)
  }

  function ReadNext(s: State, side: Side): State
    requires s.At(side).consumed < |s.At(side).stream|
  {
    var t := s.At(side);
    s.With(side, t.(phase := Holding(t.stream[t.consumed]), consumed := t.consumed + 1))
  }

  predicate ReaderStep(s: State, s': State, side: Side) {
    var t := s.At(side);
    match t.phase
    case Reading =>
      || (t.consumed < |t.stream| && s' == ReadNext(s, side))
      || (t.consumed == |t.stream| && s' == s.With(side, t.(phase := Leaving(EndOfFile))))
      || s' == s.With(side, t.(phase := Failing))
    case Holding(_) => s' == Admit(s, side)
    case Failing => s' == s.With(side, t.(phase := Leaving(Raised))).(failed := true)
    case Leaving(why) => s' == s.With(side, t.(phase := Gone(why)))
    case Gone(_) => false
  }

  /** One check of the supervising loop.  Whether the process has exited and whether the deadline
      has passed are the environment's choice. */
  predicate SupervisorStep(s: State, s': State) {
    match s.supervisor
    case AtOverflow => s' == s.(supervisor := if s.overflow then Refused else AtFailed)
    case AtFailed => s' == s.(supervisor := if s.failed then Refused else AtAlive)
    case AtAlive =>
      || (s.out.phase.Gone? && s.err.phase.Gone? && s' == s.(supervisor := Succeeded))
      || s' == s.(supervisor := AtWait)
      || s' == s.(supervisor := Refused)
    case AtWait => s' == s.(supervisor := AtOverflow)
    case _ => false
  }

  predicate Step(s: State, s': State) {
    ReaderStep(s, s', Stdout) || ReaderStep(s, s', Stderr) || SupervisorStep(s, s')
  }

  ghost predicate Run(states: seq<State>, out: Octets, err: Octets, limit: nat) {
    && states != [] && states[0] == Initial(out, err, limit)
    && forall i :: 0 <= i < |states| - 1 ==> Step(states[i], states[i + 1])
  }

  function Last(states: seq<State>): State
    requires states != []
  {
    states[|states| - 1]
  }

  // ---- the invariant -------------------------------------------------------------------------

  predicate Left(t: Reader, why: Why) {
    t.phase == Leaving(why) || t.phase == Gone(why)
  }

  function Held(t: Reader): nat {
    if t.phase.Holding? || Left(t, OverBudget) then 1 else 0
  }

  ghost predicate ReaderOk(t: Reader) {
    && t.consumed <= |t.stream| && Held(t) <= t.consumed
    && t.buffer == t.stream[..t.consumed - Held(t)]
    && (t.phase.Holding? ==> t.phase.octet == t.stream[t.consumed - 1])
    && (Left(t, EndOfFile) ==> t.consumed == |t.stream|)
  }

  ghost predicate Invariant(s: State) {
    && ReaderOk(s.out) && ReaderOk(s.err)
    && s.captured == |s.out.buffer| + |s.err.buffer| <= s.limit
    && (s.overflow <==> Left(s.out, OverBudget) || Left(s.err, OverBudget))
    && (s.overflow ==> s.captured == s.limit)
    && (s.supervisor.Succeeded? ==> s.out.phase.Gone? && s.err.phase.Gone?)
  }

  lemma ReaderStepKeeps(s: State, s': State, side: Side)
    requires Invariant(s) && ReaderStep(s, s', side)
    ensures Invariant(s')
    ensures s'.limit == s.limit && s'.out.stream == s.out.stream && s'.err.stream == s.err.stream
  {
    hide Invariant;
    var t := s.At(side);
    match t.phase
    case Reading =>
      if t.consumed < |t.stream| && s' == ReadNext(s, side) {
        ReadKeeps(s, side);
      } else if s' == s.With(side, t.(phase := Failing)) {
        PhaseKeeps(s, side, Failing, s.failed);
      } else {
        PhaseKeeps(s, side, Leaving(EndOfFile), s.failed);
      }
    case Holding(_) => AdmitKeeps(s, side);
    case Failing => PhaseKeeps(s, side, Leaving(Raised), true);
    case Leaving(why) => PhaseKeeps(s, side, Gone(why), s.failed);
  }

  /** Steps that move no octets. */
  lemma PhaseKeeps(s: State, side: Side, phase: Phase, failed: bool)
    requires Invariant(s) && !s.At(side).phase.Holding? && !s.At(side).phase.Gone? && !phase.Holding? && !phase.Reading?
    requires phase == Leaving(EndOfFile) ==> s.At(side).consumed == |s.At(side).stream|
    requires s.At(side).phase.Leaving? ==> phase == Gone(s.At(side).phase.why)
    requires !s.At(side).phase.Leaving? ==> phase in [Failing, Leaving(EndOfFile), Leaving(Raised)]
    ensures Invariant(s.With(side, s.At(side).(phase := phase)).(failed := failed))
  {
    hide ReaderOk;
    PhaseReader(s.At(side), phase);
  }

  lemma PhaseReader(t: Reader, phase: Phase)
    requires ReaderOk(t) && !t.phase.Holding? && !phase.Holding?
    requires phase == Leaving(EndOfFile) ==> t.consumed == |t.stream|
    requires t.phase.Leaving? ==> phase == Gone(t.phase.why)
    requires !t.phase.Leaving? ==> phase in [Failing, Leaving(EndOfFile), Leaving(Raised)] && !t.phase.Gone?
    ensures ReaderOk(t.(phase := phase))
    ensures Left(t.(phase := phase), OverBudget) <==> Left(t, OverBudget)
  {
  }

  lemma ReadKeeps(s: State, side: Side)
    requires Invariant(s) && s.At(side).phase.Reading? && s.At(side).consumed < |s.At(side).stream|
    ensures Invariant(ReadNext(s, side))
  {
  }

  lemma AdmitKeeps(s: State, side: Side)
    requires Invariant(s) && s.At(side).phase.Holding?
    ensures Invariant(Admit(s, side))
  {
    hide ReaderOk;
    AdmitReader(s.At(side));
  }

  lemma AdmitReader(t: Reader)
    requires ReaderOk(t) && t.phase.Holding?
    ensures ReaderOk(t.(phase := Reading, buffer := t.buffer + [t.phase.octet]))
    ensures ReaderOk(t.(phase := Leaving(OverBudget)))
  {
    assert t.stream[..t.consumed] == t.stream[..t.consumed - 1] + [t.phase.octet];
  }

  lemma SupervisorStepKeeps(s: State, s': State)
    requires Invariant(s) && SupervisorStep(s, s')
    ensures Invariant(s')
    ensures s'.limit == s.limit && s'.out.stream == s.out.stream && s'.err.stream == s.err.stream
  {
  }

  lemma {:induction false} RunKeeps(states: seq<State>, out: Octets, err: Octets, limit: nat, i: nat)
    requires Run(states, out, err, limit) && i < |states|
    ensures Invariant(states[i])
    ensures states[i].limit == limit && states[i].out.stream == out && states[i].err.stream == err
  {
    hide Invariant, ReaderStep, SupervisorStep;
    if i == 0 {
      InitialOk(out, err, limit);
    } else {
      RunKeeps(states, out, err, limit, i - 1);
      var s, s' := states[i - 1], states[i - 1 + 1];
      assert Step(s, s');
      if SupervisorStep(s, s') { SupervisorStepKeeps(s, s'); }
      else if ReaderStep(s, s', Stdout) { ReaderStepKeeps(s, s', Stdout); }
      else { ReaderStepKeeps(s, s', Stderr); }
    }
  }

  lemma InitialOk(out: Octets, err: Octets, limit: nat)
    ensures Invariant(Initial(out, err, limit))
  {
  }

  /** In every state of every run the budget holds and each buffer is a prefix of its stream. */
  lemma BudgetAlwaysHolds(states: seq<State>, out: Octets, err: Octets, limit: nat, i: nat)
    requires Run(states, out, err, limit) && i < |states|
    ensures |states[i].out.buffer| + |states[i].err.buffer| <= limit
    ensures states[i].out.buffer <= out && states[i].err.buffer <= err
  {
    RunKeeps(states, out, err, limit, i);
  }

  // ---- success and completeness --------------------------------------------------------------

  predicate Complete(s: State) {
    s.out.buffer == s.out.stream && s.err.buffer == s.err.stream
  }

  /** A successful return is complete exactly when both streams were read to their ends and the overflow
      event is clear.  The loop looks at neither: it checks overflow and failure only before it looks
      whether the readers are gone. */
  lemma SuccessIsComplete(states: seq<State>, out: Octets, err: Octets, limit: nat)
    requires Run(states, out, err, limit) && Last(states).supervisor.Succeeded?
    ensures Complete(Last(states))
        <==> Last(states).out.consumed == |out| && Last(states).err.consumed == |err| && !Last(states).overflow
  {
    RunKeeps(states, out, err, limit, |states| - 1);
    var s := Last(states);
    WholeReader(s.out);
    WholeReader(s.err);
  }

  lemma WholeReader(t: Reader)
    requires ReaderOk(t)
    ensures t.buffer == t.stream <==> t.consumed == |t.stream| && Held(t) == 0
  {
    assert |t.buffer| == t.consumed - Held(t);
  }

  /** When no read raised, a successful return is complete exactly when both streams fit the budget
      together. */
  lemma SuccessIsCompleteWhenItFits(states: seq<State>, out: Octets, err: Octets, limit: nat)
    requires Run(states, out, err, limit) && Last(states).supervisor.Succeeded?
    requires !Left(Last(states).out, Raised) && !Left(Last(states).err, Raised)
    ensures Complete(Last(states)) <==> |out| + |err| <= limit
  {
    RunKeeps(states, out, err, limit, |states| - 1);
    var s := Last(states);
    assert |s.out.buffer| == s.out.consumed - Held(s.out) && |s.err.buffer| == s.err.consumed - Held(s.err);
    if !s.overflow {
      assert Left(s.out, EndOfFile) by { GoneAtEnd(s.out); }
      assert Left(s.err, EndOfFile) by { GoneAtEnd(s.err); }
    }
  }

  // ---- what the supervisor has seen ------------------------------------------------------------

  /** The supervisor stands at `now` since step `i`. */
  ghost predicate Rests(states: seq<State>, i: nat, k: nat, now: Supervisor) {
    i <= k < |states| && forall j :: i <= j <= k ==> states[j].supervisor == now
  }

  /** The last look before `k`: at `i` the supervisor stood at `before` with this flag clear, and it has stood
      at the next check since. */
  ghost predicate LookedAt(states: seq<State>, i: nat, k: nat, before: Supervisor, next: Supervisor) {
    && i < k < |states| && states[i].supervisor == before
    && (before.AtOverflow? ==> !states[i].overflow) && (before.AtFailed? ==> !states[i].failed)
    && Rests(states, i + 1, k, next)
  }

  lemma SupervisorAlone(s: State, s': State)
    requires Step(s, s') && s'.supervisor != s.supervisor
    ensures SupervisorStep(s, s')
  {
    hide SupervisorStep, ReaderStep;
    if ReaderStep(s, s', Stdout) { ReaderLeaves(s, s', Stdout); }
    if ReaderStep(s, s', Stderr) { ReaderLeaves(s, s', Stderr); }
  }

  lemma ReaderLeaves(s: State, s': State, side: Side)
    requires ReaderStep(s, s', side)
    ensures s'.supervisor == s.supervisor
  {
  }

  lemma {:induction false} LastLook(
    states: seq<State>, out: Octets, err: Octets, limit: nat, k: nat, before: Supervisor, next: Supervisor) returns (i: nat)
    requires Run(states, out, err, limit) && k < |states| && states[k].supervisor == next
    requires (before.AtOverflow? && next.AtFailed?) || (before.AtFailed? && next.AtAlive?) || (before.AtAlive? && next.Succeeded?)
    ensures LookedAt(states, i, k, before, next)
    ensures next.Succeeded? ==> states[i].out.phase.Gone? && states[i].err.phase.Gone?
    decreases k
  {
    hide ReaderStep;
    assert k > 0;
    assert Step(states[k - 1], states[k - 1 + 1]);
    if states[k - 1].supervisor == next {
      i := LastLook(states, out, err, limit, k - 1, before, next);
    } else {
      SupervisorAlone(states[k - 1], states[k]);
      i := k - 1;
    }
  }

  /** A run that succeeds has looked three times, in this order and nothing in between: at the overflow event,
      which was clear, at the failure event, which was clear, and at the readers, which were gone. */
  lemma SuccessLooked(states: seq<State>, out: Octets, err: Octets, limit: nat)
    requires Run(states, out, err, limit) && Last(states).supervisor.Succeeded?
    ensures exists i: nat, j: nat, k: nat ::
              && i < j < k < |states|
              && states[i].supervisor.AtOverflow? && !states[i].overflow && Rests(states, i + 1, j, AtFailed)
              && !states[j].failed && Rests(states, j + 1, k, AtAlive)
              && states[k].out.phase.Gone? && states[k].err.phase.Gone?
              && Rests(states, k + 1, |states| - 1, Succeeded)
  {
    hide Step;
    var k := LastLook(states, out, err, limit, |states| - 1, AtAlive, Succeeded);
    var j := LastLook(states, out, err, limit, k, AtFailed, AtAlive);
    var i := LastLook(states, out, err, limit, j, AtOverflow, AtFailed);
    assert Rests(states, i + 1, j, AtFailed) && Rests(states, j + 1, k, AtAlive);
  }

  lemma GoneAtEnd(t: Reader)
    requires t.phase.Gone? && !Left(t, Raised) && !Left(t, OverBudget)
    ensures Left(t, EndOfFile)
  {
    var why := t.phase.why;
    assert t.phase == Gone(why);
    match why
    case EndOfFile =>
    case OverBudget =>
    case Raised =>
  }

  /** Every budget can be overrun by a successful return: the overflow check comes first, a reader
      then exceeds the budget and returns, and the liveness check finds both readers gone. */
  lemma TruncatedSuccess(out: Octets, limit: nat)
    requires |out| == limit + 1
    ensures exists states: seq<State> ::
              && Run(states, out, [], limit)
              && Last(states).supervisor.Succeeded? && Last(states).overflow
              && Last(states).out.buffer == out[..limit] && !Complete(Last(states))
  {
    var states := FilledRun(out, limit, limit);
    var s0 := Last(states);
    var s1 := s0.(supervisor := AtFailed);
    var s2 := ReadNext(s1, Stdout);
    var s3 := Admit(s2, Stdout);
    var s4 := s3.With(Stdout, s3.out.(phase := Gone(OverBudget)));
    var s5 := s4.With(Stderr, s4.err.(phase := Leaving(EndOfFile)));
    var s6 := s5.With(Stderr, s5.err.(phase := Gone(EndOfFile)));
    var s7 := s6.(supervisor := AtAlive);
    var s8 := s7.(supervisor := Succeeded);
    var more := Extend(states, out, limit, s1);
    more := Extend(more, out, limit, s2);
    more := Extend(more, out, limit, s3);
    more := Extend(more, out, limit, s4);
    more := Extend(more, out, limit, s5);
    more := Extend(more, out, limit, s6);
    more := Extend(more, out, limit, s7);
    more := Extend(more, out, limit, s8);
    assert |out[..limit]| == limit;
  }

  /** Output within the budget can be lost as well: a read raises behind any part `m` of it, after the
      failure check and before the liveness check, and the call succeeds with the failure event set
      and the overflow event clear. */
  lemma RaisedSuccess(out: Octets, limit: nat, m: nat)
    requires m <= limit && m <= |out|
    ensures exists states: seq<State> ::
              && Run(states, out, [], limit)
              && Last(states).supervisor.Succeeded? && Last(states).failed && !Last(states).overflow
              && Last(states).out.buffer == out[..m]
  {
    var states := FilledRun(out, limit, m);
    var s0 := Last(states);
    var s1 := s0.(supervisor := AtFailed);
    var s2 := s1.(supervisor := AtAlive);
    var s3 := s2.With(Stdout, s2.out.(phase := Failing));
    var s4 := s3.With(Stdout, s3.out.(phase := Leaving(Raised))).(failed := true);
    var s5 := s4.With(Stdout, s4.out.(phase := Gone(Raised)));
    var s6 := s5.With(Stderr, s5.err.(phase := Leaving(EndOfFile)));
    var s7 := s6.With(Stderr, s6.err.(phase := Gone(EndOfFile)));
    var s8 := s7.(supervisor := Succeeded);
    var more := Extend(states, out, limit, s1);
    more := Extend(more, out, limit, s2);
    more := Extend(more, out, limit, s3);
    more := Extend(more, out, limit, s4);
    more := Extend(more, out, limit, s5);
    more := Extend(more, out, limit, s6);
    more := Extend(more, out, limit, s7);
    more := Extend(more, out, limit, s8);
  }

  lemma Extend(states: seq<State>, out: Octets, limit: nat, s: State) returns (more: seq<State>)
    requires Run(states, out, [], limit) && Step(Last(states), s)
    ensures Run(more, out, [], limit) && Last(more) == s
  {
    hide Step;
    more := states + [s];
    forall i | 0 <= i < |more| - 1 ensures Step(more[i], more[i + 1]) {
      if i < |states| - 1 { assert Step(states[i], states[i + 1]); }
    }
  }

  function Filled(out: Octets, limit: nat, k: nat): State
    requires k <= |out|
  {
    State(Reader(Reading, out, k, out[..k]), Reader(Reading, [], 0, []), k, false, false, AtOverflow, limit)
  }

  /** Standard output read up to the budget before the supervisor has looked once. */
  lemma {:induction false} FilledRun(out: Octets, limit: nat, k: nat) returns (states: seq<State>)
    requires k <= limit && k <= |out|
    ensures Run(states, out, [], limit) && Last(states) == Filled(out, limit, k)
  {
    if k == 0 {
      states := [Initial(out, [], limit)];
      assert out[..0] == [];
    } else {
      states := FilledRun(out, limit, k - 1);
      var s := ReadNext(Last(states), Stdout);
      assert out[..k] == out[..k - 1] + [out[k - 1]];
      states := Extend(states, out, limit, s);
      states := Extend(states, out, limit, Admit(s, Stdout));
    }
  }
}
