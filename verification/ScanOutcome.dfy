// What the nested scan loops of scan_yara.py do to their counters and errors, as functions of the
// corpus, the engine and the clock; and what that comes to while clock, caps and error list hold.
module ScanOutcome {
  import opened Wrappers
  import opened ScanErrors

  const MAX_MATCHES: nat := 20_000
  const MAX_MATCHED_RULES: nat := 1_024
  const MAX_RULE_NAME: nat := 1_024

  /** One call of the engine for one rule file: the rule identifiers it would report (None: not text) and
      whether it raises after them; how many requests to stop it passes over, and whether it raises when it
      heeds one. */
  datatype MatchRun = MatchRun(
    rule: string, events: seq<Option<string>>, raised: Option<string>, ignores: nat, aborted: Option<string>)

  /** A corpus file: reading it succeeds or raises; `runs[r]` is what rule file `r` does on it. */
  datatype CorpusFile = CorpusFile(path: string, relative: string, unreadable: Option<string>, runs: seq<MatchRun>)

  predicate GoodName(event: Option<string>) {
    event.Some? && event.value != "" && |event.value| <= MAX_RULE_NAME
  }

  predicate AllGood(events: seq<Option<string>>) {
    forall e <- events :: GoodName(e)
  }

  /** The rule file ran on the file from beginning to end. */
  predicate RanToCompletion(run: MatchRun) {
    run.raised.None? && AllGood(run.events)
  }

  /** Every loaded rule file ran to completion on this file. */
  predicate FileDone(file: CorpusFile, compiled: seq<nat>) {
    && file.unreadable.None?
    && forall j :: 0 <= j < |compiled| ==> compiled[j] < |file.runs| && RanToCompletion(file.runs[compiled[j]])
  }

  predicate AllDone(corpus: seq<CorpusFile>, compiled: seq<nat>) {
    forall i :: 0 <= i < |corpus| ==> FileDone(corpus[i], compiled)
  }

  /** It is known what every loaded rule file does on the file. */
  predicate HasRuns(file: CorpusFile, compiled: seq<nat>) {
    forall j :: 0 <= j < |compiled| ==> compiled[j] < |file.runs|
  }

  predicate Covers(corpus: seq<CorpusFile>, compiled: seq<nat>) {
    forall i :: 0 <= i < |corpus| ==> HasRuns(corpus[i], compiled)
  }

  /** Within both caps: so many matches, of so many rules. */
  ghost predicate Fits(log: seq<string>) {
    |log| <= MAX_MATCHES && |set n | n in log| <= MAX_MATCHED_RULES
  }

  lemma FitsPrefix(a: seq<string>, b: seq<string>)
    requires a <= b && Fits(b)
    ensures Fits(a)
  {
    var x, y := set n | n in a, set n | n in b;
    assert forall n <- a :: n in b;
    assert y == x + (y - x);
  }

  // ---- what there is to report ----------------------------------------------------------------

  function BadNames(events: seq<Option<string>>): nat {
    if events == [] then 0
    else
      var last := |events| - 1;
      BadNames(events[..last]) + if GoodName(events[last]) then 0 else 1
  }

  /** The names the engine gets to report: it stops at the first bad name more than it ignores. */
  function Reported(events: seq<Option<string>>, ignores: nat): seq<string> {
    if events == [] then []
    else
      var last := |events| - 1;
      Reported(events[..last], ignores)
      + if GoodName(events[last]) && BadNames(events[..last]) <= ignores then [events[last].value] else []
  }

  function RunNames(run: MatchRun): seq<string> {
    Reported(run.events, run.ignores)
  }

  function RunRaises(run: MatchRun): Option<string> {
    if BadNames(run.events) > run.ignores then run.aborted else run.raised
  }

  const BAD_NAME: string := "engine returned an invalid or oversized rule identifier"

  function Place(file: CorpusFile, run: MatchRun): string {
    run.rule + " -> " + file.relative
  }

  /** A run that raises, or else one with a bad name, leaves one error. */
  function RunErrors(run: MatchRun, place: string): seq<Error> {
    if RunRaises(run).Some? then [MakeError(place, RunRaises(run).value)]
    else if !AllGood(run.events) then [MakeError(place, BAD_NAME)]
    else []
  }

  /** How often a run reads the clock. */
  function RunReadings(run: MatchRun): nat {
    if RunRaises(run).Some? then 1 else 2
  }

  function RulesNames(file: CorpusFile, compiled: seq<nat>): seq<string>
    requires HasRuns(file, compiled)
  {
    if compiled == [] then []
    else
      var last := |compiled| - 1;
      RulesNames(file, compiled[..last]) + RunNames(file.runs[compiled[last]])
  }

  function RulesErrors(file: CorpusFile, compiled: seq<nat>): seq<Error>
    requires HasRuns(file, compiled)
  {
    if compiled == [] then []
    else
      var last := |compiled| - 1;
      var run := file.runs[compiled[last]];
      RulesErrors(file, compiled[..last]) + RunErrors(run, Place(file, run))
  }

  function RulesReadings(file: CorpusFile, compiled: seq<nat>): nat
    requires HasRuns(file, compiled)
  {
    if compiled == [] then 0
    else
      var last := |compiled| - 1;
      RulesReadings(file, compiled[..last]) + RunReadings(file.runs[compiled[last]])
  }

  /** All names the engine gets to report on one file, rule file after rule file. */
  function FileNames(file: CorpusFile, compiled: seq<nat>): seq<string>
    requires HasRuns(file, compiled)
  {
    if file.unreadable.Some? then [] else RulesNames(file, compiled)
  }

  function FileErrors(file: CorpusFile, compiled: seq<nat>): seq<Error>
    requires HasRuns(file, compiled)
  {
    if file.unreadable.Some? then [MakeError(file.path, file.unreadable.value)] else RulesErrors(file, compiled)
  }

  function FileReadings(file: CorpusFile, compiled: seq<nat>): nat
    requires HasRuns(file, compiled)
  {
    if file.unreadable.Some? then 1 else 2 + RulesReadings(file, compiled)
  }

  function CorpusNames(corpus: seq<CorpusFile>, compiled: seq<nat>): seq<string>
    requires Covers(corpus, compiled)
  {
    if corpus == [] then []
    else
      var last := |corpus| - 1;
      CorpusNames(corpus[..last], compiled) + FileNames(corpus[last], compiled)
  }

  function CorpusErrors(corpus: seq<CorpusFile>, compiled: seq<nat>): seq<Error>
    requires Covers(corpus, compiled)
  {
    if corpus == [] then []
    else
      var last := |corpus| - 1;
      CorpusErrors(corpus[..last], compiled) + FileErrors(corpus[last], compiled)
  }

  /** How often a scan reads the clock that nothing stops. */
  function Readings(corpus: seq<CorpusFile>, compiled: seq<nat>): nat
    requires Covers(corpus, compiled)
  {
    if corpus == [] then 0
    else
      var last := |corpus| - 1;
      Readings(corpus[..last], compiled) + FileReadings(corpus[last], compiled)
  }

  /** The files every loaded rule file ran on from beginning to end. */
  function DoneFiles(corpus: seq<CorpusFile>, compiled: seq<nat>): (done: seq<nat>)
    ensures Rising(done, |corpus|)
  {
    if corpus == [] then []
    else
      var last := |corpus| - 1;
      DoneFiles(corpus[..last], compiled) + if FileDone(corpus[last], compiled) then [last] else []
  }

  /** Numbers below a bound, each greater than the one before. */
  predicate Rising(numbers: seq<nat>, bound: nat) {
    && |numbers| <= bound && (forall a :: 0 <= a < |numbers| ==> numbers[a] < bound)
    && forall a, b :: 0 <= a < b < |numbers| ==> numbers[a] < numbers[b]
  }

  lemma {:induction false} DoneFilesAre(corpus: seq<CorpusFile>, compiled: seq<nat>, i: nat)
    ensures i in DoneFiles(corpus, compiled) <==> i < |corpus| && FileDone(corpus[i], compiled)
  {
    hide FileDone, Rising;
    if corpus != [] {
      var last := |corpus| - 1;
      var before := DoneFiles(corpus[..last], compiled);
      DoneFilesAre(corpus[..last], compiled, i);
      InWithLast(before, last, i);
    }
  }

  lemma InWithLast(numbers: seq<nat>, last: nat, i: nat)
    ensures i in numbers + [last] <==> i in numbers || i == last
    ensures numbers + [] == numbers
  {
  }

  /** The clock is in time, the caps hold, and there is room for the errors. */
  ghost predicate Undisturbed(corpus: seq<CorpusFile>, compiled: seq<nat>, readings: nat)
    requires Covers(corpus, compiled)
  {
    && readings >= Readings(corpus, compiled)
    && Fits(CorpusNames(corpus, compiled))
    && |CorpusErrors(corpus, compiled)| < MAX_ERRORS
  }

  // ---- what is reported -----------------------------------------------------------------------

  /** The engine and the callback: names counted, caps met, bad names met, requests to stop still to be
      passed over, and whether one was heeded. */
  datatype Listening = Listening(log: seq<string>, exhausted: bool, badName: bool, ignores: nat, halted: bool)

  /** The callback asks to stop. */
  function Refused(l: Listening): Listening {
    if l.ignores == 0 then l.(halted := true) else l.(ignores := l.ignores - 1)
  }

  ghost function Told(l: Listening, event: Option<string>): Listening {
    if !GoodName(event) then Refused(l.(badName := true))
    else if !Fits(l.log + [event.value]) then Refused(l.(exhausted := true))
    else l.(log := l.log + [event.value])
  }

  ghost function Listen(events: seq<Option<string>>, ignores: nat, log: seq<string>): Listening {
    if events == [] then Listening(log, false, false, ignores, false)
    else
      var last := |events| - 1;
      var l := Listen(events[..last], ignores, log);
      if l.halted then l else Told(l, events[last])
  }

  /** Counted names, errors, readings of the clock before the deadline, whether the file at hand is whole so
      far, and whether the scan has ended. */
  datatype Progress = Progress(log: seq<string>, errors: seq<Error>, left: nat, whole: bool, stopped: bool)

  const RUNTIME: string := "YARA corpus-match runtime"
  const READS_LATE: string := "corpus reads/matching exceeded the explicit deadline"
  const READ_LATE: string := "a corpus read exhausted the explicit deadline"
  const MATCHES_LATE: string := "corpus matching exceeded the explicit deadline"
  const MATCH_LATE: string := "one rule-file match exhausted the explicit deadline"
  const COLLECTION: string := "YARA match collection"
  const TOO_MANY: string := "match evidence exceeds the explicit limits"

  /** An error is noted; it ends the scan if it is to, or if the list takes no more. */
  function Noted(p: Progress, place: string, message: string, ends: bool): Progress {
    p.(errors := Appended(p.errors, MakeError(place, message)), whole := false,
       stopped := ends || |p.errors| >= MAX_ERRORS - 1)
  }

  ghost function AfterListening(p: Progress, l: Listening, raised: Option<string>, place: string): Progress
    requires p.left > 0
  {
    var q := p.(log := l.log, left := p.left - 1);
    if raised.Some? then Noted(q, place, raised.value, false)
    else if q.left == 0 then Noted(q, RUNTIME, MATCH_LATE, true)
    else
      var named := if l.badName then Noted(q.(left := q.left - 1), place, BAD_NAME, false) else q.(left := q.left - 1);
      if l.exhausted && !named.stopped then Noted(named, COLLECTION, TOO_MANY, true) else named
  }

  ghost function AfterRun(p: Progress, run: MatchRun, place: string): Progress {
    if p.left == 0 then Noted(p, RUNTIME, MATCHES_LATE, true)
    else
      var l := Listen(run.events, run.ignores, p.log);
      AfterListening(p, l, if l.halted then run.aborted else run.raised, place)
  }

  ghost function AfterRules(p: Progress, file: CorpusFile, compiled: seq<nat>): Progress
    requires HasRuns(file, compiled)
  {
    if compiled == [] then p
    else
      var last := |compiled| - 1;
      var q := AfterRules(p, file, compiled[..last]);
      var run := file.runs[compiled[last]];
      if q.stopped then q else AfterRun(q, run, Place(file, run))
  }

  ghost function AfterFile(p: Progress, file: CorpusFile, compiled: seq<nat>): Progress
    requires HasRuns(file, compiled)
  {
    if p.left == 0 then Noted(p, RUNTIME, READS_LATE, true)
    else if file.unreadable.Some? then Noted(p.(left := p.left - 1), file.path, file.unreadable.value, false)
    else if p.left == 1 then Noted(p.(left := 0), RUNTIME, READ_LATE, true)
    else AfterRules(p.(left := p.left - 2, whole := true), file, compiled)
  }

  /** The scan of a corpus: where it stands, and which files were counted as completed. */
  datatype Outcome = Outcome(progress: Progress, done: seq<nat>)

  ghost function AfterFiles(p: Progress, corpus: seq<CorpusFile>, compiled: seq<nat>): Outcome
    requires Covers(corpus, compiled)
  {
    if corpus == [] then Outcome(p, [])
    else
      var last := |corpus| - 1;
      var before := AfterFiles(p, corpus[..last], compiled);
      if before.progress.stopped then before
      else
        var q := AfterFile(before.progress, corpus[last], compiled);
        Outcome(q, before.done + if q.whole && !q.stopped then [last] else [])
  }

  /** Where every scan begins. */
  function Beginning(readings: nat): Progress {
    Progress([], [], readings, true, false)
  }

  // ---- an ended scan stays as it is -------------------------------------------------------------

  lemma {:induction false} HaltedStays(events: seq<Option<string>>, ignores: nat, log: seq<string>, i: nat)
    requires i <= |events| && Listen(events[..i], ignores, log).halted
    ensures Listen(events, ignores, log) == Listen(events[..i], ignores, log)
  {
    hide Told;
    if i == |events| {
      assert events[..i] == events;
    } else {
      var last := |events| - 1;
      assert events[..last][..i] == events[..i];
      HaltedStays(events[..last], ignores, log, i);
    }
  }

  lemma {:induction false} RulesStopped(p: Progress, file: CorpusFile, compiled: seq<nat>, r: nat)
    requires r <= |compiled| && HasRuns(file, compiled)
    requires AfterRules(p, file, compiled[..r]).stopped
    ensures AfterRules(p, file, compiled) == AfterRules(p, file, compiled[..r])
  {
    hide AfterRun;
    if r == |compiled| {
      assert compiled[..r] == compiled;
    } else {
      var last := |compiled| - 1;
      assert compiled[..last][..r] == compiled[..r];
      RulesStopped(p, file, compiled[..last], r);
    }
  }

  lemma {:induction false} FilesStopped(p: Progress, corpus: seq<CorpusFile>, compiled: seq<nat>, i: nat)
    requires i <= |corpus| && Covers(corpus, compiled)
    requires AfterFiles(p, corpus[..i], compiled).progress.stopped
    ensures AfterFiles(p, corpus, compiled) == AfterFiles(p, corpus[..i], compiled)
  {
    hide AfterFile;
    if i == |corpus| {
      assert corpus[..i] == corpus;
    } else {
      var last := |corpus| - 1;
      assert corpus[..last][..i] == corpus[..i];
      FilesStopped(p, corpus[..last], compiled, i);
    }
  }

  // ---- undisturbed, all there is to report is reported ------------------------------------------

  lemma {:induction false} NoBadNames(events: seq<Option<string>>)
    ensures BadNames(events) == 0 <==> AllGood(events)
  {
    hide GoodName;
    if events != [] {
      var last := |events| - 1;
      NoBadNames(events[..last]);
      assert events == events[..last] + [events[last]];
    }
  }

  lemma {:induction false} ListenUndisturbed(events: seq<Option<string>>, ignores: nat, log: seq<string>)
    requires Fits(log + Reported(events, ignores))
    ensures var l, bad := Listen(events, ignores, log), BadNames(events);
            && l.log == log + Reported(events, ignores) && !l.exhausted && (l.badName <==> bad > 0)
            && (l.halted <==> bad > ignores) && (!l.halted ==> l.ignores == ignores - bad)
  {
    hide Fits;
    if events == [] {
      assert log == log + Reported(events, ignores);
    } else {
      var last := |events| - 1;
      var before := log + Reported(events[..last], ignores);
      FitsPrefix(before, log + Reported(events, ignores));
      ListenUndisturbed(events[..last], ignores, log);
      if GoodName(events[last]) && BadNames(events[..last]) <= ignores {
        assert before + [events[last].value] == log + Reported(events, ignores);
      } else {
        assert before == log + Reported(events, ignores);
      }
    }
  }

  /** A run within the caps, in time and with room for its error. */
  lemma RunUndisturbed(p: Progress, run: MatchRun, place: string)
    requires !p.stopped && p.left >= RunReadings(run) && Fits(p.log + RunNames(run))
    requires |p.errors + RunErrors(run, place)| < MAX_ERRORS
    ensures AfterRun(p, run, place) == Progress(
              p.log + RunNames(run), p.errors + RunErrors(run, place), p.left - RunReadings(run),
              p.whole && RunErrors(run, place) == [], false)
  {
    hide Fits, Listen, Reported, AllGood, MakeError;
    ListenUndisturbed(run.events, run.ignores, p.log);
    NoBadNames(run.events);
  }

  lemma {:induction false} RulesUndisturbed(p: Progress, file: CorpusFile, compiled: seq<nat>)
    requires HasRuns(file, compiled)
    requires !p.stopped && p.left >= RulesReadings(file, compiled) && Fits(p.log + RulesNames(file, compiled))
    requires |p.errors + RulesErrors(file, compiled)| < MAX_ERRORS
    ensures AfterRules(p, file, compiled) == Progress(
              p.log + RulesNames(file, compiled), p.errors + RulesErrors(file, compiled),
              p.left - RulesReadings(file, compiled), p.whole && RulesErrors(file, compiled) == [], false)
  {
    hide Fits, AfterRun, RunNames, RunErrors, RunReadings, Place;
    if compiled == [] {
      assert p.log + RulesNames(file, compiled) == p.log && p.errors + RulesErrors(file, compiled) == p.errors;
    } else {
      var last := |compiled| - 1;
      var run := file.runs[compiled[last]];
      var names, errors := RulesNames(file, compiled[..last]), RulesErrors(file, compiled[..last]);
      FitsPrefix(p.log + names, p.log + RulesNames(file, compiled));
      RulesUndisturbed(p, file, compiled[..last]);
      var q := AfterRules(p, file, compiled[..last]);
      assert q.log + RunNames(run) == p.log + RulesNames(file, compiled);
      assert q.errors + RunErrors(run, Place(file, run)) == p.errors + RulesErrors(file, compiled);
      RunUndisturbed(q, run, Place(file, run));
    }
  }

  lemma FileUndisturbed(p: Progress, file: CorpusFile, compiled: seq<nat>)
    requires HasRuns(file, compiled)
    requires !p.stopped && p.left >= FileReadings(file, compiled) && Fits(p.log + FileNames(file, compiled))
    requires |p.errors + FileErrors(file, compiled)| < MAX_ERRORS
    ensures AfterFile(p, file, compiled) == Progress(
              p.log + FileNames(file, compiled), p.errors + FileErrors(file, compiled),
              p.left - FileReadings(file, compiled), FileErrors(file, compiled) == [], false)
  {
    hide Fits, AfterRules, MakeError, RulesNames, RulesErrors, RulesReadings;
    if file.unreadable.None? { RulesUndisturbed(p.(left := p.left - 2, whole := true), file, compiled); }
    assert p.log + [] == p.log;
  }

  lemma {:induction false} RulesClean(file: CorpusFile, compiled: seq<nat>)
    requires HasRuns(file, compiled)
    ensures RulesErrors(file, compiled) == [] <==> forall j :: 0 <= j < |compiled| ==> RanToCompletion(file.runs[compiled[j]])
  {
    hide AllGood, MakeError;
    if compiled != [] {
      var last := |compiled| - 1;
      assert compiled == compiled[..last] + [compiled[last]];
      RulesClean(file, compiled[..last]);
      NoBadNames(file.runs[compiled[last]].events);
    }
  }

  /** A file leaves no error exactly when every rule file ran on it from beginning to end. */
  lemma CleanIsDone(file: CorpusFile, compiled: seq<nat>)
    requires HasRuns(file, compiled)
    ensures FileErrors(file, compiled) == [] <==> FileDone(file, compiled)
  {
    hide RulesErrors, RanToCompletion;
    RulesClean(file, compiled);
  }

  /** While nothing disturbs the scan, the names counted are all that the engine gets to report on the
      readable files, the errors are those of all the files, and the files counted are those without one. */
  lemma {:induction false} ScanUndisturbed(corpus: seq<CorpusFile>, compiled: seq<nat>, readings: nat)
    requires Covers(corpus, compiled) && Undisturbed(corpus, compiled, readings)
    ensures var o := AfterFiles(Beginning(readings), corpus, compiled);
            && o.progress.log == CorpusNames(corpus, compiled) && o.progress.errors == CorpusErrors(corpus, compiled)
            && o.progress.left == readings - Readings(corpus, compiled) && !o.progress.stopped
            && o.done == DoneFiles(corpus, compiled)
  {
    hide Fits, AfterFile, FileNames, FileErrors, FileReadings, FileDone;
    if corpus != [] {
      var last := |corpus| - 1;
      var file := corpus[last];
      FitsPrefix(CorpusNames(corpus[..last], compiled), CorpusNames(corpus, compiled));
      ScanUndisturbed(corpus[..last], compiled, readings);
      FileUndisturbed(AfterFiles(Beginning(readings), corpus[..last], compiled).progress, file, compiled);
      CleanIsDone(file, compiled);
    }
  }

  // ---- when a scan has no error -----------------------------------------------------------------

  ghost predicate CorpusFits(corpus: seq<CorpusFile>, compiled: seq<nat>)
    requires Covers(corpus, compiled)
  {
    AllDone(corpus, compiled) && Fits(CorpusNames(corpus, compiled))
  }

  lemma {:induction false} ListenedToAll(events: seq<Option<string>>, ignores: nat, log: seq<string>)
    requires !Listen(events, ignores, log).exhausted && !Listen(events, ignores, log).badName
    ensures AllGood(events) && !Listen(events, ignores, log).halted
  {
    hide GoodName, Fits;
    if events != [] {
      var last := |events| - 1;
      ListenedToAll(events[..last], ignores, log);
      assert events == events[..last] + [events[last]];
    }
  }

  /** Without bad names or met caps, all names were counted. */
  lemma {:induction false} ListenClean(events: seq<Option<string>>, ignores: nat, log: seq<string>)
    requires Fits(log) && !Listen(events, ignores, log).exhausted && !Listen(events, ignores, log).badName
    ensures Fits(log + Reported(events, ignores))
    ensures Listen(events, ignores, log).log == log + Reported(events, ignores)
  {
    hide GoodName, Fits;
    if events == [] {
      assert log + Reported(events, ignores) == log;
    } else {
      var last := |events| - 1;
      ListenClean(events[..last], ignores, log);
      ListenedToAll(events, ignores, log);
      NoBadNames(events[..last]);
      assert GoodName(events[last]) && AllGood(events[..last]);
      ReportedGood(events, ignores, log);
    }
  }

  lemma ReportedGood(events: seq<Option<string>>, ignores: nat, log: seq<string>)
    requires events != [] && GoodName(events[|events| - 1]) && BadNames(events[..|events| - 1]) == 0
    ensures log + Reported(events[..|events| - 1], ignores) + [events[|events| - 1].value] == log + Reported(events, ignores)
  {
  }

  lemma RunClean(p: Progress, run: MatchRun, place: string)
    requires !p.stopped && Fits(p.log) && AfterRun(p, run, place).errors == []
    ensures RunErrors(run, place) == [] && p.left >= RunReadings(run) && Fits(p.log + RunNames(run))
  {
    hide Fits, Listen, Reported, AllGood, MakeError;
    ListenedToAll(run.events, run.ignores, p.log);
    ListenClean(run.events, run.ignores, p.log);
    NoBadNames(run.events);
  }

  /** Errors are never lost. */
  lemma RunErrorsKept(p: Progress, run: MatchRun, place: string)
    ensures AfterRun(p, run, place).errors == [] ==> p.errors == []
  {
    hide Listen, MakeError;
  }

  lemma {:induction false} RulesErrorsKept(p: Progress, file: CorpusFile, compiled: seq<nat>)
    requires HasRuns(file, compiled) && AfterRules(p, file, compiled).errors == []
    ensures p.errors == []
  {
    hide AfterRun, Place;
    if compiled != [] {
      var last := |compiled| - 1;
      var q, run := AfterRules(p, file, compiled[..last]), file.runs[compiled[last]];
      if !q.stopped { RunErrorsKept(q, run, Place(file, run)); }
      RulesErrorsKept(p, file, compiled[..last]);
    }
  }

  lemma {:induction false} RulesWentClean(p: Progress, file: CorpusFile, compiled: seq<nat>)
    requires HasRuns(file, compiled)
    requires !p.stopped && Fits(p.log) && AfterRules(p, file, compiled).errors == []
    ensures RulesErrors(file, compiled) == []
    ensures p.left >= RulesReadings(file, compiled) && Fits(p.log + RulesNames(file, compiled))
  {
    hide Fits, AfterRun, RunNames, RunErrors, RunReadings, Place, RanToCompletion;
    RulesErrorsKept(p, file, compiled);
    if compiled == [] {
      assert p.log + RulesNames(file, compiled) == p.log;
    } else {
      var last := |compiled| - 1;
      var run := file.runs[compiled[last]];
      var q := AfterRules(p, file, compiled[..last]);
      if !q.stopped { RunErrorsKept(q, run, Place(file, run)); }
      RulesWentClean(p, file, compiled[..last]);
      RulesUndisturbed(p, file, compiled[..last]);
      RunClean(q, run, Place(file, run));
      assert q.log + RunNames(run) == p.log + RulesNames(file, compiled);
    }
  }

  lemma FileErrorsKept(p: Progress, file: CorpusFile, compiled: seq<nat>)
    requires HasRuns(file, compiled) && AfterFile(p, file, compiled).errors == []
    ensures p.errors == [] && file.unreadable.None?
  {
    hide AfterRules, MakeError;
    if p.left >= 2 && file.unreadable.None? { RulesErrorsKept(p.(left := p.left - 2, whole := true), file, compiled); }
  }

  lemma FileWentClean(p: Progress, file: CorpusFile, compiled: seq<nat>)
    requires HasRuns(file, compiled) && !p.stopped && Fits(p.log) && AfterFile(p, file, compiled).errors == []
    ensures FileErrors(file, compiled) == []
    ensures p.left >= FileReadings(file, compiled) && Fits(p.log + FileNames(file, compiled))
  {
    hide Fits, AfterRules, MakeError, RulesNames, RulesErrors, RulesReadings;
    FileErrorsKept(p, file, compiled);
    assert p.left >= 2;
    RulesWentClean(p.(left := p.left - 2, whole := true), file, compiled);
  }

  lemma {:induction false} ScanWentClean(corpus: seq<CorpusFile>, compiled: seq<nat>, readings: nat)
    requires Covers(corpus, compiled) && AfterFiles(Beginning(readings), corpus, compiled).progress.errors == []
    ensures CorpusFits(corpus, compiled) && CorpusErrors(corpus, compiled) == [] && readings >= Readings(corpus, compiled)
  {
    hide Fits, AfterFile, FileNames, FileErrors, FileReadings, FileDone;
    if corpus == [] {
      NothingFits();
    } else {
      var last := |corpus| - 1;
      var file, before := corpus[last], AfterFiles(Beginning(readings), corpus[..last], compiled).progress;
      if !before.stopped { FileErrorsKept(before, file, compiled); }
      ScanWentClean(corpus[..last], compiled, readings);
      ScanUndisturbed(corpus[..last], compiled, readings);
      FileWentClean(before, file, compiled);
      CleanIsDone(file, compiled);
    }
  }

  lemma NothingFits()
    ensures Fits([])
  {
  }

  lemma {:induction false} DoneLeavesNothing(corpus: seq<CorpusFile>, compiled: seq<nat>)
    requires Covers(corpus, compiled) && AllDone(corpus, compiled)
    ensures CorpusErrors(corpus, compiled) == [] && DoneFiles(corpus, compiled) == Indices(|corpus|)
  {
    hide FileDone, FileErrors;
    if corpus != [] {
      var last := |corpus| - 1;
      CleanIsDone(corpus[last], compiled);
      DoneLeavesNothing(corpus[..last], compiled);
    }
  }

  function Indices(n: nat): seq<nat> {
    seq(n, i requires 0 <= i < n => i)
  }

  /** A scan is without error exactly when every rule file ran to its end on every file, within the caps and
      in time. */
  lemma CleanExactly(corpus: seq<CorpusFile>, compiled: seq<nat>, readings: nat)
    requires Covers(corpus, compiled)
    ensures AfterFiles(Beginning(readings), corpus, compiled).progress.errors == []
       <==> CorpusFits(corpus, compiled) && readings >= Readings(corpus, compiled)
  {
    hide AfterFiles, CorpusNames, CorpusErrors, AllDone, Fits, Readings, Beginning;
    if CorpusFits(corpus, compiled) && readings >= Readings(corpus, compiled) {
      DoneLeavesNothing(corpus, compiled);
      ScanUndisturbed(corpus, compiled, readings);
    }
    if AfterFiles(Beginning(readings), corpus, compiled).progress.errors == [] { ScanWentClean(corpus, compiled, readings); }
  }

  // ---- only what was done is counted ------------------------------------------------------------

  lemma RunWhole(p: Progress, run: MatchRun, place: string)
    ensures var q := AfterRun(p, run, place); q.whole && !q.stopped ==> RanToCompletion(run) && p.whole
  {
    hide Listen, AllGood, MakeError, Fits;
    var l := Listen(run.events, run.ignores, p.log);
    if !l.exhausted && !l.badName { ListenedToAll(run.events, run.ignores, p.log); }
  }

  lemma {:induction false} RulesWhole(p: Progress, file: CorpusFile, compiled: seq<nat>)
    requires HasRuns(file, compiled) && AfterRules(p, file, compiled).whole && !AfterRules(p, file, compiled).stopped
    ensures forall j :: 0 <= j < |compiled| ==> RanToCompletion(file.runs[compiled[j]])
    ensures p.whole
  {
    hide AfterRun, Place, RanToCompletion;
    if compiled != [] {
      var last := |compiled| - 1;
      var q, run := AfterRules(p, file, compiled[..last]), file.runs[compiled[last]];
      RunWhole(q, run, Place(file, run));
      RulesWhole(p, file, compiled[..last]);
    }
  }

  /** Whatever disturbs a scan, no file is counted that some rule file did not run on to its end. */
  lemma {:induction false} DoneWasDone(p: Progress, corpus: seq<CorpusFile>, compiled: seq<nat>)
    requires Covers(corpus, compiled)
    ensures var done := AfterFiles(p, corpus, compiled).done;
            Rising(done, |corpus|) && forall a :: 0 <= a < |done| ==> FileDone(corpus[done[a]], compiled)
  {
    hide AfterFile, FileDone;
    if corpus != [] {
      var last := |corpus| - 1;
      DoneWasDone(p, corpus[..last], compiled);
      FileWhole(AfterFiles(p, corpus[..last], compiled).progress, corpus[last], compiled);
    }
  }

  lemma FileWhole(p: Progress, file: CorpusFile, compiled: seq<nat>)
    requires HasRuns(file, compiled)
    ensures var q := AfterFile(p, file, compiled); q.whole && !q.stopped ==> FileDone(file, compiled)
  {
    hide AfterRules, RanToCompletion, MakeError;
    var q := AfterFile(p, file, compiled);
    if p.left >= 2 && file.unreadable.None? && q.whole && !q.stopped {
      RulesWhole(p.(left := p.left - 2, whole := true), file, compiled);
    }
  }
}
