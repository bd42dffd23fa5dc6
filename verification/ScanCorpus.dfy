// The nested scan loops of scan_yara.py against an arbitrary engine, clock and corpus: what they
// count, when they stop, and exactly when they report no error.
module ScanCorpus {
  import opened Wrappers
  import opened ScanErrors
  import opened ScanOutcome

  // ---- the counter ---------------------------------------------------------------------------

  type Counter = map<string, int>

  /** `matched` counts exactly the names in `log`. */
  ghost predicate Tallies(matched: Counter, log: seq<string>) {
    forall n :: (n in matched <==> n in log) && (n in matched ==> matched[n] == multiset(log)[n])
  }

  function Counted(matched: Counter, name: string): Counter {
    matched[name := (if name in matched then matched[name] else 0) + 1]
  }

  lemma TalliesStep(matched: Counter, log: seq<string>, name: string)
    requires Tallies(matched, log)
    ensures Tallies(Counted(matched, name), log + [name])
  {
    var more := log + [name];
    assert multiset(more) == multiset(log) + multiset{name};
    forall n ensures n in Counted(matched, name) <==> n in more { }
  }

  ghost function Total(matched: Counter): int {
    if matched == map[] then 0
    else
      var n :| n in matched;
      matched[n] + Total(matched - {n})
  }

  lemma {:induction false} TotalOf(matched: Counter, n: string)
    requires n in matched
    ensures Total(matched) == matched[n] + Total(matched - {n})
    decreases |matched|
  {
    var m :| m in matched && Total(matched) == matched[m] + Total(matched - {m});
    if m != n {
      var less := matched - {m};
      assert n in less && less[n] == matched[n];
      assert |less| < |matched| by { Smaller(matched, m); }
      assert |matched - {n}| < |matched| by { Smaller(matched, n); }
      TotalOf(less, n);
      TotalOf(matched - {n}, m);
      assert less - {n} == (matched - {n}) - {m};
    }
  }

  lemma Smaller(matched: Counter, n: string)
    requires n in matched
    ensures |matched - {n}| < |matched|
  {
    assert (matched - {n}).Keys == matched.Keys - {n};
    assert |matched.Keys - {n}| < |matched.Keys|;
    assert |matched| == |matched.Keys| && |matched - {n}| == |(matched - {n}).Keys|;
  }

  /** Counting one more name adds one to the total. */
  lemma TotalCounted(matched: Counter, name: string)
    ensures Total(Counted(matched, name)) == Total(matched) + 1
  {
    var more := Counted(matched, name);
    TotalOf(more, name);
    assert more - {name} == matched - {name};
    if name in matched {
      TotalOf(matched, name);
    } else {
      assert matched - {name} == matched;
    }
  }

  // ---- the scan ------------------------------------------------------------------------------

  class Scan {
    var matched: Counter
    var totalMatches: nat
    const errors: ErrorList
    var left: nat  // readings of the clock that still come before the deadline
    var exhausted: bool
    var badName: bool
    ghost var log: seq<string>

    constructor (left: nat)
      ensures Valid() && fresh(errors) && Now(true, false) == Beginning(left)
    {
      matched, totalMatches, exhausted, badName, log, this.left := map[], 0, false, false, [], left;
      errors := new ErrorList();
    }

    ghost predicate Valid()
      reads this, errors
    {
      CountsOk(matched, totalMatches, log) && WellFormed(errors.entries)
    }

    /** Where the scan stands. */
    ghost function Now(whole: bool, stopped: bool): Progress
      reads this, errors
    {
      Progress(log, errors.entries, left, whole, stopped)
    }

    ghost function Hearing(ignores: nat, halted: bool): Listening
      reads this
    {
      Listening(log, exhausted, badName, ignores, halted)
    }

    /** `time.monotonic() >= deadline`: once it holds it goes on to hold. */
    method Late() returns (late: bool)
      modifies this`left
      ensures late <==> old(left) == 0
      ensures left == if late then 0 else old(left) - 1
    {
      late := left == 0;
      if !late { left := left - 1; }
    }

    /** The engine's callback: whether matching may go on. */
    method Callback(details: Option<string>) returns (more: bool)
      requires Valid()
      modifies this`matched, this`totalMatches, this`exhausted, this`badName, this`log
      ensures Valid()
      ensures more <==> GoodName(details) && Fits(old(log) + [details.value])
      ensures log == if more then old(log) + [details.value] else old(log)
      ensures badName == (old(badName) || !GoodName(details))
      ensures exhausted == (old(exhausted) || (GoodName(details) && !more))
    {
      hide CountsOk, WellFormed, Counted, HasRoom, Fits;
      if !GoodName(details) {
        badName := true;
        return false;
      }
      var name := details.value;
      RoomIsFit(matched, totalMatches, log, name);
      if !HasRoom(matched, totalMatches, name) {
        exhausted := true;
        return false;
      }
      CountsStep(matched, totalMatches, log, name);
      matched, totalMatches, log := Counted(matched, name), totalMatches + 1, log + [name];
      more := true;
    }

    /** `rules.match`: the engine reports names until it ends, raises, or honours an abort; it may
        also go on after one. */
    method Match(run: MatchRun) returns (raised: Option<string>)
      requires Valid()
      modifies this`matched, this`totalMatches, this`exhausted, this`badName, this`log
      ensures Valid()
      ensures var l := Listen(run.events, run.ignores, old(log));
              && log == l.log && exhausted == l.exhausted && badName == l.badName
              && raised == if l.halted then run.aborted else run.raised
    {
      hide CountsOk, WellFormed, Fits, GoodName;
      exhausted, badName := false, false;
      var i, ignores := 0, run.ignores;
      assert run.events[..0] == [];
      while i < |run.events|
        invariant 0 <= i <= |run.events| && Valid()
        invariant Hearing(ignores, false) == Listen(run.events[..i], run.ignores, old(log))
      {
        assert run.events[..i + 1][..i] == run.events[..i];
        var more := Callback(run.events[i]);
        i := i + 1;
        if !more {
          if ignores == 0 {
            HaltedStays(run.events, run.ignores, old(log), i);
            return run.aborted;
          }
          ignores := ignores - 1;
        }
      }
      assert run.events[..i] == run.events;
      raised := run.raised;
    }

    /** An error, and whether collection has to end with it. */
    method Note(place: string, message: string, ends: bool) returns (stop: bool)
      requires Valid()
      modifies errors
      ensures Valid()
      ensures Now(false, stop) == Noted(old(Now(false, false)), place, message, ends)
    {
      hide CountsOk, WellFormed, Appended, MakeError;
      var more := errors.Append(place, message);
      stop := ends || !more;
    }

    /** One rule file on one corpus file. */
    method MatchRule(run: MatchRun, place: string, ghost whole: bool) returns (stop: bool, clean: bool)
      requires Valid()
      modifies this`matched, this`totalMatches, this`left, this`exhausted, this`badName, this`log, errors
      ensures Valid()
      ensures Now(whole && clean, stop) == AfterRun(old(Now(whole, false)), run, place)
    {
      hide CountsOk, WellFormed, Listen, Appended, MakeError;
      var late := Late();
      if late {
        stop := Note(RUNTIME, MATCHES_LATE, true);
        return stop, false;
      }
      var raised := Match(run);
      if raised.Some? {
        stop := Note(place, raised.value, false);
        return stop, false;
      }
      late := Late();
      if late {
        stop := Note(RUNTIME, MATCH_LATE, true);
        return stop, false;
      }
      clean := true;
      if badName {
        clean := false;
        stop := Note(place, BAD_NAME, false);
        if stop { return; }
      }
      if exhausted {
        stop := Note(COLLECTION, TOO_MANY, true);
        return stop, false;
      }
      stop := false;
    }

    /** One corpus file against every loaded rule file. */
    method ScanFile(file: CorpusFile, compiled: seq<nat>, ghost whole: bool) returns (stop: bool, counted: bool)
      requires Valid() && HasRuns(file, compiled)
      modifies this`matched, this`totalMatches, this`left, this`exhausted, this`badName, this`log, errors
      ensures Valid()
      ensures Now(counted, stop) == AfterFile(old(Now(whole, false)), file, compiled)
    {
      hide CountsOk, WellFormed, Appended, MakeError, AfterRun;
      var late := Late();
      if late {
        stop := Note(RUNTIME, READS_LATE, true);
        return stop, false;
      }
      if file.unreadable.Some? {
        stop := Note(file.path, file.unreadable.value, false);
        return stop, false;
      }
      late := Late();
      if late {
        stop := Note(RUNTIME, READ_LATE, true);
        return stop, false;
      }
      ghost var start := Now(true, false);
      counted, stop := true, false;
      var r := 0;
      assert compiled[..0] == [];
      while r < |compiled|
        invariant 0 <= r <= |compiled| && Valid()
        invariant Now(counted, false) == AfterRules(start, file, compiled[..r])
      {
        assert compiled[..r + 1][..r] == compiled[..r];
        var run := file.runs[compiled[r]];
        var clean;
        stop, clean := MatchRule(run, Place(file, run), counted);
        counted := counted && clean;
        r := r + 1;
        if stop {
          RulesStopped(start, file, compiled, r);
          return;
        }
      }
      assert compiled[..r] == compiled;
      stop := false;
    }

    /** `_scan_corpus`.  `done` lists the files counted as completed. */
    method ScanAll(corpus: seq<CorpusFile>, compiled: seq<nat>) returns (completed: nat, ghost done: seq<nat>)
      requires Valid() && Covers(corpus, compiled) && Now(true, false) == Beginning(left)
      modifies this`matched, this`totalMatches, this`left, this`exhausted, this`badName, this`log, errors
      ensures Valid() && completed == |done|
      ensures var o := AfterFiles(Beginning(old(left)), corpus, compiled);
              log == o.progress.log && errors.entries == o.progress.errors && done == o.done
      ensures Accounted(corpus, compiled, old(left), log, errors.entries, done)
    {
      hide CountsOk, WellFormed, Fits, AfterFile, Undisturbed, CorpusFits, FileDone, Accounted;
      ghost var start := Now(true, false);
      completed, done := 0, [];
      var i := 0;
      ghost var whole, stopped := true, false;
      assert corpus[..0] == [];
      while i < |corpus|
        invariant 0 <= i <= |corpus| && Valid() && completed == |done|
        invariant Outcome(Now(whole, false), done) == AfterFiles(start, corpus[..i], compiled)
      {
        assert corpus[..i + 1][..i] == corpus[..i];
        var stop, counted := ScanFile(corpus[i], compiled, whole);
        i := i + 1;
        if stop {
          assert done + [] == done;
          FilesStopped(start, corpus, compiled, i);
          ScanMeans(corpus, compiled, start.left);
          return;
        }
        if counted {
          completed := completed + 1;
          done := done + [i - 1];
        }
        whole := counted;
      }
      assert corpus[..i] == corpus;
      ScanMeans(corpus, compiled, start.left);
    }
  }

  // ---- what a scan has done --------------------------------------------------------------------

  /** Only files that every rule file ran on to its end are counted.  There is no error exactly when all
      files are of that kind, the matches are within the caps, and the clock is in time.  While nothing
      disturbs the scan the names counted are all that the engine gets to report on the readable files, the
      errors are those of all the files in order, and the files counted are those without one. */
  ghost predicate Accounted(
      corpus: seq<CorpusFile>, compiled: seq<nat>, readings: nat, log: seq<string>, errors: seq<Error>, done: seq<nat>)
    requires Covers(corpus, compiled)
  {
    && Rising(done, |corpus|) && (forall a :: 0 <= a < |done| ==> FileDone(corpus[done[a]], compiled))
    && (errors == [] <==> CorpusFits(corpus, compiled) && readings >= Readings(corpus, compiled))
    && (Undisturbed(corpus, compiled, readings) ==>
          && log == CorpusNames(corpus, compiled) && errors == CorpusErrors(corpus, compiled)
          && done == DoneFiles(corpus, compiled))
  }

  lemma ScanMeans(corpus: seq<CorpusFile>, compiled: seq<nat>, readings: nat)
    requires Covers(corpus, compiled)
    ensures var o := AfterFiles(Beginning(readings), corpus, compiled);
            Accounted(corpus, compiled, readings, o.progress.log, o.progress.errors, o.done)
  {
    hide AfterFiles, CorpusNames, CorpusErrors, Undisturbed, FileDone, CorpusFits, Readings, Beginning, Rising;
    CleanExactly(corpus, compiled, readings);
    DoneWasDone(Beginning(readings), corpus, compiled);
    if Undisturbed(corpus, compiled, readings) { ScanUndisturbed(corpus, compiled, readings); }
  }

  // ---- the counter as a function of what was reported ------------------------------------------

  function Tally(log: seq<string>): Counter {
    map n | n in log :: multiset(log)[n]
  }

  lemma TalliesUnique(matched: Counter, log: seq<string>)
    requires Tallies(matched, log)
    ensures matched == Tally(log)
  {
  }

  lemma {:induction false} TallyTotal(log: seq<string>)
    ensures Tallies(Tally(log), log) && Total(Tally(log)) == |log|
  {
    if log != [] {
      var last := |log| - 1;
      var rest, name := log[..last], log[last];
      assert log == rest + [name];
      TallyTotal(rest);
      TalliesStep(Tally(rest), rest, name);
      TalliesUnique(Counted(Tally(rest), name), log);
      TotalCounted(Tally(rest), name);
    }
  }

  /** There is room for a name exactly when both caps hold with it. */
  lemma RoomIsFit(matched: Counter, total: nat, log: seq<string>, name: string)
    requires CountsOk(matched, total, log)
    ensures HasRoom(matched, total, name) <==> Fits(log + [name])
  {
    hide Total;
    var x := set n | n in log;
    assert matched.Keys == x && |matched| == |matched.Keys|;
    assert (set n | n in log + [name]) == x + {name};
    assert name in matched <==> name in x;
  }

  /** Both match caps hold, the match total is the sum of the per-rule counts, and every count is
      the number of times its name was reported. */
  ghost predicate CountsOk(matched: Counter, total: nat, log: seq<string>) {
    && Tallies(matched, log) && Total(matched) == total == |log|
    && total <= MAX_MATCHES && |matched| <= MAX_MATCHED_RULES
    && forall n <- matched :: n != "" && |n| <= MAX_RULE_NAME
  }

  predicate HasRoom(matched: Counter, total: nat, name: string) {
    total < MAX_MATCHES && (name in matched || |matched| < MAX_MATCHED_RULES)
  }

  lemma CountsStep(matched: Counter, total: nat, log: seq<string>, name: string)
    requires CountsOk(matched, total, log) && HasRoom(matched, total, name) && GoodName(Some(name))
    ensures CountsOk(Counted(matched, name), total + 1, log + [name])
  {
    hide Tallies, Total;
    TalliesStep(matched, log, name);
    TotalCounted(matched, name);
    CountedSize(matched, name);
  }

  lemma CountedSize(matched: Counter, name: string)
    ensures |Counted(matched, name)| <= |matched| + if name in matched then 0 else 1
  {
    var more := Counted(matched, name);
    assert more.Keys == matched.Keys + {name};
    assert |more| == |more.Keys| && |matched| == |matched.Keys|;
  }
}
