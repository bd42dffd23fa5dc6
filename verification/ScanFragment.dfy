// The scanner-result fragments of scan_yara.py and the checks scanner_attestation.py makes of
// them: what the producer assembles is what the validator accepts, and exactly when.
module ScanFragment {
  import opened Wrappers
  import opened ScanErrors
  import opened ScanCorpus
  import opened ScanOutcome

  const WORK_BUDGET: int := 250_000
  const MATCH_TIMEOUT: int := 10
  const TOTAL_TIMEOUT: int := 600
  const MAX_RULES_LOADED: int := 100_000

  // ---- selecting rule files ------------------------------------------------------------------

  /** A rule file as discovered: the components of its path, the last being its name. */
  datatype RulePath = RulePath(parts: seq<string>, relative: string)

  datatype Exclusion = Exclusion(path: string, reason: string)

  predicate EndsWith(s: string, suffix: string) {
    |s| >= |suffix| && s[|s| - |suffix|..] == suffix
  }

  predicate Deprecated(p: RulePath) {
    "deprecated" in p.parts
  }

  predicate IsIndex(p: RulePath) {
    p.parts != [] && var name := p.parts[|p.parts| - 1]; EndsWith(name, "_index.yar") || EndsWith(name, "_index.yara")
  }

  predicate Usable(p: RulePath) {
    !Deprecated(p) && !IsIndex(p)
  }

  ghost function Filter(paths: seq<RulePath>, wanted: bool): seq<RulePath> {
    if paths == [] then []
    else
      var last := paths[|paths| - 1];
      Filter(paths[..|paths| - 1], wanted) + if Usable(last) == wanted then [last] else []
  }

  /** A file below a directory of deprecated rules is excluded for that, whatever its own name. */
  function Excluded(p: RulePath): Exclusion {
    Exclusion(p.relative, if Deprecated(p) then "deprecated rule directory" else "index/include aggregator")
  }

  /** `_community_paths`: every discovered file is selected or excluded with its reason, once, in
      order. */
  method CommunityPaths(discovered: seq<RulePath>) returns (selected: seq<RulePath>, exclusions: seq<Exclusion>)
    ensures selected == Filter(discovered, true)
    ensures |exclusions| == |Filter(discovered, false)|
    ensures forall i :: 0 <= i < |exclusions| ==> exclusions[i] == Excluded(Filter(discovered, false)[i])
    ensures |discovered| == |selected| + |exclusions|
  {
    selected, exclusions := [], [];
    var i := 0;
    assert discovered[..0] == [];
    while i < |discovered|
      invariant 0 <= i <= |discovered|
      invariant selected == Filter(discovered[..i], true)
      invariant |exclusions| == |Filter(discovered[..i], false)| && i == |selected| + |exclusions|
      invariant forall j :: 0 <= j < |exclusions| ==> exclusions[j] == Excluded(Filter(discovered[..i], false)[j])
    {
      assert discovered[..i + 1][..i] == discovered[..i];
      var path := discovered[i];
      if Deprecated(path) {
        exclusions := exclusions + [Exclusion(path.relative, "deprecated rule directory")];
      } else if IsIndex(path) {
        exclusions := exclusions + [Exclusion(path.relative, "index/include aggregator")];
      } else {
        selected := selected + [path];
      }
      i := i + 1;
    }
    assert discovered[..i] == discovered;
  }

  // ---- compiling and counting rules ----------------------------------------------------------

  /** What the engine makes of a rule file: an object that yields `rules` rules (and may then
      raise), or a compile error. */
  datatype RuleFile = Compiled(name: string, rules: nat, broken: Option<string>) | Rejected(name: string, message: string)

  predicate AllCompile(selected: seq<RuleFile>) {
    forall i :: 0 <= i < |selected| ==> selected[i].Compiled?
  }

  /** The errors of the rule files that the engine rejects. */
  function Rejections(selected: seq<RuleFile>): seq<Error> {
    if selected == [] then []
    else
      var last := |selected| - 1;
      Rejections(selected[..last])
      + match selected[last] { case Compiled(_, _, _) => [] case Rejected(name, message) => [MakeError(name, message)] }
  }

  /** The rule files that compile, as long as there is room for the errors of those rejected before. */
  function LoadedRules(selected: seq<RuleFile>): (loaded: seq<nat>)
    ensures Rising(loaded, |selected|)
    ensures forall c <- loaded :: c < |selected| && selected[c].Compiled?
  {
    if selected == [] then []
    else
      var last := |selected| - 1;
      LoadedRules(selected[..last])
      + if selected[last].Compiled? && |Rejections(selected[..last])| < MAX_ERRORS then [last] else []
  }

  lemma {:induction false} NoneRejected(selected: seq<RuleFile>)
    ensures Rejections(selected) == [] <==> AllCompile(selected)
    ensures AllCompile(selected) ==> LoadedRules(selected) == Indices(|selected|)
  {
    hide MakeError;
    if selected != [] {
      var last := |selected| - 1;
      NoneRejected(selected[..last]);
      assert selected == selected[..last] + [selected[last]];
    }
  }

  /** Once the list of errors is full, nothing more is loaded. */
  lemma {:induction false} LoadingEnds(selected: seq<RuleFile>, i: nat)
    requires i <= |selected| && |Rejections(selected[..i])| >= MAX_ERRORS
    ensures |Rejections(selected)| >= MAX_ERRORS && Rejections(selected[..i]) <= Rejections(selected)
    ensures LoadedRules(selected) == LoadedRules(selected[..i])
  {
    hide MakeError;
    if i == |selected| {
      assert selected[..i] == selected;
    } else {
      var last := |selected| - 1;
      assert selected[..last][..i] == selected[..i];
      LoadingEnds(selected[..last], i);
    }
  }

  lemma NothingLoaded()
    ensures Rejections([]) == [] && LoadedRules([]) == []
  {
  }

  lemma LoadStep(selected: seq<RuleFile>, i: nat)
    requires i < |selected| && |Rejections(selected[..i])| < MAX_ERRORS
    ensures var before, after := selected[..i], selected[..i + 1];
            if selected[i].Compiled? then Rejections(after) == Rejections(before) && LoadedRules(after) == LoadedRules(before) + [i]
            else
              && Rejections(after) == Rejections(before) + [MakeError(selected[i].name, selected[i].message)]
              && LoadedRules(after) == LoadedRules(before)
  {
    hide MakeError;
    assert selected[..i + 1][..i] == selected[..i];
  }

  /** `_load`. */
  method Load(selected: seq<RuleFile>) returns (compiled: seq<nat>, errors: ErrorList)
    ensures fresh(errors) && WellFormed(errors.entries)
    ensures compiled == LoadedRules(selected) && errors.entries == Collect(Rejections(selected))
    ensures errors.entries == [] <==> AllCompile(selected)
    ensures errors.entries == [] ==> compiled == Indices(|selected|)
  {
    hide WellFormed, MakeError, AllCompile, Appended, Collect, Rejections, LoadedRules;
    compiled := [];
    errors := new ErrorList();
    NothingWellFormed();
    NoneRejected(selected);
    CollectFacts([]);
    var i := 0;
    NothingLoaded();
    assert selected[..0] == [];
    while i < |selected|
      invariant 0 <= i <= |selected| && fresh(errors) && WellFormed(errors.entries)
      invariant compiled == LoadedRules(selected[..i])
      invariant errors.entries == Collect(Rejections(selected[..i])) && |Rejections(selected[..i])| < MAX_ERRORS
    {
      LoadStep(selected, i);
      CollectFacts(Rejections(selected[..i]));
      if selected[i].Compiled? {
        compiled := compiled + [i];
      } else {
        AppendCollects(Rejections(selected[..i]), MakeError(selected[i].name, selected[i].message));
        var more := errors.Append(selected[i].name, selected[i].message);
        if !more {
          LoadingEnds(selected, i + 1);
          CollectPrefix(Rejections(selected[..i + 1]), Rejections(selected));
          return;
        }
      }
      i := i + 1;
    }
    assert selected[..i] == selected;
  }

  function RuleTotal(selected: seq<RuleFile>, compiled: seq<nat>): nat
    requires forall c <- compiled :: c < |selected| && selected[c].Compiled?
  {
    if compiled == [] then 0
    else
      var last := |compiled| - 1;
      assert compiled[last] in compiled;
      RuleTotal(selected, compiled[..last]) + selected[compiled[last]].rules
  }

  /** `_loaded_rule_count`: the count, and the error that makes it unreliable. */
  method LoadedRuleCount(selected: seq<RuleFile>, compiled: seq<nat>) returns (count: int, error: Option<Error>)
    requires forall c <- compiled :: c < |selected| && selected[c].Compiled?
    ensures 0 <= count <= MAX_RULES_LOADED
    ensures error.None? ==> count == RuleTotal(selected, compiled)
    ensures error.None? <==> Countable(selected, compiled)
    ensures error.Some? ==> Bounded(error.value)
  {
    count := 0;
    var i := 0;
    assert compiled[..0] == [];
    while i < |compiled|
      invariant 0 <= i <= |compiled|
      invariant forall c <- compiled[..i] :: c in compiled
      invariant 0 <= count <= MAX_RULES_LOADED && count == RuleTotal(selected, compiled[..i])
      invariant forall a :: 0 <= a < i ==> compiled[a] in compiled && selected[compiled[a]].broken.None?
    {
      assert compiled[i] in compiled && compiled[..i + 1] == compiled[..i] + [compiled[i]];
      assert compiled[..i + 1][..i] == compiled[..i];
      var rules := selected[compiled[i]];
      var yielded := 0;
      while yielded < rules.rules
        invariant 0 <= yielded <= rules.rules
        invariant 0 <= count <= MAX_RULES_LOADED && count == RuleTotal(selected, compiled[..i]) + yielded
      {
        count := count + 1;
        yielded := yielded + 1;
        if count > MAX_RULES_LOADED {
          RuleTotalGrows(selected, compiled, i + 1);
          return MAX_RULES_LOADED, Some(Error("YARA rule accounting", "loaded rule count exceeds the explicit limit"));
        }
      }
      if rules.broken.Some? {
        return count, Some(MakeError("YARA rule accounting", rules.broken.value));
      }
      i := i + 1;
    }
    assert compiled[..i] == compiled;
    error := None;
  }

  lemma {:induction false} RuleTotalGrows(selected: seq<RuleFile>, compiled: seq<nat>, i: nat)
    requires forall c <- compiled :: c < |selected| && selected[c].Compiled?
    requires i <= |compiled|
    ensures RuleTotal(selected, compiled[..i]) <= RuleTotal(selected, compiled)
  {
    if i == |compiled| {
      assert compiled[..i] == compiled;
    } else {
      assert forall c <- compiled[..|compiled| - 1] :: c in compiled;
      RuleTotalGrows(selected, compiled[..|compiled| - 1], i);
      assert compiled[..|compiled| - 1][..i] == compiled[..i];
    }
  }

  // ---- fragments -----------------------------------------------------------------------------

  datatype Kind = XProtect | Community

  datatype Status = Clean | Finding | Failed

  /** Fields a profile may lack are optional. */
  datatype Coverage = Coverage(
    discovered: Option<int>, excluded: Option<int>,
    selectedRules: int, loadedRules: int, failedRules: int, rulesLoaded: int,
    selectedFiles: int, scannedFiles: int,
    fileWork: Option<int>, matchWork: Option<int>, budget: Option<int>,
    matchTimeout: Option<int>, totalTimeout: Option<int>)

  datatype Summary = Summary(filesScanned: int, matches: int, matchedRules: Counter)

  datatype Fragment = Fragment(
    kind: Kind, status: Status, controlPassed: bool, coverage: Coverage, exclusions: nat,
    errors: seq<Error>, summary: Summary, manifestFiles: Option<nat>)

  // ---- the validator -------------------------------------------------------------------------

  /** `_require_text`: something is left after stripping; `spaces` are the characters strip takes. */
  predicate NonBlank(s: string, spaces: set<char>) {
    exists i :: 0 <= i < |s| && s[i] !in spaces
  }

  ghost predicate SummaryOk(s: Summary, spaces: set<char>) {
    && s.matches >= 0
    && (forall n <- s.matchedRules :: NonBlank(n, spaces) && s.matchedRules[n] > 0)
    && Total(s.matchedRules) == s.matches
  }

  /** `_validate_summary`: the match count, unless it raises. */
  method ValidateSummary(s: Summary, spaces: set<char>) returns (matches: Option<int>)
    ensures matches.Some? <==> SummaryOk(s, spaces)
    ensures matches.Some? ==> matches.value == s.matches
  {
    hide NonBlank;
    if s.matches < 0 { return None; }
    var total, rest := 0, s.matchedRules;
    while rest != map[]
      invariant forall n <- rest :: n in s.matchedRules && rest[n] == s.matchedRules[n]
      invariant total + Total(rest) == Total(s.matchedRules)
      invariant forall n <- s.matchedRules :: n !in rest ==> NonBlank(n, spaces) && s.matchedRules[n] > 0
      decreases |rest|
    {
      var n :| n in rest;
      if !NonBlank(n, spaces) { return None; }
      if rest[n] <= 0 { return None; }
      TotalOf(rest, n);
      Smaller(rest, n);
      total := total + rest[n];
      rest := rest - {n};
    }
    if total != s.matches { return None; }
    matches := Some(s.matches);
  }

  /** The two rule scanners' part of `_validate_coverage`. */
  predicate CoverageOk(f: Fragment, boundFiles: int, allowIncomplete: bool) {
    var c := f.coverage;
    && (f.kind.XProtect? ==> c.discovered.None? && c.excluded.None?)
    && c.selectedFiles == boundFiles
    && f.summary.filesScanned == c.scannedFiles
    && (if allowIncomplete && f.status.Failed? then 0 <= c.scannedFiles <= boundFiles
        else
          && c.scannedFiles == boundFiles
          && c.selectedRules >= 0 && c.loadedRules >= 0 && c.failedRules >= 0 && c.rulesLoaded >= 0
          && c.selectedRules == c.loadedRules && c.failedRules == 0
          && 0 < c.rulesLoaded <= MAX_RULES_LOADED
          && c.fileWork == Some(c.selectedRules * boundFiles)
          && c.matchWork == Some(c.rulesLoaded * boundFiles)
          && c.budget == Some(WORK_BUDGET)
          && c.selectedRules * boundFiles <= WORK_BUDGET && c.rulesLoaded * boundFiles <= WORK_BUDGET
          && c.matchTimeout == Some(MATCH_TIMEOUT) && c.totalTimeout == Some(TOTAL_TIMEOUT)
          && f.manifestFiles.Some? && f.manifestFiles.value == c.selectedRules
          && (f.kind.Community? ==>
                && c.discovered.Some? && c.excluded.Some?
                && c.discovered.value == c.selectedRules + c.excluded.value
                && c.excluded.value == f.exclusions))
  }

  /** The status `validate_record` recomputes. */
  function ExpectedStatus(controlPassed: bool, errors: seq<Error>, matches: int): Status {
    if !controlPassed || errors != [] then Failed
    else if matches != 0 then Finding
    else Clean
  }

  /** What `validate_record` demands of one rule scanner's coverage, summary and status. */
  ghost predicate ResultAccepted(f: Fragment, boundFiles: int, spaces: set<char>, requireSuccess: bool) {
    && CoverageOk(f, boundFiles, !requireSuccess)
    && SummaryOk(f.summary, spaces)
    && f.status == ExpectedStatus(f.controlPassed, f.errors, f.summary.matches)
    && (requireSuccess ==> f.controlPassed && f.errors == [] && f.status.Clean? && f.summary.matches == 0)
  }

  // ---- the producer --------------------------------------------------------------------------

  datatype Prepared = Prepared(
    compiled: seq<nat>, rulesLoaded: int, fileWork: int, matchWork: int, ready: bool)

  /** The error that a corpus of another size than the bound manifest's gives every fragment; the source
      also writes the scanner's name and the two sizes into it. */
  const ACCOUNTING: Error := Error("corpus accounting", "selected files differ from the bound manifest")

  function Mismatch(corpusFiles: nat, boundFiles: nat): (errors: seq<Error>)
    ensures |errors| <= 1
  {
    if corpusFiles == boundFiles then [] else [ACCOUNTING]
  }

  /** Every rule file compiles, their rules can be counted, and both work budgets hold. */
  ghost predicate Loads(selected: seq<RuleFile>, corpusFiles: nat) {
    && |selected| * corpusFiles <= WORK_BUDGET
    && AllCompile(selected) && Countable(selected, Indices(|selected|))
    && RuleTotal(selected, Indices(|selected|)) * corpusFiles <= WORK_BUDGET
  }

  /** The corpus is scanned: some rule file loads, the rules can be counted, and both work budgets hold. */
  ghost predicate Scans(selected: seq<RuleFile>, corpusFiles: nat) {
    var rules := LoadedRules(selected);
    && |selected| * corpusFiles <= WORK_BUDGET && rules != [] && Countable(selected, rules)
    && RuleTotal(selected, rules) * corpusFiles <= WORK_BUDGET
  }

  /** It is known of every corpus file what each rule file does on it. */
  predicate Fed(selected: seq<RuleFile>, corpus: seq<CorpusFile>) {
    forall i :: 0 <= i < |corpus| ==> |corpus[i].runs| == |selected|
  }

  lemma FedCovers(selected: seq<RuleFile>, corpus: seq<CorpusFile>)
    requires Fed(selected, corpus)
    ensures Covers(corpus, LoadedRules(selected)) && Covers(corpus, Indices(|selected|))
  {
  }

  ghost predicate Countable(selected: seq<RuleFile>, compiled: seq<nat>)
    requires forall c <- compiled :: c < |selected| && selected[c].Compiled?
  {
    RuleTotal(selected, compiled) <= MAX_RULES_LOADED && forall c <- compiled :: selected[c].broken.None?
  }

  /** What is known before the corpus is scanned. */
  ghost predicate PreparedOk(
    p: Prepared, errors: seq<Error>, selected: seq<RuleFile>, corpusFiles: nat, boundFiles: nat) {
    && WellFormed(errors) && Mismatch(corpusFiles, boundFiles) <= errors
    && p.compiled == (if |selected| * corpusFiles <= WORK_BUDGET then LoadedRules(selected) else [])
    && (p.ready <==> Scans(selected, corpusFiles))
    && (p.ready ==> errors == Collect(Mismatch(corpusFiles, boundFiles) + Rejections(selected)))
    && 0 <= p.rulesLoaded <= MAX_RULES_LOADED
    && p.fileWork == |selected| * corpusFiles && p.matchWork == p.rulesLoaded * corpusFiles
    && (errors == Mismatch(corpusFiles, boundFiles) <==> Loads(selected, corpusFiles))
    && (errors == Mismatch(corpusFiles, boundFiles) ==>
          && p.fileWork <= WORK_BUDGET && p.matchWork <= WORK_BUDGET
          && AllCompile(selected) && p.compiled == Indices(|selected|)
          && p.rulesLoaded == RuleTotal(selected, p.compiled)
          && (p.ready <==> selected != []))
  }

  /** The list is as it was, or holds more entries after those. */
  ghost predicate Grown(before: seq<Error>, after: seq<Error>, same: bool) {
    WellFormed(after) && before <= after && (|before| < MAX_ERRORS ==> (same <==> after == before))
  }

  lemma AsItWas(errors: seq<Error>)
    requires WellFormed(errors)
    ensures Grown(errors, errors, true) && |errors| <= MAX_ERRORS
  {
  }

  /** `for error in more: if not _append_error(...): break`. */
  method AppendAll(errors: ErrorList, more: seq<Error>)
    requires WellFormed(errors.entries) && AllBounded(more)
    modifies errors
    ensures Grown(old(errors.entries), errors.entries, more == [])
    ensures errors.entries == Collect(old(errors.entries) + more)
  {
    hide WellFormed, MakeError, Appended, Collect, Bounded;
    AsItWas(errors.entries);
    CollectedStays(errors.entries);
    var i := 0;
    ghost var before := errors.entries;
    assert before + more[..0] == before;
    while i < |more|
      invariant 0 <= i <= |more| && Grown(before, errors.entries, i == 0)
      invariant errors.entries == Collect(before + more[..i])
    {
      AsItWas(errors.entries);
      AppendedGrows(errors.entries, MakeError(more[i].place, more[i].message));
      assert more[i] in more;
      RemakingChangesNothing(more[i]);
      assert before + more[..i] + [more[i]] == before + more[..i + 1];
      AppendCollects(before + more[..i], more[i]);
      CollectFacts(before + more[..i]);
      var room := errors.Append(more[i].place, more[i].message);
      i := i + 1;
      if !room {
        FullBefore(before + more[..i - 1], MakeError(more[i - 1].place, more[i - 1].message));
        CollectPrefix(before + more[..i], before + more);
        return;
      }
    }
    assert more[..i] == more;
  }

  lemma FullBefore(attempts: seq<Error>, e: Error)
    requires |Collect(attempts)| >= MAX_ERRORS - 1
    ensures |attempts + [e]| >= MAX_ERRORS
  {
  }

  method CompileInto(load: ErrorList, selected: seq<RuleFile>) returns (compiled: seq<nat>)
    requires WellFormed(load.entries)
    modifies load
    ensures compiled == LoadedRules(selected)
    ensures Grown(old(load.entries), load.entries, AllCompile(selected))
    ensures load.entries == Collect(old(load.entries) + Rejections(selected))
    ensures AllCompile(selected) ==> compiled == Indices(|selected|)
  {
    hide WellFormed, AllCompile, Collect;
    CollectedStays(load.entries);
    MergeCollects(load.entries, Rejections(selected));
    var compileErrors;
    compiled, compileErrors := Load(selected);
    EntriesBounded(compileErrors.entries);
    AppendAll(load, compileErrors.entries);
  }

  method CountInto(
    load: ErrorList, selected: seq<RuleFile>, compiled: seq<nat>) returns (rulesLoaded: int, failed: bool)
    requires WellFormed(load.entries)
    requires forall c <- compiled :: c < |selected| && selected[c].Compiled?
    modifies load
    ensures 0 <= rulesLoaded <= MAX_RULES_LOADED
    ensures Grown(old(load.entries), load.entries, !failed)
    ensures !failed ==> rulesLoaded == RuleTotal(selected, compiled)
    ensures !failed <==> Countable(selected, compiled)
  {
    hide WellFormed, RuleTotal, MakeError, Appended, Countable;
    var error;
    rulesLoaded, error := LoadedRuleCount(selected, compiled);
    failed := error.Some?;
    AsItWas(load.entries);
    if failed {
      AppendedGrows(load.entries, MakeError(error.value.place, error.value.message));
      var more := load.Append(error.value.place, error.value.message);
    }
  }

  /** Accounting and compilation, up to the decision whether to scan. */
  method Prepare(selected: seq<RuleFile>, corpusFiles: nat, boundFiles: nat) returns (p: Prepared, load: ErrorList)
    ensures fresh(load) && PreparedOk(p, load.entries, selected, corpusFiles, boundFiles)
  {
    hide WellFormed, MakeError, Appended, AllCompile, RuleTotal, Bounded, Collect, LoadedRules, Rejections;
    load := new ErrorList();
    NothingWellFormed();
    var fileWork := |selected| * corpusFiles;
    var more;
    if corpusFiles != boundFiles {
      AccountingFits();
      more := load.Append("corpus accounting", "selected files differ from the bound manifest");
    }
    ghost var base := load.entries;
    AsItWas(base);
    if fileWork > WORK_BUDGET {
      AppendedGrows(base, MakeError("work budget", "rule-file/file operations exceed the limit"));
      more := load.Append("work budget", "rule-file/file operations exceed the limit");
    }
    var compiled: seq<nat> := [];
    if fileWork <= WORK_BUDGET { compiled := CompileInto(load, selected); }
    ghost var afterCompile := load.entries;
    var rulesLoaded, countError := CountInto(load, selected, compiled);
    ghost var afterCount := load.entries;
    AsItWas(afterCount);
    var matchWork := rulesLoaded * corpusFiles;
    if matchWork > WORK_BUDGET {
      AppendedGrows(afterCount, MakeError("rule-evaluation budget", "loaded-rule/file evaluations exceed the limit"));
      more := load.Append("rule-evaluation budget", "loaded-rule/file evaluations exceed the limit");
    }
    var ready := compiled != [] && !countError && fileWork <= WORK_BUDGET && matchWork <= WORK_BUDGET;
    p := Prepared(compiled, rulesLoaded, fileWork, matchWork, ready);
  }

  lemma AccountingFits()
    ensures Appended([], MakeError(ACCOUNTING.place, ACCOUNTING.message)) == [ACCOUNTING]
  {
  }

  lemma EntriesBounded(errors: seq<Error>)
    requires WellFormed(errors)
    ensures AllBounded(errors)
  {
  }

  /** `sum(matched.values())`. */
  method SumValues(matched: Counter) returns (total: int)
    ensures total == Total(matched)
  {
    var rest := matched;
    total := 0;
    while rest != map[]
      invariant total + Total(rest) == Total(matched)
      decreases |rest|
    {
      var n :| n in rest;
      TotalOf(rest, n);
      Smaller(rest, n);
      total := total + rest[n];
      rest := rest - {n};
    }
  }

  /** What the scan itself contributes to a fragment. */
  datatype Scanned = Scanned(files: nat, matched: Counter, matches: int, errors: seq<Error>)

  /** The counts and errors are those of the scan. */
  ghost predicate ScannedOk(s: Scanned, corpus: seq<CorpusFile>, compiled: seq<nat>, readings: nat) {
    && Covers(corpus, compiled)
    && var o := AfterFiles(Beginning(readings), corpus, compiled);
    && WellFormed(s.errors) && s.files == |o.done| <= |corpus|
    && s.matched == Tally(o.progress.log) && s.errors == o.progress.errors
    && s.matches == Total(s.matched) && 0 <= s.matches <= MAX_MATCHES && |s.matched| <= MAX_MATCHED_RULES
    && (forall n <- s.matched :: s.matched[n] > 0)
    && (s.matches == 0 <==> s.matched == map[])
    && (s.errors == [] <==> readings >= Readings(corpus, compiled) && CorpusFits(corpus, compiled))
    && (s.errors == [] ==>
          s.files == |corpus| && AllDone(corpus, compiled) && Tallies(s.matched, CorpusNames(corpus, compiled)))
  }

  method ScanReady(corpus: seq<CorpusFile>, compiled: seq<nat>, readings: nat) returns (s: Scanned)
    requires Covers(corpus, compiled)
    ensures ScannedOk(s, corpus, compiled, readings)
  {
    hide WellFormed, Tallies, Tally, CorpusNames, FileDone, RanToCompletion, Total, Fits, AfterFiles, Readings, CorpusErrors, Undisturbed;
    var scan := new Scan(readings);
    var files, _ := scan.ScanAll(corpus, compiled);
    var matches := SumValues(scan.matched);
    CountsFacts(scan.matched, scan.totalMatches, scan.log);
    s := Scanned(files, scan.matched, matches, scan.errors.entries);
    if s.errors == [] { CleanMeans(corpus, compiled, readings); }
  }

  /** A scan that goes through is one that nothing disturbs. */
  lemma CleanMeans(corpus: seq<CorpusFile>, compiled: seq<nat>, readings: nat)
    requires Covers(corpus, compiled) && CorpusFits(corpus, compiled) && readings >= Readings(corpus, compiled)
    ensures var o := AfterFiles(Beginning(readings), corpus, compiled);
            && |o.done| == |corpus| && o.progress.log == CorpusNames(corpus, compiled) && o.progress.errors == []
  {
    hide CorpusNames, Fits, AfterFiles, Readings, CorpusErrors, Beginning, AllDone;
    DoneLeavesNothing(corpus, compiled);
    ScanUndisturbed(corpus, compiled, readings);
  }

  lemma CountsFacts(matched: Counter, total: nat, log: seq<string>)
    requires CountsOk(matched, total, log)
    ensures forall n <- matched :: matched[n] > 0
    ensures total == 0 <==> matched == map[]
    ensures matched == Tally(log)
  {
    hide Total;
    if matched != map[] {
      var n :| n in matched;
      assert n in log;
    }
    if log != [] { assert log[0] in log && log[0] in matched; }
    forall n | n in matched ensures matched[n] > 0 { assert n in multiset(log); }
  }

  method RequireRules(load: ErrorList, kind: Kind, selected: seq<RuleFile>)
    requires WellFormed(load.entries)
    modifies load
    ensures Grown(old(load.entries), load.entries, kind.XProtect? || selected != []) && WellFormed(load.entries)
  {
    hide WellFormed, MakeError, Appended;
    AsItWas(load.entries);
    if kind.Community? && selected == [] {
      AppendedGrows(load.entries, MakeError("rules root", "no selected .yar/.yara files"));
      var more := load.Append("rules root", "no selected .yar/.yara files");
    }
  }

  /** The scan goes through: everything loads, every rule file runs to its end on every file, the matches
      are within the caps, and the clock is read often enough before the deadline. */
  ghost predicate GoesThrough(selected: seq<RuleFile>, corpus: seq<CorpusFile>, readings: nat) {
    && selected != [] && Loads(selected, |corpus|)
    && Covers(corpus, Indices(|selected|)) && CorpusFits(corpus, Indices(|selected|))
    && readings >= Readings(corpus, Indices(|selected|))
  }

  /** The fragment of a scan that went through, as a function of what was scanned. */
  function FullFragment(
      kind: Kind, selected: seq<RuleFile>, exclusions: nat, corpus: seq<CorpusFile>, boundFiles: nat, control: bool): Fragment
    requires AllCompile(selected) && Covers(corpus, Indices(|selected|))
  {
    var rules, files := |selected|, |corpus|;
    var loaded, names := RuleTotal(selected, Indices(rules)), CorpusNames(corpus, Indices(rules));
    var errors := Mismatch(files, boundFiles);
    Fragment(
      kind, ExpectedStatus(control, errors, |names|), control,
      Coverage(
        if kind.Community? then Some(rules + exclusions) else None, if kind.Community? then Some(exclusions) else None,
        rules, rules, 0, loaded, boundFiles, files, Some(rules * files), Some(loaded * files), Some(WORK_BUDGET),
        Some(MATCH_TIMEOUT), Some(TOTAL_TIMEOUT)),
      if kind.Community? then exclusions else 0, errors, Summary(files, |names|, Tally(names)), Some(rules))
  }

  /** Preparation, the scan if there is to be one, and the merging of the errors of both. */
  method Gather(kind: Kind, selected: seq<RuleFile>, corpus: seq<CorpusFile>, boundFiles: nat, readings: nat)
    returns (p: Prepared, scanned: Scanned, errors: seq<Error>, ghost load: seq<Error>)
    requires Fed(selected, corpus)
    ensures PreparedOk(p, load, selected, |corpus|, boundFiles) && ScanDone(scanned, p, corpus, readings)
    ensures p.ready ==> errors == Collect(Mismatch(|corpus|, boundFiles) + Rejections(selected) + scanned.errors)
    ensures WellFormed(errors) && Mismatch(|corpus|, boundFiles) <= errors
    ensures errors == Mismatch(|corpus|, boundFiles)
       <==> load == Mismatch(|corpus|, boundFiles) && scanned.errors == [] && (kind.XProtect? || selected != [])
  {
    hide Loads, WellFormed, ScannedOk, AllCompile, RuleTotal, Collect, Grown, Mismatch, Rejections, LoadedRules, Scans, Covers;
    var errorList;
    p, errorList := Prepare(selected, |corpus|, boundFiles);
    load := errorList.entries;
    scanned := Scanned(0, map[], 0, []);
    NothingWellFormed();
    if p.ready {
      FedCovers(selected, corpus);
      ReadyLoaded(p, load, selected, |corpus|, boundFiles);
      scanned := ScanReady(corpus, p.compiled, readings);
      ScannedBounded(scanned, corpus, p.compiled, readings);
    }
    RequireRules(errorList, kind, selected);
    EntriesBounded(errorList.entries);
    EntriesBounded(scanned.errors);
    if p.ready {
      ReadyRules(p, load, selected, |corpus|, boundFiles);
      ErrorsTold(Mismatch(|corpus|, boundFiles) + Rejections(selected), load, errorList.entries, scanned.errors);
    }
    MergedMismatch(load, errorList.entries, scanned.errors, kind.XProtect? || selected != [], |corpus|, boundFiles);
    var merged := MergeErrors(errorList.entries, scanned.errors);
    errors := merged.entries;
  }

  lemma ReadyRules(p: Prepared, errors: seq<Error>, selected: seq<RuleFile>, corpusFiles: nat, boundFiles: nat)
    requires PreparedOk(p, errors, selected, corpusFiles, boundFiles) && p.ready
    ensures selected != [] && errors == Collect(Mismatch(corpusFiles, boundFiles) + Rejections(selected))
  {
    hide RuleTotal, Loads, AllCompile, Rejections, Collect, Mismatch, WellFormed;
  }

  /** `scan_xprotect` and `scan_community`, once the engine and the rule source are known to exist;
      `readings` of the clock come before the deadline for matching. */
  method ScanRules(
      kind: Kind, selected: seq<RuleFile>, discovered: nat, exclusions: nat, corpus: seq<CorpusFile>, boundFiles: nat,
      control: bool, readings: nat)
    returns (f: Fragment)
    requires Fed(selected, corpus)
    requires kind.XProtect? ==> |selected| == 1
    requires kind.Community? ==> discovered == |selected| + exclusions
    ensures Honest(f, selected, corpus, boundFiles, readings)
    ensures f.errors == Mismatch(|corpus|, boundFiles) <==> GoesThrough(selected, corpus, readings)
    ensures GoesThrough(selected, corpus, readings) ==> f == FullFragment(kind, selected, exclusions, corpus, boundFiles, control)
  {
    hide GoesThrough, FullFragment, WellFormed, ScanDone, PreparedOk, Collect, Mismatch, Rejections, Honest, Covers, AllCompile;
    var p, scanned, errors, load := Gather(kind, selected, corpus, boundFiles, readings);
    var controlPassed := control && (kind.XProtect? ==> p.compiled != []);
    var coverage := Coverage(
      if kind.Community? then Some(discovered) else None, if kind.Community? then Some(exclusions) else None,
      |selected|, |p.compiled|, |selected| - |p.compiled|, p.rulesLoaded, boundFiles, scanned.files,
      Some(p.fileWork), Some(p.matchWork), Some(WORK_BUDGET), Some(MATCH_TIMEOUT), Some(TOTAL_TIMEOUT));
    var status := if errors != [] || !controlPassed then Failed else if scanned.matched != map[] then Finding else Clean;
    f := Fragment(
      kind, status, controlPassed, coverage, if kind.Community? then exclusions else 0, errors,
      Summary(scanned.files, scanned.matches, scanned.matched), if selected != [] then Some(|selected|) else None);
    FragmentIsHonest(f, p, load, scanned, selected, corpus, boundFiles, readings);
    FedCovers(selected, corpus);
    ThroughExactly(p, load, scanned, selected, corpus, boundFiles, readings);
    if GoesThrough(selected, corpus, readings) {
      SomeLoaded(p, load, selected, |corpus|, boundFiles);
      HonestIsFull(f, kind, selected, exclusions, corpus, boundFiles, control, readings);
    }
  }

  lemma SomeLoaded(p: Prepared, errors: seq<Error>, selected: seq<RuleFile>, corpusFiles: nat, boundFiles: nat)
    requires PreparedOk(p, errors, selected, corpusFiles, boundFiles)
    requires errors == Mismatch(corpusFiles, boundFiles) && selected != []
    ensures p.compiled != []
  {
    hide RuleTotal, Loads, AllCompile, Rejections, Collect, Mismatch, WellFormed, LoadedRules, Scans;
  }

  /** Nothing is to be complained of exactly when the scan goes through. */
  lemma ThroughExactly(
    p: Prepared, load: seq<Error>, scanned: Scanned, selected: seq<RuleFile>, corpus: seq<CorpusFile>, boundFiles: nat, readings: nat)
    requires PreparedOk(p, load, selected, |corpus|, boundFiles) && ScanDone(scanned, p, corpus, readings)
    requires Covers(corpus, Indices(|selected|))
    ensures load == Mismatch(|corpus|, boundFiles) && scanned.errors == [] && selected != []
       <==> GoesThrough(selected, corpus, readings)
  {
    hide Loads, WellFormed, AllCompile, RuleTotal, Collect, Mismatch, Rejections, LoadedRules, Scans, Covers, AfterFiles, Readings,
      CorpusFits, AllDone, CorpusNames, Tallies, Tally, Beginning, Indices, Total;
    PreparedFacts(p, load, selected, |corpus|, boundFiles);
  }

  lemma PreparedFacts(p: Prepared, errors: seq<Error>, selected: seq<RuleFile>, corpusFiles: nat, boundFiles: nat)
    requires PreparedOk(p, errors, selected, corpusFiles, boundFiles)
    ensures errors == Mismatch(corpusFiles, boundFiles) <==> Loads(selected, corpusFiles)
    ensures errors == Mismatch(corpusFiles, boundFiles) ==> p.compiled == Indices(|selected|) && (p.ready <==> selected != [])
  {
    hide Loads, Mismatch, AllCompile, RuleTotal;
  }

  /** Without other errors an honest fragment leaves nothing open. */
  lemma HonestIsFull(
    f: Fragment, kind: Kind, selected: seq<RuleFile>, exclusions: nat, corpus: seq<CorpusFile>, boundFiles: nat, control: bool,
    readings: nat)
    requires Honest(f, selected, corpus, boundFiles, readings) && f.errors == Mismatch(|corpus|, boundFiles)
    requires f.kind == kind && f.controlPassed == control && f.exclusions == (if kind.Community? then exclusions else 0)
    ensures AllCompile(selected) && Covers(corpus, Indices(|selected|)) && AllDone(corpus, Indices(|selected|))
    ensures f == FullFragment(kind, selected, exclusions, corpus, boundFiles, control)
  {
    hide AllCompile, RuleTotal, AllDone, CorpusNames, Tallies, Tally, Total, WellFormed, Mismatch, ScanTold, Covers, Indices;
    var names := CorpusNames(corpus, Indices(|selected|));
    TalliesUnique(f.summary.matchedRules, names);
    TallyTotal(names);
  }

  /** What every produced fragment says truthfully of the run that produced it.  It carries the
      accounting error exactly when the corpus differs in size from the bound manifest, its counts and errors
      are those of the scan, and where there is no other error everything was loaded and scanned. */
  ghost predicate Honest(f: Fragment, selected: seq<RuleFile>, corpus: seq<CorpusFile>, boundFiles: nat, readings: nat) {
    && Sound(f, |selected|, |corpus|, boundFiles)
    && ScanTold(f, selected, corpus, boundFiles, readings)
    && Mismatch(|corpus|, boundFiles) <= f.errors
    && (f.errors == Mismatch(|corpus|, boundFiles) ==> WholeRun(f, selected, corpus))
  }

  /** Status, totals and sizes agree. */
  ghost predicate Sound(f: Fragment, selectedRules: nat, corpusFiles: nat, boundFiles: nat) {
    var c, s := f.coverage, f.summary;
    && WellFormed(f.errors)
    && f.status == ExpectedStatus(f.controlPassed, f.errors, s.matches)
    && Total(s.matchedRules) == s.matches && 0 <= s.matches <= MAX_MATCHES && |s.matchedRules| <= MAX_MATCHED_RULES
    && (forall n <- s.matchedRules :: s.matchedRules[n] > 0)
    && (f.kind.XProtect? ==> c.discovered.None? && c.excluded.None?)
    && c.selectedFiles == boundFiles && s.filesScanned == c.scannedFiles && 0 <= c.scannedFiles <= corpusFiles
    && c.selectedRules == selectedRules && c.failedRules == selectedRules - c.loadedRules
  }

  /** Everything was loaded, and ran on the whole corpus. */
  ghost predicate WholeRun(f: Fragment, selected: seq<RuleFile>, corpus: seq<CorpusFile>) {
    var rules := Indices(|selected|);
    && Covers(corpus, rules) && AllCompile(selected) && RuleTotal(selected, rules) == f.coverage.rulesLoaded
    && AllDone(corpus, rules) && Tallies(f.summary.matchedRules, CorpusNames(corpus, rules))
    && FullCoverage(f, |selected|, |corpus|)
  }

  /** The rule files loaded are counted, and the matches, files and errors are those of the scan; without a
      scan there are none. */
  ghost predicate ScanTold(f: Fragment, selected: seq<RuleFile>, corpus: seq<CorpusFile>, boundFiles: nat, readings: nat) {
    && f.coverage.loadedRules == (if |selected| * |corpus| <= WORK_BUDGET then |LoadedRules(selected)| else 0)
    && if !Scans(selected, |corpus|) then f.summary == Summary(0, 0, map[])
       else
         && Covers(corpus, LoadedRules(selected))
         && var o := AfterFiles(Beginning(readings), corpus, LoadedRules(selected));
         && f.summary.filesScanned == |o.done| && f.summary.matchedRules == Tally(o.progress.log)
         && f.errors == Collect(Mismatch(|corpus|, boundFiles) + Rejections(selected) + o.progress.errors)
  }

  /** While nothing disturbs the scan, a fragment counts the files that every loaded rule file ran on to its
      end and all names reported on the readable files; its errors are those of the rule files that were
      rejected and of all other files, as far as there is room. */
  lemma UndisturbedCounts(
    f: Fragment, selected: seq<RuleFile>, corpus: seq<CorpusFile>, boundFiles: nat, readings: nat)
    requires Honest(f, selected, corpus, boundFiles, readings) && Scans(selected, |corpus|)
    requires Covers(corpus, LoadedRules(selected)) && Undisturbed(corpus, LoadedRules(selected), readings)
    ensures var rules := LoadedRules(selected);
            && f.summary.filesScanned == |DoneFiles(corpus, rules)|
            && (forall i: nat :: i in DoneFiles(corpus, rules) <==> i < |corpus| && FileDone(corpus[i], rules))
            && f.summary.matchedRules == Tally(CorpusNames(corpus, rules)) && f.summary.matches == |CorpusNames(corpus, rules)|
            && f.errors == Collect(Mismatch(|corpus|, boundFiles) + Rejections(selected) + CorpusErrors(corpus, rules))
  {
    hide AllCompile, RuleTotal, AllDone, CorpusNames, Tallies, Tally, Total, WellFormed, Mismatch, Scans, Undisturbed,
      LoadedRules, AfterFiles, CorpusErrors, Collect, Rejections, DoneFiles, Beginning, Readings, FileDone, FullCoverage;
    ScanUndisturbed(corpus, LoadedRules(selected), readings);
    forall i: nat ensures i in DoneFiles(corpus, LoadedRules(selected)) <==> i < |corpus| && FileDone(corpus[i], LoadedRules(selected)) {
      DoneFilesAre(corpus, LoadedRules(selected), i);
    }
    TallyTotal(CorpusNames(corpus, LoadedRules(selected)));
  }

  /** The arithmetic of a fragment whose rule files all ran on the whole corpus. */
  predicate FullCoverage(f: Fragment, selectedRules: nat, corpusFiles: nat) {
    var c := f.coverage;
    && selectedRules > 0 && corpusFiles == c.scannedFiles
    && c.selectedRules == c.loadedRules == selectedRules && c.failedRules == 0 && 0 <= c.rulesLoaded <= MAX_RULES_LOADED
    && c.fileWork == Some(selectedRules * corpusFiles) && selectedRules * corpusFiles <= WORK_BUDGET
    && c.matchWork == Some(c.rulesLoaded * corpusFiles) && c.rulesLoaded * corpusFiles <= WORK_BUDGET
    && c.budget == Some(WORK_BUDGET) && c.matchTimeout == Some(MATCH_TIMEOUT) && c.totalTimeout == Some(TOTAL_TIMEOUT)
    && f.manifestFiles == Some(selectedRules)
    && (f.kind.Community? ==>
          && c.excluded == Some(f.exclusions) && c.discovered == Some(selectedRules + f.exclusions))
  }

  lemma ScannedBounded(s: Scanned, corpus: seq<CorpusFile>, compiled: seq<nat>, readings: nat)
    requires ScannedOk(s, corpus, compiled, readings)
    ensures AllBounded(s.errors) && WellFormed(s.errors)
  {
    hide Bounded;
  }

  /** Merging keeps the accounting error, and adds nothing to it only where there is nothing else. */
  lemma MergedMismatch(before: seq<Error>, load: seq<Error>, scan: seq<Error>, same: bool, corpusFiles: nat, boundFiles: nat)
    requires Mismatch(corpusFiles, boundFiles) <= before && Grown(before, load, same)
    ensures var merged := Collect(load + scan);
            && Mismatch(corpusFiles, boundFiles) <= merged
            && (merged == Mismatch(corpusFiles, boundFiles) <==>
                  before == Mismatch(corpusFiles, boundFiles) && scan == [] && same)
  {
    hide WellFormed;
    var merged, base := Collect(load + scan), Mismatch(corpusFiles, boundFiles);
    assert base <= load + scan;
    if merged == base { assert merged == load + scan; }
  }

  lemma ErrorsTold(base: seq<Error>, load: seq<Error>, after: seq<Error>, scan: seq<Error>)
    requires load == Collect(base) && Grown(load, after, true) && WellFormed(scan)
    ensures Collect(after + scan) == Collect(base + scan)
  {
    hide Collect;
    CollectFacts(base);
    assert after == load;
    CollectedStays(scan);
    MergeCollects(base, scan);
  }

  /** The fragment is put together from the preparation and the scan. */
  ghost predicate Assembled(f: Fragment, p: Prepared, scanned: Scanned, selectedRules: nat, boundFiles: nat) {
    var c := f.coverage;
    && f.status == (if f.errors != [] || !f.controlPassed then Failed else if scanned.matched != map[] then Finding else Clean)
    && f.summary == Summary(scanned.files, scanned.matches, scanned.matched)
    && f.manifestFiles == (if selectedRules > 0 then Some(selectedRules) else None)
    && c.selectedRules == selectedRules && c.loadedRules == |p.compiled| && c.failedRules == selectedRules - |p.compiled|
    && c.rulesLoaded == p.rulesLoaded && c.selectedFiles == boundFiles && c.scannedFiles == scanned.files
    && c.fileWork == Some(p.fileWork) && c.matchWork == Some(p.matchWork) && c.budget == Some(WORK_BUDGET)
    && c.matchTimeout == Some(MATCH_TIMEOUT) && c.totalTimeout == Some(TOTAL_TIMEOUT)
    && (f.kind.XProtect? ==> c.discovered.None? && c.excluded.None?)
    && (f.kind.Community? ==> c.excluded == Some(f.exclusions) && c.discovered == Some(selectedRules + f.exclusions))
  }

  ghost predicate ScanDone(scanned: Scanned, p: Prepared, corpus: seq<CorpusFile>, readings: nat) {
    if p.ready then ScannedOk(scanned, corpus, p.compiled, readings) else scanned == Scanned(0, map[], 0, [])
  }

  lemma FragmentIsSound(
    f: Fragment, p: Prepared, scanned: Scanned, selectedRules: nat, corpus: seq<CorpusFile>, boundFiles: nat, readings: nat)
    requires Assembled(f, p, scanned, selectedRules, boundFiles) && ScanDone(scanned, p, corpus, readings)
    requires WellFormed(f.errors)
    ensures Sound(f, selectedRules, |corpus|, boundFiles)
  {
    hide WellFormed, Covers, AfterFiles, Beginning, Readings, CorpusFits, Tallies, Tally;
  }

  lemma FragmentTells(
    f: Fragment, p: Prepared, load: seq<Error>, scanned: Scanned, selected: seq<RuleFile>, corpus: seq<CorpusFile>, boundFiles: nat,
    readings: nat)
    requires Assembled(f, p, scanned, |selected|, boundFiles) && ScanDone(scanned, p, corpus, readings)
    requires PreparedOk(p, load, selected, |corpus|, boundFiles)
    requires p.ready ==> f.errors == Collect(Mismatch(|corpus|, boundFiles) + Rejections(selected) + scanned.errors)
    ensures ScanTold(f, selected, corpus, boundFiles, readings)
  {
    hide WellFormed, Covers, AfterFiles, Beginning, Readings, CorpusFits, Tallies, Tally, LoadedRules, Rejections, Collect, Mismatch,
      Loads, AllCompile, RuleTotal, Total;
    if p.ready { ReadyLoaded(p, load, selected, |corpus|, boundFiles); }
  }

  lemma ReadyLoaded(p: Prepared, errors: seq<Error>, selected: seq<RuleFile>, corpusFiles: nat, boundFiles: nat)
    requires PreparedOk(p, errors, selected, corpusFiles, boundFiles) && p.ready
    ensures p.compiled == LoadedRules(selected)
  {
    hide LoadedRules, RuleTotal, Loads, AllCompile, Rejections, Collect, Mismatch, WellFormed;
  }

  lemma FragmentIsWhole(
    f: Fragment, p: Prepared, scanned: Scanned, selected: seq<RuleFile>, corpus: seq<CorpusFile>, boundFiles: nat, readings: nat)
    requires Assembled(f, p, scanned, |selected|, boundFiles) && ScanDone(scanned, p, corpus, readings)
    requires PreparedOk(p, Mismatch(|corpus|, boundFiles), selected, |corpus|, boundFiles) && scanned.errors == []
    requires f.kind.XProtect? || selected != []
    requires f.kind.XProtect? ==> |selected| == 1
    ensures WholeRun(f, selected, corpus)
  {
    hide WellFormed, AfterFiles, Beginning, Readings, Tallies, Tally, LoadedRules, Rejections, Collect, Mismatch, Scans,
      Loads, AllCompile, RuleTotal, Total, CorpusFits, AllDone, CorpusNames;
  }

  lemma FragmentIsHonest(
    f: Fragment, p: Prepared, load: seq<Error>, scanned: Scanned, selected: seq<RuleFile>, corpus: seq<CorpusFile>, boundFiles: nat,
    readings: nat)
    requires Assembled(f, p, scanned, |selected|, boundFiles) && ScanDone(scanned, p, corpus, readings)
    requires PreparedOk(p, load, selected, |corpus|, boundFiles)
    requires p.ready ==> f.errors == Collect(Mismatch(|corpus|, boundFiles) + Rejections(selected) + scanned.errors)
    requires WellFormed(f.errors) && Mismatch(|corpus|, boundFiles) <= f.errors
    requires f.errors == Mismatch(|corpus|, boundFiles) ==> load == Mismatch(|corpus|, boundFiles) && scanned.errors == []
    requires f.errors == Mismatch(|corpus|, boundFiles) ==> f.kind.XProtect? || selected != []
    requires f.kind.XProtect? ==> |selected| == 1
    ensures Honest(f, selected, corpus, boundFiles, readings)
  {
    hide WellFormed, Assembled, ScanDone, PreparedOk, Collect, Mismatch, Rejections, WholeRun, Sound, ScanTold;
    FragmentIsSound(f, p, scanned, |selected|, corpus, boundFiles, readings);
    FragmentTells(f, p, load, scanned, selected, corpus, boundFiles, readings);
    if f.errors == Mismatch(|corpus|, boundFiles) { FragmentIsWhole(f, p, scanned, selected, corpus, boundFiles, readings); }
  }

  // ---- producer against validator ------------------------------------------------------------

  /** A record demanding success accepts a fragment exactly when its control passed, it has no
      errors, some rule was loaded and nothing matched. */
  lemma StrictAcceptance(
    f: Fragment, selected: seq<RuleFile>, corpus: seq<CorpusFile>, boundFiles: nat, readings: nat, spaces: set<char>)
    requires Honest(f, selected, corpus, boundFiles, readings)
    ensures ResultAccepted(f, boundFiles, spaces, true)
       <==> f.controlPassed && f.errors == [] && f.coverage.rulesLoaded > 0 && f.summary.matches == 0
  {
    hide WellFormed, AllCompile, RuleTotal, CorpusNames, FileDone, Tallies;
    if f.summary.matches == 0 { NoMatches(f.summary.matchedRules); }
  }

  /** Positive counts that add up to zero are no counts. */
  lemma NoMatches(matched: Counter)
    requires Total(matched) == 0 && forall n <- matched :: matched[n] > 0
    ensures matched == map[]
  {
    if matched != map[] {
      var n :| n in matched;
      TotalOf(matched, n);
      TotalPositive(matched - {n});
    }
  }

  lemma {:induction false} TotalPositive(matched: Counter)
    requires forall n <- matched :: matched[n] > 0
    ensures Total(matched) >= 0
    decreases |matched|
  {
    if matched != map[] {
      var n :| n in matched;
      TotalOf(matched, n);
      Smaller(matched, n);
      TotalPositive(matched - {n});
    }
  }

  /** A record that admits failures accepts an unsuccessful fragment exactly when it did not scan
      more files than are bound, and any other exactly when some rule was loaded. */
  lemma LenientAcceptance(
    f: Fragment, selected: seq<RuleFile>, corpus: seq<CorpusFile>, boundFiles: nat, readings: nat, spaces: set<char>)
    requires Honest(f, selected, corpus, boundFiles, readings)
    requires forall n <- f.summary.matchedRules :: NonBlank(n, spaces)
    ensures ResultAccepted(f, boundFiles, spaces, false)
       <==> if f.status.Failed? then f.coverage.scannedFiles <= boundFiles else f.coverage.rulesLoaded > 0
    ensures f.status.Failed? && |corpus| <= boundFiles ==> ResultAccepted(f, boundFiles, spaces, false)
  {
    hide WellFormed, AllCompile, RuleTotal, CorpusNames, FileDone, Tallies, Total, NonBlank;
  }

  /** A scan that had nothing else against it than a corpus of another size than the bound manifest's
      covered that corpus and failed; and a record that admits failures accepts it exactly when the corpus
      is the smaller of the two.  Where the corpus has grown, not even the failure can be recorded. */
  lemma OnlyShrunkIsRecorded(
    f: Fragment, selected: seq<RuleFile>, corpus: seq<CorpusFile>, boundFiles: nat, readings: nat, spaces: set<char>)
    requires Honest(f, selected, corpus, boundFiles, readings) && |corpus| != boundFiles && |f.errors| == 1
    requires forall n <- f.summary.matchedRules :: NonBlank(n, spaces)
    ensures f.status.Failed? && f.coverage.scannedFiles == |corpus|
    ensures ResultAccepted(f, boundFiles, spaces, false) <==> |corpus| < boundFiles
  {
    hide AllCompile, RuleTotal, CorpusNames, FileDone, Tallies, Total, NonBlank, WellFormed;
  }

  /** The fragment that `ScanRules` returns of a scan that goes through is honest, as every one is. */
  lemma FullIsHonest(
    kind: Kind, selected: seq<RuleFile>, exclusions: nat, corpus: seq<CorpusFile>, boundFiles: nat, control: bool, readings: nat)
    requires GoesThrough(selected, corpus, readings)
    ensures Honest(FullFragment(kind, selected, exclusions, corpus, boundFiles, control), selected, corpus, boundFiles, readings)
  {
    hide AllCompile, RuleTotal, AllDone, CorpusNames, Tallies, Tally, Total, AfterFiles, Readings, LoadedRules, Rejections, Fits;
    var names := CorpusNames(corpus, Indices(|selected|));
    TallyTotal(names);
    TallyFits(names);
    MismatchFits(|corpus|, boundFiles);
    NoneRejected(selected);
    CleanMeans(corpus, Indices(|selected|), readings);
  }

  lemma TallyFits(log: seq<string>)
    requires Fits(log)
    ensures |log| <= MAX_MATCHES && |Tally(log)| <= MAX_MATCHED_RULES && forall n <- Tally(log) :: Tally(log)[n] > 0
  {
    var t := Tally(log);
    assert t.Keys == set n | n in log;
    assert |t| == |t.Keys|;
    forall n | n in t ensures t[n] > 0 { assert n in multiset(log); }
  }

  lemma MismatchFits(corpusFiles: nat, boundFiles: nat)
    ensures WellFormed(Mismatch(corpusFiles, boundFiles))
  {
  }

  /** Of a scan that goes through over a corpus of another size than bound, the fragment that is returned
      says failed, and a record that admits failures accepts it exactly when the corpus is the smaller. */
  lemma ThroughButMiscounted(
    kind: Kind, selected: seq<RuleFile>, exclusions: nat, corpus: seq<CorpusFile>, boundFiles: nat, control: bool,
    readings: nat, spaces: set<char>)
    requires GoesThrough(selected, corpus, readings) && |corpus| != boundFiles
    requires Covers(corpus, Indices(|selected|)) && forall n <- CorpusNames(corpus, Indices(|selected|)) :: NonBlank(n, spaces)
    ensures var f := FullFragment(kind, selected, exclusions, corpus, boundFiles, control);
            f.status.Failed? && (ResultAccepted(f, boundFiles, spaces, false) <==> |corpus| < boundFiles)
  {
    hide Honest, ResultAccepted, NonBlank, GoesThrough, RuleTotal, CorpusNames, FullFragment, AllCompile, AllDone;
    ThroughRan(selected, corpus, readings);
    var f := FullFragment(kind, selected, exclusions, corpus, boundFiles, control);
    FullIsHonest(kind, selected, exclusions, corpus, boundFiles, control, readings);
    FullCounts(kind, selected, exclusions, corpus, boundFiles, control);
    OnlyShrunkIsRecorded(f, selected, corpus, boundFiles, readings, spaces);
  }

  lemma ThroughRan(selected: seq<RuleFile>, corpus: seq<CorpusFile>, readings: nat)
    requires GoesThrough(selected, corpus, readings)
    ensures AllCompile(selected) && Covers(corpus, Indices(|selected|)) && AllDone(corpus, Indices(|selected|))
  {
    hide AllCompile, AllDone, RuleTotal, Fits;
  }

  lemma FullCounts(
    kind: Kind, selected: seq<RuleFile>, exclusions: nat, corpus: seq<CorpusFile>, boundFiles: nat, control: bool)
    requires AllCompile(selected) && Covers(corpus, Indices(|selected|))
    ensures var f := FullFragment(kind, selected, exclusions, corpus, boundFiles, control);
            && |f.errors| == (if |corpus| == boundFiles then 0 else 1)
            && forall n <- f.summary.matchedRules :: n in CorpusNames(corpus, Indices(|selected|))
  {
    hide AllCompile, AllDone, RuleTotal, CorpusNames;
  }

  // ---- what a strict record says ---------------------------------------------------------------

  /** Some run of the producer returns this fragment: the whole corpus scanned as bound, control passed, some
      rule loaded, and nothing matched. */
  ghost predicate CleanRun(f: Fragment, boundFiles: nat) {
    exists selected: seq<RuleFile>, corpus: seq<CorpusFile>, readings: nat :: CleanRunOf(f, boundFiles, selected, corpus, readings)
  }

  ghost predicate CleanRunOf(f: Fragment, boundFiles: nat, selected: seq<RuleFile>, corpus: seq<CorpusFile>, readings: nat) {
    && Fed(selected, corpus) && |corpus| == boundFiles && (f.kind.XProtect? ==> |selected| == 1 && f.exclusions == 0)
    && GoesThrough(selected, corpus, readings) && CorpusNames(corpus, Indices(|selected|)) == []
    && f == FullFragment(f.kind, selected, f.exclusions, corpus, boundFiles, true) && f.coverage.rulesLoaded > 0
  }

  /** The validator does not ask how many rule files XProtect has, nor whether there are any.  Apart from
      that, a record demanding success accepts exactly the fragments that a clean run can return. */
  lemma StrictIsCleanRun(f: Fragment, boundFiles: nat, spaces: set<char>)
    ensures ResultAccepted(f, boundFiles, spaces, true)
            && f.coverage.selectedRules != 0 && (f.kind.XProtect? ==> f.coverage.selectedRules == 1 && f.exclusions == 0)
       <==> CleanRun(f, boundFiles)
  {
    hide ResultAccepted, CleanRunOf;
    if ResultAccepted(f, boundFiles, spaces, true)
       && f.coverage.selectedRules != 0 && (f.kind.XProtect? ==> f.coverage.selectedRules == 1 && f.exclusions == 0) {
      StrictWasClean(f, boundFiles, spaces);
    }
    if CleanRun(f, boundFiles) {
      var selected: seq<RuleFile>, corpus: seq<CorpusFile>, readings: nat :| CleanRunOf(f, boundFiles, selected, corpus, readings);
      CleanIsStrict(f, boundFiles, selected, corpus, readings, spaces);
    }
  }

  lemma CleanIsStrict(
    f: Fragment, boundFiles: nat, selected: seq<RuleFile>, corpus: seq<CorpusFile>, readings: nat, spaces: set<char>)
    requires CleanRunOf(f, boundFiles, selected, corpus, readings)
    ensures ResultAccepted(f, boundFiles, spaces, true)
    ensures f.coverage.selectedRules > 0 && (f.kind.XProtect? ==> f.coverage.selectedRules == 1 && f.exclusions == 0)
  {
    hide Honest, ResultAccepted, RuleTotal, CorpusNames, AllCompile, AllDone, Covers, Fits, Readings, Tally, Fed, Loads, CorpusFits;
    ThroughRan(selected, corpus, readings);
    FullIsHonest(f.kind, selected, f.exclusions, corpus, boundFiles, true, readings);
    StrictAcceptance(f, selected, corpus, boundFiles, readings, spaces);
  }

  /** One rule file with all the rules, and others with none. */
  function OneLoaded(rules: nat, n: nat): (selected: seq<RuleFile>)
    ensures |selected| == n
  {
    seq(n, i => Compiled("rules", if i == 0 then rules else 0, None))
  }

  lemma {:induction false} OneLoadedTotal(rules: nat, n: nat, m: nat)
    requires m <= n
    ensures RuleTotal(OneLoaded(rules, n), Indices(m)) == if m == 0 then 0 else rules
    decreases m
  {
    if m > 0 {
      OneLoadedTotal(rules, n, m - 1);
      assert Indices(m)[..m - 1] == Indices(m - 1);
    }
  }

  lemma StrictWasClean(f: Fragment, boundFiles: nat, spaces: set<char>)
    requires ResultAccepted(f, boundFiles, spaces, true)
    requires f.coverage.selectedRules != 0 && (f.kind.XProtect? ==> f.coverage.selectedRules == 1 && f.exclusions == 0)
    ensures CleanRun(f, boundFiles)
  {
    hide Total, NonBlank, GoesThrough, RuleTotal, CorpusNames, AllCompile, Covers, Tally, QuietCorpus, OneLoaded;
    var rules, loaded := f.coverage.selectedRules, f.coverage.rulesLoaded;
    var selected, corpus := OneLoaded(loaded, rules), QuietCorpus(boundFiles, rules);
    NoMatches(f.summary.matchedRules);
    QuietGoesThrough(loaded, rules, boundFiles, boundFiles * (2 + 2 * rules));
    NothingTallied();
    assert CleanRunOf(f, boundFiles, selected, corpus, boundFiles * (2 + 2 * rules));
  }

  lemma NothingTallied()
    ensures Tally([]) == map[]
  {
  }

  // ---- a corpus that matches nothing -----------------------------------------------------------

  function QuietRun(): MatchRun {
    MatchRun("rules", [], None, 0, None)
  }

  function QuietCorpus(n: nat, rules: nat): (corpus: seq<CorpusFile>)
    ensures |corpus| == n
  {
    seq(n, _ => CorpusFile("file", "file", None, seq(rules, _ => QuietRun())))
  }

  lemma {:induction false} QuietRules(file: CorpusFile, compiled: seq<nat>)
    requires HasRuns(file, compiled) && forall j :: 0 <= j < |compiled| ==> file.runs[compiled[j]] == QuietRun()
    ensures RulesNames(file, compiled) == [] && RulesReadings(file, compiled) == 2 * |compiled|
  {
    if compiled != [] { QuietRules(file, compiled[..|compiled| - 1]); }
  }

  lemma QuietFile(file: CorpusFile, compiled: seq<nat>)
    requires HasRuns(file, compiled) && forall j :: 0 <= j < |compiled| ==> file.runs[compiled[j]] == QuietRun()
    requires file.unreadable.None?
    ensures FileDone(file, compiled) && FileNames(file, compiled) == [] && FileReadings(file, compiled) == 2 + 2 * |compiled|
  {
    QuietRules(file, compiled);
  }

  lemma {:induction false} QuietNames(n: nat, rules: nat)
    ensures var corpus := QuietCorpus(n, rules);
            && Covers(corpus, Indices(rules)) && AllDone(corpus, Indices(rules))
            && CorpusNames(corpus, Indices(rules)) == [] && Readings(corpus, Indices(rules)) == n * (2 + 2 * rules)
  {
    hide FileDone, FileNames, FileReadings;
    var corpus := QuietCorpus(n, rules);
    forall i | 0 <= i < n ensures FileDone(corpus[i], Indices(rules)) { QuietFile(corpus[i], Indices(rules)); }
    if n > 0 {
      QuietNames(n - 1, rules);
      assert corpus[..n - 1] == QuietCorpus(n - 1, rules);
      QuietFile(corpus[n - 1], Indices(rules));
    }
  }

  lemma QuietGoesThrough(loaded: nat, rules: nat, n: nat, readings: nat)
    requires rules > 0 && loaded <= MAX_RULES_LOADED && rules * n <= WORK_BUDGET && loaded * n <= WORK_BUDGET
    requires readings >= n * (2 + 2 * rules)
    ensures var selected, corpus := OneLoaded(loaded, rules), QuietCorpus(n, rules);
            && AllCompile(selected) && RuleTotal(selected, Indices(rules)) == loaded && Fed(selected, corpus)
            && Covers(corpus, Indices(rules)) && CorpusNames(corpus, Indices(rules)) == []
            && GoesThrough(selected, corpus, readings)
  {
    hide AllDone, CorpusNames, Readings, RuleTotal, Covers;
    OneLoadedTotal(loaded, rules, rules);
    QuietNames(n, rules);
  }

  /** For every two sizes within the work budget there is a scan that goes through: a rule file that matches
      nothing.  The fragment that `scan_xprotect` returns of it is recordable exactly when the corpus has
      not grown. */
  lemma GrownCorpusUnrecorded(
    rules: nat, corpusFiles: nat, boundFiles: nat, control: bool, readings: nat, spaces: set<char>)
    requires rules <= MAX_RULES_LOADED && corpusFiles <= WORK_BUDGET && rules * corpusFiles <= WORK_BUDGET
    requires readings >= 4 * corpusFiles
    ensures var selected, corpus := OneLoaded(rules, 1), QuietCorpus(corpusFiles, 1);
            && GoesThrough(selected, corpus, readings)
            && (corpusFiles != boundFiles ==>
                  var f := FullFragment(XProtect, selected, 0, corpus, boundFiles, control);
                  f.status.Failed? && (ResultAccepted(f, boundFiles, spaces, false) <==> corpusFiles < boundFiles))
  {
    hide RuleTotal, CorpusNames, ResultAccepted, FullFragment, AllDone, AllCompile, GoesThrough, OneLoaded, QuietCorpus;
    var selected, corpus := OneLoaded(rules, 1), QuietCorpus(corpusFiles, 1);
    QuietGoesThrough(rules, 1, corpusFiles, readings);
    if corpusFiles != boundFiles {
      ThroughButMiscounted(XProtect, selected, 0, corpus, boundFiles, control, readings, spaces);
    }
  }

  /** `unavailable_result`. */
  function UnavailableResult(kind: Kind, message: string, boundFiles: nat): Fragment {
    Fragment(
      kind, Failed, false,
      Coverage(None, None, 0, 0, 1, 0, boundFiles, 0, None, None, None, None, None),
      0, [Error(if kind.XProtect? then "xprotect" else "community-yara", BoundedText(message, MAX_TEXT))],
      Summary(0, 0, map[]), None)
  }

  /** An unavailable scanner is recorded, and never as a success. */
  lemma UnavailableIsNeverGreen(kind: Kind, message: string, boundFiles: nat, spaces: set<char>)
    ensures var f := UnavailableResult(kind, message, boundFiles);
            ResultAccepted(f, boundFiles, spaces, false) && !ResultAccepted(f, boundFiles, spaces, true)
  {
  }
}
