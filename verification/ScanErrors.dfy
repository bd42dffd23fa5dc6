// Bounded error evidence of scan_yara.py: at most 256 entries, the last of which is a marker when
// the limit was reached.
module ScanErrors {
  const MAX_ERRORS: nat := 256
  const MAX_TEXT: nat := 2048

  datatype Error = Error(place: string, message: string)

  const MARKER: Error := Error("YARA error collection", "error evidence exceeded the 256-entry limit")

  /** `_bounded_text`. */
  function BoundedText(text: string, limit: nat): (r: string)
    requires limit >= 32
    ensures |r| <= limit
    ensures |text| <= limit ==> r == text
    ensures |text| > limit ==> text[..limit - 32] <= r
  {
    if |text| <= limit then text else text[..limit - 32] + "... [bounded output truncated]"
  }

  function MakeError(place: string, message: string): (e: Error)
    ensures Bounded(e)
  {
    Error(BoundedText(place, MAX_TEXT), BoundedText(message, MAX_TEXT))
  }

  predicate Bounded(e: Error) {
    |e.place| <= MAX_TEXT && |e.message| <= MAX_TEXT
  }

  lemma RemakingChangesNothing(e: Error)
    requires Bounded(e)
    ensures MakeError(e.place, e.message) == e
  {
  }

  /** What an error list holds after these attempts to append to it. */
  function Collect(attempts: seq<Error>): (errors: seq<Error>)
    ensures |errors| <= MAX_ERRORS
    ensures |errors| == MAX_ERRORS ==> errors[MAX_ERRORS - 1] == MARKER
    ensures errors == [] <==> attempts == []
  {
    if |attempts| < MAX_ERRORS then attempts else attempts[..MAX_ERRORS - 1] + [MARKER]
  }

  /** `_append_error`: the list after one more attempt. */
  function Appended(errors: seq<Error>, e: Error): seq<Error> {
    if |errors| < MAX_ERRORS - 1 then errors + [e]
    else if |errors| == MAX_ERRORS - 1 then errors + [MARKER]
    else errors
  }

  lemma AppendedGrows(errors: seq<Error>, e: Error)
    requires |errors| <= MAX_ERRORS
    ensures errors <= Appended(errors, e)
    ensures |errors| < MAX_ERRORS ==> |Appended(errors, e)| == |errors| + 1
  {
  }

  /** Appending one at a time collects, whatever was appended before. */
  lemma AppendCollects(attempts: seq<Error>, e: Error)
    ensures Appended(Collect(attempts), e) == Collect(attempts + [e])
  {
  }

  /** Merging collected lists loses nothing that collecting everything at once would have kept. */
  lemma MergeCollects(x: seq<Error>, y: seq<Error>)
    ensures Collect(Collect(x) + Collect(y)) == Collect(x + y)
  {
    var merged := Collect(x) + Collect(y);
    if |x| >= MAX_ERRORS {
      assert merged[..MAX_ERRORS - 1] == x[..MAX_ERRORS - 1] == (x + y)[..MAX_ERRORS - 1];
    } else if |y| >= MAX_ERRORS {
      assert merged[..MAX_ERRORS - 1] == (x + y)[..MAX_ERRORS - 1];
    }
  }

  /** Bounded in number and size, with the marker last when full. */
  predicate WellFormed(errors: seq<Error>) {
    && |errors| <= MAX_ERRORS
    && (|errors| == MAX_ERRORS ==> errors[MAX_ERRORS - 1] == MARKER)
    && AllBounded(errors)
  }

  predicate AllBounded(errors: seq<Error>) {
    forall e <- errors :: Bounded(e)
  }

  class ErrorList {
    var entries: seq<Error>

    constructor ()
      ensures entries == []
    {
      entries := [];
    }

    /** `_append_error`: false once evidence collection is exhausted. */
    method Append(place: string, message: string) returns (more: bool)
      requires WellFormed(entries)
      modifies this
      ensures entries == Appended(old(entries), MakeError(place, message))
      ensures more <==> |old(entries)| < MAX_ERRORS - 1
      ensures WellFormed(entries) && entries != []
    {
      if |entries| < MAX_ERRORS - 1 {
        entries := entries + [MakeError(place, message)];
        return true;
      }
      if |entries| == MAX_ERRORS - 1 {
        entries := entries + [MARKER];
      }
      more := false;
    }
  }

  /** `_merge_errors` of two groups. */
  method MergeErrors(first: seq<Error>, second: seq<Error>) returns (merged: ErrorList)
    requires AllBounded(first) && AllBounded(second)
    ensures fresh(merged)
    ensures merged.entries == Collect(first + second) && WellFormed(merged.entries)
  {
    hide Collect, Appended, Bounded, MakeError, WellFormed;
    merged := new ErrorList();
    var all := first + second;
    var i := 0;
    CollectFacts([]);
    NothingWellFormed();
    assert all[..0] == [];
    while i < |all|
      invariant 0 <= i <= |all| && fresh(merged)
      invariant merged.entries == Collect(all[..i]) && WellFormed(merged.entries)
    {
      assert all[i] in all && (all[i] in first || all[i] in second);
      RemakingChangesNothing(all[i]);
      AppendCollects(all[..i], all[i]);
      assert all[..i + 1] == all[..i] + [all[i]];
      CollectFacts(all[..i + 1]);
      CollectFacts(all[..i]);
      var more := merged.Append(all[i].place, all[i].message);
      if !more {
        CollectFull(all[..i + 1], all[i + 1..]);
        assert all[..i + 1] + all[i + 1..] == all;
        return;
      }
      i := i + 1;
    }
    assert all[..i] == all;
  }

  lemma NothingWellFormed()
    ensures WellFormed([])
  {
  }

  lemma CollectFacts(attempts: seq<Error>)
    ensures |Collect(attempts)| <= MAX_ERRORS
    ensures |attempts| < MAX_ERRORS ==> Collect(attempts) == attempts
    ensures |attempts| >= MAX_ERRORS - 1 ==> |Collect(attempts)| >= MAX_ERRORS - 1
  {
  }

  /** A list that is full shows only its beginning. */
  lemma CollectPrefix(attempts: seq<Error>, more: seq<Error>)
    requires attempts <= more && |attempts| >= MAX_ERRORS
    ensures Collect(attempts) == Collect(more)
  {
    assert more[..MAX_ERRORS - 1] == attempts[..MAX_ERRORS - 1];
  }

  /** What was collected stays so. */
  lemma CollectedStays(errors: seq<Error>)
    requires WellFormed(errors)
    ensures Collect(errors) == errors
  {
  }

  /** A full list stays as it is. */
  lemma CollectFull(attempts: seq<Error>, more: seq<Error>)
    requires |attempts| >= MAX_ERRORS
    ensures Collect(attempts + more) == Collect(attempts)
  {
    assert (attempts + more)[..MAX_ERRORS - 1] == attempts[..MAX_ERRORS - 1];
  }
}
