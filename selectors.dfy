/**
 * What `read` returns for an integer index and for a slice, as functions of the
 * reader's live matches `ms` (the cursor, in collection order). A cursor that
 * has no next document fails; the driver refuses a negative skip and a
 * negative `to_list` length.
 */
module Selectors {
  import opened Wrappers
  import opened Documents
  import opened Resolve

  datatype ReadError =
    | NoDocument              // the cursor has no next document
    | UnsupportedStep         // a slice with a step other than None or 1
    | NegativeArgument        // a negative skip or `to_list` length
    | Unresolved(e: ResolveError)

  /** `cursor.skip(n)`: the documents after the first `n`. */
  function Skip(ms: seq<Doc>, n: nat): (rest: seq<Doc>)
    ensures |rest| == if n <= |ms| then |ms| - n else 0
  {
    if n <= |ms| then ms[n..] else []
  }

  /** `cursor.to_list(n)`: at most `n` documents. */
  function Take(ms: seq<Doc>, n: nat): (got: seq<Doc>)
    ensures |got| == if n <= |ms| then n else |ms|
  {
    if n <= |ms| then ms[..n] else ms
  }

  /**
   * `read(i)` exactly as the reader does it: a negative `i` is shifted by the count, a
   * position that is still not positive skips nothing, and the next document is returned.
   */
  function ReadAtAsWritten(ms: seq<Doc>, i: int): (r: Result<Doc, ReadError>)
    ensures r.Ok? <==> 0 < |ms| && i < |ms|
    ensures r.Ok? ==> r.value == ms[if i < -|ms| then 0 else if i < 0 then |ms| + i else i]
  {
    var item := if i < 0 then |ms| + i else i;
    var rest := if item > 0 then Skip(ms, item) else ms;
    if rest == [] then Err(NoDocument) else Ok(rest[0])
  }

  /** `read(i)` with Python's indexing: `-|ms| <= i < |ms|` selects a document, any other index fails. */
  function ReadAt(ms: seq<Doc>, i: int): (r: Result<Doc, ReadError>)
    ensures r.Ok? <==> -|ms| <= i < |ms|
    ensures r.Ok? ==> r.value == ms[if i < 0 then |ms| + i else i]
    ensures r.Err? ==> r.error == NoDocument
  {
    var item := if i < 0 then |ms| + i else i;
    if item < 0 then Err(NoDocument)
    else
      var rest := if item > 0 then Skip(ms, item) else ms;
      if rest == [] then Err(NoDocument) else Ok(rest[0])
  }

  /**
   * The reader as written returns the first document for an index below `-count`, where the
   * index is out of range; elsewhere it agrees with `ReadAt`.
   */
  lemma ReadAtAsWrittenWraps(ms: seq<Doc>, i: int)
    ensures i < -|ms| && |ms| > 0 ==> ReadAtAsWritten(ms, i) == Ok(ms[0]) && ReadAt(ms, i) == Err(NoDocument)
    ensures i >= -|ms| ==> ReadAtAsWritten(ms, i) == ReadAt(ms, i)
  {
  }

  /** A counterexample: three documents, index -4. */
  lemma ReadAtAsWrittenCounterexample(a: Doc, b: Doc, c: Doc)
    ensures ReadAtAsWritten([a, b, c], -4) == Ok(a)
    ensures ReadAt([a, b, c], -4) == Err(NoDocument)
  {
  }

  /** A negative index is resolved against the count: `read(-k)` is `read(count - k)`. */
  lemma NegativeIndex(ms: seq<Doc>, i: int)
    requires -|ms| <= i < 0
    ensures ReadAt(ms, i) == ReadAt(ms, |ms| + i) == Ok(ms[|ms| + i])
  {
  }

  /**
   * `read(slice(start, stop, step))`: the step must be None or 1; `start or 0` documents are
   * skipped and `(stop or count) - start` documents are requested.
   */
  function ReadRange(ms: seq<Doc>, start: Option<int>, stop: Option<int>, step: Option<int>): (r: Result<seq<Doc>, ReadError>)
    ensures step.Some? && step.value != 1 ==> r == Err(UnsupportedStep)
  {
    if step.Some? && step.value != 1 then Err(UnsupportedStep)
    else
      var s := start.GetOr(0);
      var e := if stop.None? || stop.value == 0 then |ms| else stop.value;
      if s < 0 then Err(NegativeArgument)
      else if e - s < 0 then Err(NegativeArgument)
      else Ok(Take(Skip(ms, s), e - s))
  }

  /** Whatever a slice reads is a contiguous run of the cursor, beginning at `start`. */
  lemma RangeIsContiguous(ms: seq<Doc>, start: Option<int>, stop: Option<int>, step: Option<int>)
    ensures var r := ReadRange(ms, start, stop, step);
      r.Ok? ==> forall k :: 0 <= k < |r.value| ==> 0 <= start.GetOr(0) + k < |ms| && r.value[k] == ms[start.GetOr(0) + k]
  {
  }

  /** A contiguous slice inside the count reads `stop - start` documents, those at `start` up to `stop`. */
  lemma RangeReadsStopMinusStart(ms: seq<Doc>, start: Option<int>, s: nat, e: nat, step: Option<int>)
    requires start == Some(s) || (start.None? && s == 0)
    requires step.None? || step == Some(1)
    requires s <= e <= |ms| && e != 0
    ensures ReadRange(ms, start, Some(e), step) == Ok(ms[s..e])
    ensures |ms[s..e]| == e - s
  {
    assert Take(Skip(ms, s), e - s) == ms[s..e];
  }

  /** With no stop, a slice reads from `start` to the end of the cursor. */
  lemma RangeWithoutStop(ms: seq<Doc>, s: nat)
    requires s <= |ms|
    ensures ReadRange(ms, Some(s), None, None) == Ok(ms[s..])
  {
    assert Take(Skip(ms, s), |ms| - s) == ms[s..];
  }
}
