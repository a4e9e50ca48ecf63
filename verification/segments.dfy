/**
 The translation-memory segment the checks annotate, and the way a check
 over a list of segments runs one segment at a time.
 */
module Segments {

  /**
   One aligned Japanese source / English target pair with the annotations
   the three checks write. `missingAplhanums` and `extraAplhanums` are
   Python `Counter`s holding positive counts only, which is exactly a
   multiset.
   */
  datatype Segment = Segment(
    japText: string,
    engText: string,
    japAplhanums: seq<string>,
    engAplhanums: seq<string>,
    missingAplhanums: multiset<string>,
    extraAplhanums: multiset<string>,
    errorFound: bool,
    trailingPunctuationError: bool,
    capitalizationErrorFound: bool)

  /** A segment as the file reader hands it over: texts set, nothing found yet. */
  function NewSegment(japText: string, engText: string): Segment
  {
    Segment(japText, engText, [], [], multiset{}, multiset{}, false, false, false)
  }

  /** The `IndexError` a check raises when it indexes an empty string or word list. */
  datatype Crash =
    | EmptyJapaneseText   // `jap_text[-1]` on a text that strips to nothing
    | EmptyEnglishText    // `eng_text[-1]` on a text that strips to nothing
    | NoEnglishWord       // `words[0]` on an English text with no words

  /** The outcome of a check: the annotated value, or the crash that ends the run. */
  datatype Result<T> = Ok(value: T) | Err(crash: Crash)

  /**
   Runs a per-segment check over the whole list, in order, as the `for
   segment in segments` loops do. The first crash ends the run and is the
   outcome; otherwise every segment is replaced by its checked version.
   */
  method CheckEach(segments: seq<Segment>, check: Segment -> Result<Segment>)
    returns (r: Result<seq<Segment>>)
    ensures r.Ok? <==> forall i | 0 <= i < |segments| :: check(segments[i]).Ok?
    ensures r.Ok? ==> |r.value| == |segments|
    ensures r.Ok? ==> forall i | 0 <= i < |segments| :: r.value[i] == check(segments[i]).value
    ensures r.Err? ==> exists i | 0 <= i < |segments| ::
                         && check(segments[i]) == Err(r.crash)
                         && forall j | 0 <= j < i :: check(segments[j]).Ok?
  {
    var done: seq<Segment> := [];
    var i := 0;
    while i < |segments|
      invariant 0 <= i <= |segments|
      invariant |done| == i
      invariant forall j | 0 <= j < i :: check(segments[j]).Ok? && done[j] == check(segments[j]).value
    {
      var outcome := check(segments[i]);
      if outcome.Err? {
        return Err(outcome.crash);
      }
      done := done + [outcome.value];
      i := i + 1;
    }
    return Ok(done);
  }
}
