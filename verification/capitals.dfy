/**
 The leading-capital check of `capitals.py`: the English text of a
 segment should start with a capital letter.
 */
module Capitals {
  import opened Chars
  import opened Text
  import opened Segments

  /**
   Reference statement of the defect: neither text is whitespace-only (in
   Python's sense, so an empty text does not count as whitespace-only),
   and the first non-whitespace character of the English text is
   lowercase. The check's extra `isalpha()` test changes nothing on the
   characters modelled here (`LowerIsAlpha`).
   */
  predicate StartsLowercase(japText: string, engText: string)
  {
    && !IsSpaceOnly(japText)
    && !IsSpaceOnly(engText)
    && LeadingSpaces(engText) < |engText|
    && IsLower(engText[LeadingSpaces(engText)])
  }

  /**
   `leading_capital_check` on one segment. It crashes (`IndexError` on
   `words[0]`) exactly when the English text is empty and the Japanese
   text is not whitespace-only. Otherwise `capitalization_error_found` and
   `error_found` are raised together exactly when the English text starts
   with a lowercase letter, are never lowered, and nothing else changes.
   */
  function LeadingCapital(seg: Segment): (r: Result<Segment>)
    ensures r.Err? <==> !IsSpaceOnly(seg.japText) && seg.engText == []
    ensures r.Ok? ==> r.value.(capitalizationErrorFound := seg.capitalizationErrorFound,
                               errorFound := seg.errorFound) == seg
    ensures r.Ok? ==> (r.value.capitalizationErrorFound
                       <==> seg.capitalizationErrorFound || StartsLowercase(seg.japText, seg.engText))
    ensures r.Ok? ==> (r.value.errorFound
                       <==> seg.errorFound || StartsLowercase(seg.japText, seg.engText))
  {
    if !IsSpaceOnly(seg.japText) && !IsSpaceOnly(seg.engText) then
      var words := Split(seg.engText);
      if words == [] then Err(NoEnglishWord)
      else
        var firstWord := words[0];
        var firstChar := firstWord[0];
        FirstWordStart(seg.engText);
        LowerIsAlpha(firstChar);
        if IsAlpha(firstChar) && IsLower(firstChar) then
          Ok(seg.(capitalizationErrorFound := true, errorFound := true))
        else Ok(seg)
    else Ok(seg)
  }

  /** A whitespace-only text on either side skips the segment. */
  lemma WhitespaceOnlySkipped(seg: Segment)
    requires IsSpaceOnly(seg.japText) || IsSpaceOnly(seg.engText)
    ensures LeadingCapital(seg) == Ok(seg)
  {
  }

  /**
   An English text starting with a capital, a digit or a bracket is never
   flagged, whatever the Japanese text.
   */
  lemma UppercaseOrNonLetterNotFlagged(seg: Segment)
    requires seg.engText != [] && !IsSpace(seg.engText[0])
    requires !IsLower(seg.engText[0])
    ensures LeadingCapital(seg) == Ok(seg)
  {
    if !IsSpaceOnly(seg.japText) && !IsSpaceOnly(seg.engText) {
      assert LeadingSpaces(seg.engText) == 0;
    }
  }

  /**
   `leading_capital_check` over the whole list: every segment checked in
   order, and the first crash ends the run.
   */
  method LeadingCapitalCheck(segments: seq<Segment>) returns (r: Result<seq<Segment>>)
    ensures r.Ok? <==> forall i | 0 <= i < |segments| :: !(!IsSpaceOnly(segments[i].japText) && segments[i].engText == [])
    ensures r.Ok? ==> |r.value| == |segments|
    ensures r.Ok? ==> forall i | 0 <= i < |segments| ::
      && r.value[i].capitalizationErrorFound
         == (segments[i].capitalizationErrorFound || StartsLowercase(segments[i].japText, segments[i].engText))
      && r.value[i].errorFound == (segments[i].errorFound || StartsLowercase(segments[i].japText, segments[i].engText))
      && r.value[i].(capitalizationErrorFound := segments[i].capitalizationErrorFound,
                     errorFound := segments[i].errorFound) == segments[i]
  {
    r := CheckEach(segments, LeadingCapital);
  }
}
