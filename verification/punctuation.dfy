/**
 The trailing-punctuation check of `punctuation.py`: when the Japanese
 text ends in one of its listed marks, the English text must end in the
 mark that corresponds to it.
 */
module Punctuation {
  import opened Chars
  import opened Text
  import opened Segments

  /** `jap_punc`: the 28 trailing marks that trigger the comparison, in the listed order. */
  const JapPunc: seq<char> := [
    '\U{3001}', '\U{002C}', '\U{FF0C}', '\U{FF64}', '\U{3002}',
    '\U{002E}', '\U{FF0E}', '\U{FF61}', '\U{FF09}', '\U{FF60}',
    '\U{FF3D}', '\U{FF5D}', '\U{3015}', '\U{3017}', '\U{3011}',
    '\U{3019}', '\U{301B}', '\U{3009}', '\U{300B}', '\U{300D}',
    '\U{300F}', '\U{301C}', '\U{FF5E}', '\U{2026}', '\U{0029}',
    '\U{005D}', '\U{003E}', '\U{0022}']

  /** `corresponding_punc`: the English mark each Japanese mark calls for. */
  const CorrespondingPunc: map<char, char> := map[
    '\U{3001}' := '\U{002C}', '\U{002C}' := '\U{002C}',
    '\U{FF0C}' := '\U{002C}', '\U{FF64}' := '\U{002C}',
    '\U{3002}' := '\U{002E}', '\U{002E}' := '\U{002E}',
    '\U{FF0E}' := '\U{002E}', '\U{FF61}' := '\U{002E}',
    '\U{FF09}' := '\U{0029}', '\U{FF60}' := '\U{0029}',
    '\U{0029}' := '\U{0029}', '\U{FF3D}' := '\U{005D}',
    '\U{FF5D}' := '\U{005D}', '\U{3015}' := '\U{005D}',
    '\U{3017}' := '\U{005D}', '\U{3011}' := '\U{005D}',
    '\U{3019}' := '\U{005D}', '\U{301B}' := '\U{005D}',
    '\U{005D}' := '\U{005D}', '\U{3009}' := '\U{003E}',
    '\U{003E}' := '\U{003E}', '\U{300B}' := '\U{003E}',
    '\U{300D}' := '\U{0022}', '\U{0022}' := '\U{0022}',
    '\U{300F}' := '\U{0022}', '\U{301C}' := '\U{2026}',
    '\U{FF5E}' := '\U{2026}', '\U{2026}' := '\U{2026}']

  /** The seven English marks the table can ask for: `, . ) ] > "` and the ellipsis. */
  const EnglishMarks: set<char> := {',', '.', ')', ']', '>', '"', '\U{2026}'}

  /**
   Reference grouping of the correspondence, written per English mark:
   the Japanese (and ASCII) marks that call for `e`.
   */
  function MarksCallingFor(e: char): set<char>
  {
    match e
    case ',' => {'\U{3001}', ',', '\U{FF0C}', '\U{FF64}'}                 // 、 , ， ､
    case '.' => {'\U{3002}', '.', '\U{FF0E}', '\U{FF61}'}                 // 。 . ． ｡
    case ')' => {'\U{FF09}', '\U{FF60}', ')'}                             // ） ｠ )
    case ']' => {'\U{FF3D}', '\U{FF5D}', '\U{3015}', '\U{3017}',
                 '\U{3011}', '\U{3019}', '\U{301B}', ']'}                 // ］ ｝ 〕 〗 】 〙 〛 ]
    case '>' => {'\U{3009}', '>', '\U{300B}'}                             // 〉 > 》
    case '"' => {'\U{300D}', '"', '\U{300F}'}                             // 」 " 』
    case '\U{2026}' => {'\U{301C}', '\U{FF5E}', '\U{2026}'}               // 〜 ～ …
    case _ => {}
  }

  /** `j` is a trailing mark and `e` is the English mark it calls for. */
  predicate Corresponds(j: char, e: char)
  {
    e in EnglishMarks && j in MarksCallingFor(e)
  }

  /**
   The lookup `corresponding_punc[last_jap_char]` never fails: the table's
   keys are exactly the listed marks, which are 28 distinct characters.
   */
  lemma PunctuationTableTotal()
    ensures |JapPunc| == 28
    ensures forall i, j | 0 <= i < j < |JapPunc| :: JapPunc[i] != JapPunc[j]
    ensures forall c :: c in CorrespondingPunc <==> c in JapPunc
  {
    forall c ensures c in CorrespondingPunc <==> c in JapPunc {
      PunctuationKeyIsMark(c);
    }
  }

  /** One character is a key of the table exactly when it is a listed mark. */
  lemma PunctuationKeyIsMark(c: char)
    ensures c in CorrespondingPunc <==> c in JapPunc
  {
  }

  /**
   The table agrees with the grouping: a key maps to `e` exactly when it
   is in the group of `e`, and every group member is a key.
   */
  lemma PunctuationTableMatchesGroups(j: char, e: char)
    ensures (j in CorrespondingPunc && CorrespondingPunc[j] == e) <==> Corresponds(j, e)
  {
    if j in CorrespondingPunc {
      TableEntryInGroup(j);
    }
    if Corresponds(j, e) {
      GroupMemberInTable(j, e);
    }
  }

  /** Each table entry maps a mark to the English mark whose group holds it. */
  lemma TableEntryInGroup(j: char)
    requires j in CorrespondingPunc
    ensures Corresponds(j, CorrespondingPunc[j])
  {
  }

  /** Each group member is a table key mapped to its group's English mark. */
  lemma GroupMemberInTable(j: char, e: char)
    requires Corresponds(j, e)
    ensures j in CorrespondingPunc && CorrespondingPunc[j] == e
  {
    GroupMemberIsMark(j, e);
    PunctuationKeyIsMark(j);
    TableEntryInGroup(j);
    GroupsDisjoint(j, e, CorrespondingPunc[j]);
  }

  /** Every group member is one of the listed marks. */
  lemma GroupMemberIsMark(j: char, e: char)
    requires j in MarksCallingFor(e)
    ensures j in JapPunc
  {
  }

  /** No mark calls for two different English marks. */
  lemma GroupsDisjoint(j: char, e1: char, e2: char)
    requires j in MarksCallingFor(e1) && j in MarksCallingFor(e2)
    ensures e1 == e2
  {
  }

  /**
   The table is a projection onto the English marks: every value is one
   of them, and each of them is a key that maps to itself.
   */
  lemma PunctuationTableIsProjection()
    ensures forall c | c in CorrespondingPunc :: CorrespondingPunc[c] in EnglishMarks
    ensures forall e | e in EnglishMarks :: e in CorrespondingPunc && CorrespondingPunc[e] == e
    ensures forall c | c in CorrespondingPunc ::
              CorrespondingPunc[c] in CorrespondingPunc && CorrespondingPunc[CorrespondingPunc[c]] == CorrespondingPunc[c]
  {
  }

  /** The last character of `text` once stripped, if it strips to anything. */
  predicate EndsWithMark(text: string)
  {
    var t := Strip(text);
    t != [] && t[|t| - 1] in JapPunc
  }

  /**
   The defect the check reports: the Japanese text ends in a listed mark
   and the English text does not end in the mark it corresponds to.
   */
  predicate TrailingMismatch(japText: string, engText: string)
  {
    var jap, eng := Strip(japText), Strip(engText);
    && EndsWithMark(japText)
    && eng != []
    && !Corresponds(jap[|jap| - 1], eng[|eng| - 1])
  }

  /**
   The decision `ending_punctuation_check` takes from the two stripped
   texts: `Ok(true)` when the Japanese text ends in a listed mark and the
   English text ends in anything but the mark it calls for, `Ok(false)`
   when there is nothing to flag, and the `IndexError` of `[-1]` on an
   empty text. The English text is indexed only when the Japanese mark
   is listed.
   */
  function TrailingVerdict(japText: string, engText: string): (v: Result<bool>)
    ensures v.Err? <==> japText == [] || (japText[|japText| - 1] in JapPunc && engText == [])
    ensures v == Ok(true) <==>
      && japText != [] && japText[|japText| - 1] in JapPunc
      && engText != [] && !Corresponds(japText[|japText| - 1], engText[|engText| - 1])
  {
    if japText == [] then Err(EmptyJapaneseText)
    else
      var lastJapChar := japText[|japText| - 1];
      if lastJapChar in JapPunc then
        if engText == [] then Err(EmptyEnglishText)
        else
          var lastEngChar := engText[|engText| - 1];
          PunctuationKeyIsMark(lastJapChar);
          var correspondingEng := CorrespondingPunc[lastJapChar];
          PunctuationTableMatchesGroups(lastJapChar, lastEngChar);
          Ok(lastEngChar != correspondingEng)
      else Ok(false)
  }

  /**
   `ending_punctuation_check` on one segment. It crashes (`IndexError`)
   when the Japanese text is all whitespace, and when the Japanese text
   ends in a listed mark but the English text is all whitespace.
   Otherwise it raises `trailing_punctuation_error` exactly on a
   mismatch, never lowers it, and changes nothing else, `error_found`
   included.
   */
  function EndingPunctuation(seg: Segment): (r: Result<Segment>)
    ensures r.Ok? ==> r.value.(trailingPunctuationError := seg.trailingPunctuationError) == seg
    ensures r.Ok? ==> (r.value.trailingPunctuationError
                       <==> seg.trailingPunctuationError || TrailingMismatch(seg.japText, seg.engText))
  {
    VerdictIsMismatch(seg.japText, seg.engText);
    match TrailingVerdict(Strip(seg.japText), Strip(seg.engText))
    case Err(crash) => Err(crash)
    case Ok(mismatch) => if mismatch then Ok(seg.(trailingPunctuationError := true)) else Ok(seg)
  }

  /** The verdict on the stripped texts is a mismatch exactly when `TrailingMismatch` holds. */
  lemma VerdictIsMismatch(japText: string, engText: string)
    ensures TrailingVerdict(Strip(japText), Strip(engText)) == Ok(true) <==> TrailingMismatch(japText, engText)
  {
  }

  /**
   The check crashes exactly when the Japanese text is all whitespace, or
   when it ends in a listed mark and the English text is all whitespace.
   */
  lemma EndingPunctuationCrashes(seg: Segment)
    ensures EndingPunctuation(seg).Err?
            <==> AllSpace(seg.japText) || (EndsWithMark(seg.japText) && AllSpace(seg.engText))
  {
  }

  /**
   When the stripped Japanese text ends in anything but a listed mark,
   the segment comes back unchanged, whatever the English text.
   */
  lemma UnlistedEndingLeavesSegment(seg: Segment)
    requires Strip(seg.japText) != [] && !EndsWithMark(seg.japText)
    ensures EndingPunctuation(seg) == Ok(seg)
  {
    var jap := Strip(seg.japText);
    assert jap[|jap| - 1] !in JapPunc;
    assert TrailingVerdict(jap, Strip(seg.engText)) == Ok(false);
  }

  /**
   When the stripped Japanese text ends in a listed mark and the stripped
   English text ends in some other mark than the one it calls for, the
   punctuation flag is raised and nothing else changes.
   */
  lemma MismatchRaisesFlag(seg: Segment)
    requires EndsWithMark(seg.japText) && Strip(seg.engText) != []
    requires var jap, eng := Strip(seg.japText), Strip(seg.engText);
      !Corresponds(jap[|jap| - 1], eng[|eng| - 1])
    ensures EndingPunctuation(seg) == Ok(seg.(trailingPunctuationError := true))
  {
  }

  /**
   When the stripped English text ends in the mark the Japanese text's
   last mark calls for, the segment comes back unchanged.
   */
  lemma MatchLeavesSegment(seg: Segment)
    requires EndsWithMark(seg.japText) && Strip(seg.engText) != []
    requires var jap, eng := Strip(seg.japText), Strip(seg.engText);
      Corresponds(jap[|jap| - 1], eng[|eng| - 1])
    ensures EndingPunctuation(seg) == Ok(seg)
  {
  }

  /** Whitespace before or after either text never changes the outcome. */
  lemma EndingPunctuationIgnoresPadding(seg: Segment, w1: string, w2: string, w3: string, w4: string)
    requires AllSpace(w1) && AllSpace(w2) && AllSpace(w3) && AllSpace(w4)
    ensures var padded := seg.(japText := w1 + seg.japText + w2, engText := w3 + seg.engText + w4);
      && EndingPunctuation(padded).Ok? == EndingPunctuation(seg).Ok?
      && (EndingPunctuation(seg).Ok? ==>
            EndingPunctuation(padded).value.trailingPunctuationError
            == EndingPunctuation(seg).value.trailingPunctuationError)
  {
    StripIgnoresPadding(w1, seg.japText, w2);
    StripIgnoresPadding(w3, seg.engText, w4);
  }

  /**
   `ending_punctuation_check` over the whole list: every segment checked
   in order, and the first crash ends the run.
   */
  method EndingPunctuationCheck(segments: seq<Segment>) returns (r: Result<seq<Segment>>)
    ensures r.Ok? <==> forall i | 0 <= i < |segments| :: EndingPunctuation(segments[i]).Ok?
    ensures r.Ok? ==> |r.value| == |segments|
    ensures r.Ok? ==> forall i | 0 <= i < |segments| ::
      && r.value[i].(trailingPunctuationError := segments[i].trailingPunctuationError) == segments[i]
      && (r.value[i].trailingPunctuationError
          <==> segments[i].trailingPunctuationError || TrailingMismatch(segments[i].japText, segments[i].engText))
  {
    r := CheckEach(segments, EndingPunctuation);
  }
}
