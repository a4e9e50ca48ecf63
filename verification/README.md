# honyaku_checker QA checks in Dafny

honyaku_checker checks Japanese-to-English translation memories. It walks a
list of aligned segments and annotates each one with the defects it finds.
This project models three of its checks and proves properties about them.

- **Reference numerals** (`aplhanums.py`). Reference numbers such as
  "100a" or "240B" are extracted from both texts of a segment and compared
  as Python `Counter`s.
  - Japanese side:
    1. Every character of eight Unicode blocks becomes a space.
    2. Every symbol of the `clean_string` class becomes a space.
    3. The text is split on whitespace.
    4. A token is kept when it holds a letter and a digit and ends in none
       of the measurement units.
  - English side: clean, split, and keep the tokens holding a letter and
    a digit that are not one of the ordinals "1st" to "20th".
  - `Counter` subtraction gives the missing and the extra numbers.
  - `error_found` is raised when either is non-empty.
- **Trailing punctuation** (`punctuation.py`). When the stripped Japanese
  text ends in one of 28 listed marks, the stripped English text must end
  in the one English mark that the mark calls for. Otherwise
  `trailing_punctuation_error` is raised. `error_found` is not touched.
- **Leading capital** (`capitals.py`). When neither text is
  whitespace-only, the first character of the first English word must
  not be a lowercase letter. Otherwise `capitalization_error_found` and
  `error_found` are raised.

## Modules

| file | module | contents |
|---|---|---|
| `chars.dfy` | `Chars` | `str.isspace`, `isalpha`, `isdigit` and `islower` on one character |
| `text.dfy` | `Text` | argument-less `str.split()` and `str.strip()`, with their padding and round-trip lemmas |
| `segments.dfy` | `Segments` | the annotated `Segment` record; the `Result` of a check, whose `Err` is the `IndexError` a check can raise; the per-segment loop over the list |
| `aplhanums.dfy` | `Aplhanums` | the whole numeral pipeline and the multiset comparison |
| `punctuation.dfy` | `Punctuation` | the two punctuation tables, a reference grouping of them, and the check |
| `capitals.dfy` | `Capitals` | the leading-capital check |
| `scenarios.dfy` | `Scenarios` | worked segments: a duplicate numeral, a case mismatch, units and ordinals, a device/sensor sentence, full stops and commas, capital and lowercase starts |

A Python `Counter` that holds only positive counts is a `multiset<string>`.
Dafny's multiset difference clips at zero exactly as `Counter.__sub__`
does.

Python mutates the segments in place. Here each check returns a new list.
A crash is `Err`, and the first crash ends the run, as the uncaught
exception would.

Behaviour of the code that the model keeps as written:

- `ending_punctuation_check` has no guard. `jap_text[-1]` raises
  `IndexError` when the Japanese text strips to nothing, and
  `eng_text[-1]` raises it when the Japanese text ends in a listed mark
  and the English text strips to nothing. The model returns `Err` in both
  cases.
- `leading_capital_check` raises `IndexError` on `words[0]` when the
  English text is empty and the Japanese text is not whitespace-only,
  because `"".isspace()` is false.
- The unit list has 30 entries, with "km" listed twice.
- The classifier uses `str.isdigit`, which also accepts ¹ ² ³.
- In `clean_string`, the class `+-/` is a range from U+002B to U+002F.
  It adds nothing beyond the literal characters, since `,` and `.` are
  listed anyway (`SymbolRangeIsLiteral`).
- The letter `x` is in the symbol class, so it is blanked wherever it
  appears.

## Model

| member | source | states |
|---|---|---|
| `Chars.LowerIsAlpha` | capitals.py:18-19 | on Latin-1, the range the character predicates cover, every lowercase character is alphabetic, so there the nested `isalpha()`/`islower()` test amounts to `islower()` |
| `Text.Split` | aplhanums.py:53 | `str.split()`: every word is non-empty, whitespace-free and made of characters of the input; there are no words exactly when the input is all whitespace |
| `Text.SplitAtSpace` | aplhanums.py:53 | splitting is compositional: a whitespace character separates the words on its left from those on its right, so the words are the maximal whitespace-free runs in order |
| `Text.SplitAfterSpaces` | aplhanums.py:53 | whitespace in front of a text contributes no words |
| `Text.SplitOfWord` | aplhanums.py:53 | a non-empty whitespace-free text splits into itself alone |
| `Text.SplitJoinSpaced` | aplhanums.py:83 | round trip: splitting whitespace-free words joined by single spaces gives the words back |
| `Text.SplitIgnoresPadding` | aplhanums.py:53 | whitespace before and after a text changes none of its words |
| `Text.Strip` | punctuation.py:38-39 | `str.strip()`: the result is the slice after the leading whitespace, followed only by whitespace; it is empty exactly when the text is all whitespace, and otherwise starts and ends with non-whitespace |
| `Text.StripIgnoresPadding` | punctuation.py:38-39 | whitespace around a text never changes what `strip()` returns |
| `Text.FirstWordStart` | capitals.py:14-16 | `split()[0][0]` is the first non-whitespace character of the text |
| `Segments.CheckEach` | punctuation.py:36-50 | the `for segment in segments` loop: the run succeeds exactly when every segment's check succeeds, and then every segment is replaced in order; otherwise the outcome is the crash of the first failing segment |
| `Aplhanums.Substitute` | aplhanums.py:151-168 | one `re.sub` pass with a one-class pattern, as each line of the Japanese preparation and `clean_string` run it: the length is kept, each character of the class becomes a space, every other character stays where it was |
| `Aplhanums.SubstituteEach` | aplhanums.py:151-158 | the chained `re.sub` passes blank exactly the characters in some pass's class, because the space a pass writes is in no class; the length is kept |
| `Aplhanums.JapanesePassesBlankJapaneseChars` | aplhanums.py:141-158 | the eight block passes blank exactly the merged code-point intervals of the independent definition `IsJapaneseChar` |
| `Aplhanums.StripJapaneseChars` | aplhanums.py:124-160 | `strip_Japanese_chars` turns every Japanese-block character into a space and leaves every other character and the length unchanged |
| `Aplhanums.StripJapaneseCharsIdempotent` | aplhanums.py:124-160 | stripping a second time changes nothing |
| `Aplhanums.CleanString` | aplhanums.py:163-170 | `clean_string` turns every symbol of its class into a space and leaves every other character and the length unchanged |
| `Aplhanums.SymbolRangeIsLiteral` | aplhanums.py:167 | the regular-expression class, with `+-/` read as a range, is the same set as its characters listed literally |
| `Aplhanums.CleanedWordsAreClean` | aplhanums.py:82-83 | no word of a cleaned text holds whitespace or a symbol, so `x` never survives |
| `Aplhanums.JapaneseTokens` | aplhanums.py:51-53 | the Japanese substrings are non-empty and free of whitespace, symbols and Japanese-block characters |
| `Aplhanums.EnglishTokens` | aplhanums.py:82-83 | the English words are non-empty and free of whitespace and symbols |
| `Aplhanums.CleanStringAppend` | aplhanums.py:163-170 | cleaning works character by character, so it distributes over concatenation |
| `Aplhanums.EnglishTokensOfJoined` | aplhanums.py:82-83 | round trip on the English side: clean words joined by single spaces and followed by symbols only tokenise back into exactly those words, in order |
| `Aplhanums.AplhanumIdentify` | aplhanums.py:92-110 | the two-flag loop returns true exactly for the strings holding at least one letter and at least one digit |
| `Aplhanums.EndingInMIsUnit` | aplhanums.py:44-47 | since "m" is a unit, every token ending in `m` is discarded as a measurement |
| `Aplhanums.UnitShape` | aplhanums.py:44-47 | "m" is the only one-character unit, and no unit has a digit just before its last character |
| `Aplhanums.DigitThenSuffixIsNoUnit` | aplhanums.py:59-64 | a token whose last character is not `m` and follows a digit (the shape of "100a") ends in no unit |
| `Aplhanums.Filter` | aplhanums.py:56-65 | the appended tokens are exactly the accepted ones, each as many times as it occurs |
| `Aplhanums.FilterAppend` | aplhanums.py:56-65 | tokens are appended in order of appearance: filtering distributes over concatenation |
| `Aplhanums.JapaneseAplhanums` | aplhanums.py:50-65 | every Japanese number appended holds a letter and a digit, ends in no unit, and is free of whitespace and symbols |
| `Aplhanums.JapaneseAplhanumsCounts` | aplhanums.py:56-65 | each kept Japanese substring is appended as often as it occurs, and nothing else is |
| `Aplhanums.KeptJapaneseNeverEndsInM` | aplhanums.py:44-65 | a token that survives the unit filter is non-empty and does not end in `m` |
| `Aplhanums.JapaneseAplhanumsNeverEndInM` | aplhanums.py:44-65 | no Japanese-side reference number ends in `m` |
| `Aplhanums.EnglishAplhanums` | aplhanums.py:81-87 | every English number appended holds a letter and a digit, is not one of "1st".."20th", and is free of whitespace and symbols |
| `Aplhanums.EnglishAplhanumsCounts` | aplhanums.py:84-87 | each kept English word is appended as often as it occurs, and nothing else is |
| `Aplhanums.CompareAplhanums` | aplhanums.py:19-33 | missing is the Japanese count minus the English count per token, clipped at zero, and extra is the reverse; both are empty exactly when the two multisets are equal; `error_found` becomes the old flag or "the multisets differ"; nothing else changes |
| `Aplhanums.CollectJapAplhanums` | aplhanums.py:38-67 | every segment, in order, gets its own Japanese numbers appended to its list, and nothing else changes |
| `Aplhanums.CollectEngAplhanums` | aplhanums.py:70-89 | every segment, in order, gets its own English numbers appended to its list, and nothing else changes |
| `Aplhanums.CompareEach` | aplhanums.py:19-35 | every segment is compared on its own, in order |
| `Aplhanums.AplhanumCheck` | aplhanums.py:8-35 | the whole check: each segment's outcome is its own extraction followed by its own comparison; the list keeps its length and order |
| `Aplhanums.FreshSegmentFlaggedIffNumbersDiffer` | aplhanums.py:8-35 | for a segment with empty annotations, `error_found` is raised exactly when the two texts yield different multisets of reference numbers |
| `Punctuation.PunctuationTableTotal` | punctuation.py:12-34 | the 28 listed marks are distinct and are exactly the keys of `corresponding_punc`, so the lookup never raises `KeyError` |
| `Punctuation.PunctuationTableMatchesGroups` | punctuation.py:21-34 | the table maps a mark to `e` exactly when the mark is in the reference group of `e` |
| `Punctuation.GroupsDisjoint` | punctuation.py:21-34 | no mark belongs to the groups of two different English marks, so the table is many-to-one |
| `Punctuation.PunctuationTableIsProjection` | punctuation.py:21-34 | every value of the table is one of the seven English marks, and each of those maps to itself |
| `Punctuation.TrailingVerdict` | punctuation.py:40-48 | on stripped texts: crashes exactly on an empty Japanese text, or on a listed final mark with an empty English text; reports a mismatch exactly when the final mark is listed and the English text ends in anything but its mark |
| `Punctuation.EndingPunctuation` | punctuation.py:38-48 | `trailing_punctuation_error` becomes the old flag or "mismatch on the stripped texts"; nothing else changes, `error_found` included |
| `Punctuation.EndingPunctuationCrashes` | punctuation.py:38-43 | the check crashes exactly when the Japanese text is all whitespace, or when it ends in a listed mark and the English text is all whitespace |
| `Punctuation.UnlistedEndingLeavesSegment` | punctuation.py:42 | when the Japanese text ends in an unlisted character, the segment comes back unchanged, whatever the English text |
| `Punctuation.MismatchRaisesFlag` | punctuation.py:46-48 | a listed final mark with another English final mark than its own raises exactly the punctuation flag |
| `Punctuation.MatchLeavesSegment` | punctuation.py:46-47 | a listed final mark with its own English mark leaves the segment unchanged |
| `Punctuation.EndingPunctuationIgnoresPadding` | punctuation.py:38-39 | whitespace around either text changes neither whether the check crashes nor the flag it sets |
| `Punctuation.EndingPunctuationCheck` | punctuation.py:5-50 | the whole check: it succeeds exactly when no segment crashes, and then each segment's flag is the old flag or its mismatch, with nothing else changed |
| `Capitals.LeadingCapital` | capitals.py:12-21 | crashes exactly when the English text is empty and the Japanese text is not whitespace-only; otherwise both flags are raised exactly when the English text starts with a lowercase letter, never lowered, and nothing else changes |
| `Capitals.WhitespaceOnlySkipped` | capitals.py:12 | a whitespace-only text on either side leaves the segment unchanged |
| `Capitals.UppercaseOrNonLetterNotFlagged` | capitals.py:18-21 | an English text that starts with a non-whitespace character that is not lowercase is never flagged |
| `Capitals.LeadingCapitalCheck` | capitals.py:4-23 | the whole check: it succeeds exactly when no segment pairs a non-blank Japanese text with an empty English text; each segment's two flags are the old flag or "starts lowercase", with nothing else changed |
| `Scenarios.DuplicateNumberMissingOnce` | aplhanums.py:22-27 | ["100a", "100a"] against ["100a"] reports "100a" missing once and raises the error |
| `Scenarios.CaseMismatchMissingAndExtra` | aplhanums.py:22-27 | "100A" against "100a" is one missing and one extra |
| `Scenarios.DeviceSensorComparison` | aplhanums.py:22-33 | ["100a", "200b"] against ["100a", "300b"] reports "200b" missing and "300b" extra |
| `Scenarios.ExclusionExamples` | aplhanums.py:44-87 | "5km" is dropped on the Japanese side, "3rd" is dropped on the English side, and "21st" is kept |
| `Scenarios.TwentyFirstIsExtracted` | aplhanums.py:76-87 | the English text "21st" yields the reference number "21st" |
| `Scenarios.NumeralsAmidJapanese` | aplhanums.py:50-65 | two numerals with a one-letter suffix embedded in runs of Japanese script are exactly the Japanese side's numbers, in order |
| `Scenarios.DeviceSensorJapaneseSide` | aplhanums.py:50-65 | "装置100aとセンサー200bを備える。" yields ["100a", "200b"] |
| `Scenarios.DeviceSensorEnglishSide` | aplhanums.py:81-87 | "The device 100a and sensor 300b.", given as its words, spaces and full stop, yields ["100a", "300b"] |
| `Scenarios.DeviceSensorSegment` | aplhanums.py:8-35 | the whole check on the fresh segment "装置100aとセンサー200bを備える。" / "The device 100a and sensor 300b." reports "200b" missing and "300b" extra, and raises the error |
| `Scenarios.FullStopVerdicts` | punctuation.py:42-48 | "。" against an English full stop passes; against a comma it is a mismatch |
| `Scenarios.UnlistedEndingSkipped` | punctuation.py:42 | a Japanese text ending in a letter is not compared |
| `Scenarios.LowercaseStartFlagged` | capitals.py:12-21 | "the device" raises both flags |
| `Scenarios.CapitalStartPasses` | capitals.py:12-21 | "The device" raises nothing |
| `Scenarios.EmptyEnglishCrashes` | capitals.py:14-15 | an empty English text behind a real Japanese text crashes on `words[0]` |

## Left out

- The driver `src/checker.py` is not part of this model. It reads the
  translation-memory file and prints the results. It also calls
  `digits.digit_check` rather than `aplhanum_check`, and it runs checks
  that are not modelled here.
- The segment class is not part of this model. `Segment` keeps only the
  fields the three checks read or write. `NewSegment` is a segment as the
  reader hands it over, with empty lists and flags down.
- `IsAlpha`, `IsDigit` and `IsLower` follow Python's Unicode database on
  Latin-1 (U+0000 to U+00FF) only. Above that they are false, so a Greek
  letter or an Arabic-Indic digit in a token is not seen as a letter or a
  digit. `IsSpace` is Python's complete whitespace set.
- The regular-expression engine is not modelled. Each `re.sub` with a
  one-class pattern is modelled as a per-character substitution.
- The commented-out `is_asian` / `filter_jchars` block at
  aplhanums.py:112-123 is dead code and is not modelled.
- In-place mutation and object identity are not modelled. A check returns
  a new list instead of editing the shared segment objects.
- `Aplhanums.JapaneseAplhanums`, `Aplhanums.EnglishAplhanums`: the order
  of the appended tokens is stated by `Aplhanums.FilterAppend` and
  `Aplhanums.Filter`, and their counts by the `...Counts` lemmas, not in
  these two functions' own contracts.
