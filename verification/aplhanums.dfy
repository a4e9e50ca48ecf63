/**
 The reference-numeral check of `aplhanums.py`: reference numbers such as
 "100a" or "240B" are extracted from both sides of a segment and compared
 as multisets. (The source spells "alphanum" as "aplhanum"; the names here
 keep its spelling.)

 Japanese side: blank the Japanese blocks, blank the symbols, split on
 whitespace, keep the tokens with a letter and a digit that end in no
 unit. English side: blank the symbols, split, keep the tokens with a
 letter and a digit that are not one of the ordinals "1st".."20th".
 */
module Aplhanums {
  import opened Chars
  import opened Text
  import opened Segments

  /* ---------- Character classes and the `re.sub` passes ---------- */

  /** The Unicode blocks `strip_Japanese_chars` removes, one regular expression each. */
  datatype Block =
    | Hiragana            // U+3040..U+309F
    | Katakana            // U+30A0..U+30FF
    | HalfWidthKatakana   // U+FF5F..U+FF9F
    | Kanji               // U+3400..U+4DB5, U+4E00..U+9FCB, U+F900..U+FA6A
    | Radicals            // U+2E80..U+2FD5
    | FullWidthAlphanum   // U+FF01..U+FF5E
    | SymbolsPunctuation  // U+3000..U+303F
    | MiscSymbols         // U+31F0..U+31FF, U+3220..U+3243, U+3280..U+337F

  predicate InBlock(c: char, b: Block)
  {
    var n := c as int;
    match b
    case Hiragana => 0x3040 <= n <= 0x309F
    case Katakana => 0x30A0 <= n <= 0x30FF
    case HalfWidthKatakana => 0xFF5F <= n <= 0xFF9F
    case Kanji => (0x3400 <= n <= 0x4DB5) || (0x4E00 <= n <= 0x9FCB) || (0xF900 <= n <= 0xFA6A)
    case Radicals => 0x2E80 <= n <= 0x2FD5
    case FullWidthAlphanum => 0xFF01 <= n <= 0xFF5E
    case SymbolsPunctuation => 0x3000 <= n <= 0x303F
    case MiscSymbols => (0x31F0 <= n <= 0x31FF) || (0x3220 <= n <= 0x3243) || (0x3280 <= n <= 0x337F)
  }

  /**
   The class `clean_string` removes, read as the regular expression reads
   it: `+-/` is the RANGE U+002B..U+002F (`+ , - . /`), and the letter `x`
   is in the class (it stands for a multiplication sign).
   */
  predicate IsSymbol(c: char)
  {
    || c in {',', '.', ';', ':', '?', '!', '"', '_', '@', '#', '$', '\U{A3}', '%', '^', '&'}
    || ('+' <= c <= '/')
    || c in {'x', '*', '=', '<', '>', '\U{2264}', '\U{2265}', '\U{2266}', '\U{2267}', '(', ')', '[', ']', '{', '}', '\\'}
  }

  /** The character class of one `re.sub(class, ' ', text)` pass. */
  datatype CharClass = JapaneseBlock(block: Block) | Symbols

  predicate InClass(c: char, cls: CharClass)
  {
    match cls
    case JapaneseBlock(b) => InBlock(c, b)
    case Symbols => IsSymbol(c)
  }

  /** One `re.sub(cls, ' ', s)` pass: each character of the class becomes a space, in place. */
  function Substitute(s: string, cls: CharClass): (r: string)
    ensures |r| == |s|
    ensures forall i | 0 <= i < |s| :: r[i] == (if InClass(s[i], cls) then ' ' else s[i])
  {
    if s == [] then [] else [if InClass(s[0], cls) then ' ' else s[0]] + Substitute(s[1..], cls)
  }

  /** Some pass of `passes` has `c` in its class. */
  predicate InSomeClass(c: char, passes: seq<CharClass>)
  {
    exists k | 0 <= k < |passes| :: InClass(c, passes[k])
  }

  /**
   Several `re.sub` passes one after the other. Since the space put in by
   one pass is in no class, the passes together blank exactly the
   characters that some pass's class contains.
   */
  function SubstituteEach(s: string, passes: seq<CharClass>): (r: string)
    ensures |r| == |s|
    ensures forall i | 0 <= i < |s| :: r[i] == (if InSomeClass(s[i], passes) then ' ' else s[i])
    decreases |passes|
  {
    if passes == [] then s
    else
      var t := Substitute(s, passes[0]);
      var r := SubstituteEach(t, passes[1..]);
      assert forall i | 0 <= i < |s| :: r[i] == (if InSomeClass(s[i], passes) then ' ' else s[i]) by {
        forall i | 0 <= i < |s|
          ensures r[i] == (if InSomeClass(s[i], passes) then ' ' else s[i])
        {
          SpaceInNoClass(passes[1..]);
          InSomeClassSplit(s[i], passes);
        }
      }
      r
  }

  /** The space a pass puts in belongs to no class. */
  lemma SpaceInNoClass(passes: seq<CharClass>)
    ensures !InSomeClass(' ', passes)
  {
  }

  /** Being in some class of a list of passes means being in the first or in one of the rest. */
  lemma InSomeClassSplit(c: char, passes: seq<CharClass>)
    requires passes != []
    ensures InSomeClass(c, passes) <==> InClass(c, passes[0]) || InSomeClass(c, passes[1..])
  {
    if InSomeClass(c, passes[1..]) {
      var k :| 0 <= k < |passes[1..]| && InClass(c, passes[1..][k]);
      assert InClass(c, passes[k + 1]);
    }
    if InSomeClass(c, passes) && !InClass(c, passes[0]) {
      var k :| 0 <= k < |passes| && InClass(c, passes[k]);
      assert passes[1..][k - 1] == passes[k];
    }
  }

  /** The passes of `strip_Japanese_chars`, in the order it applies them. */
  const JapanesePasses: seq<CharClass> := [
    JapaneseBlock(Kanji), JapaneseBlock(Hiragana), JapaneseBlock(Katakana),
    JapaneseBlock(HalfWidthKatakana), JapaneseBlock(Radicals),
    JapaneseBlock(SymbolsPunctuation), JapaneseBlock(MiscSymbols),
    JapaneseBlock(FullWidthAlphanum)]

  /**
   Reference definition of the characters `strip_Japanese_chars` removes:
   the union of its blocks, merged into disjoint code-point intervals
   (hiragana, katakana and the CJK punctuation block join into
   U+3000..U+30FF; the two full-width blocks into U+FF01..U+FF9F).
   */
  predicate IsJapaneseChar(c: char)
  {
    var n := c as int;
    || (0x2E80 <= n <= 0x2FD5)
    || (0x3000 <= n <= 0x30FF)
    || (0x31F0 <= n <= 0x31FF)
    || (0x3220 <= n <= 0x3243)
    || (0x3280 <= n <= 0x337F)
    || (0x3400 <= n <= 0x4DB5)
    || (0x4E00 <= n <= 0x9FCB)
    || (0xF900 <= n <= 0xFA6A)
    || (0xFF01 <= n <= 0xFF9F)
  }

  /** The eight passes blank exactly the merged intervals. */
  lemma JapanesePassesBlankJapaneseChars(c: char)
    ensures InSomeClass(c, JapanesePasses) <==> IsJapaneseChar(c)
  {
    var p := JapanesePasses;
    if IsJapaneseChar(c) {
      var n := c as int;
      if 0x2E80 <= n <= 0x2FD5 { assert InClass(c, p[4]); }
      else if 0x3000 <= n <= 0x303F { assert InClass(c, p[5]); }
      else if 0x3040 <= n <= 0x309F { assert InClass(c, p[1]); }
      else if 0x30A0 <= n <= 0x30FF { assert InClass(c, p[2]); }
      else if 0x3400 <= n <= 0x4DB5 || 0x4E00 <= n <= 0x9FCB || 0xF900 <= n <= 0xFA6A { assert InClass(c, p[0]); }
      else if 0xFF01 <= n <= 0xFF5E { assert InClass(c, p[7]); }
      else if 0xFF5F <= n <= 0xFF9F { assert InClass(c, p[3]); }
      else { assert InClass(c, p[6]); }
    }
  }

  /**
   `strip_Japanese_chars`: every character in one of the Japanese blocks
   becomes a space; every other character, and the length, stay as they
   were.
   */
  function StripJapaneseChars(japText: string): (r: string)
    ensures |r| == |japText|
    ensures forall i | 0 <= i < |japText| :: r[i] == (if IsJapaneseChar(japText[i]) then ' ' else japText[i])
  {
    var r := SubstituteEach(japText, JapanesePasses);
    assert forall c :: InSomeClass(c, JapanesePasses) <==> IsJapaneseChar(c) by {
      forall c ensures InSomeClass(c, JapanesePasses) <==> IsJapaneseChar(c) {
        JapanesePassesBlankJapaneseChars(c);
      }
    }
    r
  }

  /** Stripping twice strips nothing more: the space it writes is not a Japanese character. */
  lemma StripJapaneseCharsIdempotent(japText: string)
    ensures StripJapaneseChars(StripJapaneseChars(japText)) == StripJapaneseChars(japText)
  {
  }

  /**
   `clean_string`: every symbol of the class becomes a space; every other
   character, and the length, stay as they were.
   */
  function CleanString(text: string): (r: string)
    ensures |r| == |text|
    ensures forall i | 0 <= i < |text| :: r[i] == (if IsSymbol(text[i]) then ' ' else text[i])
  {
    Substitute(text, Symbols)
  }

  /**
   The range `+-/` adds nothing a literal `+`, `-`, `/` would not: the two
   other characters it spans, `,` and `.`, are listed on their own.
   */
  lemma SymbolRangeIsLiteral(c: char)
    ensures IsSymbol(c) <==> c in ",.;:?!\"_@#$\U{A3}%^&+-/x*=<>\U{2264}\U{2265}\U{2266}\U{2267}()[]{}\\"
  {
  }

  /* ---------- Tokens ---------- */

  /** No character of `s` is whitespace or a symbol of `clean_string`. */
  predicate IsCleanToken(s: string)
  {
    forall j | 0 <= j < |s| :: !IsSpace(s[j]) && !IsSymbol(s[j])
  }

  /** The words of a cleaned text are free of whitespace and symbols; `x` in particular never survives. */
  lemma CleanedWordsAreClean(text: string)
    ensures forall k | 0 <= k < |Split(CleanString(text))| :: IsCleanToken(Split(CleanString(text))[k])
  {
    var cleaned := CleanString(text);
    var words := Split(cleaned);
    forall k, j | 0 <= k < |words| && 0 <= j < |words[k]|
      ensures !IsSpace(words[k][j]) && !IsSymbol(words[k][j])
    {
      assert !IsSpace(words[k][j]);
      var m :| 0 <= m < |cleaned| && cleaned[m] == words[k][j];
    }
  }

  /** `jap_text.split()` after stripping and cleaning: tokens free of whitespace, symbols and Japanese characters. */
  function JapaneseTokens(japText: string): (tokens: seq<string>)
    ensures forall k | 0 <= k < |tokens| :: tokens[k] != [] && IsCleanToken(tokens[k])
    ensures forall k, j | 0 <= k < |tokens| && 0 <= j < |tokens[k]| :: !IsJapaneseChar(tokens[k][j])
  {
    var cleaned := CleanString(StripJapaneseChars(japText));
    var tokens := Split(cleaned);
    CleanedWordsAreClean(StripJapaneseChars(japText));
    CleanedStrippedHasNoJapanese(japText);
    tokens
  }

  /** After stripping and cleaning, every non-space character left is not Japanese. */
  lemma CleanedStrippedHasNoJapanese(japText: string)
    ensures forall c | c in CleanString(StripJapaneseChars(japText)) :: IsSpace(c) || !IsJapaneseChar(c)
  {
    var stripped := StripJapaneseChars(japText);
    var cleaned := CleanString(stripped);
    forall c | c in cleaned ensures IsSpace(c) || !IsJapaneseChar(c) {
      var m :| 0 <= m < |cleaned| && cleaned[m] == c;
      if !IsSpace(c) {
        assert c == stripped[m];
        assert c == japText[m];
      }
    }
  }

  /** `eng_text.split()` after cleaning: tokens free of whitespace and symbols. */
  function EnglishTokens(engText: string): (tokens: seq<string>)
    ensures forall k | 0 <= k < |tokens| :: tokens[k] != [] && IsCleanToken(tokens[k])
  {
    CleanedWordsAreClean(engText);
    Split(CleanString(engText))
  }

  /** Clean words joined by single spaces hold no symbol. */
  lemma {:induction false} JoinedCleanWordsHaveNoSymbol(words: seq<string>)
    requires forall k | 0 <= k < |words| :: IsCleanToken(words[k])
    ensures forall i | 0 <= i < |JoinSpaced(words)| :: !IsSymbol(JoinSpaced(words)[i])
    decreases |words|
  {
    if |words| == 1 {
      assert IsCleanToken(words[0]);
    } else if |words| > 1 {
      var rest := JoinSpaced(words[1..]);
      var joined := JoinSpaced(words);
      assert joined == words[0] + " " + rest;
      assert IsCleanToken(words[0]);
      JoinedCleanWordsHaveNoSymbol(words[1..]);
      forall i | 0 <= i < |joined| ensures !IsSymbol(joined[i]) {
        if i > |words[0]| {
          assert joined[i] == rest[i - |words[0]| - 1];
        }
      }
    }
  }

  /** Cleaning works character by character, so it distributes over concatenation. */
  lemma CleanStringAppend(a: string, b: string)
    ensures CleanString(a + b) == CleanString(a) + CleanString(b)
  {
    var r, ra, rb := CleanString(a + b), CleanString(a), CleanString(b);
    forall i | 0 <= i < |a + b| ensures r[i] == (ra + rb)[i] {
      if i < |a| {
        assert (a + b)[i] == a[i];
      } else {
        assert (a + b)[i] == b[i - |a|];
      }
    }
  }

  /** A text without symbols is left as it is; a run of symbols becomes whitespace. */
  lemma CleanStringFixesAndBlanks(s: string, tail: string)
    requires forall i | 0 <= i < |s| :: !IsSymbol(s[i])
    requires forall i | 0 <= i < |tail| :: IsSymbol(tail[i])
    ensures CleanString(s) == s
    ensures AllSpace(CleanString(tail))
  {
  }

  /**
   Round trip on the English side: clean words joined by single spaces and
   followed by symbols only (a final full stop, say) tokenise back into
   exactly those words, in order.
   */
  lemma EnglishTokensOfJoined(words: seq<string>, tail: string)
    requires forall k | 0 <= k < |words| :: words[k] != [] && IsCleanToken(words[k])
    requires forall i | 0 <= i < |tail| :: IsSymbol(tail[i])
    ensures EnglishTokens(JoinSpaced(words) + tail) == words
  {
    var joined := JoinSpaced(words);
    var blanks := CleanString(tail);
    assert CleanString(joined + tail) == joined + blanks && AllSpace(blanks) by {
      JoinedCleanWordsHaveNoSymbol(words);
      CleanStringFixesAndBlanks(joined, tail);
      CleanStringAppend(joined, tail);
    }
    assert Split(joined + blanks) == words by {
      SplitBeforeSpaces(joined, blanks);
      assert forall k | 0 <= k < |words| :: words[k] != [] && NoSpace(words[k]);
      SplitJoinSpaced(words);
    }
  }

  /* ---------- Classification and exclusion ---------- */

  /** A candidate reference number holds at least one letter and at least one digit. */
  predicate IsAplhanum(s: string)
  {
    && (exists i | 0 <= i < |s| :: IsAlpha(s[i]))
    && (exists i | 0 <= i < |s| :: IsDigit(s[i]))
  }

  /**
   `aplhanum_identify`: one pass over the characters raising a letter
   flag and a digit flag; the answer is true exactly for the strings
   holding both a letter and a digit.
   */
  method AplhanumIdentify(substring: string) returns (found: bool)
    ensures found <==> IsAplhanum(substring)
  {
    var letterPresent := false;
    var numberPresent := false;
    var i := 0;
    while i < |substring|
      invariant 0 <= i <= |substring|
      invariant letterPresent <==> exists j | 0 <= j < i :: IsAlpha(substring[j])
      invariant numberPresent <==> exists j | 0 <= j < i :: IsDigit(substring[j])
    {
      if IsAlpha(substring[i]) {
        letterPresent := true;
      }
      if IsDigit(substring[i]) {
        numberPresent := true;
      }
      i := i + 1;
    }
    found := letterPresent && numberPresent;
  }

  /** The measurement units of `collect_Jap_aplhanums`, as listed there ("km" appears twice). */
  const Units: seq<string> := [
    "km", "m", "cm", "mm", "nm", "mg", "ml", "kw", "kwh",
    "kg", "kl", "km", "\U{B5}g", "\U{B5}m", "mm2", "m2", "cm2",
    "mm3", "m3", "cm3", "kb", "gb", "mb", "pm", "ns",
    "ms", "mw", "mwh", "gw", "gwh"]

  /** The ordinals `collect_Eng_aplhanums` ignores: "1st" to "20th" and no further. */
  const Ordinals: seq<string> := [
    "1st", "2nd", "3rd", "4th", "5th",
    "6th", "7th", "8th", "9th", "10th",
    "11th", "12th", "13th", "14th", "15th",
    "16th", "17th", "18th", "19th", "20th"]

  /** Python's `s.endswith(suffix)`. */
  predicate EndsWith(s: string, suffix: string)
  {
    |suffix| <= |s| && s[|s| - |suffix|..] == suffix
  }

  /** The token ends in one of the units (case-sensitively). */
  predicate EndsWithUnit(s: string)
  {
    exists k | 0 <= k < |Units| :: EndsWith(s, Units[k])
  }

  /** Because "m" is a unit, every token ending in `m` counts as a measurement. */
  lemma EndingInMIsUnit(s: string)
    requires |s| > 0 && s[|s| - 1] == 'm'
    ensures EndsWithUnit(s)
  {
    assert EndsWith(s, Units[1]);
  }

  /** "m" is the one single-letter unit; every other unit has a letter before its last character. */
  lemma UnitShape(k: int)
    requires 0 <= k < |Units|
    ensures |Units[k]| == 1 ==> Units[k] == "m"
    ensures |Units[k]| >= 2 ==> !IsDigit(Units[k][|Units[k]| - 2])
    ensures |Units[k]| >= 1
  {
    // Case split over the list's indices, so each unit is checked on its own.
    assert k in {0, 1, 2, 3, 4, 5, 6, 7, 8, 9, 10, 11, 12, 13, 14, 15,
                 16, 17, 18, 19, 20, 21, 22, 23, 24, 25, 26, 27, 28, 29};
  }

  /**
   A token ending in a digit followed by a character other than `m` ends
   in no unit: this is the shape "100a" of a numeral with a letter suffix.
   */
  lemma DigitThenSuffixIsNoUnit(s: string)
    requires |s| >= 2 && IsDigit(s[|s| - 2]) && s[|s| - 1] != 'm'
    ensures !EndsWithUnit(s)
  {
    forall k | 0 <= k < |Units| ensures !EndsWith(s, Units[k]) {
      UnitShape(k);
    }
  }

  /** A Japanese token is kept when it is a candidate and ends in no unit. */
  predicate KeepJapanese(sub: string)
  {
    IsAplhanum(sub) && !EndsWithUnit(sub)
  }

  /** An English token is kept when it is a candidate and not one of the listed ordinals. */
  predicate KeepEnglish(word: string)
  {
    IsAplhanum(word) && word !in Ordinals
  }

  /**
   The tokens `keep` accepts, in their original order and with their
   duplicates: each kept token occurs as often as in the input.
   */
  function Filter(tokens: seq<string>, keep: string -> bool): (kept: seq<string>)
    ensures |kept| <= |tokens|
    ensures forall k | 0 <= k < |kept| :: keep(kept[k]) && kept[k] in tokens
    ensures forall t :: multiset(kept)[t] == (if keep(t) then multiset(tokens)[t] else 0)
  {
    if tokens == [] then []
    else
      var rest := Filter(tokens[1..], keep);
      assert tokens == [tokens[0]] + tokens[1..];
      if keep(tokens[0]) then [tokens[0]] + rest else rest
  }

  /** Filtering keeps the order of appearance: it distributes over concatenation. */
  lemma {:induction false} FilterAppend(a: seq<string>, b: seq<string>, keep: string -> bool)
    ensures Filter(a + b, keep) == Filter(a, keep) + Filter(b, keep)
    decreases |a|
  {
    if a == [] {
      assert a + b == b;
    } else {
      assert (a + b)[0] == a[0];
      assert (a + b)[1..] == a[1..] + b;
      FilterAppend(a[1..], b, keep);
    }
  }

  /** A single token is kept alone or dropped. */
  lemma FilterSingle(t: string, keep: string -> bool)
    ensures Filter([t], keep) == if keep(t) then [t] else []
  {
    assert [t][1..] == [];
  }

  /** Filtering clean tokens leaves clean tokens. */
  lemma FilterKeepsClean(tokens: seq<string>, keep: string -> bool)
    requires forall k | 0 <= k < |tokens| :: IsCleanToken(tokens[k])
    ensures forall k | 0 <= k < |Filter(tokens, keep)| :: IsCleanToken(Filter(tokens, keep)[k])
  {
    var kept := Filter(tokens, keep);
    forall k | 0 <= k < |kept| ensures IsCleanToken(kept[k]) {
      var m :| 0 <= m < |tokens| && tokens[m] == kept[k];
    }
  }

  /** The reference numbers `collect_Jap_aplhanums` appends for one Japanese text. */
  function JapaneseAplhanums(japText: string): (r: seq<string>)
    ensures forall k | 0 <= k < |r| :: IsAplhanum(r[k]) && !EndsWithUnit(r[k])
    ensures forall k | 0 <= k < |r| :: IsCleanToken(r[k])
  {
    var tokens := JapaneseTokens(japText);
    var r := Filter(tokens, KeepJapanese);
    FilterKeepsClean(tokens, KeepJapanese);
    r
  }

  /**
   Every Japanese token that is kept is appended as often as it occurs,
   and nothing else is.
   */
  lemma JapaneseAplhanumsCounts(japText: string)
    ensures var r := JapaneseAplhanums(japText);
      forall t :: multiset(r)[t] == (if KeepJapanese(t) then multiset(JapaneseTokens(japText))[t] else 0)
  {
  }

  /** The reference numbers `collect_Eng_aplhanums` appends for one English text. */
  function EnglishAplhanums(engText: string): (r: seq<string>)
    ensures forall k | 0 <= k < |r| :: IsAplhanum(r[k]) && r[k] !in Ordinals
    ensures forall k | 0 <= k < |r| :: IsCleanToken(r[k])
  {
    var tokens := EnglishTokens(engText);
    var r := Filter(tokens, KeepEnglish);
    FilterKeepsClean(tokens, KeepEnglish);
    r
  }

  /**
   Every English token that is kept is appended as often as it occurs,
   and nothing else is.
   */
  lemma EnglishAplhanumsCounts(engText: string)
    ensures var r := EnglishAplhanums(engText);
      forall t :: multiset(r)[t] == (if KeepEnglish(t) then multiset(EnglishTokens(engText))[t] else 0)
  {
  }

  /** A kept Japanese token never ends in `m`, since "m" is one of the units. */
  lemma KeptJapaneseNeverEndsInM(tokens: seq<string>)
    requires forall k | 0 <= k < |tokens| :: KeepJapanese(tokens[k])
    ensures forall k | 0 <= k < |tokens| :: |tokens[k]| > 0 && tokens[k][|tokens[k]| - 1] != 'm'
  {
    forall k | 0 <= k < |tokens| ensures |tokens[k]| > 0 && tokens[k][|tokens[k]| - 1] != 'm' {
      var t := tokens[k];
      assert |t| > 0 by { var i :| 0 <= i < |t| && IsAlpha(t[i]); }
      if t[|t| - 1] == 'm' {
        EndingInMIsUnit(t);
      }
    }
  }

  /** No Japanese-side reference number ends in `m`. */
  lemma JapaneseAplhanumsNeverEndInM(japText: string)
    ensures var r := JapaneseAplhanums(japText);
      forall k | 0 <= k < |r| :: |r[k]| > 0 && r[k][|r[k]| - 1] != 'm'
  {
    KeptJapaneseNeverEndsInM(JapaneseAplhanums(japText));
  }

  /* ---------- The multiset comparison ---------- */

  /**
   The comparison step of `aplhanum_check` for one segment: `missing` is
   the Japanese count minus the English count and `extra` the reverse,
   each clipped at zero (`Counter` subtraction). Both are empty exactly
   when the two sides hold the same reference numbers equally often, and
   `error_found` is raised then, never lowered. Nothing else changes.
   */
  function CompareAplhanums(seg: Segment): (r: Segment)
    ensures var jap, eng := multiset(seg.japAplhanums), multiset(seg.engAplhanums);
      forall t :: r.missingAplhanums[t] == (if jap[t] > eng[t] then jap[t] - eng[t] else 0)
    ensures var jap, eng := multiset(seg.japAplhanums), multiset(seg.engAplhanums);
      forall t :: r.extraAplhanums[t] == (if eng[t] > jap[t] then eng[t] - jap[t] else 0)
    ensures (r.missingAplhanums == multiset{} && r.extraAplhanums == multiset{})
            <==> multiset(seg.japAplhanums) == multiset(seg.engAplhanums)
    ensures r.errorFound <==> seg.errorFound || multiset(seg.japAplhanums) != multiset(seg.engAplhanums)
    ensures r.(missingAplhanums := seg.missingAplhanums, extraAplhanums := seg.extraAplhanums,
               errorFound := seg.errorFound) == seg
  {
    var jap := multiset(seg.japAplhanums);
    var eng := multiset(seg.engAplhanums);
    var missing := jap - eng;
    var extra := eng - jap;
    assert missing == multiset{} && extra == multiset{} ==> jap == eng by {
      if missing == multiset{} && extra == multiset{} {
        forall t ensures jap[t] == eng[t] {
          assert missing[t] == 0 && extra[t] == 0;
        }
      }
    }
    seg.(missingAplhanums := missing, extraAplhanums := extra,
         errorFound := seg.errorFound || missing != multiset{} || extra != multiset{})
  }

  /* ---------- The check over all segments ---------- */

  /** `collect_Jap_aplhanums`: appends each segment's Japanese reference numbers to its list. */
  method CollectJapAplhanums(segments: seq<Segment>) returns (out: seq<Segment>)
    ensures |out| == |segments|
    ensures forall i | 0 <= i < |segments| ::
      out[i] == segments[i].(japAplhanums := segments[i].japAplhanums + JapaneseAplhanums(segments[i].japText))
  {
    out := [];
    var i := 0;
    while i < |segments|
      invariant 0 <= i <= |segments|
      invariant |out| == i
      invariant forall j | 0 <= j < i ::
        out[j] == segments[j].(japAplhanums := segments[j].japAplhanums + JapaneseAplhanums(segments[j].japText))
    {
      var seg := segments[i];
      out := out + [seg.(japAplhanums := seg.japAplhanums + JapaneseAplhanums(seg.japText))];
      i := i + 1;
    }
  }

  /** `collect_Eng_aplhanums`: appends each segment's English reference numbers to its list. */
  method CollectEngAplhanums(segments: seq<Segment>) returns (out: seq<Segment>)
    ensures |out| == |segments|
    ensures forall i | 0 <= i < |segments| ::
      out[i] == segments[i].(engAplhanums := segments[i].engAplhanums + EnglishAplhanums(segments[i].engText))
  {
    out := [];
    var i := 0;
    while i < |segments|
      invariant 0 <= i <= |segments|
      invariant |out| == i
      invariant forall j | 0 <= j < i ::
        out[j] == segments[j].(engAplhanums := segments[j].engAplhanums + EnglishAplhanums(segments[j].engText))
    {
      var seg := segments[i];
      out := out + [seg.(engAplhanums := seg.engAplhanums + EnglishAplhanums(seg.engText))];
      i := i + 1;
    }
  }

  /** One segment after both extractions: each side's numbers appended to its list. */
  function Extracted(seg: Segment): Segment
  {
    seg.(japAplhanums := seg.japAplhanums + JapaneseAplhanums(seg.japText),
         engAplhanums := seg.engAplhanums + EnglishAplhanums(seg.engText))
  }

  /**
   `aplhanum_check`: extract on both sides for every segment, then compare
   every segment's two lists. Each segment's outcome depends on that
   segment alone, and the list keeps its length and order.
   */
  method AplhanumCheck(segments: seq<Segment>) returns (out: seq<Segment>)
    ensures |out| == |segments|
    ensures forall i | 0 <= i < |segments| :: out[i] == CompareAplhanums(Extracted(segments[i]))
  {
    var withJap := CollectJapAplhanums(segments);
    var withBoth := CollectEngAplhanums(withJap);
    out := CompareEach(withBoth);
    forall i | 0 <= i < |segments| ensures withBoth[i] == Extracted(segments[i]) {
      assert withJap[i] == segments[i].(japAplhanums := segments[i].japAplhanums + JapaneseAplhanums(segments[i].japText));
    }
  }

  /** The comparison loop of `aplhanum_check`: each segment compared on its own, in order. */
  method CompareEach(segments: seq<Segment>) returns (out: seq<Segment>)
    ensures |out| == |segments|
    ensures forall i | 0 <= i < |segments| :: out[i] == CompareAplhanums(segments[i])
  {
    out := [];
    var i := 0;
    while i < |segments|
      invariant 0 <= i <= |segments|
      invariant |out| == i
      invariant forall j | 0 <= j < i :: out[j] == CompareAplhanums(segments[j])
    {
      out := out + [CompareAplhanums(segments[i])];
      i := i + 1;
    }
  }

  /**
   For a segment fresh from the reader, the check flags an error exactly
   when the two texts yield different multisets of reference numbers.
   */
  lemma FreshSegmentFlaggedIffNumbersDiffer(japText: string, engText: string)
    ensures var r := CompareAplhanums(Extracted(NewSegment(japText, engText)));
      r.errorFound <==> multiset(JapaneseAplhanums(japText)) != multiset(EnglishAplhanums(engText))
  {
    var seg := Extracted(NewSegment(japText, engText));
    assert seg.japAplhanums == JapaneseAplhanums(japText);
    assert seg.engAplhanums == EnglishAplhanums(engText);
  }
}
