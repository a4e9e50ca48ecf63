/**
 Worked cases of the three checks on concrete segments.

 Concrete texts are passed in through parameters pinned by `requires`, and
 long texts are assembled from short pieces, so that each fact about a
 piece is proved on its own.
 */
module Scenarios {
  import opened Chars
  import opened Text
  import opened Segments
  import opened Aplhanums
  import opened Punctuation
  import opened Capitals

  /** Counter semantics, not set semantics: a number twice in Japanese and once in English is missing once. */
  lemma DuplicateNumberMissingOnce(seg: Segment)
    requires seg.japAplhanums == ["100a", "100a"] && seg.engAplhanums == ["100a"]
    ensures var r := CompareAplhanums(seg);
      r.missingAplhanums == multiset{"100a"} && r.extraAplhanums == multiset{} && r.errorFound
  {
    assert multiset(seg.japAplhanums) == multiset{"100a", "100a"};
    assert CompareAplhanums(seg).missingAplhanums == multiset{"100a"};
  }

  /** Comparison is case-sensitive: "100A" against "100a" is one missing and one extra. */
  lemma CaseMismatchMissingAndExtra(seg: Segment)
    requires seg.japAplhanums == ["100A"] && seg.engAplhanums == ["100a"]
    ensures var r := CompareAplhanums(seg);
      r.missingAplhanums == multiset{"100A"} && r.extraAplhanums == multiset{"100a"} && r.errorFound
  {
    assert "100A" != "100a" by { assert "100A"[3] != "100a"[3]; }
  }

  /**
   The comparison of the device/sensor segment: ["100a", "200b"] against
   ["100a", "300b"] reports "200b" missing and "300b" extra.
   */
  lemma DeviceSensorComparison(seg: Segment)
    requires seg.japAplhanums == ["100a", "200b"] && seg.engAplhanums == ["100a", "300b"]
    ensures var r := CompareAplhanums(seg);
      r.missingAplhanums == multiset{"200b"} && r.extraAplhanums == multiset{"300b"} && r.errorFound
  {
    var jap, eng := multiset(seg.japAplhanums), multiset(seg.engAplhanums);
    assert jap == multiset{"100a", "200b"} && eng == multiset{"100a", "300b"};
    assert "200b" != "300b" && "100a" != "200b" && "100a" != "300b" by {
      assert "200b"[0] != "300b"[0] && "100a"[0] != "200b"[0] && "100a"[0] != "300b"[0];
    }
    assert jap - eng == multiset{"200b"};
    assert eng - jap == multiset{"300b"};
  }

  /** "5km" is a measurement on the Japanese side; "3rd" is an ordinal on the English side; "21st" is kept. */
  lemma ExclusionExamples()
    ensures !KeepJapanese("5km")
    ensures !KeepEnglish("3rd")
    ensures KeepEnglish("21st")
  {
    assert EndsWith("5km", Units[0]);
    assert Ordinals[2] == "3rd";
    assert IsAlpha("21st"[2]) && IsDigit("21st"[0]);
  }

  /** An unlisted ordinal survives extraction as a reference number. */
  lemma TwentyFirstIsExtracted()
    ensures EnglishAplhanums("21st") == ["21st"]
  {
    var cleaned := CleanString("21st");
    assert cleaned == "21st";
    SplitOfWord("21st");
    ExclusionExamples();
    assert Filter(["21st"][1..], KeepEnglish) == [];
  }

  /** Stripping and cleaning, as the Japanese side does before splitting. */
  function Prepared(japText: string): string
  {
    CleanString(StripJapaneseChars(japText))
  }

  /** Both passes work character by character, so they distribute over concatenation. */
  lemma PreparedAppend(a: string, b: string)
    ensures Prepared(a + b) == Prepared(a) + Prepared(b)
  {
  }

  /** Preparing five pieces one after the other. */
  lemma PreparedFive(a: string, b: string, c: string, d: string, e: string)
    ensures Prepared(a + b + c + d + e) == Prepared(a) + Prepared(b) + Prepared(c) + Prepared(d) + Prepared(e)
  {
    PreparedAppend(a + b + c + d, e);
    PreparedAppend(a + b + c, d);
    PreparedAppend(a + b, c);
    PreparedAppend(a, b);
  }

  /** A run of Japanese characters becomes whitespace. */
  lemma PreparedJapanese(s: string)
    requires forall i | 0 <= i < |s| :: IsJapaneseChar(s[i])
    ensures AllSpace(Prepared(s))
  {
  }

  /** A run of characters that are neither Japanese nor symbols is left alone. */
  lemma PreparedLatin(s: string)
    requires forall i | 0 <= i < |s| :: !IsJapaneseChar(s[i]) && !IsSymbol(s[i])
    ensures Prepared(s) == s
  {
  }

  /** Two words with whitespace around and between them split into those two words. */
  lemma SplitTwoWords(w1: string, b: string, w2: string, d: string, w3: string)
    requires AllSpace(w1) && AllSpace(w2) && AllSpace(w3) && w2 != []
    requires b != [] && NoSpace(b) && d != [] && NoSpace(d)
    ensures Split(w1 + b + w2 + d + w3) == [b, d]
  {
    assert Split(w1 + b) == [b] by {
      SplitAfterSpaces(w1, b);
      SplitOfWord(b);
    }
    assert Split(d + w3) == [d] by {
      SplitBeforeSpaces(d, w3);
      SplitOfWord(d);
    }
    assert w1 + b + w2 + d + w3 == (w1 + b) + w2 + (d + w3);
    SplitAtSpaces(w1 + b, w2, d + w3);
  }

  /**
   A numeral with a one-letter suffix other than `m` (a unit) and `x` (a
   symbol), such as "100a", passes both passes
   unchanged, is a single word, and is kept on the Japanese side.
   */
  lemma SuffixedNumeral(w: string)
    requires |w| >= 2 && (forall i | 0 <= i < |w| - 1 :: '0' <= w[i] <= '9')
    requires 'a' <= w[|w| - 1] <= 'z' && w[|w| - 1] != 'm' && w[|w| - 1] != 'x'
    ensures Prepared(w) == w && w != [] && NoSpace(w)
    ensures KeepJapanese(w)
  {
    forall i | 0 <= i < |w| ensures !IsJapaneseChar(w[i]) && !IsSymbol(w[i]) && !IsSpace(w[i]) {
    }
    PreparedLatin(w);
    assert IsAlpha(w[|w| - 1]) && IsDigit(w[0]);
    DigitThenSuffixIsNoUnit(w);
  }

  /** "100a" and "200b" are numerals with a one-letter suffix. */
  lemma ExampleNumerals(w: string)
    requires w == "100a" || w == "200b"
    ensures |w| >= 2 && (forall i | 0 <= i < |w| - 1 :: '0' <= w[i] <= '9')
    ensures 'a' <= w[|w| - 1] <= 'z' && w[|w| - 1] != 'm' && w[|w| - 1] != 'x'
  {
    // Case split over the positions, so each character is checked on its own.
    forall i | 0 <= i < |w| - 1 ensures '0' <= w[i] <= '9' { assert i in {0, 1, 2}; }
  }

  /** The Japanese pieces around the numbers are Japanese script throughout. */
  lemma JapaneseRun(w: string)
    requires w == "装置" || w == "とセンサー" || w == "を備える。"
    ensures w != [] && forall i | 0 <= i < |w| :: IsJapaneseChar(w[i])
  {
    // Case split over the positions, so each character is checked on its own.
    forall i | 0 <= i < |w| ensures IsJapaneseChar(w[i]) { assert i in {0, 1, 2, 3, 4}; }
  }

  /** Two kept tokens are both kept, in order. */
  lemma FilterKeepsBoth(b: string, d: string, keep: string -> bool)
    requires keep(b) && keep(d)
    ensures Filter([b, d], keep) == [b, d]
  {
    FilterAppend([b], [d], keep);
    FilterSingle(b, keep);
    FilterSingle(d, keep);
    assert [b] + [d] == [b, d];
  }

  /** Two words that survive preparation, amid runs of Japanese script, are the only tokens. */
  lemma TokensAmidJapanese(a: string, b: string, c: string, d: string, e: string)
    requires forall i | 0 <= i < |a| :: IsJapaneseChar(a[i])
    requires forall i | 0 <= i < |c| :: IsJapaneseChar(c[i])
    requires forall i | 0 <= i < |e| :: IsJapaneseChar(e[i])
    requires c != []
    requires Prepared(b) == b && b != [] && NoSpace(b)
    requires Prepared(d) == d && d != [] && NoSpace(d)
    ensures JapaneseTokens(a + b + c + d + e) == [b, d]
  {
    PreparedFive(a, b, c, d, e);
    PreparedJapanese(a);
    PreparedJapanese(c);
    PreparedJapanese(e);
    SplitTwoWords(Prepared(a), b, Prepared(c), d, Prepared(e));
  }

  /**
   Two suffixed numerals embedded in runs of Japanese script (the middle
   run non-empty) are exactly the Japanese side's reference numbers.
   */
  lemma NumeralsAmidJapanese(a: string, b: string, c: string, d: string, e: string)
    requires forall i | 0 <= i < |a| :: IsJapaneseChar(a[i])
    requires forall i | 0 <= i < |c| :: IsJapaneseChar(c[i])
    requires forall i | 0 <= i < |e| :: IsJapaneseChar(e[i])
    requires c != []
    requires |b| >= 2 && (forall i | 0 <= i < |b| - 1 :: '0' <= b[i] <= '9')
    requires 'a' <= b[|b| - 1] <= 'z' && b[|b| - 1] != 'm' && b[|b| - 1] != 'x'
    requires |d| >= 2 && (forall i | 0 <= i < |d| - 1 :: '0' <= d[i] <= '9')
    requires 'a' <= d[|d| - 1] <= 'z' && d[|d| - 1] != 'm' && d[|d| - 1] != 'x'
    ensures JapaneseAplhanums(a + b + c + d + e) == [b, d]
  {
    var text := a + b + c + d + e;
    assert KeepJapanese(b) && KeepJapanese(d) && JapaneseTokens(text) == [b, d] by {
      SuffixedNumeral(b);
      SuffixedNumeral(d);
      TokensAmidJapanese(a, b, c, d, e);
    }
    FilterKeepsBoth(b, d, KeepJapanese);
  }

  /**
   The script filter at work: "装置100aとセンサー200bを備える。", given in
   its five pieces, keeps only its embedded reference numbers, "100a" and
   "200b", in order.
   */
  lemma DeviceSensorJapaneseSide(a: string, b: string, c: string, d: string, e: string)
    requires a == "装置" && b == "100a" && c == "とセンサー" && d == "200b" && e == "を備える。"
    ensures JapaneseAplhanums(a + b + c + d + e) == ["100a", "200b"]
  {
    JapaneseRun(a);
    JapaneseRun(c);
    JapaneseRun(e);
    ExampleNumerals(b);
    ExampleNumerals(d);
    NumeralsAmidJapanese(a, b, c, d, e);
  }

  /** The words of "The device 100a and sensor 300b." are clean. */
  lemma DeviceSensorEnglishWordsClean(words: seq<string>)
    requires words == ["The", "device", "100a", "and", "sensor", "300b"]
    ensures forall k | 0 <= k < |words| :: words[k] != [] && IsCleanToken(words[k])
  {
    forall k | 0 <= k < |words| ensures words[k] != [] && IsCleanToken(words[k]) {
      // Case split over the list's indices, so each word is checked on its own.
      assert k in {0, 1, 2, 3, 4, 5};
      DeviceSensorEnglishWordClean(words[k]);
    }
  }

  /** One word of the English sentence holds neither whitespace nor a symbol. */
  lemma DeviceSensorEnglishWordClean(w: string)
    requires w in {"The", "device", "100a", "and", "sensor", "300b"}
    ensures w != [] && IsCleanToken(w)
  {
    forall j | 0 <= j < |w| ensures !IsSpace(w[j]) && !IsSymbol(w[j]) {
      // Case split over the positions, so each character is checked on its own.
      assert j in {0, 1, 2, 3, 4, 5};
    }
  }

  /** A word without a digit is no reference number. */
  lemma WordWithoutDigitDropped(w: string)
    requires w == "The" || w == "device" || w == "and" || w == "sensor"
    ensures !KeepEnglish(w)
  {
    forall i | 0 <= i < |w| ensures !IsDigit(w[i]) {
      // Case split over the positions, so each character is checked on its own.
      assert i in {0, 1, 2, 3, 4, 5};
    }
  }

  /** "100a" and "300b" are English-side reference numbers. */
  lemma SuffixedNumeralKeptInEnglish(w: string)
    requires w == "100a" || w == "300b"
    ensures KeepEnglish(w)
  {
    assert IsAlpha(w[3]) && IsDigit(w[0]);
    assert w !in Ordinals by {
      forall k | 0 <= k < |Ordinals| ensures Ordinals[k] != w {
        assert Ordinals[k][|Ordinals[k]| - 1] == 'h' || Ordinals[k][|Ordinals[k]| - 1] == 't'
            || Ordinals[k][|Ordinals[k]| - 1] == 'd' by {
          // Case split over the list's indices, so each ordinal is checked on its own.
          assert k in {0, 1, 2, 3, 4, 5, 6, 7, 8, 9, 10, 11, 12, 13, 14, 15, 16, 17, 18, 19};
        }
      }
    }
  }

  /** Of three tokens where only the last is accepted, only the last is kept. */
  lemma FilterKeepsLastOfThree(x: string, y: string, z: string, keep: string -> bool)
    requires !keep(x) && !keep(y) && keep(z)
    ensures Filter([x, y, z], keep) == [z]
  {
    assert [x, y, z][1..] == [y, z] && [y, z][1..] == [z];
    FilterSingle(z, keep);
  }

  /** Of two triples where only the last of each is accepted, those two are kept, in order. */
  lemma FilterKeepsLastOfTriples(w0: string, w1: string, w2: string, w3: string, w4: string, w5: string,
                                 keep: string -> bool)
    requires !keep(w0) && !keep(w1) && keep(w2) && !keep(w3) && !keep(w4) && keep(w5)
    ensures Filter([w0, w1, w2] + [w3, w4, w5], keep) == [w2, w5]
  {
    FilterAppend([w0, w1, w2], [w3, w4, w5], keep);
    FilterKeepsLastOfThree(w0, w1, w2, keep);
    FilterKeepsLastOfThree(w3, w4, w5, keep);
  }

  /** Of the six English words, only the two numbers are kept, in order. */
  lemma DeviceSensorEnglishKept(words: seq<string>)
    requires words == ["The", "device", "100a", "and", "sensor", "300b"]
    ensures Filter(words, KeepEnglish) == ["100a", "300b"]
  {
    WordWithoutDigitDropped(words[0]);
    WordWithoutDigitDropped(words[1]);
    SuffixedNumeralKeptInEnglish(words[2]);
    WordWithoutDigitDropped(words[3]);
    WordWithoutDigitDropped(words[4]);
    SuffixedNumeralKeptInEnglish(words[5]);
    assert words == ["The", "device", "100a"] + ["and", "sensor", "300b"];
    FilterKeepsLastOfTriples(words[0], words[1], words[2], words[3], words[4], words[5], KeepEnglish);
  }

  /** The six words joined by spaces, with a final full stop, yield the two numbers. */
  lemma DeviceSensorEnglishJoined(words: seq<string>)
    requires words == ["The", "device", "100a", "and", "sensor", "300b"]
    ensures EnglishAplhanums(JoinSpaced(words) + ".") == ["100a", "300b"]
  {
    assert EnglishTokens(JoinSpaced(words) + ".") == words by {
      DeviceSensorEnglishWordsClean(words);
      assert IsSymbol("."[0]);
      EnglishTokensOfJoined(words, ".");
    }
    assert Filter(words, KeepEnglish) == ["100a", "300b"] by {
      DeviceSensorEnglishKept(words);
    }
  }

  /**
   The English side of the device/sensor segment: "The device 100a and
   sensor 300b.", given as its six words, the spaces between them and the
   full stop, yields ["100a", "300b"]; "The", the plain words and the full
   stop contribute nothing.
   */
  lemma DeviceSensorEnglishSide(w0: string, w1: string, w2: string, w3: string, w4: string, w5: string, stop: string)
    requires w0 == "The" && w1 == "device" && w2 == "100a" && w3 == "and" && w4 == "sensor" && w5 == "300b"
    requires stop == "."
    ensures EnglishAplhanums(w0 + " " + w1 + " " + w2 + " " + w3 + " " + w4 + " " + w5 + stop) == ["100a", "300b"]
  {
    var words := [w0, w1, w2, w3, w4, w5];
    assert JoinSpaced(words) + stop == w0 + " " + w1 + " " + w2 + " " + w3 + " " + w4 + " " + w5 + stop by {
      JoinSix(w0, w1, w2, w3, w4, w5);
    }
    DeviceSensorEnglishJoined(words);
  }

  /** Six words joined by single spaces. */
  lemma JoinSix(w0: string, w1: string, w2: string, w3: string, w4: string, w5: string)
    ensures JoinSpaced([w0, w1, w2, w3, w4, w5]) == w0 + " " + w1 + " " + w2 + " " + w3 + " " + w4 + " " + w5
  {
    var ws := [w0, w1, w2, w3, w4, w5];
    assert ws[1..] == [w1, w2, w3, w4, w5] && ws[2..] == [w2, w3, w4, w5] && ws[3..] == [w3, w4, w5];
    assert ws[4..] == [w4, w5] && ws[5..] == [w5];
    assert ws[1..][1..] == ws[2..] && ws[2..][1..] == ws[3..] && ws[3..][1..] == ws[4..] && ws[4..][1..] == ws[5..];
    var j4 := w4 + " " + w5;
    var j3 := w3 + " " + j4;
    var j2 := w2 + " " + j3;
    var j1 := w1 + " " + j2;
    assert JoinSpaced(ws[4..]) == j4;
    assert JoinSpaced(ws[3..]) == j3;
    assert JoinSpaced(ws[2..]) == j2;
    assert JoinSpaced(ws[1..]) == j1;
    assert JoinSpaced(ws) == w0 + " " + j1;
  }

  /**
   The whole check on the device/sensor segment as the reader hands it
   over: "200b" is missing, "300b" is extra, and the error is raised.
   */
  lemma DeviceSensorSegment(a: string, b: string, c: string, d: string, e: string,
                            w0: string, w1: string, w2: string, w3: string, w4: string, w5: string, stop: string)
    requires a == "装置" && b == "100a" && c == "とセンサー" && d == "200b" && e == "を備える。"
    requires w0 == "The" && w1 == "device" && w2 == "100a" && w3 == "and" && w4 == "sensor" && w5 == "300b"
    requires stop == "."
    ensures var eng := w0 + " " + w1 + " " + w2 + " " + w3 + " " + w4 + " " + w5 + stop;
      var r := CompareAplhanums(Extracted(NewSegment(a + b + c + d + e, eng)));
      r.missingAplhanums == multiset{"200b"} && r.extraAplhanums == multiset{"300b"} && r.errorFound
  {
    var jap := a + b + c + d + e;
    var eng := w0 + " " + w1 + " " + w2 + " " + w3 + " " + w4 + " " + w5 + stop;
    assert JapaneseAplhanums(jap) == ["100a", "200b"] by {
      DeviceSensorJapaneseSide(a, b, c, d, e);
    }
    assert EnglishAplhanums(eng) == ["100a", "300b"] by {
      DeviceSensorEnglishSide(w0, w1, w2, w3, w4, w5, stop);
    }
    FreshSegmentComparison(jap, eng);
  }

  /** A fresh segment is compared on exactly the numbers its two texts yield. */
  lemma FreshSegmentComparison(jap: string, eng: string)
    requires JapaneseAplhanums(jap) == ["100a", "200b"] && EnglishAplhanums(eng) == ["100a", "300b"]
    ensures var r := CompareAplhanums(Extracted(NewSegment(jap, eng)));
      r.missingAplhanums == multiset{"200b"} && r.extraAplhanums == multiset{"300b"} && r.errorFound
  {
    var seg := Extracted(NewSegment(jap, eng));
    assert seg.japAplhanums == ["100a", "200b"] && seg.engAplhanums == ["100a", "300b"];
    DeviceSensorComparison(seg);
  }

  /**
   "。" calls for "." on already-stripped texts: an English full stop
   passes and an English comma is a mismatch.
   */
  lemma FullStopVerdicts(jap: string, stop: string, comma: string)
    requires jap == "装置。" && stop == "Device." && comma == "Device,"
    ensures TrailingVerdict(jap, stop) == Ok(false)
    ensures TrailingVerdict(jap, comma) == Ok(true)
  {
    assert jap[2] == JapPunc[4];
    assert Corresponds(jap[2], stop[6]);
    assert !Corresponds(jap[2], comma[6]);
  }

  /** A stripped Japanese text ending in a letter is not compared, whatever the English text. */
  lemma UnlistedEndingSkipped(jap: string, eng: string)
    requires jap == "100a"
    ensures TrailingVerdict(jap, eng) == Ok(false)
  {
    assert jap[3] !in JapPunc;
  }

  /** A lowercase start raises both flags. */
  lemma LowercaseStartFlagged(jap: string, eng: string)
    requires jap == "装置" && eng == "the device"
    ensures var r := LeadingCapital(NewSegment(jap, eng));
      r.Ok? && r.value.capitalizationErrorFound && r.value.errorFound
  {
    assert !IsSpaceOnly(jap) by { assert !IsSpace(jap[0]); }
    assert !IsSpaceOnly(eng) by { assert !IsSpace(eng[0]); }
    assert LeadingSpaces(eng) == 0;
  }

  /** A capital start raises nothing. */
  lemma CapitalStartPasses(jap: string, eng: string)
    requires jap == "装置" && eng == "The device"
    ensures LeadingCapital(NewSegment(jap, eng)) == Ok(NewSegment(jap, eng))
  {
    UppercaseOrNonLetterNotFlagged(NewSegment(jap, eng));
  }

  /** An empty English text behind a real Japanese text crashes. */
  lemma EmptyEnglishCrashes(jap: string)
    requires jap == "装置"
    ensures LeadingCapital(NewSegment(jap, "")).Err?
  {
    assert !IsSpaceOnly(jap) by { assert !IsSpace(jap[0]); }
  }
}
