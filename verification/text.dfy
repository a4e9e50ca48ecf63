/**
 Python's argument-less `str.split()` and `str.strip()`, over the
 whitespace class of `Chars.IsSpace`.
 */
module Text {
  import opened Chars

  /** No character of `s` is whitespace. */
  predicate NoSpace(s: string)
  {
    forall i | 0 <= i < |s| :: !IsSpace(s[i])
  }

  /** Every character of `s` is whitespace (vacuously so for the empty string). */
  predicate AllSpace(s: string)
  {
    forall i | 0 <= i < |s| :: IsSpace(s[i])
  }

  /** Python's `s.isspace()`: true only for a NON-EMPTY all-whitespace string. */
  predicate IsSpaceOnly(s: string)
  {
    |s| > 0 && AllSpace(s)
  }

  /** Length of the longest whitespace-free prefix of `s`. */
  function WordLength(s: string): (n: nat)
    ensures n <= |s|
    ensures NoSpace(s[..n])
    ensures n < |s| ==> IsSpace(s[n])
  {
    if s == [] || IsSpace(s[0]) then 0 else 1 + WordLength(s[1..])
  }

  /** Length of the longest all-whitespace prefix of `s`. */
  function LeadingSpaces(s: string): (n: nat)
    ensures n <= |s|
    ensures AllSpace(s[..n])
    ensures n < |s| ==> !IsSpace(s[n])
  {
    if s == [] || !IsSpace(s[0]) then 0 else 1 + LeadingSpaces(s[1..])
  }

  /** Length of the longest all-whitespace suffix of `s`. */
  function TrailingSpaces(s: string): (n: nat)
    ensures n <= |s|
    ensures AllSpace(s[|s| - n..])
    ensures n < |s| ==> !IsSpace(s[|s| - n - 1])
  {
    if s == [] || !IsSpace(s[|s| - 1]) then 0 else 1 + TrailingSpaces(s[..|s| - 1])
  }

  /**
   Python's `s.split()`: the maximal runs of non-whitespace characters, in
   order. Every word is non-empty, free of whitespace and made of
   characters of `s`; there are none exactly when `s` is all whitespace.
   */
  function Split(s: string): (words: seq<string>)
    ensures forall k | 0 <= k < |words| :: words[k] != [] && NoSpace(words[k])
    ensures forall k, j | 0 <= k < |words| && 0 <= j < |words[k]| :: words[k][j] in s
    ensures words == [] <==> AllSpace(s)
    decreases |s|
  {
    if s == [] then []
    else if IsSpace(s[0]) then
      var rest := Split(s[1..]);
      WordsOfSuffix(s, 1, rest);
      assert AllSpace(s[1..]) ==> AllSpace(s) by { SpaceThenAllSpace(s); }
      rest
    else
      var n := WordLength(s);
      var rest := Split(s[n..]);
      WordsOfSuffix(s, n, rest);
      [s[..n]] + rest
  }

  /** Characters of words drawn from a suffix of `s` are characters of `s`. */
  lemma WordsOfSuffix(s: string, n: nat, words: seq<string>)
    requires n <= |s|
    requires forall k, j | 0 <= k < |words| && 0 <= j < |words[k]| :: words[k][j] in s[n..]
    ensures forall k, j | 0 <= k < |words| && 0 <= j < |words[k]| :: words[k][j] in s
  {
    forall k, j | 0 <= k < |words| && 0 <= j < |words[k]| ensures words[k][j] in s {
      var m :| 0 <= m < |s[n..]| && s[n..][m] == words[k][j];
      assert s[m + n] == words[k][j];
    }
  }

  /** A whitespace character followed by whitespace only is whitespace only. */
  lemma SpaceThenAllSpace(s: string)
    requires s != [] && IsSpace(s[0])
    ensures AllSpace(s[1..]) ==> AllSpace(s)
  {
    if AllSpace(s[1..]) {
      forall i | 0 <= i < |s| ensures IsSpace(s[i]) {
        if i > 0 { assert s[i] == s[1..][i - 1]; }
      }
    }
  }

  /**
   Python's `s.strip()`: `s` without its leading and trailing whitespace.
   The result is the slice of `s` that starts after the leading
   whitespace and is followed by whitespace only; it is empty exactly when
   `s` is all whitespace, and otherwise starts and ends with a
   non-whitespace character.
   */
  function Strip(s: string): (r: string)
    ensures var i := LeadingSpaces(s); i + |r| <= |s| && s[i..i + |r|] == r && AllSpace(s[i + |r|..])
    ensures r == [] <==> AllSpace(s)
    ensures r != [] ==> !IsSpace(r[0]) && !IsSpace(r[|r| - 1])
  {
    var i := LeadingSpaces(s);
    var n := |s[i..]| - TrailingSpaces(s[i..]);
    StripShape(s, i, n);
    s[i..i + n]
  }

  /** The facts behind `Strip`'s contract, for the slice between the two whitespace runs. */
  lemma StripShape(s: string, i: nat, n: nat)
    requires i == LeadingSpaces(s) && n == |s[i..]| - TrailingSpaces(s[i..])
    ensures i + n <= |s| && AllSpace(s[i + n..])
    ensures s[i..i + n] == [] <==> AllSpace(s)
    ensures var r := s[i..i + n]; r != [] ==> !IsSpace(r[0]) && !IsSpace(r[|r| - 1])
  {
    var t := s[i..];
    assert s[i..i + n] == t[..n];
    assert s[i + n..] == t[n..];
    assert n > 0 ==> s[i + n - 1] == t[|t| - TrailingSpaces(t) - 1];
    if n == 0 {
      forall k | 0 <= k < |s| ensures IsSpace(s[k]) {
        if k < i { assert s[k] == s[..i][k]; }
      }
    }
    if AllSpace(s) {
      assert i == |s|;
    }
  }

  /** Whitespace in front of a string lengthens its leading whitespace by exactly that much. */
  lemma {:induction false} LeadingSpacesAfterPadding(w: string, u: string)
    requires AllSpace(w)
    ensures LeadingSpaces(w + u) == |w| + LeadingSpaces(u)
    decreases |w|
  {
    if w != [] {
      assert (w + u)[1..] == w[1..] + u;
      assert IsSpace((w + u)[0]);
      LeadingSpacesAfterPadding(w[1..], u);
    } else {
      assert w + u == u;
    }
  }

  /** Whitespace after a string lengthens its trailing whitespace by exactly that much. */
  lemma {:induction false} TrailingSpacesBeforePadding(u: string, w: string)
    requires AllSpace(w)
    ensures TrailingSpaces(u + w) == TrailingSpaces(u) + |w|
    decreases |w|
  {
    if w != [] {
      var v := u + w;
      assert v[..|v| - 1] == u + w[..|w| - 1];
      assert IsSpace(v[|v| - 1]) by { assert v[|v| - 1] == w[|w| - 1]; }
      TrailingSpacesBeforePadding(u, w[..|w| - 1]);
    } else {
      assert u + w == u;
    }
  }

  /**
   `Strip` is characterised by its result: surrounding a string that is
   empty, or that starts and ends with non-whitespace, by whitespace on
   both sides strips back to exactly that string.
   */
  lemma StripOfPadded(w1: string, t: string, w2: string)
    requires AllSpace(w1) && AllSpace(w2)
    requires t == [] || (!IsSpace(t[0]) && !IsSpace(t[|t| - 1]))
    ensures Strip(w1 + t + w2) == t
  {
    var s := w1 + t + w2;
    if t == [] {
      assert AllSpace(s) by {
        forall k | 0 <= k < |s| ensures IsSpace(s[k]) {
          if k < |w1| { assert s[k] == w1[k]; } else { assert s[k] == w2[k - |w1|]; }
        }
      }
    } else {
      assert s == w1 + (t + w2);
      LeadingSpacesAfterPadding(w1, t + w2);
      assert LeadingSpaces(s) == |w1|;
      assert s[|w1|..] == t + w2;
      TrailingSpacesBeforePadding(t, w2);
      assert TrailingSpaces(t) == 0;
      var r := Strip(s);
      assert |r| == |t| by {
        // Strip(s) is s[|w1|..] minus its trailing whitespace
        assert r == (t + w2)[..|t + w2| - TrailingSpaces(t + w2)];
      }
      assert s[|w1|..|w1| + |t|] == t;
    }
  }

  /** Leading and trailing whitespace around a string never changes what `Strip` returns. */
  lemma {:induction false} StripIgnoresPadding(w1: string, s: string, w2: string)
    requires AllSpace(w1) && AllSpace(w2)
    ensures Strip(w1 + s + w2) == Strip(s)
  {
    var r := Strip(s);
    var i := LeadingSpaces(s);
    var a, b := s[..i], s[i + |r|..];
    var left, right := w1 + a, b + w2;
    assert w1 + s + w2 == left + r + right && AllSpace(left) && AllSpace(right) by {
      StripSplits(s);
      Regroup(w1, s, w2, a, r, b);
      ConcatAllSpace(w1, a);
      ConcatAllSpace(b, w2);
    }
    StripOfPadded(left, r, right);
  }

  /** A string is its leading whitespace, its stripped form and its trailing whitespace. */
  lemma {:induction false} StripSplits(s: string)
    ensures var i, r := LeadingSpaces(s), Strip(s);
      && s == s[..i] + r + s[i + |r|..]
      && AllSpace(s[..i]) && AllSpace(s[i + |r|..])
  {
    var i, r := LeadingSpaces(s), Strip(s);
    ThreeSlices(s, i, i + |r|);
  }

  /** Cutting a string at two points and gluing the pieces gives it back. */
  lemma ThreeSlices(s: string, i: nat, j: nat)
    requires i <= j <= |s|
    ensures s == s[..i] + s[i..j] + s[j..]
  {
  }

  /** Re-associates padding around a string that is itself a concatenation. */
  lemma Regroup(w1: string, s: string, w2: string, a: string, r: string, b: string)
    requires s == a + r + b
    ensures w1 + s + w2 == (w1 + a) + r + (b + w2)
  {
  }

  /** Two whitespace strings concatenate to a whitespace string. */
  lemma ConcatAllSpace(u: string, v: string)
    requires AllSpace(u) && AllSpace(v)
    ensures AllSpace(u + v)
  {
    forall k | 0 <= k < |u + v| ensures IsSpace((u + v)[k]) {
      if k < |u| { assert (u + v)[k] == u[k]; } else { assert (u + v)[k] == v[k - |u|]; }
    }
  }

  /** A whitespace-free prefix stays the word prefix when a whitespace character follows it. */
  lemma {:induction false} WordLengthBeforeSpace(a: string, c: char, b: string)
    requires IsSpace(c)
    ensures WordLength(a + [c] + b) == WordLength(a)
    decreases |a|
  {
    var s := a + [c] + b;
    if a == [] {
      assert s[0] == c;
    } else if !IsSpace(a[0]) {
      assert s[0] == a[0];
      assert s[1..] == a[1..] + [c] + b;
      WordLengthBeforeSpace(a[1..], c, b);
    } else {
      assert s[0] == a[0];
    }
  }

  /**
   Splitting is compositional: a whitespace character separates the words
   on its left from the words on its right.
   */
  lemma {:induction false} SplitAtSpace(a: string, c: char, b: string)
    requires IsSpace(c)
    ensures Split(a + [c] + b) == Split(a) + Split(b)
    decreases |a|
  {
    var s := a + [c] + b;
    if a == [] {
      assert s[0] == c && s[1..] == b;
    } else if IsSpace(a[0]) {
      assert s[0] == a[0];
      assert s[1..] == a[1..] + [c] + b;
      SplitAtSpace(a[1..], c, b);
    } else {
      assert s[0] == a[0];
      var n := WordLength(a);
      WordLengthBeforeSpace(a, c, b);
      assert n >= 1;
      assert s[..n] == a[..n];
      assert s[n..] == a[n..] + [c] + b;
      SplitAtSpace(a[n..], c, b);
    }
  }

  /** Whitespace in front of a string contributes no words. */
  lemma {:induction false} SplitAfterSpaces(w: string, b: string)
    requires AllSpace(w)
    ensures Split(w + b) == Split(b)
    decreases |w|
  {
    if w != [] {
      assert (w + b)[0] == w[0];
      assert (w + b)[1..] == w[1..] + b;
      SplitAfterSpaces(w[1..], b);
    } else {
      assert w + b == b;
    }
  }

  /** A run of whitespace of any length separates words like a single whitespace character. */
  lemma SplitAtSpaces(a: string, w: string, b: string)
    requires w != [] && AllSpace(w)
    ensures Split(a + w + b) == Split(a) + Split(b)
  {
    assert a + w + b == a + [w[0]] + (w[1..] + b);
    SplitAtSpace(a, w[0], w[1..] + b);
    SplitAfterSpaces(w[1..], b);
  }

  /** Whitespace after a string contributes no words. */
  lemma SplitBeforeSpaces(s: string, w: string)
    requires AllSpace(w)
    ensures Split(s + w) == Split(s)
  {
    if w != [] {
      SplitAtSpaces(s, w, []);
      assert s + w + [] == s + w;
    } else {
      assert s + w == s;
    }
  }

  /** Whitespace around a string changes none of its words. */
  lemma SplitIgnoresPadding(w1: string, s: string, w2: string)
    requires AllSpace(w1) && AllSpace(w2)
    ensures Split(w1 + s + w2) == Split(s)
  {
    assert w1 + s + w2 == w1 + (s + w2);
    SplitAfterSpaces(w1, s + w2);
    SplitBeforeSpaces(s, w2);
  }

  /** Python's `" ".join(words)`. */
  function JoinSpaced(words: seq<string>): string
  {
    if |words| == 0 then ""
    else if |words| == 1 then words[0]
    else words[0] + " " + JoinSpaced(words[1..])
  }

  /**
   Round trip: joining non-empty whitespace-free words with single spaces
   and splitting the result gives the words back.
   */
  lemma {:induction false} SplitJoinSpaced(words: seq<string>)
    requires forall k | 0 <= k < |words| :: words[k] != [] && NoSpace(words[k])
    ensures Split(JoinSpaced(words)) == words
    decreases |words|
  {
    if |words| == 1 {
      SplitOfWord(words[0]);
    } else if |words| > 1 {
      var rest := JoinSpaced(words[1..]);
      assert JoinSpaced(words) == words[0] + [' '] + rest;
      SplitAtSpace(words[0], ' ', rest);
      SplitOfWord(words[0]);
      SplitJoinSpaced(words[1..]);
      assert words == [words[0]] + words[1..];
    }
  }

  /** A non-empty whitespace-free string splits into itself alone. */
  lemma SplitOfWord(w: string)
    requires w != [] && NoSpace(w)
    ensures Split(w) == [w]
  {
    assert WordLength(w) == |w|;
    assert w[..|w|] == w;
    assert w[|w|..] == [];
  }

  /**
   The first word starts with the first non-whitespace character, so
   `s.split()[0][0]` is the character just after the leading whitespace.
   */
  lemma {:induction false} FirstWordStart(s: string)
    requires Split(s) != []
    ensures LeadingSpaces(s) < |s|
    ensures Split(s)[0][0] == s[LeadingSpaces(s)]
    decreases |s|
  {
    if IsSpace(s[0]) {
      FirstWordStart(s[1..]);
      assert s[1..][LeadingSpaces(s[1..])] == s[LeadingSpaces(s)];
    }
  }
}
