/**
 Character classification used by the QA checks, standing in for Python's
 `str.isspace`, `str.isalpha`, `str.isdigit` and `str.islower` on a
 single character.

 `IsSpace` is Python's full whitespace set. The other three are exact on
 Latin-1 (code points U+0000 to U+00FF) and false above it; the full
 Unicode database is not reproduced.
 */
module Chars {

  /** Python's `c.isspace()`: the characters `str.split()` and `str.strip()` treat as whitespace. */
  predicate IsSpace(c: char)
  {
    || ('\t' <= c <= '\r')
    || ('\U{1C}' <= c <= '\U{1F}')
    || c == ' '
    || c == '\U{85}'
    || c == '\U{A0}'
    || c == '\U{1680}'
    || ('\U{2000}' <= c <= '\U{200A}')
    || c == '\U{2028}'
    || c == '\U{2029}'
    || c == '\U{202F}'
    || c == '\U{205F}'
    || c == '\U{3000}'
  }

  /** Python's `c.isalpha()` on Latin-1: ASCII letters, ª, µ, º and the accented letters. */
  predicate IsAlpha(c: char)
  {
    || ('A' <= c <= 'Z')
    || ('a' <= c <= 'z')
    || c == '\U{AA}'
    || c == '\U{B5}'
    || c == '\U{BA}'
    || ('\U{C0}' <= c <= '\U{D6}')
    || ('\U{D8}' <= c <= '\U{F6}')
    || ('\U{F8}' <= c <= '\U{FF}')
  }

  /** Python's `c.isdigit()` on Latin-1: the ASCII digits and the superscripts ¹ ² ³. */
  predicate IsDigit(c: char)
  {
    || ('0' <= c <= '9')
    || c == '\U{B2}'
    || c == '\U{B3}'
    || c == '\U{B9}'
  }

  /**
   Python's `c.islower()` on Latin-1: the characters with the Unicode
   `Lowercase` property, that is the letters of category Ll plus the
   ordinal indicators ª and º.
   */
  predicate IsLower(c: char)
  {
    || ('a' <= c <= 'z')
    || c == '\U{AA}'
    || c == '\U{B5}'
    || c == '\U{BA}'
    || ('\U{DF}' <= c <= '\U{F6}')
    || ('\U{F8}' <= c <= '\U{FF}')
  }

  /**
   On Latin-1, the range these predicates cover, every lowercase character
   is alphabetic, so there `isalpha() and islower()` amounts to
   `islower()`. Python's full tables differ above Latin-1: U+2170 (small
   roman numeral one) is lowercase but not alphabetic.
   */
  lemma LowerIsAlpha(c: char)
    ensures IsLower(c) ==> IsAlpha(c)
  {
  }
}
