/**
 * Character classes and the string operations the plate logic uses:
 * `str.strip()`, `str.upper()`, `str.isalpha()`, `str.isdigit()`.
 * Characters are restricted to ASCII (the recognizer's allow-list is
 * `0-9A-Z-`), so Python's Unicode categories collapse to the ASCII ones.
 */
module Chars {

  predicate IsLetter(c: char) {
    ('A' <= c <= 'Z') || ('a' <= c <= 'z')
  }

  predicate IsUpperLetter(c: char) {
    'A' <= c <= 'Z'
  }

  predicate IsDigit(c: char) {
    '0' <= c <= '9'
  }

  /** ASCII characters for which Python's `str.isspace()` holds. */
  predicate IsSpace(c: char) {
    c == ' ' || ('\t' <= c <= '\r') || ('\U{1C}' <= c <= '\U{1F}')
  }

  /** `str.isalpha()`: non-empty and every character a letter. */
  predicate IsAlpha(s: string) {
    |s| > 0 && forall i :: 0 <= i < |s| ==> IsLetter(s[i])
  }

  /** `str.isdigit()`: non-empty and every character a digit. */
  predicate IsDigits(s: string) {
    |s| > 0 && forall i :: 0 <= i < |s| ==> IsDigit(s[i])
  }

  function UpperChar(c: char): char {
    if 'a' <= c <= 'z' then (c as int - 'a' as int + 'A' as int) as char else c
  }

  /** `str.upper()` on ASCII text. */
  function Upper(s: string): (r: string)
    ensures |r| == |s|
    ensures forall i :: 0 <= i < |s| ==> r[i] == UpperChar(s[i])
  {
    seq(|s|, i requires 0 <= i < |s| => UpperChar(s[i]))
  }

  /** Removes leading whitespace: the result is a suffix of `s` that does not start with whitespace. */
  function StripStart(s: string): (r: string)
    ensures |r| <= |s| && r == s[|s| - |r|..]
    ensures forall i :: 0 <= i < |s| - |r| ==> IsSpace(s[i])
    ensures r != [] ==> !IsSpace(r[0])
  {
    if s != [] && IsSpace(s[0]) then StripStart(s[1..]) else s
  }

  /** Removes trailing whitespace: the result is a prefix of `s` that does not end with whitespace. */
  function StripEnd(s: string): (r: string)
    ensures |r| <= |s| && r == s[..|r|]
    ensures forall i :: |r| <= i < |s| ==> IsSpace(s[i])
    ensures r != [] ==> !IsSpace(r[|r| - 1])
  {
    if s != [] && IsSpace(s[|s| - 1]) then StripEnd(s[..|s| - 1]) else s
  }

  /**
   * `str.strip()`: the result is the infix `s[lo..lo + |r|]` with only whitespace
   * removed on either side and no whitespace left at either end.
   */
  function Strip(s: string): (r: string)
    ensures |r| <= |s|
    ensures var lo := StripOffset(s);
      && lo + |r| <= |s| && r == s[lo..lo + |r|]
      && (forall i :: 0 <= i < lo ==> IsSpace(s[i]))
      && (forall i :: lo + |r| <= i < |s| ==> IsSpace(s[i]))
    ensures r != [] ==> !IsSpace(r[0]) && !IsSpace(r[|r| - 1])
  {
    StripEnd(StripStart(s))
  }

  /** Number of leading characters `Strip` removes. */
  function StripOffset(s: string): nat {
    |s| - |StripStart(s)|
  }

  /** The letters of `s`, in order (the inner `for c in text: if c.isalpha()` loop). */
  function Letters(s: string): (r: string)
    decreases |s|
  {
    if s == [] then [] else Letters(s[..|s| - 1]) + (if IsLetter(s[|s| - 1]) then [s[|s| - 1]] else [])
  }

  /** The digits of `s`, in order (the inner `for c in text: if c.isdigit()` loop). */
  function Digits(s: string): (r: string)
    decreases |s|
  {
    if s == [] then [] else Digits(s[..|s| - 1]) + (if IsDigit(s[|s| - 1]) then [s[|s| - 1]] else [])
  }

  lemma {:induction false} LettersAppend(a: string, b: string)
    ensures Letters(a + b) == Letters(a) + Letters(b)
    decreases |b|
  {
    if b == [] {
      assert a + b == a;
    } else {
      var b' := b[..|b| - 1];
      assert (a + b)[..|a + b| - 1] == a + b';
      LettersAppend(a, b');
    }
  }

  lemma {:induction false} DigitsAppend(a: string, b: string)
    ensures Digits(a + b) == Digits(a) + Digits(b)
    decreases |b|
  {
    if b == [] {
      assert a + b == a;
    } else {
      var b' := b[..|b| - 1];
      assert (a + b)[..|a + b| - 1] == a + b';
      DigitsAppend(a, b');
    }
  }

  /** Every character `Letters` keeps is a letter, and every character `Digits` keeps is a digit. */
  lemma {:induction false} FilteredClasses(s: string)
    ensures forall i :: 0 <= i < |Letters(s)| ==> IsLetter(Letters(s)[i])
    ensures forall i :: 0 <= i < |Digits(s)| ==> IsDigit(Digits(s)[i])
    decreases |s|
  {
    if s != [] {
      FilteredClasses(s[..|s| - 1]);
    }
  }

  /** On a purely alphabetic string, `Letters` keeps everything and `Digits` keeps nothing. */
  lemma {:induction false} AlphaFilters(s: string)
    requires forall i :: 0 <= i < |s| ==> IsLetter(s[i])
    ensures Letters(s) == s && Digits(s) == []
    decreases |s|
  {
    if s != [] {
      AlphaFilters(s[..|s| - 1]);
      assert s[..|s| - 1] + [s[|s| - 1]] == s;
    }
  }

  /** On a purely numeric string, `Digits` keeps everything and `Letters` keeps nothing. */
  lemma {:induction false} DigitFilters(s: string)
    requires forall i :: 0 <= i < |s| ==> IsDigit(s[i])
    ensures Digits(s) == s && Letters(s) == []
    decreases |s|
  {
    if s != [] {
      DigitFilters(s[..|s| - 1]);
      assert s[..|s| - 1] + [s[|s| - 1]] == s;
    }
  }

  /** `str.upper()` keeps letters letters (upper-case ones) and digits digits. */
  lemma UpperClasses(s: string)
    ensures forall i :: 0 <= i < |s| && IsLetter(s[i]) ==> IsUpperLetter(Upper(s)[i])
    ensures forall i :: 0 <= i < |s| && IsDigit(s[i]) ==> Upper(s)[i] == s[i]
  {
  }
}
