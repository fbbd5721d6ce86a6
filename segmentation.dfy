/**
 * The token segmenter shared by both video entry points: OCR text pieces,
 * already filtered and ordered left to right, are split into small letters
 * (the province code, printed smaller), large letters and numbers, using the
 * mean height of the purely alphabetic pieces as the reference height.
 */
module Segmentation {
  import opened Chars

  /** One OCR text piece as the classifier sees it: its text and its box height. */
  datatype Token = Token(text: string, height: real)

  /** The three lists of the source, each already joined into one string. */
  datatype Groups = Groups(small: string, large: string, numbers: string)

  /** All texts, left to right. */
  function Flatten(ts: seq<Token>): string
    decreases |ts|
  {
    if ts == [] then [] else Flatten(ts[..|ts| - 1]) + ts[|ts| - 1].text
  }

  predicate HasAlphaToken(ts: seq<Token>) {
    exists i :: 0 <= i < |ts| && IsAlpha(ts[i].text)
  }

  /** Number of purely alphabetic tokens: `len(letter_heights)`. */
  function AlphaCount(ts: seq<Token>): nat
    decreases |ts|
  {
    if ts == [] then 0 else AlphaCount(ts[..|ts| - 1]) + (if IsAlpha(ts[|ts| - 1].text) then 1 else 0)
  }

  /** Sum of the heights of the purely alphabetic tokens: `sum(letter_heights)`. */
  function AlphaHeightSum(ts: seq<Token>): real
    decreases |ts|
  {
    if ts == [] then 0.0
    else AlphaHeightSum(ts[..|ts| - 1]) + (if IsAlpha(ts[|ts| - 1].text) then ts[|ts| - 1].height else 0.0)
  }

  /** The 5% tolerance: a letter is small when its height is below 0.95 of the mean. */
  const Tolerance: real := 0.95

  predicate IsSmall(t: Token, mean: real) {
    IsAlpha(t.text) && t.height < mean * Tolerance
  }

  /** What `t` adds to `large_letters` when letters exist. */
  function LargePart(t: Token, mean: real): string {
    if IsAlpha(t.text) then (if t.height < mean * Tolerance then [] else t.text)
    else if IsDigits(t.text) then []
    else Letters(t.text)
  }

  /** What `t` adds to `numbers` when letters exist. */
  function NumberPart(t: Token): string {
    if IsAlpha(t.text) then [] else if IsDigits(t.text) then t.text else Digits(t.text)
  }

  function SmallOf(ts: seq<Token>, mean: real): string
    decreases |ts|
  {
    if ts == [] then []
    else SmallOf(ts[..|ts| - 1], mean) + (if IsSmall(ts[|ts| - 1], mean) then ts[|ts| - 1].text else [])
  }

  function LargeOf(ts: seq<Token>, mean: real): string
    decreases |ts|
  {
    if ts == [] then [] else LargeOf(ts[..|ts| - 1], mean) + LargePart(ts[|ts| - 1], mean)
  }

  function NumbersOf(ts: seq<Token>): string
    decreases |ts|
  {
    if ts == [] then [] else NumbersOf(ts[..|ts| - 1]) + NumberPart(ts[|ts| - 1])
  }

  /** The "no letters detected, just get numbers" branch. */
  function DigitsOnly(ts: seq<Token>): string
    decreases |ts|
  {
    if ts == [] then [] else DigitsOnly(ts[..|ts| - 1]) + Digits(ts[|ts| - 1].text)
  }

  function MeanHeight(ts: seq<Token>): real
    requires AlphaCount(ts) > 0
  {
    AlphaHeightSum(ts) / AlphaCount(ts) as real
  }

  /** The classification the source's loops compute. */
  function ClassifySpec(ts: seq<Token>): Groups {
    if AlphaCount(ts) > 0 then
      var mean := MeanHeight(ts);
      Groups(SmallOf(ts, mean), LargeOf(ts, mean), NumbersOf(ts))
    else
      Groups([], [], DigitsOnly(ts))
  }

  /**
   * The classification loops: one pass for the letter heights, then one pass
   * that sorts each token into a group (mixed tokens character by character),
   * or, without any purely alphabetic token, one pass that keeps only digits.
   */
  method Classify(ts: seq<Token>) returns (g: Groups)
    ensures g == ClassifySpec(ts)
  {
    var sum, n := LetterHeights(ts);
    if n > 0 {
      g := ClassifyByHeight(ts, sum / n as real);
    } else {
      var numbers := CollectDigits(ts);
      g := Groups([], [], numbers);
    }
  }

  /** `letter_heights` reduced to its sum and length. */
  method LetterHeights(ts: seq<Token>) returns (sum: real, n: nat)
    ensures sum == AlphaHeightSum(ts) && n == AlphaCount(ts)
  {
    sum, n := 0.0, 0;
    for i := 0 to |ts|
      invariant sum == AlphaHeightSum(ts[..i]) && n == AlphaCount(ts[..i])
    {
      assert ts[..i + 1][..i] == ts[..i];
      if IsAlpha(ts[i].text) {
        sum, n := sum + ts[i].height, n + 1;
      }
    }
    assert ts[..|ts|] == ts;
  }

  /** The categorising loop, run when letters exist, with `mean` the average letter height. */
  method ClassifyByHeight(ts: seq<Token>, mean: real) returns (g: Groups)
    ensures g == Groups(SmallOf(ts, mean), LargeOf(ts, mean), NumbersOf(ts))
  {
    var small, large, numbers := [], [], [];
    for i := 0 to |ts|
      invariant small == SmallOf(ts[..i], mean)
      invariant large == LargeOf(ts[..i], mean)
      invariant numbers == NumbersOf(ts[..i])
    {
      assert ts[..i + 1][..i] == ts[..i];
      var text := ts[i].text;
      if IsAlpha(text) {
        if ts[i].height < mean * Tolerance {
          small := small + text;
        } else {
          large := large + text;
        }
      } else if IsDigits(text) {
        numbers := numbers + text;
      } else {
        var letters, digits := SplitMixed(text);
        large, numbers := large + letters, numbers + digits;
      }
    }
    assert ts[..|ts|] == ts;
    g := Groups(small, large, numbers);
  }

  /** The character loop over a mixed token: letters on one side, digits on the other, the rest dropped. */
  method SplitMixed(text: string) returns (letters: string, digits: string)
    ensures letters == Letters(text) && digits == Digits(text)
  {
    letters, digits := [], [];
    for j := 0 to |text|
      invariant letters == Letters(text[..j]) && digits == Digits(text[..j])
    {
      assert text[..j + 1][..j] == text[..j];
      if IsLetter(text[j]) {
        letters := letters + [text[j]];
      } else if IsDigit(text[j]) {
        digits := digits + [text[j]];
      }
    }
    assert text[..|text|] == text;
  }

  /** The "no letters detected" loop: every digit of every token, in order. */
  method CollectDigits(ts: seq<Token>) returns (numbers: string)
    ensures numbers == DigitsOnly(ts)
  {
    numbers := [];
    for i := 0 to |ts|
      invariant numbers == DigitsOnly(ts[..i])
    {
      assert ts[..i + 1][..i] == ts[..i];
      var text := ts[i].text;
      for j := 0 to |text|
        invariant numbers == DigitsOnly(ts[..i]) + Digits(text[..j])
      {
        assert text[..j + 1][..j] == text[..j];
        if IsDigit(text[j]) {
          numbers := numbers + [text[j]];
        }
      }
      assert text[..|text|] == text;
    }
    assert ts[..|ts|] == ts;
  }

  // ---------------------------------------------------------------------
  // What the classification means
  // ---------------------------------------------------------------------

  lemma {:induction false} AlphaCountPositive(ts: seq<Token>)
    ensures AlphaCount(ts) > 0 <==> HasAlphaToken(ts)
    decreases |ts|
  {
    if ts != [] {
      var init := ts[..|ts| - 1];
      AlphaCountPositive(init);
      if HasAlphaToken(init) {
        var i :| 0 <= i < |init| && IsAlpha(init[i].text);
        assert ts[i] == init[i];
      }
      if HasAlphaToken(ts) && !IsAlpha(ts[|ts| - 1].text) {
        var i :| 0 <= i < |ts| && IsAlpha(ts[i].text);
        assert init[i] == ts[i];
      }
    }
  }

  lemma {:induction false} NumbersAreDigits(ts: seq<Token>)
    ensures NumbersOf(ts) == Digits(Flatten(ts))
    ensures DigitsOnly(ts) == Digits(Flatten(ts))
    decreases |ts|
  {
    if ts != [] {
      var init, t := ts[..|ts| - 1], ts[|ts| - 1];
      NumbersAreDigits(init);
      DigitsAppend(Flatten(init), t.text);
      if IsAlpha(t.text) {
        AlphaFilters(t.text);
      } else if IsDigits(t.text) {
        DigitFilters(t.text);
      }
    }
  }

  /** One token's contribution to the two letter groups is, up to order, its letters. */
  lemma TokenLetters(t: Token, mean: real)
    ensures multiset((if IsSmall(t, mean) then t.text else []) + LargePart(t, mean)) == multiset(Letters(t.text))
  {
    if IsAlpha(t.text) {
      AlphaFilters(t.text);
    } else if IsDigits(t.text) {
      DigitFilters(t.text);
    }
  }

  lemma {:induction false} LettersPermuted(ts: seq<Token>, mean: real)
    ensures multiset(SmallOf(ts, mean) + LargeOf(ts, mean)) == multiset(Letters(Flatten(ts)))
    decreases |ts|
  {
    if ts != [] {
      var init, t := ts[..|ts| - 1], ts[|ts| - 1];
      var sIn := if IsSmall(t, mean) then t.text else [];
      var lIn := LargePart(t, mean);
      var s0, l0 := SmallOf(init, mean), LargeOf(init, mean);
      var f0 := Flatten(init);
      LettersPermuted(init, mean);
      assert multiset(s0 + l0) == multiset(Letters(f0));
      LettersAppend(f0, t.text);
      assert Letters(Flatten(ts)) == Letters(f0) + Letters(t.text);
      TokenLetters(t, mean);
      assert multiset(sIn + lIn) == multiset(Letters(t.text));
      assert SmallOf(ts, mean) + LargeOf(ts, mean) == s0 + sIn + (l0 + lIn);
      MultisetShuffle(s0, sIn, l0, lIn);
    }
  }

  lemma MultisetShuffle(a: string, b: string, c: string, d: string)
    ensures multiset(a + b + (c + d)) == multiset(a + c) + multiset(b + d)
  {
  }

  /**
   * The numbers group holds every digit of every token, in left-to-right
   * order, whichever branch runs; the letter groups together hold exactly the
   * letters of all tokens (in some order) when a purely alphabetic token
   * exists, and nothing otherwise.
   */
  lemma ClassifyContents(ts: seq<Token>)
    ensures ClassifySpec(ts).numbers == Digits(Flatten(ts))
    ensures HasAlphaToken(ts) ==>
      multiset(ClassifySpec(ts).small + ClassifySpec(ts).large) == multiset(Letters(Flatten(ts)))
    ensures !HasAlphaToken(ts) ==> ClassifySpec(ts).small == [] && ClassifySpec(ts).large == []
  {
    AlphaCountPositive(ts);
    NumbersAreDigits(ts);
    if AlphaCount(ts) > 0 {
      LettersPermuted(ts, MeanHeight(ts));
    }
  }

  /** Every character of the letter groups is a letter; every character of the numbers group a digit. */
  lemma ClassifyCharClasses(ts: seq<Token>)
    ensures forall c :: c in ClassifySpec(ts).small + ClassifySpec(ts).large ==> IsLetter(c)
    ensures forall c :: c in ClassifySpec(ts).numbers ==> IsDigit(c)
  {
    ClassifyContents(ts);
    FilteredClasses(Flatten(ts));
    var g := ClassifySpec(ts);
    forall c | c in g.small + g.large ensures IsLetter(c) {
      assert c in multiset(g.small + g.large);
      assert c in multiset(Letters(Flatten(ts)));
    }
  }

  /** Only-digit input: no letter is ever collected, so no candidate can be formed. */
  lemma {:induction false} DigitTokensHaveNoLetters(ts: seq<Token>)
    requires forall i :: 0 <= i < |ts| ==> IsDigits(ts[i].text)
    ensures ClassifySpec(ts).small == [] && ClassifySpec(ts).large == []
  {
    forall i | 0 <= i < |ts| ensures !IsAlpha(ts[i].text) {
      assert IsDigit(ts[i].text[0]);
    }
    ClassifyContents(ts);
  }

  // ---------------------------------------------------------------------
  // Acceptance
  // ---------------------------------------------------------------------

  /** `has_letters and has_numbers and len(plate) >= 4`. */
  predicate Acceptable(letters: string, numbers: string, plate: string) {
    |letters| > 0 && |numbers| > 0 && |plate| >= 4
  }

  /** Minimum plate length. */
  const MinPlateLength: nat := 4

  /**
   * Whether the classification yields a candidate depends only on what is in
   * the tokens: a purely alphabetic token, at least one digit, and at least
   * four letters and digits in all.
   */
  lemma AcceptanceIff(ts: seq<Token>)
    ensures var g := ClassifySpec(ts);
      Acceptable(g.small + g.large, g.numbers, g.small + g.large + g.numbers)
      <==> HasAlphaToken(ts) && |Digits(Flatten(ts))| > 0
           && |Letters(Flatten(ts))| + |Digits(Flatten(ts))| >= MinPlateLength
  {
    ClassifyContents(ts);
    var g := ClassifySpec(ts);
    if HasAlphaToken(ts) {
      assert |g.small + g.large| == |multiset(g.small + g.large)|;
      assert |Letters(Flatten(ts))| == |multiset(Letters(Flatten(ts)))|;
      var i :| 0 <= i < |ts| && IsAlpha(ts[i].text);
      assert |g.small + g.large| > 0 by {
        AlphaTokenGivesLetter(ts, i);
      }
    }
  }

  /** A purely alphabetic token contributes at least one letter to the flattened text. */
  lemma {:induction false} AlphaTokenGivesLetter(ts: seq<Token>, i: nat)
    requires i < |ts| && IsAlpha(ts[i].text)
    ensures |Letters(Flatten(ts))| > 0
    decreases |ts|
  {
    var init, t := ts[..|ts| - 1], ts[|ts| - 1];
    LettersAppend(Flatten(init), t.text);
    if i == |ts| - 1 {
      AlphaFilters(t.text);
    } else {
      AlphaTokenGivesLetter(init, i);
    }
  }

  // ---------------------------------------------------------------------
  // Worked examples
  // ---------------------------------------------------------------------

  /**
   * Letters of heights 10, 10, 10 and 20 have mean height 12.5; the three of
   * height 10 are below 0.95 * 12.5 = 11.875 and are small, the last is large.
   */
  lemma HeightExample()
    ensures ClassifySpec([Token("A", 10.0), Token("B", 10.0), Token("C", 10.0), Token("D", 20.0), Token("1234", 20.0)])
      == Groups("ABC", "D", "1234")
  {
    var a, b, c, d, n := Token("A", 10.0), Token("B", 10.0), Token("C", 10.0), Token("D", 20.0), Token("1234", 20.0);
    var ts := [a, b, c, d, n];
    assert IsAlpha("A") && IsAlpha("B") && IsAlpha("C") && IsAlpha("D");
    assert !IsAlpha("1234") by { assert !IsLetter("1234"[0]); }
    assert IsDigits("1234");
    assert ts[..4] == [a, b, c, d] && ts[..4][..3] == [a, b, c];
    assert [a, b, c][..2] == [a, b] && [a, b][..1] == [a];
    assert AlphaCount([a]) == 1 && AlphaCount([a, b]) == 2 && AlphaCount([a, b, c]) == 3;
    assert AlphaCount([a, b, c, d]) == 4 && AlphaCount(ts) == 4;
    assert AlphaHeightSum([a]) == 10.0 && AlphaHeightSum([a, b]) == 20.0;
    assert AlphaHeightSum([a, b, c]) == 30.0 && AlphaHeightSum([a, b, c, d]) == 50.0;
    assert AlphaHeightSum(ts) == 50.0;
    assert MeanHeight(ts) == 12.5;
    assert IsSmall(a, 12.5) && IsSmall(b, 12.5) && IsSmall(c, 12.5) && !IsSmall(d, 12.5) && !IsSmall(n, 12.5);
    assert SmallOf([a], 12.5) == "A";
    assert SmallOf([a, b], 12.5) == "AB";
    assert SmallOf([a, b, c], 12.5) == "ABC";
    assert SmallOf([a, b, c, d], 12.5) == "ABC" && SmallOf(ts, 12.5) == "ABC";
    assert LargeOf([a], 12.5) == "";
    assert LargeOf([a, b], 12.5) == "";
    assert LargeOf([a, b, c], 12.5) == "";
    assert LargeOf([a, b, c, d], 12.5) == "D" && LargeOf(ts, 12.5) == "D";
    assert NumbersOf([a]) == "";
    assert NumbersOf([a, b]) == "";
    assert NumbersOf([a, b, c]) == "";
    assert NumbersOf([a, b, c, d]) == "" && NumbersOf(ts) == "1234";
  }

  /** A mixed piece such as `"AB-12"` sends its letters to the large group, its digits to the numbers, and drops `-`. */
  lemma MixedExample()
    ensures ClassifySpec([Token("K", 20.0), Token("AB-12", 20.0)]) == Groups("", "KAB", "12")
  {
    var k, m := Token("K", 20.0), Token("AB-12", 20.0);
    var ts := [k, m];
    MixedPieceParts();
    assert IsAlpha("K");
    assert ts[..1] == [k];
    assert AlphaCount([k]) == 1 && AlphaCount(ts) == 1;
    assert AlphaHeightSum([k]) == 20.0 && AlphaHeightSum(ts) == 20.0;
    assert !IsSmall(k, 20.0) && !IsSmall(m, 20.0);
    assert SmallOf([k], 20.0) == "";
    assert SmallOf(ts, 20.0) == SmallOf(ts[..1], 20.0) + [];
    assert LargeOf([k], 20.0) == "K" && LargeOf(ts, 20.0) == "KAB";
    assert NumbersOf([k]) == "" && NumbersOf(ts) == "12";
  }

  lemma MixedPieceParts()
    ensures !IsAlpha("AB-12") && !IsDigits("AB-12")
    ensures Letters("AB-12") == "AB" && Digits("AB-12") == "12"
  {
    var mixed := "AB-12";
    assert !IsLetter(mixed[2]) && !IsDigit(mixed[0]);
    MixedLetters();
    MixedDigits();
  }

  lemma MixedLetters()
    ensures Letters("AB-12") == "AB"
  {
    var mixed := "AB-12";
    assert mixed[..4] == "AB-1" && "AB-1"[..3] == "AB-" && "AB-"[..2] == "AB" && "AB"[..1] == "A" && "A"[..0] == "";
    assert Letters("A") == "A";
    assert Letters("AB") == "AB";
    assert Letters("AB-") == "AB";
    assert Letters("AB-1") == "AB";
  }

  lemma MixedDigits()
    ensures Digits("AB-12") == "12"
  {
    var mixed := "AB-12";
    assert mixed[..4] == "AB-1" && "AB-1"[..3] == "AB-" && "AB-"[..2] == "AB" && "AB"[..1] == "A" && "A"[..0] == "";
    assert Digits("A") == "";
    assert Digits("AB") == "";
    assert Digits("AB-") == "";
    assert Digits("AB-1") == "1";
  }
}
