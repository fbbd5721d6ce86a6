/**
 * Per-frame fusion of video_plate_recognition.py: the OCR fragments of every
 * detected plate region in a frame are collected, ordered left to right, and
 * classified together into at most one plate candidate for the frame.
 */
module FrameAggregation {
  import opened Wrappers
  import opened Chars
  import opened Geometry
  import opened StableSort
  import opened Segmentation

  /**
   * One entry of the recognizer's output: of its box only the top-left x, the
   * top-left y and the bottom-right y are used; then the text and its confidence.
   */
  datatype OcrResult = OcrResult(left: real, top: real, bottom: real, text: string, conf: real)

  /** What the recognizer did for one region: returned its entries, or raised an exception. */
  datatype OcrOutcome = Read(results: seq<OcrResult>) | Raised

  /** A detector hit: its confidence, its normalised box, and what OCR gives on its crop. */
  datatype Region = Region(conf: real, box: NormBox, ocr: OcrOutcome)

  /**
   * A collected fragment: stripped text, confidence, sort key (the crop's
   * left edge in the frame plus the entry's left edge as measured in the
   * crop resized to twice its size) and text height.
   */
  datatype Fragment = Fragment(text: string, conf: real, x: real, height: real)

  const DetectorThreshold: real := 0.35
  const OcrThreshold: real := 0.5

  function AbsReal(r: real): real { if r < 0.0 then -r else r }

  /** `abs(bbox[2][1] - bbox[0][1])`. */
  function TextHeight(r: OcrResult): real {
    AbsReal(r.bottom - r.top)
  }

  /** `conf >= 0.5 and len(text) >= 1` on the stripped text. */
  predicate Kept(r: OcrResult) {
    r.conf >= OcrThreshold && |Strip(r.text)| >= 1
  }

  function ToFragment(r: OcrResult, cropLeft: int): Fragment {
    Fragment(Strip(r.text), r.conf, cropLeft as real + r.left, TextHeight(r))
  }

  /** The fragments one region's OCR entries contribute, in the recognizer's order. */
  function FragmentsOf(rs: seq<OcrResult>, cropLeft: int): seq<Fragment>
    decreases |rs|
  {
    if rs == [] then []
    else
      var r := rs[|rs| - 1];
      FragmentsOf(rs[..|rs| - 1], cropLeft) + (if Kept(r) then [ToFragment(r, cropLeft)] else [])
  }

  /**
   * What one region adds to `frame_ocr_texts`: nothing when the detector is
   * not confident enough or the crop is empty, `None` when OCR raises (the
   * exception ends the program), otherwise the kept entries.
   */
  function RegionFragments(g: Region, width: nat, height: nat): Option<seq<Fragment>> {
    if g.conf < DetectorThreshold then Some([])
    else
      var b := FivePercentBox(g.box, width, height);
      if !CropNonEmpty(b, width, height) then Some([])
      else match g.ocr
        case Raised => None
        case Read(rs) => Some(FragmentsOf(rs, b.x1))
  }

  /** `frame_ocr_texts` after the region loop, or `None` if some region's OCR raised. */
  function FrameFragments(regions: seq<Region>, width: nat, height: nat): Option<seq<Fragment>>
    decreases |regions|
  {
    if regions == [] then Some([])
    else match FrameFragments(regions[..|regions| - 1], width, height)
      case None => None
      case Some(fs) =>
        match RegionFragments(regions[|regions| - 1], width, height)
        case None => None
        case Some(more) => Some(fs + more)
  }

  /** The region loop of one frame. */
  method CollectFragments(regions: seq<Region>, width: nat, height: nat) returns (r: Option<seq<Fragment>>)
    ensures r == FrameFragments(regions, width, height)
  {
    var frameTexts: seq<Fragment> := [];
    for i := 0 to |regions|
      invariant FrameFragments(regions[..i], width, height) == Some(frameTexts)
    {
      assert regions[..i + 1][..i] == regions[..i];
      var more := CollectRegion(regions[i], width, height);
      if more.None? {
        NoneStaysNone(regions, width, height, i + 1);
        return None;
      }
      frameTexts := frameTexts + more.value;
    }
    assert regions[..|regions|] == regions;
    r := Some(frameTexts);
  }

  /** One pass of the region loop: threshold, padded crop, OCR, and the loop over its entries. */
  method CollectRegion(g: Region, width: nat, height: nat) returns (r: Option<seq<Fragment>>)
    ensures r == RegionFragments(g, width, height)
  {
    r := Some([]);
    if g.conf >= DetectorThreshold {
      var b := FivePercentBox(g.box, width, height);
      if CropNonEmpty(b, width, height) {
        if g.ocr.Raised? {
          return None;
        }
        var kept := KeepEntries(g.ocr.results, b.x1);
        r := Some(kept);
      }
    }
  }

  /** The loop over one region's OCR entries, keeping those with enough confidence and some text. */
  method KeepEntries(rs: seq<OcrResult>, cropLeft: int) returns (kept: seq<Fragment>)
    ensures kept == FragmentsOf(rs, cropLeft)
  {
    kept := [];
    for j := 0 to |rs|
      invariant kept == FragmentsOf(rs[..j], cropLeft)
    {
      assert rs[..j + 1][..j] == rs[..j];
      if Kept(rs[j]) {
        kept := kept + [ToFragment(rs[j], cropLeft)];
      }
    }
    assert rs[..|rs|] == rs;
  }

  /** Once a region's OCR has raised, the frame's collection stays aborted. */
  lemma {:induction false} NoneStaysNone(regions: seq<Region>, width: nat, height: nat, k: nat)
    requires k <= |regions| && FrameFragments(regions[..k], width, height) == None
    ensures FrameFragments(regions, width, height) == None
    decreases |regions| - k
  {
    if k < |regions| {
      assert regions[..k + 1][..k] == regions[..k];
      NoneStaysNone(regions, width, height, k + 1);
    } else {
      assert regions[..k] == regions;
    }
  }

  /** Every kept entry of a region becomes one of its fragments. */
  lemma {:induction false} KeptEntryCollected(rs: seq<OcrResult>, cropLeft: int, i: nat)
    requires i < |rs| && Kept(rs[i])
    ensures ToFragment(rs[i], cropLeft) in FragmentsOf(rs, cropLeft)
    decreases |rs|
  {
    if i < |rs| - 1 {
      var init := rs[..|rs| - 1];
      assert init[i] == rs[i];
      KeptEntryCollected(init, cropLeft, i);
    }
  }

  /** Every fragment of a region comes from a kept entry: the entry at the returned index. */
  lemma {:induction false} CollectedFromKeptEntry(rs: seq<OcrResult>, cropLeft: int, f: Fragment) returns (i: nat)
    requires f in FragmentsOf(rs, cropLeft)
    ensures i < |rs| && Kept(rs[i]) && f == ToFragment(rs[i], cropLeft)
    decreases |rs|
  {
    var init, last := rs[..|rs| - 1], rs[|rs| - 1];
    if f in FragmentsOf(init, cropLeft) {
      i := CollectedFromKeptEntry(init, cropLeft, f);
      assert rs[i] == init[i];
    } else {
      i := |rs| - 1;
    }
  }

  ghost predicate Qualifies(f: Fragment) {
    f.conf >= OcrThreshold && |f.text| >= 1 && !IsSpace(f.text[0]) && !IsSpace(f.text[|f.text| - 1])
  }

  /** Every collected fragment has confidence at least 0.5 and non-empty text without surrounding whitespace. */
  lemma {:induction false} CollectedFragmentsQualify(regions: seq<Region>, width: nat, height: nat)
    requires FrameFragments(regions, width, height).Some?
    ensures forall f :: f in FrameFragments(regions, width, height).value ==> Qualifies(f)
    decreases |regions|
  {
    if regions != [] {
      var init, g := regions[..|regions| - 1], regions[|regions| - 1];
      CollectedFragmentsQualify(init, width, height);
      RegionFragmentsQualify(g, width, height);
    }
  }

  lemma RegionFragmentsQualify(g: Region, width: nat, height: nat)
    requires RegionFragments(g, width, height).Some?
    ensures forall f :: f in RegionFragments(g, width, height).value ==> Qualifies(f)
  {
    if g.conf >= DetectorThreshold && CropNonEmpty(FivePercentBox(g.box, width, height), width, height) {
      var b := FivePercentBox(g.box, width, height);
      forall f | f in FragmentsOf(g.ocr.results, b.x1) ensures Qualifies(f) {
        var i := CollectedFromKeptEntry(g.ocr.results, b.x1, f);
      }
    }
  }

  // ---------------------------------------------------------------------
  // Fusion of the frame's fragments into one candidate
  // ---------------------------------------------------------------------

  function XOf(f: Fragment): real { f.x }

  function TokenOf(f: Fragment): Token { Token(f.text, f.height) }

  function Tokens(fs: seq<Fragment>): (ts: seq<Token>)
    ensures |ts| == |fs| && forall i :: 0 <= i < |fs| ==> ts[i] == TokenOf(fs[i])
  {
    seq(|fs|, i requires 0 <= i < |fs| => TokenOf(fs[i]))
  }

  /** `frame_ocr_texts.sort(key=lambda x: x[2])`, seen by the classifier. */
  function OrderedTokens(fs: seq<Fragment>): seq<Token> {
    Tokens(SortBy(fs, XOf))
  }

  /** `small_text + large_text + number_text`, the letter groups upper-cased at the join. */
  function FusedPlate(g: Groups): string {
    Upper(g.small) + Upper(g.large) + g.numbers
  }

  /** The string appended to `detection_buffer` for this frame, if any. */
  function FusedCandidate(fs: seq<Fragment>): Option<string> {
    var g := ClassifySpec(OrderedTokens(fs));
    var plate := FusedPlate(g);
    if Acceptable(Upper(g.small) + Upper(g.large), g.numbers, plate) then Some(plate) else None
  }

  /** The sorting and classification of the combined fragments, and the acceptance test. */
  method FuseFrame(fs: seq<Fragment>) returns (candidate: Option<string>)
    ensures candidate == FusedCandidate(fs)
  {
    candidate := None;
    if |fs| > 0 {
      var sorted := SortBy(fs, XOf);
      var g := Classify(Tokens(sorted));
      var smallText, largeText := Upper(g.small), Upper(g.large);
      var formatted := smallText + largeText + g.numbers;
      var hasLetters := |smallText| > 0 || |largeText| > 0;
      var hasNumbers := |g.numbers| > 0;
      if hasLetters && hasNumbers && |formatted| >= MinPlateLength {
        candidate := Some(formatted);
      }
    } else {
      assert ClassifySpec(OrderedTokens(fs)) == Groups([], [], []);
    }
  }

  /** A fragment is purely alphabetic exactly when its token in the sorted order is. */
  lemma OrderedHasAlpha(fs: seq<Fragment>)
    ensures HasAlphaToken(OrderedTokens(fs)) <==> exists i :: 0 <= i < |fs| && IsAlpha(fs[i].text)
  {
    var sorted := SortBy(fs, XOf);
    var ts := OrderedTokens(fs);
    if exists i :: 0 <= i < |fs| && IsAlpha(fs[i].text) {
      var i :| 0 <= i < |fs| && IsAlpha(fs[i].text);
      assert fs[i] in multiset(fs);
      assert fs[i] in multiset(sorted);
      var j :| 0 <= j < |sorted| && sorted[j] == fs[i];
      assert IsAlpha(ts[j].text);
    }
    if HasAlphaToken(ts) {
      var j :| 0 <= j < |ts| && IsAlpha(ts[j].text);
      assert sorted[j] in multiset(sorted);
      assert sorted[j] in multiset(fs);
      var i :| 0 <= i < |fs| && fs[i] == sorted[j];
      assert IsAlpha(fs[i].text);
    }
  }

  /**
   * A frame yields a candidate exactly when some fragment is purely
   * alphabetic, the fragments hold a digit, and there are at least four
   * letters and digits in all.
   */
  lemma FusedAcceptanceIff(fs: seq<Fragment>)
    ensures var flat := Flatten(OrderedTokens(fs));
      FusedCandidate(fs).Some? <==>
        (exists i :: 0 <= i < |fs| && IsAlpha(fs[i].text)) && |Digits(flat)| > 0
        && |Letters(flat)| + |Digits(flat)| >= MinPlateLength
  {
    var ts := OrderedTokens(fs);
    var g := ClassifySpec(ts);
    OrderedHasAlpha(fs);
    AcceptanceIff(ts);
    assert |Upper(g.small) + Upper(g.large)| == |g.small + g.large|;
    assert |FusedPlate(g)| == |g.small + g.large + g.numbers|;
  }

  /** A frame's candidate is upper-case letters followed by every digit of the fragments in left-to-right order. */
  lemma FusedCandidateShape(fs: seq<Fragment>)
    requires FusedCandidate(fs).Some?
    ensures var p, ds := FusedCandidate(fs).value, Digits(Flatten(OrderedTokens(fs)));
      |ds| <= |p| && p[|p| - |ds|..] == ds
      && forall k :: 0 <= k < |p| - |ds| ==> IsUpperLetter(p[k])
  {
    var ts := OrderedTokens(fs);
    var g := ClassifySpec(ts);
    ClassifyContents(ts);
    ClassifyCharClasses(ts);
    var letters := Upper(g.small) + Upper(g.large);
    UpperLetters(g.small, g.large);
    assert FusedPlate(g) == letters + g.numbers;
  }

  lemma UpperLetters(a: string, b: string)
    requires forall c :: c in a + b ==> IsLetter(c)
    ensures forall k :: 0 <= k < |Upper(a) + Upper(b)| ==> IsUpperLetter((Upper(a) + Upper(b))[k])
  {
    forall k | 0 <= k < |a| ensures IsUpperLetter(Upper(a)[k]) {
      assert a[k] in a + b;
    }
    forall k | 0 <= k < |b| ensures IsUpperLetter(Upper(b)[k]) {
      assert b[k] in a + b;
    }
  }

  /** Without a purely alphabetic fragment only digits are gathered and nothing is appended. */
  lemma NoAlphaNoCandidate(fs: seq<Fragment>)
    requires forall i :: 0 <= i < |fs| ==> !IsAlpha(fs[i].text)
    ensures FusedCandidate(fs) == None
  {
    FusedAcceptanceIff(fs);
  }

  /** The whole frame: `None` when OCR raised, otherwise the frame's candidate or nothing. */
  function FrameCandidate(regions: seq<Region>, width: nat, height: nat): Option<Option<string>> {
    match FrameFragments(regions, width, height)
    case None => None
    case Some(fs) => Some(FusedCandidate(fs))
  }
}
