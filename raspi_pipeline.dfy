/**
 * The per-region pipeline of video_plate_recognition_raspi.py: every detector
 * hit is cropped with a two-pixel margin and read on its own; its OCR entries
 * are ordered left to right, those with enough confidence are stripped and
 * upper-cased, classified, and the accepted plate goes straight to the
 * debouncer.
 */
module RaspiPipeline {
  import opened Wrappers
  import opened Chars
  import opened Geometry
  import opened StableSort
  import opened Segmentation
  import opened FrameAggregation
  import opened Debounce
  import opened StreamControl

  /** `x[0][0][0]`: the left edge of an entry's box, the sort key. */
  function LeftOf(r: OcrResult): real { r.left }

  /** `conf >= 0.5`: the entries the classifier looks at. */
  predicate Confident(r: OcrResult) {
    r.conf >= OcrThreshold
  }

  /** The confident entries, in order. */
  function ConfidentOf(rs: seq<OcrResult>): seq<OcrResult>
    decreases |rs|
  {
    if rs == [] then []
    else ConfidentOf(rs[..|rs| - 1]) + (if Confident(rs[|rs| - 1]) then [rs[|rs| - 1]] else [])
  }

  /** `text.strip().upper()` with the entry's box height. */
  function Normalized(r: OcrResult): Token {
    Token(Upper(Strip(r.text)), TextHeight(r))
  }

  function NormalizedAll(rs: seq<OcrResult>): (ts: seq<Token>)
    ensures |ts| == |rs| && forall i :: 0 <= i < |rs| ==> ts[i] == Normalized(rs[i])
  {
    seq(|rs|, i requires 0 <= i < |rs| => Normalized(rs[i]))
  }

  /** What the classifier of one region sees: the confident entries, sorted by left edge, normalised. */
  function RegionTokens(rs: seq<OcrResult>): seq<Token> {
    NormalizedAll(ConfidentOf(SortBy(rs, LeftOf)))
  }

  /** `small_text + large_text + number_text`: the pieces are upper case already. */
  function RegionPlate(g: Groups): string {
    g.small + g.large + g.numbers
  }

  /** The plate a region's OCR entries yield, if it passes the acceptance test. */
  function RegionCandidate(rs: seq<OcrResult>): Option<string> {
    if rs == [] then None
    else
      var g := ClassifySpec(RegionTokens(rs));
      var plate := RegionPlate(g);
      if Acceptable(g.small + g.large, g.numbers, plate) then Some(plate) else None
  }

  /** The loop that picks and normalises the confident entries. */
  method NormalizeConfident(sorted: seq<OcrResult>) returns (ts: seq<Token>)
    ensures ts == NormalizedAll(ConfidentOf(sorted))
  {
    ts := [];
    for j := 0 to |sorted|
      invariant ts == NormalizedAll(ConfidentOf(sorted[..j]))
    {
      assert sorted[..j + 1][..j] == sorted[..j];
      if Confident(sorted[j]) {
        NormalizedSnoc(ConfidentOf(sorted[..j]), sorted[j]);
        ts := ts + [Normalized(sorted[j])];
      }
    }
    assert sorted[..|sorted|] == sorted;
  }

  lemma NormalizedSnoc(rs: seq<OcrResult>, r: OcrResult)
    ensures NormalizedAll(rs + [r]) == NormalizedAll(rs) + [Normalized(r)]
  {
  }

  /** The segmentation of one region's OCR output and the acceptance test. */
  method SegmentRegion(rs: seq<OcrResult>) returns (candidate: Option<string>)
    ensures candidate == RegionCandidate(rs)
  {
    candidate := None;
    if |rs| > 0 {
      var sorted := SortBy(rs, LeftOf);
      var ts := NormalizeConfident(sorted);
      var g := Classify(ts);
      var plateText := g.small + g.large + g.numbers;
      var hasLetters := |g.small| > 0 || |g.large| > 0;
      var hasNumbers := |g.numbers| > 0;
      if hasLetters && hasNumbers && |plateText| >= MinPlateLength {
        candidate := Some(plateText);
      }
    }
  }

  // ---------------------------------------------------------------------
  // What the classifier of a region sees
  // ---------------------------------------------------------------------

  lemma {:induction false} ConfidentOnly(rs: seq<OcrResult>)
    ensures forall r :: r in ConfidentOf(rs) ==> Confident(r)
    ensures forall r :: multiset(ConfidentOf(rs))[r] == if Confident(r) then multiset(rs)[r] else 0
    decreases |rs|
  {
    if rs != [] {
      var init := rs[..|rs| - 1];
      ConfidentOnly(init);
      assert rs == init + [rs[|rs| - 1]];
    }
  }

  lemma {:induction false} ConfidentSorted(rs: seq<OcrResult>)
    requires SortedBy(rs, LeftOf)
    ensures SortedBy(ConfidentOf(rs), LeftOf)
    ensures forall r :: r in ConfidentOf(rs) ==> r in rs
    decreases |rs|
  {
    if rs != [] {
      var init, last := rs[..|rs| - 1], rs[|rs| - 1];
      ConfidentSorted(init);
      var c := ConfidentOf(init);
      forall i | 0 <= i < |c| ensures LeftOf(c[i]) <= LeftOf(last) {
        assert c[i] in c;
        assert c[i] in init;
        var k :| 0 <= k < |init| && init[k] == c[i];
      }
    }
  }

  /**
   * The classifier of a region sees exactly the confident entries, each once,
   * ordered by the left edge of its box.
   */
  lemma ClassifierInput(rs: seq<OcrResult>)
    ensures var seen := ConfidentOf(SortBy(rs, LeftOf));
      SortedBy(seen, LeftOf) &&
      (forall r :: multiset(seen)[r] == if Confident(r) then multiset(rs)[r] else 0) &&
      RegionTokens(rs) == NormalizedAll(seen)
  {
    var sorted := SortBy(rs, LeftOf);
    ConfidentSorted(sorted);
    ConfidentOnly(sorted);
  }

  /** Some confident entry reads as purely alphabetic exactly when the classifier sees an alphabetic token. */
  lemma RegionHasAlpha(rs: seq<OcrResult>)
    ensures HasAlphaToken(RegionTokens(rs)) <==>
      exists r :: r in rs && Confident(r) && IsAlpha(Upper(Strip(r.text)))
  {
    if exists r :: r in rs && Confident(r) && IsAlpha(Upper(Strip(r.text))) {
      var r :| r in rs && Confident(r) && IsAlpha(Upper(Strip(r.text)));
      AlphaEntrySeen(rs, r);
    }
    if HasAlphaToken(RegionTokens(rs)) {
      var j :| 0 <= j < |RegionTokens(rs)| && IsAlpha(RegionTokens(rs)[j].text);
      AlphaTokenFromEntry(rs, j);
    }
  }

  lemma AlphaEntrySeen(rs: seq<OcrResult>, r: OcrResult)
    requires r in rs && Confident(r) && IsAlpha(Upper(Strip(r.text)))
    ensures HasAlphaToken(RegionTokens(rs))
  {
    var sorted := SortBy(rs, LeftOf);
    assert r in multiset(rs);
    assert r in sorted by {
      assert r in multiset(sorted);
    }
    ConfidentMembers(sorted);
    var seen := ConfidentOf(sorted);
    var j :| 0 <= j < |seen| && seen[j] == r;
    assert RegionTokens(rs)[j] == Normalized(r);
  }

  lemma AlphaTokenFromEntry(rs: seq<OcrResult>, j: nat)
    requires j < |RegionTokens(rs)| && IsAlpha(RegionTokens(rs)[j].text)
    ensures exists r :: r in rs && Confident(r) && IsAlpha(Upper(Strip(r.text)))
  {
    var sorted := SortBy(rs, LeftOf);
    var seen := ConfidentOf(sorted);
    var r := seen[j];
    assert RegionTokens(rs)[j] == Normalized(r);
    ConfidentMembers(sorted);
    assert r in seen;
    assert r in rs by {
      assert r in multiset(sorted);
      assert r in multiset(rs);
    }
  }

  /** An entry is among the confident ones exactly when it is an entry and confident. */
  lemma {:induction false} ConfidentMembers(rs: seq<OcrResult>)
    ensures forall r :: r in ConfidentOf(rs) <==> r in rs && Confident(r)
    decreases |rs|
  {
    if rs != [] {
      var init := rs[..|rs| - 1];
      ConfidentMembers(init);
      assert rs == init + [rs[|rs| - 1]];
    }
  }

  /**
   * A region yields a plate exactly when it returned entries, one confident
   * entry reads as purely alphabetic, the confident text holds a digit, and
   * there are at least four letters and digits in all.
   */
  lemma RegionAcceptanceIff(rs: seq<OcrResult>)
    ensures var flat := Flatten(RegionTokens(rs));
      RegionCandidate(rs).Some? <==>
        rs != [] && (exists r :: r in rs && Confident(r) && IsAlpha(Upper(Strip(r.text))))
        && |Digits(flat)| > 0 && |Letters(flat)| + |Digits(flat)| >= MinPlateLength
  {
    var ts := RegionTokens(rs);
    RegionHasAlpha(rs);
    AcceptanceIff(ts);
  }

  /** Without a confident alphabetic entry a region yields nothing. */
  lemma NoLetterNoPlate(rs: seq<OcrResult>)
    requires forall r :: r in rs && Confident(r) ==> !IsAlpha(Upper(Strip(r.text)))
    ensures RegionCandidate(rs) == None
  {
    RegionAcceptanceIff(rs);
  }

  /** A region's plate is letters followed by every digit of its confident text in left-to-right order. */
  lemma RegionPlateShape(rs: seq<OcrResult>)
    requires RegionCandidate(rs).Some?
    ensures var p, ds := RegionCandidate(rs).value, Digits(Flatten(RegionTokens(rs)));
      |ds| < |p| && p[|p| - |ds|..] == ds
      && forall k :: 0 <= k < |p| - |ds| ==> IsLetter(p[k])
  {
    var ts := RegionTokens(rs);
    var g := ClassifySpec(ts);
    ClassifyContents(ts);
    ClassifyCharClasses(ts);
    assert RegionPlate(g) == (g.small + g.large) + g.numbers;
    forall k | 0 <= k < |g.small + g.large| ensures IsLetter(RegionPlate(g)[k]) {
      assert RegionPlate(g)[k] == (g.small + g.large)[k];
    }
  }

  // ---------------------------------------------------------------------
  // The region loop of a sampled frame
  // ---------------------------------------------------------------------

  /** Whether a detection passes the detector threshold and counts in `detection_count`. */
  predicate Detected(g: Region) {
    g.conf >= DetectorThreshold
  }

  /** The plate a region offers to the debouncer, if any: OCR errors and empty crops offer nothing. */
  function RegionOffer(g: Region, width: nat, height: nat): Option<string> {
    if !Detected(g) then None
    else
      var b := TwoPixelBox(g.box, width, height);
      if !CropNonEmpty(b, width, height) then None
      else match g.ocr
        case Raised => None
        case Read(rs) => RegionCandidate(rs)
  }

  /** The number of detections above the threshold. */
  function DetectedCount(regions: seq<Region>): nat
    decreases |regions|
  {
    if regions == [] then 0
    else DetectedCount(regions[..|regions| - 1]) + (if Detected(regions[|regions| - 1]) then 1 else 0)
  }

  /** The plates offered to the debouncer in one frame, each with the clock reading taken for it. */
  function FrameOffers(regions: seq<Region>, times: seq<real>, width: nat, height: nat): seq<Offer>
    requires |times| == |regions|
    decreases |regions|
  {
    if regions == [] then []
    else
      var n := |regions| - 1;
      FrameOffers(regions[..n], times[..n], width, height) +
        match RegionOffer(regions[n], width, height)
        case None => []
        case Some(p) => [Offer(p, times[n])]
  }

  /** The counters and offers of a frame prefix extended by one region. */
  lemma FrameSnoc(regions: seq<Region>, times: seq<real>, width: nat, height: nat, i: nat)
    requires |times| == |regions| && i < |regions|
    ensures DetectedCount(regions[..i + 1]) == DetectedCount(regions[..i]) + (if Detected(regions[i]) then 1 else 0)
    ensures FrameOffers(regions[..i + 1], times[..i + 1], width, height) ==
      FrameOffers(regions[..i], times[..i], width, height) +
        match RegionOffer(regions[i], width, height)
        case None => []
        case Some(p) => [Offer(p, times[i])]
  {
    assert regions[..i + 1][..i] == regions[..i];
    assert times[..i + 1][..i] == times[..i];
  }

  /** Every offer of a frame is a plate some detected region yields. */
  lemma {:induction false} OffersComeFromRegions(regions: seq<Region>, times: seq<real>, width: nat, height: nat)
    requires |times| == |regions|
    ensures forall o :: o in FrameOffers(regions, times, width, height) ==>
      exists i :: 0 <= i < |regions| && Detected(regions[i]) && RegionOffer(regions[i], width, height) == Some(o.plate) && o.time == times[i]
    decreases |regions|
  {
    if regions != [] {
      var n := |regions| - 1;
      OffersComeFromRegions(regions[..n], times[..n], width, height);
      forall o | o in FrameOffers(regions, times, width, height)
        ensures exists i :: 0 <= i < |regions| && Detected(regions[i]) && RegionOffer(regions[i], width, height) == Some(o.plate) && o.time == times[i]
      {
        if o in FrameOffers(regions[..n], times[..n], width, height) {
          var i :| 0 <= i < n && Detected(regions[..n][i]) && RegionOffer(regions[..n][i], width, height) == Some(o.plate) && o.time == times[..n][i];
          assert regions[i] == regions[..n][i];
        } else {
          assert Detected(regions[n]) && RegionOffer(regions[n], width, height) == Some(o.plate) && o.time == times[n];
        }
      }
    }
  }

  /** `detection_count` and the two debouncer globals, updated in place by the region loop. */
  class RaspiLoop {
    var detectionCount: nat
    const controller: StreamController
    const debouncer: Debouncer

    constructor ()
      ensures detectionCount == 0 && fresh(controller) && fresh(debouncer)
      ensures controller.State() == AtStart && debouncer.State() == NoEmissionYet
    {
      detectionCount := 0;
      controller := new StreamController();
      debouncer := new Debouncer();
    }

    /**
     * The region loop of a sampled frame; `times[i]` is the clock reading
     * taken if region `i` yields a plate. The debouncer moves as `RunOffers`
     * says over the frame's offers, and the emitted plates are returned.
     */
    method ProcessFrame(regions: seq<Region>, times: seq<real>, width: nat, height: nat) returns (emitted: seq<Offer>)
      requires |times| == |regions|
      modifies this, debouncer
      ensures detectionCount == old(detectionCount) + DetectedCount(regions)
      ensures (debouncer.State(), emitted) == RunOffers(old(debouncer.State()), FrameOffers(regions, times, width, height))
    {
      emitted := [];
      ghost var s0 := debouncer.State();
      ghost var count0 := detectionCount;
      for i := 0 to |regions|
        invariant detectionCount == count0 + DetectedCount(regions[..i])
        invariant debouncer.State() == RunOffers(s0, FrameOffers(regions[..i], times[..i], width, height)).0
        invariant emitted == RunOffers(s0, FrameOffers(regions[..i], times[..i], width, height)).1
      {
        ghost var before := FrameOffers(regions[..i], times[..i], width, height);
        var plate := OfferOf(regions[i], width, height);
        FrameSnoc(regions, times, width, height, i);
        if Detected(regions[i]) {
          detectionCount := detectionCount + 1;
        }
        if plate.Some? {
          var o := Offer(plate.value, times[i]);
          assert FrameOffers(regions[..i + 1], times[..i + 1], width, height) == before + [o];
          RunOffersSnoc(s0, before, o);
          var sent := debouncer.Offer(o.plate, o.time);
          if sent {
            emitted := emitted + [o];
          }
        } else {
          assert FrameOffers(regions[..i + 1], times[..i + 1], width, height) == before;
        }
      }
      assert regions[..|regions|] == regions;
      assert times[..|times|] == times;
    }

    /**
     * One iteration of the main loop: the read handling, then, for a frame
     * the sampling rule passes, the region loop.
     */
    method Step(ok: bool, reopened: bool, regions: seq<Region>, times: seq<real>, width: nat, height: nat)
      returns (action: ReadAction, emitted: seq<Offer>)
      requires |times| == |regions|
      modifies this, controller, debouncer
      ensures (controller.State(), action) == StepSpec(old(controller.State()), ok)
      ensures LoopHead(controller.State())
      ensures action != Process ==>
        detectionCount == old(detectionCount) && debouncer.State() == old(debouncer.State()) && emitted == []
      ensures action == Process ==>
        detectionCount == old(detectionCount) + DetectedCount(regions) &&
        (debouncer.State(), emitted) == RunOffers(old(debouncer.State()), FrameOffers(regions, times, width, height))
    {
      action := controller.Poll(ok, reopened);
      emitted := [];
      if action == Process {
        emitted := ProcessFrame(regions, times, width, height);
      }
    }
  }

  /** One pass of the region loop: threshold, padded crop, OCR, and segmentation. */
  method OfferOf(g: Region, width: nat, height: nat) returns (plate: Option<string>)
    ensures plate == RegionOffer(g, width, height)
  {
    plate := None;
    if Detected(g) {
      var b := TwoPixelBox(g.box, width, height);
      if CropNonEmpty(b, width, height) && g.ocr.Read? {
        plate := SegmentRegion(g.ocr.results);
      }
    }
  }
}
