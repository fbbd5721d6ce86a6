/**
 * The five-second majority-vote window of video_plate_recognition.py:
 * candidates accumulate in `detection_buffer`; once the window has run for
 * `time_limit` seconds and holds something, the most common string wins
 * (`Counter.most_common(1)`, ties going to the string seen first), it is
 * reported only if it differs from `last_detected_plate`, and the buffer and
 * the timer restart.
 */
module Voting {
  import opened Wrappers

  /** `time_limit`. */
  const TimeLimit: real := 5.0

  /** Occurrences of `x` in `s`. */
  function Count(s: seq<string>, x: string): nat
    decreases |s|
  {
    if s == [] then 0 else Count(s[..|s| - 1], x) + (if s[|s| - 1] == x then 1 else 0)
  }

  /** Position of the first occurrence of `x`: the order in which `Counter` lists its keys. */
  function FirstIndex(s: seq<string>, x: string): (i: nat)
    requires x in s
    ensures i < |s| && s[i] == x && forall j :: 0 <= j < i ==> s[j] != x
  {
    if s[0] == x then 0 else 1 + FirstIndex(s[1..], x)
  }

  /**
   * What `most_common(1)[0][0]` returns: a string of the buffer with the
   * largest count, and among those the one whose first occurrence is earliest.
   */
  ghost predicate IsMostCommon(buf: seq<string>, w: string) {
    && w in buf
    && forall i :: 0 <= i < |buf| ==>
         Count(buf, buf[i]) <= Count(buf, w)
         && (Count(buf, buf[i]) == Count(buf, w) ==> FirstIndex(buf, w) <= i)
  }

  /** The winner among the first `n` entries, counting over the whole buffer. */
  function WinnerUpTo(buf: seq<string>, n: nat): (w: string)
    requires 1 <= n <= |buf|
    ensures w in buf && FirstIndex(buf, w) < n
    ensures forall i :: 0 <= i < n ==>
      Count(buf, buf[i]) <= Count(buf, w)
      && (Count(buf, buf[i]) == Count(buf, w) ==> FirstIndex(buf, w) <= i)
  {
    if n == 1 then buf[0]
    else
      var w := WinnerUpTo(buf, n - 1);
      var x := buf[n - 1];
      if Count(buf, x) > Count(buf, w) then x else w
  }

  /** `Counter(buf).most_common(1)[0][0]`. */
  function Winner(buf: seq<string>): (w: string)
    requires |buf| > 0
    ensures IsMostCommon(buf, w)
  {
    WinnerUpTo(buf, |buf|)
  }

  /** The most-common rule picks exactly one string: any string meeting it is the winner. */
  lemma MostCommonUnique(buf: seq<string>, a: string, b: string)
    requires IsMostCommon(buf, a) && IsMostCommon(buf, b)
    ensures a == b
  {
    var ia, ib := FirstIndex(buf, a), FirstIndex(buf, b);
    assert Count(buf, buf[ia]) == Count(buf, buf[ib]);
    assert ia <= ib && ib <= ia;
  }

  lemma {:induction false} CountBounds(buf: seq<string>, x: string)
    ensures Count(buf, x) <= |buf|
    ensures x in buf <==> Count(buf, x) >= 1
    decreases |buf|
  {
    if buf != [] {
      var init := buf[..|buf| - 1];
      CountBounds(init, x);
      if x in buf && x != buf[|buf| - 1] {
        var i :| 0 <= i < |buf| && buf[i] == x;
        assert init[i] == x;
      }
      if x in init {
        var i :| 0 <= i < |init| && init[i] == x;
        assert buf[i] == x;
      }
    }
  }

  /** Two different strings share the buffer: their counts add up to at most its length. */
  lemma {:induction false} CountPair(buf: seq<string>, a: string, b: string)
    ensures a != b ==> Count(buf, a) + Count(buf, b) <= |buf|
    decreases |buf|
  {
    if buf != [] {
      CountPair(buf[..|buf| - 1], a, b);
    }
  }

  /** A string holding more than half of the votes wins. */
  lemma MajorityWins(buf: seq<string>, a: string)
    requires 2 * Count(buf, a) > |buf|
    ensures |buf| > 0 && Winner(buf) == a
  {
    CountBounds(buf, a);
    var w := Winner(buf);
    var i := FirstIndex(buf, a);
    assert Count(buf, a) <= Count(buf, w);
    CountPair(buf, a, w);
  }

  /** Three candidates `AB123`, `AB123`, `CD456`: `AB123` wins with two of the three votes. */
  lemma ThreeCandidateExample()
    ensures Winner(["AB123", "AB123", "CD456"]) == "AB123"
    ensures Count(["AB123", "AB123", "CD456"], "AB123") == 2
  {
    var buf := ["AB123", "AB123", "CD456"];
    assert buf[..2] == ["AB123", "AB123"] && buf[..2][..1] == ["AB123"];
    assert Count(["AB123"], "AB123") == 1;
    assert Count(buf[..2], "AB123") == 2;
    assert Count(buf, "AB123") == 2;
    MajorityWins(buf, "AB123");
  }

  // ---------------------------------------------------------------------
  // The window's state and its transitions
  // ---------------------------------------------------------------------

  /** What is reported for a closed window: `plate_number`, `detection_count`, `total_detections`. */
  datatype Sighting = Sighting(plate: string, count: nat, total: nat)

  /** `detection_buffer`, `start_time`, `last_detected_plate`. */
  datatype WindowState = WindowState(buffer: seq<string>, startTime: real, lastPlate: string)

  /** The close condition: `elapsed_time >= time_limit and detection_buffer`. */
  predicate Closes(s: WindowState, now: real) {
    now - s.startTime >= TimeLimit && |s.buffer| > 0
  }

  /**
   * The check after each processed frame, at clock reading `now`; `restart`
   * is the later clock reading that becomes the new `start_time`.
   */
  function TickSpec(s: WindowState, now: real, restart: real): (WindowState, Option<Sighting>) {
    if !Closes(s, now) then (s, None)
    else
      var w := Winner(s.buffer);
      var report := if w != s.lastPlate then Some(Sighting(w, Count(s.buffer, w), |s.buffer|)) else None;
      (WindowState([], restart, w), report)
  }

  /**
   * The meaning of one check: without a close nothing changes and nothing is
   * reported; a close empties the buffer, restarts the timer, makes the
   * winner the last plate, and reports the most common string, with 1 <= count
   * <= total = buffer length, exactly when it differs from the previous last plate.
   */
  lemma TickMeaning(s: WindowState, now: real, restart: real)
    ensures var (s', report) := TickSpec(s, now, restart);
      && (!Closes(s, now) ==> s' == s && report == None)
      && (Closes(s, now) ==>
            && s'.buffer == [] && s'.startTime == restart
            && IsMostCommon(s.buffer, s'.lastPlate)
            && (report.Some? <==> s'.lastPlate != s.lastPlate)
            && (report.Some? ==>
                  && report.value.plate == s'.lastPlate
                  && report.value.count == Count(s.buffer, s'.lastPlate)
                  && 1 <= report.value.count <= report.value.total == |s.buffer|))
  {
    if Closes(s, now) {
      CountBounds(s.buffer, Winner(s.buffer));
    }
  }

  /** After a close, the same winner at the next close is not reported again. */
  lemma RepeatedWinnerSuppressed(s: WindowState, now: real, restart: real, added: seq<string>, now2: real, restart2: real)
    requires Closes(s, now)
    requires var s1 := TickSpec(s, now, restart).0;
      var s2 := WindowState(s1.buffer + added, s1.startTime, s1.lastPlate);
      Closes(s2, now2) && Winner(s2.buffer) == Winner(s.buffer)
    ensures var s1 := TickSpec(s, now, restart).0;
      TickSpec(WindowState(s1.buffer + added, s1.startTime, s1.lastPlate), now2, restart2).1 == None
  {
  }

  /** One processed frame: its candidate, if any, is appended, then the window is checked. */
  datatype FrameEvent = FrameEvent(candidate: Option<string>, now: real, restart: real)

  function AddCandidate(s: WindowState, c: Option<string>): WindowState {
    if c.Some? then WindowState(s.buffer + [c.value], s.startTime, s.lastPlate) else s
  }

  function FrameStep(s: WindowState, e: FrameEvent): (WindowState, Option<Sighting>) {
    TickSpec(AddCandidate(s, e.candidate), e.now, e.restart)
  }

  /** The window over a run of processed frames: the final state and every report, in order. */
  function RunFrames(s: WindowState, es: seq<FrameEvent>): (WindowState, seq<Sighting>)
    decreases |es|
  {
    if es == [] then (s, [])
    else
      var (mid, reports) := RunFrames(s, es[..|es| - 1]);
      var (s', report) := FrameStep(mid, es[|es| - 1]);
      (s', reports + (if report.Some? then [report.value] else []))
  }

  /**
   * Over any run, the last plate is the last report (or the initial last plate
   * if nothing was reported), no report repeats the plate of the one before
   * it, and the first report differs from the initial last plate.
   */
  lemma {:induction false} ReportsAlternate(s: WindowState, es: seq<FrameEvent>)
    ensures var (s', reports) := RunFrames(s, es);
      && s'.lastPlate == (if reports == [] then s.lastPlate else reports[|reports| - 1].plate)
      && (reports != [] ==> reports[0].plate != s.lastPlate)
      && forall i :: 0 < i < |reports| ==> reports[i].plate != reports[i - 1].plate
    decreases |es|
  {
    if es != [] {
      ReportsAlternate(s, es[..|es| - 1]);
      var (mid, reports) := RunFrames(s, es[..|es| - 1]);
      var e := es[|es| - 1];
      var added := AddCandidate(mid, e.candidate);
      TickMeaning(added, e.now, e.restart);
    }
  }

  /** The strings the frames of a run offered as candidates. */
  function Offered(es: seq<FrameEvent>): set<string>
    decreases |es|
  {
    if es == [] then {}
    else
      var c := es[|es| - 1].candidate;
      Offered(es[..|es| - 1]) + (if c.Some? then {c.value} else {})
  }

  /** Every report of a run, and everything left buffered, was already buffered or offered by a frame of the run. */
  lemma {:induction false} ReportsWereOffered(s: WindowState, es: seq<FrameEvent>)
    ensures var (s', reports) := RunFrames(s, es);
      && (forall x :: x in s'.buffer ==> x in s.buffer || x in Offered(es))
      && (forall i :: 0 <= i < |reports| ==> reports[i].plate in s.buffer || reports[i].plate in Offered(es))
    decreases |es|
  {
    if es != [] {
      ReportsWereOffered(s, es[..|es| - 1]);
    }
  }

  // ---------------------------------------------------------------------
  // The window as the program holds it: three globals updated in place
  // ---------------------------------------------------------------------

  class VotingWindow {
    var buffer: seq<string>
    var startTime: real
    var lastPlate: string

    function State(): WindowState
      reads this
    {
      WindowState(buffer, startTime, lastPlate)
    }

    /** `detection_buffer = []`, `start_time = time.time()`, `last_detected_plate = ""`. */
    constructor (now: real)
      ensures State() == WindowState([], now, "")
    {
      buffer, startTime, lastPlate := [], now, "";
    }

    /** `detection_buffer.append(formatted_plate)`. */
    method Add(plate: string)
      modifies this
      ensures State() == AddCandidate(old(State()), Some(plate))
    {
      buffer := buffer + [plate];
    }

    /** The end-of-frame check: vote, report if new, then clear the buffer and restart the timer. */
    method Tick(now: real, restart: real) returns (report: Option<Sighting>)
      modifies this
      ensures (State(), report) == TickSpec(old(State()), now, restart)
    {
      report := None;
      var elapsed := now - startTime;
      if elapsed >= TimeLimit && |buffer| > 0 {
        var detected := Winner(buffer);
        var count := Count(buffer, detected);
        if detected != lastPlate {
          lastPlate := detected;
          report := Some(Sighting(detected, count, |buffer|));
        }
        buffer := [];
        startTime := restart;
      }
    }
  }
}
