/**
 * The main loop of video_plate_recognition.py, one iteration at a time:
 * read a frame (the stream ending stops the loop), count it, fuse the OCR
 * fragments of its plate regions into at most one candidate, buffer it, and
 * run the window check. The clock is injected: `now` is the reading the
 * elapsed time is computed from, `restart` the reading taken when the timer
 * restarts after a close.
 */
module WindowPipeline {
  import opened Wrappers
  import opened Voting
  import opened FrameAggregation

  /** What one iteration does. */
  datatype StepOutcome =
    | StreamEnded
    | OcrRaised
    | Processed(candidate: Option<string>, report: Option<Sighting>)

  /** The request body sent for a report (the JPEG image is not modelled). */
  datatype Payload = Payload(plateNumber: string, detectionCount: nat, totalDetections: nat)

  function ToPayload(s: Sighting): Payload {
    Payload(s.plate, s.count, s.total)
  }

  /**
   * The payload of a close names the winner, and its vote count is between 1
   * and the number of buffered detections, which it also carries.
   */
  lemma PayloadBounds(s: WindowState, now: real, restart: real)
    requires TickSpec(s, now, restart).1.Some?
    ensures var p := ToPayload(TickSpec(s, now, restart).1.value);
      |s.buffer| > 0 && p.plateNumber == Winner(s.buffer) && p.plateNumber != s.lastPlate &&
      1 <= p.detectionCount <= p.totalDetections && p.totalDetections == |s.buffer|
  {
    TickMeaning(s, now, restart);
  }

  class WindowLoop {
    var frameCount: nat
    const window: VotingWindow

    constructor (now: real)
      ensures frameCount == 0 && fresh(window)
      ensures window.State() == WindowState([], now, "")
    {
      frameCount := 0;
      window := new VotingWindow(now);
    }

    /**
     * One iteration. A failed read ends the stream and changes nothing; an
     * OCR exception ends the program after the frame was counted; otherwise
     * the window moves exactly as `FrameStep` says, with the frame's fused
     * candidate. Sending a report to the server happens between recording
     * the winner and clearing the buffer and changes none of this state, so
     * it is not a parameter; `restart` is the clock reading taken after it.
     */
    method Step(readOk: bool, regions: seq<Region>, width: nat, height: nat, now: real, restart: real)
      returns (outcome: StepOutcome)
      modifies this, window
      ensures !readOk ==>
        outcome == StreamEnded && frameCount == old(frameCount) && window.State() == old(window.State())
      ensures readOk ==> frameCount == old(frameCount) + 1
      ensures readOk && FrameCandidate(regions, width, height).None? ==>
        outcome == OcrRaised && window.State() == old(window.State())
      ensures readOk && FrameCandidate(regions, width, height).Some? ==>
        var c := FrameCandidate(regions, width, height).value;
        var (s', report) := FrameStep(old(window.State()), FrameEvent(c, now, restart));
        window.State() == s' && outcome == Processed(c, report)
    {
      if !readOk {
        return StreamEnded;
      }
      frameCount := frameCount + 1;
      var fragments := CollectFragments(regions, width, height);
      if fragments.None? {
        return OcrRaised;
      }
      var candidate := FuseFrame(fragments.value);
      if candidate.Some? {
        window.Add(candidate.value);
      }
      var report := window.Tick(now, restart);
      outcome := Processed(candidate, report);
    }
  }
}
