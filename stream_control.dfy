/**
 * The read-failure and reconnect handling at the top of the main loop of
 * video_plate_recognition_raspi.py, together with the frame counter and the
 * frame-sampling rule. The read outcome and the reopen outcome are
 * parameters; the sleeps and the stream handle itself are not modelled.
 */
module StreamControl {

  /** `max_failures_before_reconnect`. */
  const MaxFailures: nat := 10
  /** `PROCESS_EVERY_N_FRAMES`. */
  const ProcessEveryN: nat := 2

  /** What the loop does with one read. */
  datatype ReadAction =
    | Retry      // failed read below the limit: short sleep, next iteration
    | Reconnect  // failed read reaching the limit: release, reopen, next iteration
    | Skip       // good frame that the sampling rule passes over
    | Process    // good frame that goes to detection

  datatype StreamState = StreamState(failures: nat, frameCount: nat)

  /** `consecutive_failures = 0`, `frame_count = 0`. */
  const AtStart: StreamState := StreamState(0, 0)

  /** The sampling rule: frame number `n` goes to detection. */
  predicate Sampled(n: nat) {
    n % ProcessEveryN == 0
  }

  /** The invariant at the head of the loop. */
  predicate LoopHead(s: StreamState) {
    s.failures < MaxFailures
  }

  /** One iteration's read handling, reconnect included: the state at the next loop head and the action. */
  function StepSpec(s: StreamState, ok: bool): (StreamState, ReadAction) {
    if !ok then
      if s.failures + 1 >= MaxFailures then (StreamState(0, s.frameCount), Reconnect)
      else (StreamState(s.failures + 1, s.frameCount), Retry)
    else
      var n := s.frameCount + 1;
      (StreamState(0, n), if !Sampled(n) then Skip else Process)
  }

  /** The state after a sequence of reads and the action taken on each. */
  function RunReads(s: StreamState, outcomes: seq<bool>): (r: (StreamState, seq<ReadAction>))
    ensures |r.1| == |outcomes|
    decreases |outcomes|
  {
    if outcomes == [] then (s, [])
    else
      var (mid, actions) := RunReads(s, outcomes[..|outcomes| - 1]);
      var (s', a) := StepSpec(mid, outcomes[|outcomes| - 1]);
      (s', actions + [a])
  }

  /** The number of failed reads at the end of `outcomes`. */
  function TrailingFailures(outcomes: seq<bool>): nat
    decreases |outcomes|
  {
    if outcomes == [] || outcomes[|outcomes| - 1] then 0 else TrailingFailures(outcomes[..|outcomes| - 1]) + 1
  }

  /** The number of good reads. */
  function GoodReads(outcomes: seq<bool>): nat
    decreases |outcomes|
  {
    if outcomes == [] then 0
    else GoodReads(outcomes[..|outcomes| - 1]) + (if outcomes[|outcomes| - 1] then 1 else 0)
  }

  /** One step keeps the loop-head invariant and the counters move as the source moves them. */
  lemma StepMeaning(s: StreamState, ok: bool)
    requires LoopHead(s)
    ensures var (s', a) := StepSpec(s, ok);
      LoopHead(s') &&
      (ok ==> s'.failures == 0 && s'.frameCount == s.frameCount + 1 && (a == Process <==> Sampled(s'.frameCount)) && a != Retry && a != Reconnect) &&
      (!ok ==> s'.frameCount == s.frameCount && (a == Reconnect <==> s.failures + 1 == MaxFailures) && (a == Retry <==> s.failures + 1 < MaxFailures)) &&
      (!ok ==> s'.failures == (s.failures + 1) % MaxFailures)
  {
  }

  /**
   * From the start of the program, the failure counter is the number of
   * trailing failed reads modulo the limit, and the frame counter is the
   * number of good reads.
   */
  lemma {:induction false} CountersFromStart(outcomes: seq<bool>)
    ensures RunReads(AtStart, outcomes).0 == StreamState(TrailingFailures(outcomes) % MaxFailures, GoodReads(outcomes))
    decreases |outcomes|
  {
    if outcomes != [] {
      var init := outcomes[..|outcomes| - 1];
      CountersFromStart(init);
      WrapStep(TrailingFailures(init));
    }
  }

  /** Counting one more failure modulo the limit. */
  lemma WrapStep(t: nat)
    ensures (t % MaxFailures + 1 >= MaxFailures) <==> (t + 1) % MaxFailures == 0
    ensures t % MaxFailures + 1 < MaxFailures ==> (t + 1) % MaxFailures == t % MaxFailures + 1
  {
  }

  /** A run extended by one read. */
  lemma RunReadsSnoc(s: StreamState, outcomes: seq<bool>, ok: bool)
    ensures RunReads(s, outcomes + [ok]) == (StepSpec(RunReads(s, outcomes).0, ok).0, RunReads(s, outcomes).1 + [StepSpec(RunReads(s, outcomes).0, ok).1])
  {
    assert (outcomes + [ok])[..|outcomes|] == outcomes;
  }

  /** The actions of a run are those of its prefixes. */
  lemma {:induction false} ActionsOfPrefix(s: StreamState, outcomes: seq<bool>, i: nat)
    requires i < |outcomes|
    ensures RunReads(s, outcomes).1[i] == StepSpec(RunReads(s, outcomes[..i]).0, outcomes[i]).1
    decreases |outcomes|
  {
    var init := outcomes[..|outcomes| - 1];
    assert outcomes == init + [outcomes[|outcomes| - 1]];
    RunReadsSnoc(s, init, outcomes[|outcomes| - 1]);
    if i < |init| {
      ActionsOfPrefix(s, init, i);
      assert init[..i] == outcomes[..i];
    }
  }

  /**
   * From the start of the program, failed read `i` triggers a reconnect
   * exactly when it brings the run of trailing failures to a multiple of the
   * limit, and otherwise retries; good read `i` goes to detection exactly
   * when it is an even-numbered good read, and is otherwise skipped.
   */
  lemma FailedReadAt(outcomes: seq<bool>, i: nat)
    requires i < |outcomes| && !outcomes[i]
    ensures var a, t := RunReads(AtStart, outcomes).1[i], TrailingFailures(outcomes[..i + 1]);
      (a == Reconnect <==> t % MaxFailures == 0) && (a == Retry <==> t % MaxFailures != 0)
  {
    var before := outcomes[..i];
    assert outcomes[..i + 1][..i] == before;
    ActionsOfPrefix(AtStart, outcomes, i);
    CountersFromStart(before);
    WrapStep(TrailingFailures(before));
  }

  lemma GoodReadAt(outcomes: seq<bool>, i: nat)
    requires i < |outcomes| && outcomes[i]
    ensures var a, n := RunReads(AtStart, outcomes).1[i], GoodReads(outcomes[..i + 1]);
      (a == Process <==> Sampled(n)) && (a == Skip <==> !Sampled(n))
  {
    var before := outcomes[..i];
    var mid := RunReads(AtStart, before).0;
    assert RunReads(AtStart, outcomes).1[i] == StepSpec(mid, true).1 by {
      ActionsOfPrefix(AtStart, outcomes, i);
    }
    assert GoodReads(outcomes[..i + 1]) == mid.frameCount + 1 by {
      GoodReadsSnoc(outcomes, i);
      FramesCounted(AtStart, before);
    }
  }

  lemma GoodReadsSnoc(outcomes: seq<bool>, i: nat)
    requires i < |outcomes|
    ensures GoodReads(outcomes[..i + 1]) == GoodReads(outcomes[..i]) + (if outcomes[i] then 1 else 0)
  {
    assert outcomes[..i + 1][..i] == outcomes[..i];
  }

  /** The frame counter counts good reads, from any state. */
  lemma {:induction false} FramesCounted(s: StreamState, outcomes: seq<bool>)
    ensures RunReads(s, outcomes).0.frameCount == s.frameCount + GoodReads(outcomes)
    decreases |outcomes|
  {
    if outcomes != [] {
      FramesCounted(s, outcomes[..|outcomes| - 1]);
    }
  }

  function Failures(k: nat): (r: seq<bool>)
    ensures |r| == k && forall i :: 0 <= i < k ==> !r[i]
  {
    seq(k, _ => false)
  }

  function Retries(k: nat): (r: seq<ReadAction>)
    ensures |r| == k && forall i :: 0 <= i < k ==> r[i] == Retry
  {
    seq(k, _ => Retry)
  }

  /** Failed reads below the limit only retry, counting up. */
  lemma {:induction false} FailuresBelowLimit(s: StreamState, k: nat)
    requires s.failures + k < MaxFailures
    ensures RunReads(s, Failures(k)) == (StreamState(s.failures + k, s.frameCount), Retries(k))
    decreases k
  {
    if k > 0 {
      FailuresBelowLimit(s, k - 1);
      assert Failures(k)[..k - 1] == Failures(k - 1);
      assert Retries(k - 1) + [Retry] == Retries(k);
    }
  }

  /**
   * Exactly the limit of consecutive failed reads after a good read (or at
   * the start) makes exactly one reconnect, on the last of them, and leaves
   * the counter at zero.
   */
  lemma LimitOfFailuresReconnectsOnce(s: StreamState)
    requires s.failures == 0
    ensures RunReads(s, Failures(MaxFailures)) == (StreamState(0, s.frameCount), Retries(MaxFailures - 1) + [Reconnect])
  {
    FailuresBelowLimit(s, MaxFailures - 1);
    RunReadsSnoc(s, Failures(MaxFailures - 1), false);
    assert Failures(MaxFailures - 1) + [false] == Failures(MaxFailures);
  }

  /** A good read at any point resets the counter and never reconnects. */
  lemma GoodReadResets(s: StreamState, outcomes: seq<bool>)
    ensures RunReads(s, outcomes + [true]).0.failures == 0
    ensures RunReads(s, outcomes + [true]).1[|outcomes|] in {Skip, Process}
  {
    RunReadsSnoc(s, outcomes, true);
  }

  /** `consecutive_failures` and `frame_count`, updated in place. */
  class StreamController {
    var failures: nat
    var frameCount: nat

    function State(): StreamState
      reads this
    {
      StreamState(failures, frameCount)
    }

    constructor ()
      ensures State() == AtStart
    {
      failures, frameCount := 0, 0;
    }

    /** The read outcome: count a failure or a frame, and say what the loop does next. */
    method OnRead(ok: bool) returns (action: ReadAction)
      modifies this
      ensures !ok ==> State() == StreamState(old(failures) + 1, old(frameCount))
      ensures !ok ==> action == (if failures >= MaxFailures then Reconnect else Retry)
      ensures ok ==> State() == StreamState(0, old(frameCount) + 1)
      ensures ok ==> action == (if !Sampled(frameCount) then Skip else Process)
    {
      if !ok {
        failures := failures + 1;
        if failures >= MaxFailures {
          action := Reconnect;
        } else {
          action := Retry;
        }
        return;
      }
      failures := 0;
      frameCount := frameCount + 1;
      if frameCount % ProcessEveryN != 0 {
        action := Skip;
      } else {
        action := Process;
      }
    }

    /** After the reopen attempt the counter restarts, whether or not the stream opened. */
    method OnReconnect(reopened: bool)
      modifies this
      ensures State() == StreamState(0, old(frameCount))
    {
      if reopened {
        failures := 0;
      } else {
        failures := 0;
      }
    }

    /** One loop iteration's read handling: the state at the next loop head is the one `StepSpec` gives. */
    method Poll(ok: bool, reopened: bool) returns (action: ReadAction)
      modifies this
      ensures (State(), action) == StepSpec(old(State()), ok)
      ensures LoopHead(State())
    {
      action := OnRead(ok);
      if action == Reconnect {
        OnReconnect(reopened);
      }
    }
  }

  /**
   * The read-handling loop over a sequence of read and reopen outcomes: the
   * loop-head invariant holds throughout and the counters end as `RunReads` says.
   */
  method PollAll(c: StreamController, outcomes: seq<bool>, reopens: seq<bool>) returns (actions: seq<ReadAction>)
    requires |reopens| == |outcomes| && LoopHead(c.State())
    modifies c
    ensures (c.State(), actions) == RunReads(old(c.State()), outcomes)
    ensures LoopHead(c.State())
  {
    actions := [];
    ghost var s0 := c.State();
    var i := 0;
    while i < |outcomes|
      invariant 0 <= i <= |outcomes|
      invariant LoopHead(c.State())
      invariant (c.State(), actions) == RunReads(s0, outcomes[..i])
    {
      var a := c.Poll(outcomes[i], reopens[i]);
      assert outcomes[..i + 1][..i] == outcomes[..i];
      actions := actions + [a];
      i := i + 1;
    }
    assert outcomes[..|outcomes|] == outcomes;
  }
}
