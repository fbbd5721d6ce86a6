/**
 * The immediate-debounce policy of video_plate_recognition_raspi.py: every
 * accepted candidate is judged as it arrives and is emitted when its text
 * differs from the last emitted plate or at least half a second has passed
 * since the last emission. Clock readings are parameters.
 */
module Debounce {

  /** `min_detection_interval`. */
  const MinInterval: real := 0.5

  datatype DebounceState = DebounceState(lastPlate: string, lastTime: real)

  /** `last_detected_plate = ""`, `last_detection_time = 0`. */
  const NoEmissionYet: DebounceState := DebounceState("", 0.0)

  predicate Emits(s: DebounceState, plate: string, now: real) {
    plate != s.lastPlate || now - s.lastTime >= MinInterval
  }

  /** One candidate, judged at clock reading `now`: the new state and whether it was emitted. */
  function OfferSpec(s: DebounceState, plate: string, now: real): (DebounceState, bool) {
    if Emits(s, plate, now) then (DebounceState(plate, now), true) else (s, false)
  }

  datatype Offer = Offer(plate: string, time: real)

  /** The state after a sequence of offers, and the offers that were emitted, in order. */
  function RunOffers(s: DebounceState, offers: seq<Offer>): (DebounceState, seq<Offer>)
    decreases |offers|
  {
    if offers == [] then (s, [])
    else
      var (mid, emitted) := RunOffers(s, offers[..|offers| - 1]);
      var o := offers[|offers| - 1];
      var (s', sent) := OfferSpec(mid, o.plate, o.time);
      (s', if sent then emitted + [o] else emitted)
  }

  /** What one offer does: emission exactly under the rule, and the state moves only on emission. */
  lemma OfferMeaning(s: DebounceState, plate: string, now: real)
    ensures OfferSpec(s, plate, now).1 <==> plate != s.lastPlate || now - s.lastTime >= MinInterval
    ensures OfferSpec(s, plate, now).1 ==> OfferSpec(s, plate, now).0 == DebounceState(plate, now)
    ensures !OfferSpec(s, plate, now).1 ==> OfferSpec(s, plate, now).0 == s
  {
  }

  /** After a run, the state records the last emission, or is untouched if there was none. */
  lemma {:induction false} StateIsLastEmission(s: DebounceState, offers: seq<Offer>)
    ensures var (s', emitted) := RunOffers(s, offers);
      (emitted == [] ==> s' == s) &&
      (emitted != [] ==> s' == DebounceState(emitted[|emitted| - 1].plate, emitted[|emitted| - 1].time))
    decreases |offers|
  {
    if offers != [] {
      StateIsLastEmission(s, offers[..|offers| - 1]);
    }
  }

  /**
   * Every emission obeys the rule against the emission before it (or the
   * initial state, for the first): a repeated plate is emitted only after at
   * least the minimum interval.
   */
  lemma {:induction false} EmissionsSpaced(s: DebounceState, offers: seq<Offer>)
    ensures var emitted := RunOffers(s, offers).1;
      (emitted != [] ==> Emits(s, emitted[0].plate, emitted[0].time)) &&
      forall k :: 0 <= k < |emitted| - 1 ==>
        emitted[k + 1].plate != emitted[k].plate || emitted[k + 1].time - emitted[k].time >= MinInterval
    decreases |offers|
  {
    if offers != [] {
      var init := offers[..|offers| - 1];
      EmissionsSpaced(s, init);
      StateIsLastEmission(s, init);
    }
  }

  /** An offer whose plate differs from the state reached so far is always emitted. */
  lemma ChangedPlateEmitted(s: DebounceState, offers: seq<Offer>, o: Offer)
    requires o.plate != RunOffers(s, offers).0.lastPlate
    ensures RunOffers(s, offers + [o]).1 == RunOffers(s, offers).1 + [o]
  {
    RunOffersSnoc(s, offers, o);
  }

  /** An offer that repeats the last plate within the interval changes nothing. */
  lemma RepeatWithinIntervalSuppressed(s: DebounceState, offers: seq<Offer>, o: Offer)
    requires o.plate == RunOffers(s, offers).0.lastPlate && o.time - RunOffers(s, offers).0.lastTime < MinInterval
    ensures RunOffers(s, offers + [o]) == RunOffers(s, offers)
  {
    RunOffersSnoc(s, offers, o);
  }

  /** Everything emitted was offered. */
  lemma {:induction false} EmittedWereOffered(s: DebounceState, offers: seq<Offer>)
    ensures forall e :: e in RunOffers(s, offers).1 ==> e in offers
    decreases |offers|
  {
    if offers != [] {
      var init := offers[..|offers| - 1];
      EmittedWereOffered(s, init);
      assert forall e :: e in init ==> e in offers;
    }
  }

  /**
   * With last plate "AB123": "XY999" is emitted at once; its repeat 0.2 s
   * later is not; a repeat 0.6 s after the emission is.
   */
  lemma ImmediateExample()
    ensures RunOffers(DebounceState("AB123", 10.0), [Offer("XY999", 10.1), Offer("XY999", 10.3), Offer("XY999", 10.7)]).1
      == [Offer("XY999", 10.1), Offer("XY999", 10.7)]
  {
    var s := DebounceState("AB123", 10.0);
    var a, b, c := Offer("XY999", 10.1), Offer("XY999", 10.3), Offer("XY999", 10.7);
    assert "XY999"[0] != "AB123"[0];
    RunOffersSnoc(s, [], a);
    assert [] + [a] == [a];
    RunOffersSnoc(s, [a], b);
    assert [a] + [b] == [a, b];
    RunOffersSnoc(s, [a, b], c);
    assert [a, b] + [c] == [a, b, c];
  }

  /** A run extended by one offer. */
  lemma RunOffersSnoc(s: DebounceState, offers: seq<Offer>, o: Offer)
    ensures RunOffers(s, offers + [o]).0 == OfferSpec(RunOffers(s, offers).0, o.plate, o.time).0
    ensures RunOffers(s, offers + [o]).1 == RunOffers(s, offers).1 + (if OfferSpec(RunOffers(s, offers).0, o.plate, o.time).1 then [o] else [])
  {
    assert (offers + [o])[..|offers|] == offers;
  }

  /** `last_detected_plate` and `last_detection_time`, updated in place. */
  class Debouncer {
    var lastPlate: string
    var lastTime: real

    function State(): DebounceState
      reads this
    {
      DebounceState(lastPlate, lastTime)
    }

    constructor ()
      ensures State() == NoEmissionYet
    {
      lastPlate, lastTime := "", 0.0;
    }

    method Offer(plate: string, now: real) returns (emit: bool)
      modifies this
      ensures (State(), emit) == OfferSpec(old(State()), plate, now)
    {
      var timeSinceLast := now - lastTime;
      emit := plate != lastPlate || timeSinceLast >= MinInterval;
      if emit {
        lastPlate := plate;
        lastTime := now;
      }
    }
  }
}
