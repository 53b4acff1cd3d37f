/** ProximitySensor.java: a pulse when the sensor is uncovered again, if the
    time it was covered suits the enabled gestures. */
module ProximitySensor {

  const HANDWAVE_MAX_DELTA_NS := 1000 * 1000 * 1000
  const POCKET_MIN_DELTA_NS := 2000 * 1000 * 1000

  datatype Settings = Settings(handwave: bool, pocket: bool)

  /** One sensor event, with the settings in force when it is handled. */
  datatype Event = Event(value: real, timestamp: int, settings: Settings)

  predicate Near(e: Event, maximumRange: real) { e.value < maximumRange }

  predicate ShouldPulse(delta: int, s: Settings) {
    if s.handwave && s.pocket then true
    else if s.handwave then delta < HANDWAVE_MAX_DELTA_NS
    else if s.pocket then delta >= POCKET_MIN_DELTA_NS
    else false
  }

  datatype State = State(sawNear: bool, inPocketTime: int)

  function Step(s: State, e: Event, maximumRange: real): State {
    var isNear := Near(e, maximumRange);
    State(isNear, if s.sawNear && !isNear then s.inPocketTime else e.timestamp)
  }

  predicate Pulses(s: State, e: Event, maximumRange: real) {
    s.sawNear && !Near(e, maximumRange) && ShouldPulse(e.timestamp - s.inPocketTime, e.settings)
  }

  function After(events: seq<Event>, maximumRange: real): State {
    if events == [] then State(false, 0)
    else Step(After(events[..|events| - 1], maximumRange), events[|events| - 1], maximumRange)
  }

  /** The positions at which a run pulses. */
  ghost function PulseSet(events: seq<Event>, maximumRange: real): set<nat> {
    set k: nat | k < |events| && Pulses(After(events[..k], maximumRange), events[k], maximumRange)
  }

  /** Event k is the first far one after a near one. */
  predicate Uncovers(events: seq<Event>, maximumRange: real, k: nat) {
    0 < k < |events| && Near(events[k - 1], maximumRange) && !Near(events[k], maximumRange)
  }

  /** A pulse comes at event k exactly when event k-1 was near, event k is far,
      and the settings accept the time since event k-1: the last near event, not
      the one that first covered the sensor. */
  lemma {:induction false} PulseExactly(events: seq<Event>, maximumRange: real, k: nat)
    ensures k in PulseSet(events, maximumRange) <==>
      && Uncovers(events, maximumRange, k)
      && events[k - 1].value < maximumRange <= events[k].value
      && var time, s := events[k].timestamp - events[k - 1].timestamp, events[k].settings;
         (s.handwave && time < 1_000_000_000) || (s.pocket && time >= 2_000_000_000) || (s.handwave && s.pocket)
  {
  }

  /** The same run with the settings fixed throughout. */
  function WithSettings(events: seq<Event>, s: Settings): seq<Event> {
    seq(|events|, i requires 0 <= i < |events| => events[i].(settings := s))
  }

  /** How long before event k the previous one came. */
  function Gap(events: seq<Event>, k: nat): int
    requires 0 < k < |events|
  {
    events[k].timestamp - events[k - 1].timestamp
  }

  /** For fixed settings: a hand wave is a gap under one second, a pocket one of
      two seconds or more, and with both gestures on every uncovering pulses. */
  lemma {:induction false} PulsesByGap(events: seq<Event>, maximumRange: real, s: Settings, k: nat)
    ensures k in PulseSet(WithSettings(events, s), maximumRange) <==>
      && Uncovers(events, maximumRange, k)
      && (s.handwave && !s.pocket ==> Gap(events, k) < 1_000_000_000)
      && (s.pocket && !s.handwave ==> Gap(events, k) >= 2_000_000_000)
      && (s.handwave || s.pocket)
  {
    PulseExactly(WithSettings(events, s), maximumRange, k);
  }

  /** For fixed settings the two gestures never pulse at the same event; with
      both on, a run pulses where either would, and besides exactly at the gaps
      of at least one but less than two seconds; with both off, nowhere. */
  lemma {:induction false} GesturesPartition(events: seq<Event>, maximumRange: real)
    ensures var hand := PulseSet(WithSettings(events, Settings(true, false)), maximumRange);
      var pocket := PulseSet(WithSettings(events, Settings(false, true)), maximumRange);
      var both := PulseSet(WithSettings(events, Settings(true, true)), maximumRange);
      && hand !! pocket && hand + pocket <= both
      && (forall k :: k in both ==> 0 < k < |events|)
      && both - hand - pocket == (set k | k in both && HANDWAVE_MAX_DELTA_NS <= Gap(events, k) < POCKET_MIN_DELTA_NS)
      && PulseSet(WithSettings(events, Settings(false, false)), maximumRange) == {}
  {
  }

  class Sensor {
    const maximumRange: real
    var mSawNear: bool
    var mInPocketTime: int
    /** Whether the last event launched a pulse, for every event of the run. */
    var pulsed: seq<bool>
    ghost var events: seq<Event>

    ghost predicate Valid()
      reads this
    {
      && State(mSawNear, mInPocketTime) == After(events, maximumRange)
      && |pulsed| == |events|
      && forall k: nat :: k < |events| ==>
        (pulsed[k] <==> Pulses(After(events[..k], maximumRange), events[k], maximumRange))
    }

    constructor (maximumRange: real)
      ensures Valid() && this.maximumRange == maximumRange && events == []
    {
      this.maximumRange := maximumRange;
      mSawNear, mInPocketTime, pulsed, events := false, 0, [], [];
    }

    method OnSensorChanged(e: Event)
      requires Valid()
      modifies this
      ensures Valid() && events == old(events) + [e] && old(pulsed) <= pulsed
    {
      var isNear := e.value < maximumRange;
      var pulse := false;
      if mSawNear && !isNear {
        pulse := ShouldPulse(e.timestamp - mInPocketTime, e.settings);
      } else {
        mInPocketTime := e.timestamp;
      }
      mSawNear := isNear;
      events := events + [e];
      pulsed := pulsed + [pulse];
      assert events[..|events| - 1] == old(events);
      forall k: nat | k < |events|
        ensures pulsed[k] <==> Pulses(After(events[..k], maximumRange), events[k], maximumRange)
      {
        if k < |events| - 1 { assert events[..k] == old(events)[..k]; }
      }
    }
  }
}
