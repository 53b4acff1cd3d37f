/** TiltSensor.java: a pulse at most every 2.5 seconds, and none right after
    enabling. Every call reads the clock for itself. */
module TiltSensor {

  const MIN_PULSE_INTERVAL_MS := 2500

  /** An event reads the clock twice: to decide, and to stamp if it passes. */
  datatype Event = Enable(time: int) | Sensed(decided: int, stamped: int, value: real)

  function FirstReading(e: Event): int { if e.Enable? then e.time else e.decided }
  function LastReading(e: Event): int { if e.Enable? then e.time else e.stamped }

  predicate Passes(stamp: int, e: Event) {
    e.Sensed? && e.decided - stamp >= MIN_PULSE_INTERVAL_MS
  }

  function Stamp(stamp: int, e: Event): int {
    if e.Enable? then e.time else if Passes(stamp, e) then e.stamped else stamp
  }

  predicate Pulses(stamp: int, e: Event) {
    Passes(stamp, e) && e.value == 1.0
  }

  /** mEntryTimestamp after a run; it starts at 0. */
  function StampAfter(events: seq<Event>): int {
    if events == [] then 0 else Stamp(StampAfter(events[..|events| - 1]), events[|events| - 1])
  }

  predicate PulsesAt(events: seq<Event>, k: nat)
    requires k < |events|
  {
    Pulses(StampAfter(events[..k]), events[k])
  }

  /** The times of the pulses of a run, in order. */
  function PulseTimes(events: seq<Event>): seq<int> {
    if events == [] then []
    else
      var front := events[..|events| - 1];
      var e := events[|events| - 1];
      PulseTimes(front) + if Pulses(StampAfter(front), e) then [e.stamped] else []
  }

  /** The clock never runs backwards, within an event or between events. */
  ghost predicate Clocked(events: seq<Event>) {
    && (forall k :: 0 <= k < |events| ==> FirstReading(events[k]) <= LastReading(events[k]))
    && (forall j, k :: 0 <= j < k < |events| ==> LastReading(events[j]) <= FirstReading(events[k]))
  }

  lemma {:induction false} StampIsAReading(events: seq<Event>)
    ensures StampAfter(events) == 0 || exists k :: 0 <= k < |events| && StampAfter(events) == LastReading(events[k])
  {
    if events != [] {
      var n := |events| - 1;
      var front := events[..n];
      StampIsAReading(front);
      if StampAfter(events) == StampAfter(front) && StampAfter(front) != 0 {
        var k :| 0 <= k < |front| && StampAfter(front) == LastReading(front[k]);
        assert StampAfter(events) == LastReading(events[k]);
      } else if StampAfter(events) != 0 {
        assert StampAfter(events) == LastReading(events[n]);
      }
    }
  }

  /** The event sets the stamp: an enable, or one that passes, tilt or not. */
  predicate Accepted(events: seq<Event>, k: nat)
    requires k < |events|
  {
    events[k].Enable? || Passes(StampAfter(events[..k]), events[k])
  }

  lemma {:induction false} StampIsLastAccepted(events: seq<Event>, j: int)
    requires -1 <= j < |events|
    requires forall m :: j < m < |events| ==> !Accepted(events, m)
    requires j >= 0 ==> Accepted(events, j)
    ensures StampAfter(events) == if j < 0 then 0 else LastReading(events[j])
    decreases |events|
  {
    var n := |events| - 1;
    if j < n {
      var front := events[..n];
      forall m: nat | m < n ensures Accepted(front, m) == Accepted(events, m) { assert front[..m] == events[..m]; }
      StampIsLastAccepted(front, j);
      assert !Accepted(events, n);
    }
  }

  /** The exact rule: with j the last event before it that set the stamp, an event
      pulses if and only if it is a tilt sensed 2500 ms or more after that one; so
      an event that is no tilt can still keep the next tilt from pulsing. */
  lemma {:induction false} PulsesExactly(events: seq<Event>, j: int, k: nat)
    requires -1 <= j < k < |events|
    requires forall m :: j < m < k ==> !Accepted(events, m)
    requires j >= 0 ==> Accepted(events, j)
    ensures PulsesAt(events, k)
      <==> events[k].Sensed? && events[k].value == 1.0
           && events[k].decided - (if j < 0 then 0 else LastReading(events[j])) >= 2500
    ensures Accepted(events, k)
      <==> events[k].Enable? || events[k].decided - (if j < 0 then 0 else LastReading(events[j])) >= 2500
  {
    var front := events[..k];
    forall m: nat | m < k ensures Accepted(front, m) == Accepted(events, m) { assert front[..m] == events[..m]; }
    StampIsLastAccepted(front, j);
  }

  /** These are exactly the positions at which the run pulses, from left to right,
      and the times are the stamps of the events there. */
  ghost predicate ArePulses(times: seq<int>, at: seq<int>, events: seq<Event>) {
    && |times| == |at|
    && (forall i, j :: 0 <= i < j < |at| ==> at[i] < at[j])
    && (forall i :: 0 <= i < |at| ==> 0 <= at[i] < |events| && PulsesAt(events, at[i]))
    && (forall i :: 0 <= i < |at| ==> times[i] == LastReading(events[at[i]]))
    && (forall k :: 0 <= k < |events| && PulsesAt(events, k) ==> k in at)
  }

  lemma {:induction false} PulsesOneMore(events: seq<Event>, times: seq<int>, at: seq<int>)
    requires events != [] && ArePulses(times, at, events[..|events| - 1])
    ensures var n := |events| - 1;
      if PulsesAt(events, n) then ArePulses(times + [LastReading(events[n])], at + [n], events)
      else ArePulses(times, at, events)
  {
    var n := |events| - 1;
    var front := events[..n];
    forall k | 0 <= k < n ensures PulsesAt(front, k) == PulsesAt(events, k) { assert front[..k] == events[..k]; }
  }

  function PulsePositions(events: seq<Event>): seq<int> {
    if events == [] then []
    else
      var n := |events| - 1;
      PulsePositions(events[..n]) + if PulsesAt(events, n) then [n] else []
  }

  /** A run's pulse times are those of its pulses, none left out or doubled. */
  lemma {:induction false} PulseTimesExactly(events: seq<Event>)
    ensures ArePulses(PulseTimes(events), PulsePositions(events), events)
  {
    if events != [] {
      var n := |events| - 1;
      PulseTimesExactly(events[..n]);
      PulsesOneMore(events, PulseTimes(events[..n]), PulsePositions(events[..n]));
    }
  }

  /** The other side of the rate bound: a tilt that comes the full interval after
      everything before it is never swallowed. */
  lemma {:induction false} LateTiltPulses(events: seq<Event>, k: nat)
    requires k < |events| && events[k].Sensed? && events[k].value == 1.0
    requires events[k].decided >= MIN_PULSE_INTERVAL_MS
    requires forall j :: 0 <= j < k ==> events[k].decided - LastReading(events[j]) >= MIN_PULSE_INTERVAL_MS
    ensures PulsesAt(events, k)
  {
    StampIsAReading(events[..k]);
  }

  /** Neighbouring pulses are at least the interval apart, and the stamp is never
      behind the last of them. */
  lemma {:induction false} PulsesAreSpaced(events: seq<Event>)
    requires Clocked(events)
    ensures var p := PulseTimes(events);
      && (forall i :: 0 < i < |p| ==> p[i] - p[i - 1] >= MIN_PULSE_INTERVAL_MS)
      && (|p| > 0 ==> p[|p| - 1] <= StampAfter(events))
      && (|p| > 0 ==> exists k :: 0 <= k < |events| && p[|p| - 1] == LastReading(events[k]))
  {
    if events != [] {
      var front := events[..|events| - 1];
      var e := events[|events| - 1];
      PulsesAreSpaced(front);
      var p := PulseTimes(front);
      if |p| > 0 {
        var k :| 0 <= k < |front| && p[|p| - 1] == LastReading(front[k]);
        assert events[k] == front[k] && LastReading(events[k]) <= FirstReading(e);
      }
      if Pulses(StampAfter(front), e) {
        assert LastReading(events[|events| - 1]) == e.stamped;
      }
    }
  }

  lemma {:induction false} FarApart(p: seq<int>, i: nat, j: nat)
    requires forall k :: 0 < k < |p| ==> p[k] - p[k - 1] >= MIN_PULSE_INTERVAL_MS
    requires i <= j < |p|
    ensures p[j] - p[i] >= MIN_PULSE_INTERVAL_MS * (j - i)
  {
    if i < j { FarApart(p, i, j - 1); }
  }

  /** How many of the times lie in the window from..to. */
  function CountIn(p: seq<int>, from: int, to: int): nat {
    if p == [] then 0
    else CountIn(p[..|p| - 1], from, to) + if from <= p[|p| - 1] <= to then 1 else 0
  }

  lemma {:induction false} CountByEnds(p: seq<int>, from: int, to: int) returns (i: nat, j: nat)
    requires forall k :: 0 < k < |p| ==> p[k] - p[k - 1] >= MIN_PULSE_INTERVAL_MS
    requires CountIn(p, from, to) > 0
    ensures i <= j < |p| && from <= p[i] && p[j] <= to && CountIn(p, from, to) == j - i + 1
  {
    var n := |p| - 1;
    if CountIn(p[..n], from, to) == 0 {
      i, j := n, n;
    } else {
      i, j := CountByEnds(p[..n], from, to);
      if from <= p[n] <= to {
        FarApart(p, j, n);
        CountAllBetween(p[..n], from, to, i);
        j := n;
      }
    }
  }

  /** Once inside the window, everything up to a later time inside it counts. */
  lemma {:induction false} CountAllBetween(p: seq<int>, from: int, to: int, i: nat)
    requires forall k :: 0 < k < |p| ==> p[k] - p[k - 1] >= MIN_PULSE_INTERVAL_MS
    requires i < |p| && from <= p[i] && p[|p| - 1] <= to
    ensures CountIn(p, from, to) >= |p| - i
  {
    FarApart(p, i, |p| - 1);
    if i < |p| - 1 {
      FarApart(p, |p| - 2, |p| - 1);
      CountAllBetween(p[..|p| - 1], from, to, i);
    }
  }

  /** In any run, any window of T milliseconds holds at most T/2500 + 1 pulses. */
  lemma {:induction false} RateIsBounded(events: seq<Event>, from: int, length: nat)
    requires Clocked(events)
    ensures CountIn(PulseTimes(events), from, from + length) <= length / MIN_PULSE_INTERVAL_MS + 1
  {
    var p := PulseTimes(events);
    PulsesAreSpaced(events);
    if CountIn(p, from, from + length) > 0 {
      var i, j := CountByEnds(p, from, from + length);
      FarApart(p, i, j);
    }
  }

  lemma {:induction false} StampAtLeastEnable(events: seq<Event>, m: nat)
    requires Clocked(events) && m < |events| && events[m].Enable?
    ensures StampAfter(events) >= events[m].time
  {
    var n := |events| - 1;
    if m < n {
      StampAtLeastEnable(events[..n], m);
    }
  }

  /** No pulse comes less than 2500 ms after an enable. */
  lemma {:induction false} NoPulseSoonAfterEnable(events: seq<Event>, m: nat, k: nat)
    requires Clocked(events) && m < k < |events| && events[m].Enable? && PulsesAt(events, k)
    ensures events[k].decided >= events[m].time + MIN_PULSE_INTERVAL_MS
    ensures events[k].stamped >= events[m].time + MIN_PULSE_INTERVAL_MS
  {
    StampAtLeastEnable(events[..k], m);
    assert FirstReading(events[k]) <= LastReading(events[k]);
  }

  class Sensor {
    var mEntryTimestamp: int
    /** The run so far, and the pulses launched. */
    ghost var events: seq<Event>
    var pulses: seq<int>

    ghost predicate Valid()
      reads this
    {
      mEntryTimestamp == StampAfter(events) && pulses == PulseTimes(events)
    }

    constructor ()
      ensures Valid() && events == []
    {
      mEntryTimestamp, events, pulses := 0, [], [];
    }

    /** decided and stamped are the two readings of elapsedRealtime. */
    method OnSensorChanged(value: real, decided: int, stamped: int)
      requires Valid()
      modifies this
      ensures Valid() && events == old(events) + [Sensed(decided, stamped, value)]
    {
      events := events + [Sensed(decided, stamped, value)];
      assert events[..|events| - 1] == old(events);
      var delta := decided - mEntryTimestamp;
      if delta < MIN_PULSE_INTERVAL_MS {
        return;
      } else {
        mEntryTimestamp := stamped;
      }
      if value == 1.0 {
        pulses := pulses + [stamped];
      }
    }

    method Enable(now: int)
      requires Valid()
      modifies this
      ensures Valid() && events == old(events) + [Event.Enable(now)]
    {
      events := events + [Event.Enable(now)];
      assert events[..|events| - 1] == old(events);
      mEntryTimestamp := now;
    }
  }
}
