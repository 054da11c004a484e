/** What online detection does beside following its rule: who is saved, when a heartbeat ends a trip, and zero times. */
module LiveFacts {
  import opened Prelude
  import opened TripSegments
  import opened Trips
  import opened LiveTrips
  import opened LiveSimulation

  ghost predicate OnlyKnown(devices: set<string>, s: LiveState) {
    forall i | 0 <= i < |s.saved| :: s.saved[i].imei in devices && IsValidTrip(s.saved[i].trip)
  }

  /** Trips are saved for devices on record only, and only valid ones. */
  lemma {:induction false} OnlyKnownSaved(dist: Metric, devices: set<string>, s: LiveState, events: seq<Event>)
    requires OnlyKnown(devices, s)
    ensures OnlyKnown(devices, Run(dist, devices, s, events))
    ensures s.saved <= Run(dist, devices, s, events).saved
    decreases |events|
  {
    hide CreateTripFromPoints, IsValidTrip;
    if events != [] {
      OnlyKnownSaved(dist, devices, OnEvent(dist, devices, s, events[0]), events[1..]);
    }
  }

  /** A heartbeat ends a trip of two points or more exactly five minutes or more after it last moved. */
  lemma BeatEndsExactly(dist: Metric, devices: set<string>, s: LiveState, d: string, at: int)
    requires Consistent(s) && d in s.buffer && s.lastMoving[d] != 0
    ensures PhaseOf(OnHeartbeat(dist, devices, s, d, at), d) == Idle <==>
            |s.buffer[d]| >= 2 && at - s.lastMoving[d] >= 300000
  {
    hide CreateTripFromPoints, IsValidTrip, LastMovingTime;
  }

  /** Device d sends no point faster than 2 km/h. */
  ghost predicate StandsStill(events: seq<Event>, d: string) {
    forall i | 0 <= i < |events| && events[i].Location? && events[i].imei == d :: events[i].point.speed <= 2.0
  }

  lemma ZeroTimeStep(dist: Metric, devices: set<string>, s: LiveState, e: Event, d: string)
    requires Consistent(s) && d in s.lastMoving && s.lastMoving[d] == 0 && StandsStill([e], d)
    ensures var s' := OnEvent(dist, devices, s, e);
            d in s'.lastMoving && s'.lastMoving[d] == 0
            && PhaseOf(s', d) == PhaseOf(s, d) && SavedFor(s'.saved, d) == SavedFor(s.saved, d)
  {
    assert [e][0] == e;
    if e.imei != d {
      OtherDevice(dist, devices, s, e, d);
      hide CreateTripFromPoints, SavedFor;
    }
  }

  /** A trip that last moved at time 0 is stuck: until the device moves, no stop and no heartbeat ends or extends it. */
  lemma {:induction false} ZeroTimeStalls(
      dist: Metric, devices: set<string>, s: LiveState, events: seq<Event>, d: string)
    requires Consistent(s) && d in s.lastMoving && s.lastMoving[d] == 0 && StandsStill(events, d)
    ensures var s' := Run(dist, devices, s, events);
            PhaseOf(s', d) == PhaseOf(s, d) && SavedFor(s'.saved, d) == SavedFor(s.saved, d)
    decreases |events|
  {
    hide OnEvent, SavedFor, PhaseOf, Consistent;
    if events != [] {
      ConsistentPreserved(dist, devices, s, events[0]);
      ZeroTimeStep(dist, devices, s, events[0], d);
      ZeroTimeStalls(dist, devices, OnEvent(dist, devices, s, events[0]), events[1..], d);
    }
  }
}
