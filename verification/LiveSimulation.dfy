/**
  What online detection computes, for every interleaving of events of any number of devices: per device it is
  the segmentation of `TripSegments` under the Live rule, applied to the points it does not drop.
*/
module LiveSimulation {
  import opened Prelude
  import opened TripSegments
  import opened Trips
  import opened LiveTrips

  /** What one device sends. */
  datatype Input = Point(p: TripPoint) | Beat(at: int)

  function InputsOf(events: seq<Event>, d: string): seq<Input> {
    if events == [] then []
    else
      var rest := InputsOf(events[1..], d);
      match events[0]
      case Location(imei, p) => if imei == d then [Point(p)] + rest else rest
      case Heartbeat(imei, at) => if imei == d then [Beat(at)] + rest else rest
  }

  function SavedFor(saved: seq<SavedTrip>, d: string): seq<Trip> {
    if saved == [] then []
    else SavedFor(saved[..|saved| - 1], d) + (if saved[|saved| - 1].imei == d then [saved[|saved| - 1].trip] else [])
  }

  /** What the maps say about device d. */
  function PhaseOf(s: LiveState, d: string): Phase {
    if d in s.buffer && d in s.lastMoving then Open(s.buffer[d], s.lastMoving[d]) else Idle
  }

  /** A stopped point is lost while the open trip holds a single point. */
  predicate Dropped(ph: Phase, p: TripPoint) {
    ph.Open? && |ph.buf| <= 1 && !Moving(Live, p)
  }

  /** A heartbeat ends the open trip when the device has not moved for long enough. */
  predicate EndsByBeat(ph: Phase, at: int) {
    ph.Open? && |ph.buf| > 1 && at - ph.last >= STOP_DURATION_THRESHOLD
  }

  /** A point at which the device stands still. */
  function StandStill(at: int): TripPoint {
    TripPoint(0.0, 0.0, 0.0, at, None)
  }

  /** The points that count: dropped points are gone, and a heartbeat that ends a trip is a stopped point. */
  function Kept(ph: Phase, ins: seq<Input>): seq<TripPoint>
    decreases |ins|
  {
    if ins == [] then []
    else
      match ins[0]
      case Point(p) => if Dropped(ph, p) then Kept(ph, ins[1..]) else [p] + Kept(Advance(Live, ph, p), ins[1..])
      case Beat(at) => if EndsByBeat(ph, at) then [StandStill(at)] + Kept(Idle, ins[1..]) else Kept(ph, ins[1..])
  }

  /** Trips that a phase change completes, if the device is on record. */
  function Recorded(dist: Metric, devices: set<string>, d: string, bufs: seq<seq<TripPoint>>): seq<Trip> {
    if d in devices then ValidTrips(dist, bufs) else []
  }

  /** No time of device d is 0, which JavaScript would take for a missing one. */
  ghost predicate NonZeroTimes(s: LiveState, events: seq<Event>, d: string) {
    && (d in s.lastMoving ==> s.lastMoving[d] != 0)
    && (forall i | 0 <= i < |events| && events[i].Location? && events[i].imei == d :: events[i].point.time != 0)
  }

  lemma SavedForAppend(saved: seq<SavedTrip>, t: SavedTrip, d: string)
    ensures SavedFor(saved + [t], d) == SavedFor(saved, d) + (if t.imei == d then [t.trip] else [])
  {
    assert (saved + [t])[..|saved|] == saved;
  }

  lemma FinalizedSaves(dist: Metric, devices: set<string>, s: LiveState, imei: string, d: string)
    requires Consistent(s) && HasTrip(s, imei)
    ensures var s' := Finalized(dist, devices, s, imei);
            && SavedFor(s'.saved, d) == SavedFor(s.saved, d)
                 + (if d == imei then Recorded(dist, devices, d, [s.buffer[d]]) else [])
            && PhaseOf(s', d) == if d == imei then Idle else PhaseOf(s, d)
  {
    ValidTripsOne(dist, s.buffer[imei]);
    var trip := CreateTripFromPoints(dist, s.start[imei], s.buffer[imei]);
    SavedForAppend(s.saved, SavedTrip(imei, trip), d);
  }

  lemma OtherDevice(dist: Metric, devices: set<string>, s: LiveState, e: Event, d: string)
    requires Consistent(s) && e.imei != d
    ensures var s' := OnEvent(dist, devices, s, e);
            PhaseOf(s', d) == PhaseOf(s, d) && SavedFor(s'.saved, d) == SavedFor(s.saved, d)
  {
    hide Finalized;
    hide SavedFor;
    if HasTrip(s, e.imei) {
      FinalizedSaves(dist, devices, s, e.imei, d);
    }
  }

  lemma PointStep(dist: Metric, devices: set<string>, s: LiveState, d: string, p: TripPoint)
    requires Consistent(s) && (d in s.lastMoving ==> s.lastMoving[d] != 0)
    ensures var s', ph := OnLocation(dist, devices, s, d, p), PhaseOf(s, d);
            if Dropped(ph, p) then s' == s
            else
              && PhaseOf(s', d) == Advance(Live, ph, p)
              && SavedFor(s'.saved, d) == SavedFor(s.saved, d) + Recorded(dist, devices, d, Completed(Live, ph, p))
  {
    hide Finalized;
    hide SavedFor;
    assert Recorded(dist, devices, d, []) == [];
    if HasTrip(s, d) {
      FinalizedSaves(dist, devices, s, d, d);
    }
  }

  lemma BeatStep(dist: Metric, devices: set<string>, s: LiveState, d: string, at: int)
    requires Consistent(s) && (d in s.lastMoving ==> s.lastMoving[d] != 0)
    ensures var s', ph := OnHeartbeat(dist, devices, s, d, at), PhaseOf(s, d);
            if !EndsByBeat(ph, at) then s' == s
            else
              && PhaseOf(s', d) == Idle
              && SavedFor(s'.saved, d) == SavedFor(s.saved, d) + Recorded(dist, devices, d, [ph.buf])
  {
    if HasTrip(s, d) {
      FinalizedSaves(dist, devices, s, d, d);
    }
  }

  lemma NonZeroPreserved(dist: Metric, devices: set<string>, s: LiveState, events: seq<Event>, d: string)
    requires events != [] && NonZeroTimes(s, events, d)
    ensures NonZeroTimes(OnEvent(dist, devices, s, events[0]), events[1..], d)
  {
    hide CreateTripFromPoints;
    assert forall i | 0 <= i < |events[1..]| :: events[1..][i] == events[i + 1];
  }

  /** The trips saved for d by a run, followed by what its open buffer would still give. */
  function SavedAndOpen(dist: Metric, devices: set<string>, s: LiveState, d: string): seq<Trip> {
    SavedFor(s.saved, d) + Recorded(dist, devices, d, Leftover(PhaseOf(s, d)))
  }

  lemma RecordedConcat(dist: Metric, devices: set<string>, d: string, a: seq<seq<TripPoint>>, b: seq<seq<TripPoint>>)
    ensures Recorded(dist, devices, d, a + b) == Recorded(dist, devices, d, a) + Recorded(dist, devices, d, b)
  {
    ValidTripsConcat(dist, a, b);
  }

  /** Trips that device d still gets from state s when it sends ins. */
  function Expected(dist: Metric, devices: set<string>, d: string, ph: Phase, ins: seq<Input>): seq<Trip> {
    Recorded(dist, devices, d, Fold(Live, ph, Kept(ph, ins)))
  }

  lemma ExpectedStep(dist: Metric, devices: set<string>, d: string, ph: Phase, ins: seq<Input>)
    requires ins != []
    ensures Expected(dist, devices, d, ph, ins) ==
            match ins[0]
            case Point(p) =>
              if Dropped(ph, p) then Expected(dist, devices, d, ph, ins[1..])
              else
                Recorded(dist, devices, d, Completed(Live, ph, p))
                + Expected(dist, devices, d, Advance(Live, ph, p), ins[1..])
            case Beat(at) =>
              if EndsByBeat(ph, at) then
                Recorded(dist, devices, d, [ph.buf]) + Expected(dist, devices, d, Idle, ins[1..])
              else Expected(dist, devices, d, ph, ins[1..])
  {
    hide Recorded;
    match ins[0]
    case Point(p) =>
      if !Dropped(ph, p) {
        var rest := Kept(Advance(Live, ph, p), ins[1..]);
        assert ([p] + rest)[1..] == rest;
        RecordedConcat(dist, devices, d, Completed(Live, ph, p), Fold(Live, Advance(Live, ph, p), rest));
      }
    case Beat(at) =>
      if EndsByBeat(ph, at) {
        var rest := Kept(Idle, ins[1..]);
        assert ([StandStill(at)] + rest)[1..] == rest;
        RecordedConcat(dist, devices, d, [ph.buf], Fold(Live, Idle, rest));
      }
  }

  /** For every run, from any consistent state, and every device. */
  lemma {:induction false} OnlineIsSegmentation(dist: Metric, devices: set<string>, s: LiveState, events: seq<Event>,
      d: string)
    requires Consistent(s) && NonZeroTimes(s, events, d)
    ensures SavedAndOpen(dist, devices, Run(dist, devices, s, events), d)
            == SavedFor(s.saved, d) + Expected(dist, devices, d, PhaseOf(s, d), InputsOf(events, d))
    decreases |events|
  {
    hide Recorded;
    hide SavedFor;
    hide OnLocation;
    hide OnHeartbeat;
    hide Consistent;
    if events == [] {
      assert Expected(dist, devices, d, PhaseOf(s, d), []) == Recorded(dist, devices, d, Leftover(PhaseOf(s, d)));
    } else {
      var e, rest := events[0], events[1..];
      var s' := OnEvent(dist, devices, s, e);
      ConsistentPreserved(dist, devices, s, e);
      NonZeroPreserved(dist, devices, s, events, d);
      OnlineIsSegmentation(dist, devices, s', rest, d);
      OnlineStep(dist, devices, s, events, d);
    }
  }

  lemma OnlineStep(dist: Metric, devices: set<string>, s: LiveState, events: seq<Event>, d: string)
    requires events != [] && Consistent(s) && NonZeroTimes(s, events, d)
    ensures var s' := OnEvent(dist, devices, s, events[0]);
            SavedFor(s'.saved, d) + Expected(dist, devices, d, PhaseOf(s', d), InputsOf(events[1..], d))
            == SavedFor(s.saved, d) + Expected(dist, devices, d, PhaseOf(s, d), InputsOf(events, d))
  {
    hide Recorded, SavedFor, OnLocation, OnHeartbeat, Expected, Consistent;
    var e := events[0];
    var ins, rest := InputsOf(events, d), InputsOf(events[1..], d);
    if e.imei != d {
      OtherDevice(dist, devices, s, e, d);
      assert ins == rest;
    } else {
      assert ins[1..] == rest;
      if e.Location? {
        OnlinePoint(dist, devices, s, e.point, ins, d);
      } else {
        OnlineBeat(dist, devices, s, e.at, ins, d);
      }
    }
  }

  lemma OnlinePoint(dist: Metric, devices: set<string>, s: LiveState, p: TripPoint, ins: seq<Input>, d: string)
    requires Consistent(s) && (d in s.lastMoving ==> s.lastMoving[d] != 0) && ins != [] && ins[0] == Point(p)
    ensures var s' := OnLocation(dist, devices, s, d, p);
            SavedFor(s'.saved, d) + Expected(dist, devices, d, PhaseOf(s', d), ins[1..])
            == SavedFor(s.saved, d) + Expected(dist, devices, d, PhaseOf(s, d), ins)
  {
    hide Recorded, SavedFor, OnLocation, Expected, PhaseOf, Consistent, Advance, Completed, Dropped;
    ExpectedStep(dist, devices, d, PhaseOf(s, d), ins);
    PointStep(dist, devices, s, d, p);
  }

  lemma OnlineBeat(dist: Metric, devices: set<string>, s: LiveState, at: int, ins: seq<Input>, d: string)
    requires Consistent(s) && (d in s.lastMoving ==> s.lastMoving[d] != 0) && ins != [] && ins[0] == Beat(at)
    ensures var s' := OnHeartbeat(dist, devices, s, d, at);
            SavedFor(s'.saved, d) + Expected(dist, devices, d, PhaseOf(s', d), ins[1..])
            == SavedFor(s.saved, d) + Expected(dist, devices, d, PhaseOf(s, d), ins)
  {
    hide Recorded, SavedFor, OnHeartbeat, Expected, PhaseOf, Consistent;
    ExpectedStep(dist, devices, d, PhaseOf(s, d), ins);
    BeatStep(dist, devices, s, d, at);
  }
}
