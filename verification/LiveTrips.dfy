/**
  Online trip detection: two event handlers over three maps keyed by device. Each handler is proved to make
  the step of a specification on values; the theorems are about runs of that specification.

  The handlers are taken as atomic. Place names, logging and failing writes are not part of the model.
*/
module LiveTrips {
  import opened Prelude
  import opened TripSegments
  import opened Trips

  datatype SavedTrip = SavedTrip(imei: string, trip: Trip)

  datatype Event =
    | Location(imei: string, point: TripPoint)
    | Heartbeat(imei: string, at: int)

  datatype LiveState = LiveState(
    buffer: map<string, seq<TripPoint>>,
    lastMoving: map<string, int>,
    start: map<string, TripPoint>,
    saved: seq<SavedTrip>)

  const NOTHING := LiveState(map[], map[], map[], [])

  /** Build the trip, save it if it is valid and the device is known, and forget the open trip. */
  function Finalized(dist: Metric, devices: set<string>, s: LiveState, imei: string): LiveState
    requires imei in s.start && imei in s.buffer && s.buffer[imei] != []
  {
    var trip := CreateTripFromPoints(dist, s.start[imei], s.buffer[imei]);
    LiveState(s.buffer - {imei}, s.lastMoving - {imei}, s.start - {imei},
              if IsValidTrip(trip) && imei in devices then s.saved + [SavedTrip(imei, trip)] else s.saved)
  }

  /** JavaScript's test `tripStart && lastMoved && buffer && buffer.length > 1`: a zero time is falsy. */
  predicate HasTrip(s: LiveState, imei: string) {
    imei in s.start && imei in s.lastMoving && s.lastMoving[imei] != 0 && imei in s.buffer && |s.buffer[imei]| > 1
  }

  function OnLocation(dist: Metric, devices: set<string>, s: LiveState, imei: string, p: TripPoint): LiveState {
    if p.speed > MIN_SPEED_THRESHOLD then
      var kept :=
        if imei !in s.start then s.(start := s.start[imei := p], buffer := s.buffer[imei := [p]])
        else if imei in s.buffer then s.(buffer := s.buffer[imei := s.buffer[imei] + [p]])
        else s;
      kept.(lastMoving := s.lastMoving[imei := p.time])
    else if HasTrip(s, imei) then
      if p.ignition == Some(false) || p.time - s.lastMoving[imei] >= STOP_DURATION_THRESHOLD then
        Finalized(dist, devices, s, imei)
      else s.(buffer := s.buffer[imei := s.buffer[imei] + [p]])
    else s
  }

  function OnHeartbeat(dist: Metric, devices: set<string>, s: LiveState, imei: string, at: int): LiveState {
    if HasTrip(s, imei) && at - s.lastMoving[imei] >= STOP_DURATION_THRESHOLD then Finalized(dist, devices, s, imei)
    else s
  }

  function OnEvent(dist: Metric, devices: set<string>, s: LiveState, e: Event): LiveState {
    match e
    case Location(imei, p) => OnLocation(dist, devices, s, imei, p)
    case Heartbeat(imei, at) => OnHeartbeat(dist, devices, s, imei, at)
  }

  function Run(dist: Metric, devices: set<string>, s: LiveState, events: seq<Event>): LiveState
    decreases |events|
  {
    if events == [] then s else Run(dist, devices, OnEvent(dist, devices, s, events[0]), events[1..])
  }

  class TripsService {
    const dist: Metric
    var devices: set<string>
    var tripBuffer: map<string, seq<TripPoint>>
    var lastMovingTime: map<string, int>
    var activeTripStart: map<string, TripPoint>
    var saved: seq<SavedTrip>

    constructor (dist: Metric, devices: set<string>)
      ensures this.dist == dist && this.devices == devices && State() == NOTHING
    {
      this.dist := dist;
      this.devices := devices;
      tripBuffer, lastMovingTime, activeTripStart, saved := map[], map[], map[], [];
    }

    function State(): LiveState
      reads this
    {
      LiveState(tripBuffer, lastMovingTime, activeTripStart, saved)
    }

    method HandleLocationForTripDetection(imei: string, point: TripPoint)
      modifies this
      ensures State() == OnLocation(dist, devices, old(State()), imei, point)
      ensures devices == old(devices)
    {
      var isMoving := point.speed > MIN_SPEED_THRESHOLD;
      if isMoving {
        if imei !in activeTripStart {
          activeTripStart := activeTripStart[imei := point];
          tripBuffer := tripBuffer[imei := [point]];
        } else if imei in tripBuffer {
          tripBuffer := tripBuffer[imei := tripBuffer[imei] + [point]];
        }
        lastMovingTime := lastMovingTime[imei := point.time];
      } else {
        if imei in activeTripStart && imei in lastMovingTime && lastMovingTime[imei] != 0
           && imei in tripBuffer && |tripBuffer[imei]| > 1
        {
          var stopDuration := point.time - lastMovingTime[imei];
          if point.ignition == Some(false) || stopDuration >= STOP_DURATION_THRESHOLD {
            var trip := CreateTripFromPoints(dist, activeTripStart[imei], tripBuffer[imei]);
            if IsValidTrip(trip) {
              if imei in devices {
                saved := saved + [SavedTrip(imei, trip)];
              }
            }
            activeTripStart := activeTripStart - {imei};
            tripBuffer := tripBuffer - {imei};
            lastMovingTime := lastMovingTime - {imei};
          } else {
            tripBuffer := tripBuffer[imei := tripBuffer[imei] + [point]];
          }
        }
      }
    }

    method HandleDeviceHeartbeatForTripDetection(imei: string, at: int)
      modifies this
      ensures State() == OnHeartbeat(dist, devices, old(State()), imei, at)
      ensures devices == old(devices)
    {
      if imei !in activeTripStart || imei !in lastMovingTime || lastMovingTime[imei] == 0
         || imei !in tripBuffer || |tripBuffer[imei]| <= 1
      {
        return;
      }
      var stopDuration := at - lastMovingTime[imei];
      if stopDuration < STOP_DURATION_THRESHOLD {
        return;
      }
      var trip := CreateTripFromPoints(dist, activeTripStart[imei], tripBuffer[imei]);
      if IsValidTrip(trip) {
        if imei in devices {
          saved := saved + [SavedTrip(imei, trip)];
        }
      }
      activeTripStart := activeTripStart - {imei};
      tripBuffer := tripBuffer - {imei};
      lastMovingTime := lastMovingTime - {imei};
    }
  }

  // The invariant of the three maps.

  /** The time of the last moving point of a buffer. */
  function LastMovingTime(buf: seq<TripPoint>): int {
    if buf == [] then 0
    else if Moving(Live, buf[|buf| - 1]) then buf[|buf| - 1].time
    else LastMovingTime(buf[..|buf| - 1])
  }

  ghost predicate ConsistentTrip(buf: seq<TripPoint>, start: TripPoint, lastMoving: int) {
    buf != [] && buf[0] == start && Moving(Live, start) && lastMoving == LastMovingTime(buf)
  }

  ghost predicate Consistent(s: LiveState) {
    && s.buffer.Keys == s.lastMoving.Keys == s.start.Keys
    && forall imei | imei in s.buffer :: ConsistentTrip(s.buffer[imei], s.start[imei], s.lastMoving[imei])
  }

  lemma ConsistentInitially()
    ensures Consistent(NOTHING)
  {
  }

  lemma ConsistentTripExtended(buf: seq<TripPoint>, start: TripPoint, lastMoving: int, p: TripPoint)
    requires ConsistentTrip(buf, start, lastMoving)
    ensures ConsistentTrip(buf + [p], start, if Moving(Live, p) then p.time else lastMoving)
  {
    assert (buf + [p])[..|buf|] == buf;
  }

  /** Every event keeps the three maps consistent. */
  lemma ConsistentPreserved(dist: Metric, devices: set<string>, s: LiveState, e: Event)
    requires Consistent(s)
    ensures Consistent(OnEvent(dist, devices, s, e))
  {
    hide CreateTripFromPoints;
    if e.Location? && e.imei in s.buffer {
      ConsistentTripExtended(s.buffer[e.imei], s.start[e.imei], s.lastMoving[e.imei], e.point);
    }
    if e.Location? {
      assert [e.point][..0] == [];
      assert Moving(Live, e.point) ==> ConsistentTrip([e.point], e.point, e.point.time);
    }
  }
}
