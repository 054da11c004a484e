/**
  Trips and batch detection over stored points (`DetectTrips`). Distances come from a function parameter, so that
  everything here holds for any distance function, the haversine formula included.
*/
module Trips {
  import opened Prelude
  import opened Segmentation
  import opened TripSegments

  const MIN_TRIP_DISTANCE := 0.1
  const MIN_TRIP_DURATION := 60

  /** Distance in km between (lat1, lng1) and (lat2, lng2). */
  type Metric = (real, real, real, real) -> real

  datatype Trip = Trip(
    startTime: int, endTime: int,
    startLat: real, startLng: real, endLat: real, endLng: real,
    distance: real, maxSpeed: real, avgSpeed: real, duration: int, pointCount: nat)

  function Leg(dist: Metric, p: TripPoint, q: TripPoint): real {
    dist(p.lat, p.lng, q.lat, q.lng)
  }

  function PathDistance(dist: Metric, pts: seq<TripPoint>): real {
    if |pts| < 2 then 0.0
    else PathDistance(dist, pts[..|pts| - 1]) + Leg(dist, pts[|pts| - 2], pts[|pts| - 1])
  }

  method CalculateTotalDistance(dist: Metric, points: seq<TripPoint>) returns (totalDistance: real)
    ensures totalDistance == PathDistance(dist, points)
  {
    totalDistance := 0.0;
    var i := 1;
    while i < |points|
      invariant 1 <= i && (i <= |points| || points == [])
      invariant i <= |points| ==> totalDistance == PathDistance(dist, points[..i])
      invariant points == [] ==> totalDistance == 0.0
    {
      assert points[..i + 1][..i] == points[..i];
      totalDistance := totalDistance + Leg(dist, points[i - 1], points[i]);
      i := i + 1;
    }
    assert points[..|points|] == points;
  }

  /** The positive speeds, in order. */
  function PositiveSpeeds(pts: seq<TripPoint>): seq<real> {
    if pts == [] then []
    else (if pts[0].speed > 0.0 then [pts[0].speed] else []) + PositiveSpeeds(pts[1..])
  }

  function Maximum(s: seq<real>): real
    requires s != []
  {
    if |s| == 1 then s[0] else var m := Maximum(s[1..]); if s[0] > m then s[0] else m
  }

  function Sum(s: seq<real>): real {
    if s == [] then 0.0 else s[0] + Sum(s[1..])
  }

  /** x rounded to two decimals, as Math.round(x * 100) / 100. */
  function RoundToCents(x: real): real {
    MathRound(x * 100.0) as real / 100.0
  }

  function CreateTripFromPoints(dist: Metric, start: TripPoint, points: seq<TripPoint>): Trip
    requires points != []
  {
    var end := points[|points| - 1];
    var speeds := PositiveSpeeds(points);
    Trip(
      start.time, end.time, start.lat, start.lng, end.lat, end.lng,
      RoundToCents(PathDistance(dist, points)),
      if speeds == [] then 0.0 else Maximum(speeds),
      if speeds == [] then 0.0 else RoundToCents(Sum(speeds) / |speeds| as real),
      MathRound((end.time - start.time) as real / 1000.0),
      |points|)
  }

  predicate IsValidTrip(trip: Trip) {
    trip.distance >= MIN_TRIP_DISTANCE && trip.duration >= MIN_TRIP_DURATION
  }

  /** The trip of a buffer, when it is a valid one. */
  function TripOf(dist: Metric, buf: seq<TripPoint>): seq<Trip> {
    if buf == [] then []
    else
      var trip := CreateTripFromPoints(dist, buf[0], buf);
      if IsValidTrip(trip) then [trip] else []
  }

  /** The trips of the valid ones among the candidate buffers, in order. */
  function ValidTrips(dist: Metric, bufs: seq<seq<TripPoint>>): seq<Trip> {
    FlatMap((buf: seq<TripPoint>) => TripOf(dist, buf), bufs)
  }

  /** A single point never makes a valid trip: its duration is zero. */
  lemma SinglePointInvalid(dist: Metric, buf: seq<TripPoint>)
    requires |buf| <= 1
    ensures TripOf(dist, buf) == []
  {
    if |buf| == 1 {
      assert CreateTripFromPoints(dist, buf[0], buf).duration == 0;
    }
  }

  lemma ValidTripsOne(dist: Metric, buf: seq<TripPoint>)
    ensures ValidTrips(dist, [buf]) == TripOf(dist, buf)
  {
    FlatMapOne((b: seq<TripPoint>) => TripOf(dist, b), buf);
  }

  lemma ValidTripsConcat(dist: Metric, a: seq<seq<TripPoint>>, b: seq<seq<TripPoint>>)
    ensures ValidTrips(dist, a + b) == ValidTrips(dist, a) + ValidTrips(dist, b)
  {
    FlatMapConcat((buf: seq<TripPoint>) => TripOf(dist, buf), a, b);
  }

  /** What batch detection finds: the valid trips of the one segmentation of the points. */
  function BatchTrips(dist: Metric, points: seq<TripPoint>): seq<Trip> {
    ValidTrips(dist, Candidates(Batch, points, 0))
  }

  /** The phase that the variables of the batch loop stand for. */
  function LoopPhase(tripStart: Option<TripPoint>, tripPoints: seq<TripPoint>, lastMovingTime: Option<int>): Phase {
    if tripStart.Some? && lastMovingTime.Some? then Open(tripPoints, lastMovingTime.value) else Idle
  }

  /** The batch loop has found `trips` and is in phase ph before point i: together with what the rest of the
      points will give, that is everything. */
  ghost predicate OnTrack(dist: Metric, points: seq<TripPoint>, trips: seq<Trip>, ph: Phase, i: nat) {
    i <= |points| && trips + ValidTrips(dist, Fold(Batch, ph, points[i..])) == BatchTrips(dist, points)
  }

  lemma OnTrackInitially(dist: Metric, points: seq<TripPoint>)
    ensures OnTrack(dist, points, [], Idle, 0)
  {
    IdleFold(Batch, points, 0);
  }

  lemma OnTrackStep(dist: Metric, points: seq<TripPoint>, trips: seq<Trip>, ph: Phase, i: nat)
    requires i < |points| && OnTrack(dist, points, trips, ph, i)
    ensures OnTrack(dist, points, trips + ValidTrips(dist, Completed(Batch, ph, points[i])),
            Advance(Batch, ph, points[i]), i + 1)
  {
    var p := points[i];
    FoldStep(Batch, ph, points, i);
    ValidTripsConcat(dist, Completed(Batch, ph, p), Fold(Batch, Advance(Batch, ph, p), points[i + 1..]));
  }

  lemma OnTrackFinally(dist: Metric, points: seq<TripPoint>, trips: seq<Trip>, ph: Phase)
    requires OnTrack(dist, points, trips, ph, |points|)
    ensures BatchTrips(dist, points) == trips + if ph.Open? && |ph.buf| > 1 then TripOf(dist, ph.buf) else []
  {
    assert Fold(Batch, ph, points[|points|..]) == Leftover(ph);
    if ph.Open? {
      ValidTripsOne(dist, ph.buf);
      if |ph.buf| <= 1 {
        SinglePointInvalid(dist, ph.buf);
      }
    }
  }

  lemma BatchTripsAsFold(dist: Metric, points: seq<TripPoint>)
    ensures BatchTrips(dist, points) == ValidTrips(dist, Fold(Batch, Idle, points))
  {
    IdleFold(Batch, points, 0);
    assert points[0..] == points;
  }

  /** Whatever segmentation of the points is given, batch detection finds exactly its valid segments. */
  lemma BatchTripsOfAnySegmentation(dist: Metric, points: seq<TripPoint>, segs: seq<Segment>)
    requires IsSegmentation(Marks(Batch, points), 0, segs)
    ensures BatchTrips(dist, points) == ValidTrips(dist, Slices(points, segs))
  {
    SegmentationUnique(Marks(Batch, points), segs);
  }

  method DetectTrips(dist: Metric, points: seq<TripPoint>) returns (trips: seq<Trip>)
    ensures trips == BatchTrips(dist, points)
  {
    trips := [];
    var tripStart: Option<TripPoint> := None;
    var tripPoints: seq<TripPoint> := [];
    var lastMovingTime: Option<int> := None;
    OnTrackInitially(dist, points);
    hide OnTrack;
    var i := 0;
    while i < |points|
      invariant 0 <= i <= |points|
      invariant tripStart.Some? == lastMovingTime.Some?
      invariant tripStart.Some? ==> tripPoints != [] && tripPoints[0] == tripStart.value
      invariant OnTrack(dist, points, trips, LoopPhase(tripStart, tripPoints, lastMovingTime), i)
    {
      var point := points[i];
      var isMoving := point.speed >= MIN_SPEED_THRESHOLD;
      OnTrackStep(dist, points, trips, LoopPhase(tripStart, tripPoints, lastMovingTime), i);
      ghost var found := trips;
      assert found + [] == found;
      if isMoving {
        if tripStart.None? {
          tripStart := Some(point);
          tripPoints := [point];
        } else {
          tripPoints := tripPoints + [point];
        }
        lastMovingTime := Some(point.time);
      } else if tripStart.Some? && lastMovingTime.Some? {
        var stopDuration := point.time - lastMovingTime.value;
        if stopDuration >= STOP_DURATION_THRESHOLD {
          ValidTripsOne(dist, tripPoints);
          var trip := CreateTripFromPoints(dist, tripStart.value, tripPoints);
          if IsValidTrip(trip) {
            trips := trips + [trip];
          }
          tripStart := None;
          tripPoints := [];
          lastMovingTime := None;
        } else {
          tripPoints := tripPoints + [point];
        }
      }
      i := i + 1;
    }
    OnTrackFinally(dist, points, trips, LoopPhase(tripStart, tripPoints, lastMovingTime));
    if tripStart.Some? && |tripPoints| > 1 {
      var trip := CreateTripFromPoints(dist, tripStart.value, tripPoints);
      if IsValidTrip(trip) {
        trips := trips + [trip];
      }
    }
  }
}
