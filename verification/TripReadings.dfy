/** What batch detection reports, read off the stored points: distances, thresholds, and the fields of each trip. */
module TripReadings {
  import opened Prelude
  import opened Segmentation
  import opened TripSegments
  import opened Trips
  import opened TripFacts

  // Distances.

  /** One more point adds its distance from the point before. */
  lemma PathOneMore(dist: Metric, pts: seq<TripPoint>, p: TripPoint, q: TripPoint)
    ensures PathDistance(dist, pts + [p, q]) == PathDistance(dist, pts + [p]) + dist(p.lat, p.lng, q.lat, q.lng)
    ensures PathDistance(dist, [p]) == 0.0
  {
    var all := pts + [p, q];
    assert all[..|all| - 1] == pts + [p] && all[|all| - 2] == p && all[|all| - 1] == q;
  }

  /** Summing from the front gives the same. */
  lemma {:induction false} PathFromFront(dist: Metric, p: TripPoint, q: TripPoint, rest: seq<TripPoint>)
    ensures PathDistance(dist, [p, q] + rest) == dist(p.lat, p.lng, q.lat, q.lng) + PathDistance(dist, [q] + rest)
    decreases |rest|
  {
    if rest == [] {
      PathOneMore(dist, [], p, q);
      assert [p, q] + rest == [] + [p, q] && [q] + rest == [q];
      PathOneMore(dist, [], q, q);
    } else {
      var front, last := rest[..|rest| - 1], rest[|rest| - 1];
      PathFromFront(dist, p, q, front);
      var a, b := [p, q] + rest, [q] + rest;
      assert a[..|a| - 1] == [p, q] + front && b[..|b| - 1] == [q] + front;
      assert a[|a| - 2] == b[|b| - 2];
    }
  }

  /** Two points make their distance, for any metric. */
  lemma PathOfTwo(dist: Metric, p: TripPoint, q: TripPoint)
    ensures PathDistance(dist, [p, q]) == dist(p.lat, p.lng, q.lat, q.lng)
  {
    PathOneMore(dist, [], p, q);
    assert [] + [p, q] == [p, q] && [] + [p] == [p];
  }

  // Thresholds.

  lemma LastMovingIs(rule: Rule, pts: seq<TripPoint>, k: nat, m: nat)
    requires m < k <= |pts| && Moving(rule, pts[m]) && forall i | m < i < k :: !Moving(rule, pts[i])
    ensures PrevMoving(rule, pts, k) == m
  {
  }

  /** A batch trip ends at a point slower than 2 km/h that comes five minutes or more after the last faster one. */
  lemma BatchStopExactly(pts: seq<TripPoint>, k: nat)
    requires k < |pts|
    ensures LongStop(Batch, pts, k) <==>
            && pts[k].speed < 2.0
            && exists j :: && 0 <= j < k && pts[j].speed >= 2.0 && pts[k].time - pts[j].time >= 300000
                           && forall i | j < i < k :: pts[i].speed < 2.0
  {
    forall m: nat | m < k && Moving(Batch, pts[m]) && forall i | m < i < k :: !Moving(Batch, pts[i])
      ensures PrevMoving(Batch, pts, k) == m
    {
      LastMovingIs(Batch, pts, k, m);
    }
  }

  /** An online trip ends at one of at most 2 km/h, then or as soon as it reports the ignition off. */
  lemma LiveStopExactly(pts: seq<TripPoint>, k: nat)
    requires k < |pts|
    ensures LongStop(Live, pts, k) <==>
            && pts[k].speed <= 2.0
            && exists j :: && 0 <= j < k && pts[j].speed > 2.0
                           && (pts[k].ignition == Some(false) || pts[k].time - pts[j].time >= 300000)
                           && forall i | j < i < k :: pts[i].speed <= 2.0
  {
    forall m: nat | m < k && Moving(Live, pts[m]) && forall i | m < i < k :: !Moving(Live, pts[i])
      ensures PrevMoving(Live, pts, k) == m
    {
      LastMovingIs(Live, pts, k, m);
    }
  }

  lemma RoundedCents(x: real)
    ensures RoundToCents(x) >= 0.1 <==> x >= 0.095
  {
    var n := (x * 100.0 + 0.5).Floor;
    assert n >= 10 <==> x * 100.0 + 0.5 >= 10.0;
  }

  lemma RoundedSeconds(ms: int)
    ensures MathRound(ms as real / 1000.0) >= 60 <==> ms >= 59500
    ensures -500 <= 1000 * MathRound(ms as real / 1000.0) - ms <= 500
  {
    var x := ms as real / 1000.0 + 0.5;
    assert x.Floor as real <= x < x.Floor as real + 1.0;
    assert x.Floor >= 60 <==> x >= 60.0;
  }

  /** A buffer makes a trip exactly when it is 95 m or more and 59.5 s or more from its first point to its last. */
  lemma TripExactly(dist: Metric, buf: seq<TripPoint>)
    requires buf != []
    ensures TripOf(dist, buf) != [] <==>
            PathDistance(dist, buf) >= 0.095 && buf[|buf| - 1].time - buf[0].time >= 59500
  {
    RoundedCents(PathDistance(dist, buf));
    RoundedSeconds(buf[|buf| - 1].time - buf[0].time);
    hide PathDistance, PositiveSpeeds, Maximum, Sum, RoundToCents, MathRound;
  }

  // The fields of a trip.

  /** The sum of the positive speeds, and how many there are. */
  function SpeedTotal(pts: seq<TripPoint>): real {
    if pts == [] then 0.0
    else SpeedTotal(pts[..|pts| - 1]) + (if pts[|pts| - 1].speed > 0.0 then pts[|pts| - 1].speed else 0.0)
  }

  function SpeedCount(pts: seq<TripPoint>): nat {
    if pts == [] then 0 else SpeedCount(pts[..|pts| - 1]) + (if pts[|pts| - 1].speed > 0.0 then 1 else 0)
  }

  lemma {:induction false} SpeedsFromFront(p: TripPoint, pts: seq<TripPoint>)
    ensures SpeedTotal([p] + pts) == (if p.speed > 0.0 then p.speed else 0.0) + SpeedTotal(pts)
    ensures SpeedCount([p] + pts) == (if p.speed > 0.0 then 1 else 0) + SpeedCount(pts)
  {
    var all := [p] + pts;
    if pts == [] {
      assert all == [p] && all[..0] == [];
    } else {
      assert all[..|all| - 1] == [p] + pts[..|pts| - 1];
      SpeedsFromFront(p, pts[..|pts| - 1]);
    }
  }

  lemma {:induction false} PositiveSpeedsTotal(pts: seq<TripPoint>)
    ensures Sum(PositiveSpeeds(pts)) == SpeedTotal(pts) && |PositiveSpeeds(pts)| == SpeedCount(pts)
  {
    if pts != [] {
      PositiveSpeedsTotal(pts[1..]);
      SpeedsFromFront(pts[0], pts[1..]);
      assert [pts[0]] + pts[1..] == pts;
      var rest := PositiveSpeeds(pts[1..]);
      assert ([pts[0].speed] + rest)[1..] == rest && [] + rest == rest;
    }
  }

  /** The trip t is what the points of segment s make. */
  ghost predicate Reports(dist: Metric, pts: seq<TripPoint>, s: Segment, t: Trip) {
    && s.lo < s.hi <= |pts|
    && var first, last, part := pts[s.lo], pts[s.hi - 1], pts[s.lo..s.hi];
       && t.startTime == first.time && t.startLat == first.lat && t.startLng == first.lng
       && t.endTime == last.time && t.endLat == last.lat && t.endLng == last.lng
       && t.pointCount == s.hi - s.lo
       && -500 <= 1000 * t.duration - (last.time - first.time) <= 500
       && -0.005 <= t.distance - PathDistance(dist, part) <= 0.005
       && (SpeedCount(part) == 0 ==> t.avgSpeed == 0.0 == t.maxSpeed)
       && (SpeedCount(part) > 0 ==> -0.005 <= t.avgSpeed - SpeedTotal(part) / SpeedCount(part) as real <= 0.005)
  }

  lemma TripReports(dist: Metric, pts: seq<TripPoint>, s: Segment)
    requires s.lo < s.hi <= |pts|
    ensures Reports(dist, pts, s, CreateTripFromPoints(dist, pts[s.lo], pts[s.lo..s.hi]))
  {
    var part := pts[s.lo..s.hi];
    PositiveSpeedsTotal(part);
    RoundedWithin(PathDistance(dist, part));
    RoundedSeconds(part[|part| - 1].time - part[0].time);
    if SpeedCount(part) > 0 {
      RoundedWithin(SpeedTotal(part) / SpeedCount(part) as real);
    }
    hide PathDistance, PositiveSpeeds, Maximum, Sum, RoundToCents, MathRound, SpeedTotal, SpeedCount;
  }

  /** Long enough to be a trip. */
  predicate IsLong(dist: Metric, pts: seq<TripPoint>, s: Segment) {
    && s.lo < s.hi <= |pts| && PathDistance(dist, pts[s.lo..s.hi]) >= 0.095
    && pts[s.hi - 1].time - pts[s.lo].time >= 59500
  }

  function LongOnes(dist: Metric, pts: seq<TripPoint>, segs: seq<Segment>): seq<Segment> {
    if segs == [] then []
    else (if IsLong(dist, pts, segs[0]) then [segs[0]] else []) + LongOnes(dist, pts, segs[1..])
  }

  ghost predicate ReportEach(dist: Metric, pts: seq<TripPoint>, segs: seq<Segment>, trips: seq<Trip>) {
    |trips| == |segs| && forall i | 0 <= i < |trips| :: Reports(dist, pts, segs[i], trips[i])
  }

  lemma SegmentTrip(dist: Metric, pts: seq<TripPoint>, s: Segment)
    requires s.lo < s.hi <= |pts|
    ensures var trips := TripOf(dist, pts[s.lo..s.hi]);
            if IsLong(dist, pts, s) then |trips| == 1 && Reports(dist, pts, s, trips[0]) else trips == []
  {
    TripReports(dist, pts, s);
    TripExactly(dist, pts[s.lo..s.hi]);
    hide PathDistance, PositiveSpeeds, Maximum, Sum, RoundToCents, MathRound, Reports;
  }

  lemma {:induction false} SegmentsReported(dist: Metric, pts: seq<TripPoint>, segs: seq<Segment>)
    requires forall i | 0 <= i < |segs| :: segs[i].lo < segs[i].hi <= |pts|
    ensures ReportEach(dist, pts, LongOnes(dist, pts, segs), ValidTrips(dist, Slices(pts, segs)))
    decreases |segs|
  {
    hide TripOf, IsLong, Reports;
    if segs != [] {
      var s, rest := segs[0], Slices(pts, segs[1..]);
      SegmentTrip(dist, pts, s);
      SegmentsReported(dist, pts, segs[1..]);
      ValidTripsConcat(dist, [pts[s.lo..s.hi]], rest);
      ValidTripsOne(dist, pts[s.lo..s.hi]);
      hide ValidTrips, LongOnes;
      assert Slices(pts, segs) == [pts[s.lo..s.hi]] + rest;
      EachMore(dist, pts, s, segs, rest);
    }
  }

  lemma EachMore(dist: Metric, pts: seq<TripPoint>, s: Segment, segs: seq<Segment>, rest: seq<seq<TripPoint>>)
    requires segs != [] && s == segs[0]
    requires ReportEach(dist, pts, LongOnes(dist, pts, segs[1..]), ValidTrips(dist, rest))
    requires s.lo < s.hi <= |pts|
    requires var trips := TripOf(dist, pts[s.lo..s.hi]);
             if IsLong(dist, pts, s) then |trips| == 1 && Reports(dist, pts, s, trips[0]) else trips == []
    ensures ReportEach(dist, pts, LongOnes(dist, pts, segs),
                TripOf(dist, pts[s.lo..s.hi]) + ValidTrips(dist, rest))
  {
    hide TripOf, IsLong, Reports, ValidTrips;
  }

  /**
    Whatever segmentation is written down, the detected trips are those of its long segments, one each and in order,
    and their fields are read off the points of the segment.
  */
  lemma TripsReportSegments(dist: Metric, pts: seq<TripPoint>, segs: seq<Segment>)
    requires IsSegmentation(Marks(Batch, pts), 0, segs)
    ensures ReportEach(dist, pts, LongOnes(dist, pts, segs), BatchTrips(dist, pts))
  {
    BatchTripsOfAnySegmentation(dist, pts, segs);
    forall i | 0 <= i < |segs| ensures segs[i].lo < segs[i].hi <= |pts| {
      assert StartsMoving(Marks(Batch, pts), 0, segs[i]);
    }
    hide IsSegmentation, Marks;
    SegmentsReported(dist, pts, segs);
  }

  // A trip.

  function Abs(x: real): real {
    if x < 0.0 then -x else x
  }

  /** Distance along the grid, one kilometre to the degree. */
  const GRID: Metric := (a: real, b: real, c: real, d: real) => Abs(c - a) + Abs(d - b)

  const LEAVING := TripPoint(0.0, 3.0, 50.0, 1000, None)
  const ARRIVING := TripPoint(0.0, 4.0, 30.0, 121000, None)
  const KILOMETRE := Trip(1000, 121000, 0.0, 3.0, 0.0, 4.0, 1.0, 50.0, 40.0, 120, 2)

  /** A kilometre in two minutes is one trip, with that distance. */
  lemma OneKilometre()
    ensures BatchTrips(GRID, [LEAVING, ARRIVING]) == [KILOMETRE]
  {
    var pts := [LEAVING, ARRIVING];
    OneSegment(LEAVING, ARRIVING);
    hide *;
    TripOfKilometre();
    BatchTripsOfAnySegmentation(GRID, pts, [Segment(0, 2)]);
    OneSlice(pts);
    ValidTripsOne(GRID, pts);
  }

  lemma OneSlice(pts: seq<TripPoint>)
    requires pts != []
    ensures Slices(pts, [Segment(0, |pts|)]) == [pts]
  {
    assert pts[0..|pts|] == pts && [Segment(0, |pts|)][1..] == [];
    assert Slices(pts, [Segment(0, |pts|)]) == [pts] + Slices(pts, []);
  }

  lemma TripOfKilometre()
    ensures TripOf(GRID, [LEAVING, ARRIVING]) == [KILOMETRE]
  {
    PathOfTwo(GRID, LEAVING, ARRIVING);
    assert PathDistance(GRID, [LEAVING, ARRIVING]) == 1.0;
    TwoSpeeds(LEAVING, ARRIVING);
    RoundedWhole(1.0, 100);
    RoundedWhole(40.0, 4000);
    assert MathRound(120.0) == 120;
    hide PathDistance, PositiveSpeeds, Sum, Maximum, RoundToCents, MathRound;
    var trip := CreateTripFromPoints(GRID, LEAVING, [LEAVING, ARRIVING]);
    assert trip == KILOMETRE;
  }

  lemma RoundedWhole(x: real, n: int)
    requires x * 100.0 == n as real
    ensures RoundToCents(x) == x
  {
    assert (x * 100.0 + 0.5).Floor == n;
  }

  lemma OneSegment(p: TripPoint, q: TripPoint)
    requires p.speed >= 2.0 && q.speed >= 2.0
    ensures IsSegmentation(Marks(Batch, [p, q]), 0, [Segment(0, 2)])
  {
    var marks := Marks(Batch, [p, q]);
    assert marks[0].moving && !marks[1].longStop;
    assert [Segment(0, 2)][0] == Segment(0, 2);
    assert Covered([Segment(0, 2)], 0) && Covered([Segment(0, 2)], 1);
    hide Marks, LongStop;
  }

  lemma TwoSpeeds(p: TripPoint, q: TripPoint)
    requires p.speed == 50.0 && q.speed == 30.0
    ensures PositiveSpeeds([p, q]) == [50.0, 30.0] && Sum([50.0, 30.0]) == 80.0 && Maximum([50.0, 30.0]) == 50.0
  {
    assert [p, q][1..] == [q] && [q][1..] == [];
    assert PositiveSpeeds([q]) == [30.0] + PositiveSpeeds([]);
    assert [50.0, 30.0][1..] == [30.0] && [30.0][1..] == [];
    assert Sum([30.0]) == 30.0 + Sum([]);
  }
}
