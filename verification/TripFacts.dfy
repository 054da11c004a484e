/** What the fields of the detected trips mean: times in order, speeds of the points. */
module TripFacts {
  import opened Segmentation
  import opened TripSegments
  import opened Trips

  ghost predicate SortedByTime(pts: seq<TripPoint>) {
    forall i, j | 0 <= i <= j < |pts| :: pts[i].time <= pts[j].time
  }

  /** Each trip ends after it starts, and before the next one starts. */
  ghost predicate InOrder(trips: seq<Trip>) {
    && (forall i | 0 <= i < |trips| :: trips[i].startTime <= trips[i].endTime)
    && (forall i, j | 0 <= i < j < |trips| :: trips[i].endTime <= trips[j].startTime)
  }

  ghost predicate StartFrom(trips: seq<Trip>, time: int) {
    forall i | 0 <= i < |trips| :: trips[i].startTime >= time
  }

  lemma TripOfTimes(dist: Metric, buf: seq<TripPoint>)
    requires buf != []
    ensures |TripOf(dist, buf)| <= 1
    ensures TripOf(dist, buf) != [] ==>
              TripOf(dist, buf)[0].startTime == buf[0].time && TripOf(dist, buf)[0].endTime == buf[|buf| - 1].time
  {
    hide PathDistance, PositiveSpeeds, Sum, Maximum;
  }

  lemma OrderCons(first: seq<Trip>, rest: seq<Trip>, start: int, end: int)
    requires |first| <= 1 && start <= end
    requires first != [] ==> first[0].startTime == start && first[0].endTime == end
    requires InOrder(rest) && StartFrom(rest, end)
    ensures InOrder(first + rest) && StartFrom(first + rest, start)
  {
  }

  /** Of points sorted by time, the trips found from a point on are in order and start no earlier than it. */
  lemma {:induction false} TripsFromInOrder(dist: Metric, rule: Rule, pts: seq<TripPoint>, from: nat)
    requires SortedByTime(pts) && from <= |pts|
    ensures var trips := ValidTrips(dist, Candidates(rule, pts, from));
            InOrder(trips) && (from < |pts| ==> StartFrom(trips, pts[from].time)) && (from == |pts| ==> trips == [])
    decreases |pts| - from
  {
    hide TripOf, Candidates, ValidTrips, InOrder, StartFrom;
    if from == |pts| {
      NoCandidates(rule, pts);
      NoTripsInOrder(dist);
    } else if Moving(rule, pts[from]) {
      var e := NextLongStop(Marks(rule, pts), from + 1);
      var buf := pts[from..e];
      CandidatesOpen(rule, pts, from);
      ValidTripsConcat(dist, [buf], Candidates(rule, pts, e));
      ValidTripsOne(dist, buf);
      TripsFromInOrder(dist, rule, pts, e);
      TripOfTimes(dist, buf);
      var rest := ValidTrips(dist, Candidates(rule, pts, e));
      if e < |pts| {
        StartsLater(rest, pts[e - 1].time, pts[e].time);
      } else {
        StartsLater([], pts[e - 1].time, pts[e - 1].time) by { EmptyStarts(pts[e - 1].time); }
      }
      OrderCons(TripOf(dist, buf), rest, pts[from].time, pts[e - 1].time);
    } else {
      CandidatesSkip(rule, pts, from);
      TripsFromInOrder(dist, rule, pts, from + 1);
      var trips := ValidTrips(dist, Candidates(rule, pts, from));
      if from + 1 < |pts| {
        StartsLater(trips, pts[from].time, pts[from + 1].time);
      } else {
        EmptyStarts(pts[from].time);
      }
    }
  }

  lemma EmptyStarts(time: int)
    ensures StartFrom([], time)
  {
  }

  lemma StartsLater(trips: seq<Trip>, early: int, late: int)
    requires StartFrom(trips, late) && early <= late
    ensures StartFrom(trips, early)
  {
  }

  lemma NoTripsInOrder(dist: Metric)
    ensures ValidTrips(dist, []) == [] && InOrder([])
  {
  }

  /** Detected trips follow one another in time without overlapping. */
  lemma DetectedTripsInOrder(dist: Metric, pts: seq<TripPoint>)
    requires SortedByTime(pts)
    ensures InOrder(BatchTrips(dist, pts))
  {
    TripsFromInOrder(dist, Batch, pts, 0);
  }

  // Speeds.

  lemma {:induction false} MaximumIsGreatest(s: seq<real>)
    requires s != []
    ensures Maximum(s) in s && forall x | x in s :: x <= Maximum(s)
  {
    if |s| > 1 {
      MaximumIsGreatest(s[1..]);
      assert s == [s[0]] + s[1..];
    }
  }

  lemma {:induction false} SumBounds(s: seq<real>, m: real)
    requires forall x | x in s :: 0.0 <= x <= m
    ensures 0.0 <= Sum(s) <= |s| as real * m
  {
    if s != [] {
      assert forall x | x in s[1..] :: x in s;
      SumBounds(s[1..], m);
      assert s[0] in s;
      assert |s| as real * m == m + (|s| - 1) as real * m;
    }
  }

  lemma {:induction false} PositiveSpeedsAre(pts: seq<TripPoint>, x: real)
    ensures x in PositiveSpeeds(pts) <==> x > 0.0 && exists i | 0 <= i < |pts| :: pts[i].speed == x
  {
    if pts != [] {
      PositiveSpeedsAre(pts[1..], x);
      assert pts == [pts[0]] + pts[1..];
      if i :| 0 <= i < |pts[1..]| && pts[1..][i].speed == x {
        assert pts[i + 1].speed == x;
      }
    }
  }

  lemma QuotientWithin(sum: real, n: nat, m: real)
    requires n > 0 && 0.0 <= sum <= n as real * m
    ensures 0.0 <= sum / n as real <= m
  {
    var q := sum / n as real;
    assert q * n as real == sum;
    assert (m - q) * n as real >= 0.0;
  }

  lemma RoundedWithin(x: real)
    ensures x - 0.005 < RoundToCents(x) <= x + 0.005
  {
  }

  lemma AverageWithin(s: seq<real>, m: real)
    requires s != [] && forall x | x in s :: 0.0 <= x <= m
    ensures -0.005 < RoundToCents(Sum(s) / |s| as real) <= m + 0.005
  {
    SumBounds(s, m);
    hide Sum;
    QuotientWithin(Sum(s), |s|, m);
    RoundedWithin(Sum(s) / |s| as real);
    hide RoundToCents;
  }

  /** The maximum speed bounds every point's and is one of them unless it is 0; the average does not exceed it. */
  lemma SpeedsOfTrip(dist: Metric, start: TripPoint, pts: seq<TripPoint>)
    requires pts != []
    ensures var trip := CreateTripFromPoints(dist, start, pts);
            && (forall i | 0 <= i < |pts| :: pts[i].speed <= trip.maxSpeed)
            && (trip.maxSpeed == 0.0 || exists i | 0 <= i < |pts| :: pts[i].speed == trip.maxSpeed)
            && -0.005 < trip.avgSpeed <= trip.maxSpeed + 0.005
  {
    var speeds := PositiveSpeeds(pts);
    forall x: real ensures x in speeds <==> x > 0.0 && exists i | 0 <= i < |pts| :: pts[i].speed == x {
      PositiveSpeedsAre(pts, x);
    }
    hide PositiveSpeeds, PathDistance;
    assert forall i | 0 <= i < |pts| :: pts[i].speed > 0.0 ==> pts[i].speed in speeds;
    if speeds != [] {
      MaximumIsGreatest(speeds);
      AverageWithin(speeds, Maximum(speeds));
    }
    hide Maximum, Sum, RoundToCents;
  }
}
