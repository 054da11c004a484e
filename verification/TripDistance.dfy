/** Detected trips never account for more distance than was driven. */
module TripDistance {
  import opened Segmentation
  import opened TripSegments
  import opened Trips

  ghost predicate NonNegative(dist: Metric) {
    forall a, b, c, d :: dist(a, b, c, d) >= 0.0
  }

  /** The unrounded length of the buffers that make valid trips. */
  function TripsLength(dist: Metric, bufs: seq<seq<TripPoint>>): real {
    if bufs == [] then 0.0
    else (if TripOf(dist, bufs[0]) == [] then 0.0 else PathDistance(dist, bufs[0])) + TripsLength(dist, bufs[1..])
  }

  /** The distance recorded in the trips, each rounded to 10 m. */
  function RecordedDistance(trips: seq<Trip>): real {
    if trips == [] then 0.0 else trips[0].distance + RecordedDistance(trips[1..])
  }

  lemma {:induction false} PathDistanceNonNegative(dist: Metric, pts: seq<TripPoint>)
    requires NonNegative(dist)
    ensures PathDistance(dist, pts) >= 0.0
  {
    if |pts| >= 2 {
      PathDistanceNonNegative(dist, pts[..|pts| - 1]);
      assert Leg(dist, pts[|pts| - 2], pts[|pts| - 1]) >= 0.0;
    }
  }

  /** Cutting a path loses at most the leg across the cut. */
  lemma {:induction false} PathDistanceCut(dist: Metric, pts: seq<TripPoint>, c: nat)
    requires NonNegative(dist) && c <= |pts|
    ensures PathDistance(dist, pts[..c]) + PathDistance(dist, pts[c..]) <= PathDistance(dist, pts)
  {
    if c == |pts| {
      assert pts[..c] == pts;
    } else if |pts| >= 2 {
      var init := pts[..|pts| - 1];
      assert init[..c] == pts[..c];
      assert pts[c..][..|pts| - c - 1] == init[c..];
      PathDistanceCut(dist, init, c);
      assert Leg(dist, pts[|pts| - 2], pts[|pts| - 1]) >= 0.0;
    }
  }

  lemma SuffixCut(dist: Metric, pts: seq<TripPoint>, from: nat, e: nat)
    requires NonNegative(dist) && from <= e <= |pts|
    ensures 0.0 <= PathDistance(dist, pts[from..e])
    ensures PathDistance(dist, pts[from..e]) + PathDistance(dist, pts[e..]) <= PathDistance(dist, pts[from..])
  {
    PathDistanceCut(dist, pts[from..], e - from);
    assert pts[from..][..e - from] == pts[from..e] && pts[from..][e - from..] == pts[e..];
    PathDistanceNonNegative(dist, pts[from..e]);
  }

  lemma {:induction false} SegmentLengths(dist: Metric, rule: Rule, pts: seq<TripPoint>, from: nat)
    requires NonNegative(dist) && from <= |pts|
    ensures TripsLength(dist, Candidates(rule, pts, from)) <= PathDistance(dist, pts[from..])
    decreases |pts| - from
  {
    hide TripOf;
    hide PathDistance;
    hide Candidates;
    if from == |pts| {
      NoCandidates(rule, pts);
      PathDistanceNonNegative(dist, pts[from..]);
    } else if Moving(rule, pts[from]) {
      var e := NextLongStop(Marks(rule, pts), from + 1);
      CandidatesOpen(rule, pts, from);
      SegmentLengths(dist, rule, pts, e);
      SuffixCut(dist, pts, from, e);
      var c := Candidates(rule, pts, e);
      assert ([pts[from..e]] + c)[1..] == c;
    } else {
      CandidatesSkip(rule, pts, from);
      SegmentLengths(dist, rule, pts, from + 1);
      SuffixCut(dist, pts, from, from + 1);
    }
  }

  /** The unrounded distances of the detected trips sum to at most the distance of all points. */
  lemma TripsLengthBounded(dist: Metric, pts: seq<TripPoint>)
    requires NonNegative(dist)
    ensures TripsLength(dist, Candidates(Batch, pts, 0)) <= PathDistance(dist, pts)
  {
    SegmentLengths(dist, Batch, pts, 0);
    assert pts[0..] == pts;
  }

  lemma RoundingError(x: real)
    ensures RoundToCents(x) <= x + 0.005
  {
  }

  lemma {:induction false} RecordedDistanceOfTrips(dist: Metric, bufs: seq<seq<TripPoint>>)
    ensures RecordedDistance(ValidTrips(dist, bufs))
            <= TripsLength(dist, bufs) + 0.005 * |ValidTrips(dist, bufs)| as real
  {
    if bufs != [] {
      var t, rest := TripOf(dist, bufs[0]), ValidTrips(dist, bufs[1..]);
      ValidTripsConcat(dist, [bufs[0]], bufs[1..]);
      ValidTripsOne(dist, bufs[0]);
      assert [bufs[0]] + bufs[1..] == bufs;
      RecordedDistanceOfTrips(dist, bufs[1..]);
      if t != [] {
        RoundingError(PathDistance(dist, bufs[0]));
        assert (t + rest)[1..] == rest;
      } else {
        assert t + rest == rest;
      }
    }
  }

  /** What is stored may exceed the distance of all points by the rounding only: 5 m per trip. */
  lemma RecordedDistanceBounded(dist: Metric, pts: seq<TripPoint>)
    requires NonNegative(dist)
    ensures var trips := BatchTrips(dist, pts);
            RecordedDistance(trips) <= PathDistance(dist, pts) + 0.005 * |trips| as real
  {
    TripsLengthBounded(dist, pts);
    RecordedDistanceOfTrips(dist, Candidates(Batch, pts, 0));
  }
}
