/**
  A simple condition on a whole stream under which online detection agrees with batch detection, and three streams
  on which it does not.
*/
module LiveEqualsBatch {
  import opened Prelude
  import opened Segmentation
  import opened TripSegments
  import opened Trips
  import opened LiveTrips
  import opened LiveSimulation
  import opened LiveInStep

  /** The two rules see the point alike: its speed is not exactly 2, and it is no stop with the ignition off. */
  predicate SeenAlike(p: TripPoint) {
    p.speed != MIN_SPEED_THRESHOLD && !(p.speed < MIN_SPEED_THRESHOLD && p.ignition == Some(false))
  }

  /** The point that opens a segment is not directly followed by a stopped one. */
  predicate MovesOn(pts: seq<TripPoint>, s: Segment) {
    s.lo + 1 < |pts| ==> Moving(Batch, pts[s.lo + 1])
  }

  ghost predicate AllMoveOn(pts: seq<TripPoint>, segs: seq<Segment>) {
    forall i | 0 <= i < |segs| :: MovesOn(pts, segs[i])
  }

  ghost predicate AllSeenAlike(pts: seq<TripPoint>) {
    forall i | 0 <= i < |pts| :: SeenAlike(pts[i])
  }

  /** Every point is seen alike, and no batch segment opens with a moving point before a stopped one. */
  ghost predicate Agreeable(pts: seq<TripPoint>) {
    AgreeableFrom(pts, 0)
  }

  ghost predicate AgreeableFrom(pts: seq<TripPoint>, i: nat)
    requires i <= |pts|
  {
    AllSeenAlike(pts) && AllMoveOn(pts, Segments(Marks(Batch, pts), i))
  }

  function Points(pts: seq<TripPoint>): (ins: seq<Input>)
    ensures |ins| == |pts|
    ensures forall i | 0 <= i < |ins| :: ins[i] == Point(pts[i])
  {
    seq(|pts|, i requires 0 <= i < |pts| => Point(pts[i]))
  }

  lemma PointsFrom(pts: seq<TripPoint>, i: nat)
    requires i < |pts|
    ensures Points(pts[i..])[0] == Point(pts[i]) && Points(pts[i..])[1..] == Points(pts[i + 1..])
  {
  }

  lemma {:induction false} PointsInPoints(pts: seq<TripPoint>)
    ensures PointsIn(Points(pts)) == pts
  {
    if pts != [] {
      PointsFrom(pts, 0);
      assert pts[0..] == pts;
      PointsInPoints(pts[1..]);
    }
  }

  lemma AgreeableSkip(pts: seq<TripPoint>, i: nat)
    requires i < |pts| && AgreeableFrom(pts, i) && !Moving(Batch, pts[i])
    ensures AgreeableFrom(pts, i + 1)
  {
    assert !Marks(Batch, pts)[i].moving;
    SegmentsSkip(Marks(Batch, pts), i);
  }

  lemma AllMoveOnCons(pts: seq<TripPoint>, s: Segment, rest: seq<Segment>)
    requires AllMoveOn(pts, [s] + rest)
    ensures MovesOn(pts, s) && AllMoveOn(pts, rest)
  {
    var segs := [s] + rest;
    assert segs[0] == s;
    assert forall i | 0 <= i < |rest| :: rest[i] == segs[i + 1];
  }

  lemma AgreeableOpen(pts: seq<TripPoint>, m: nat)
    requires m < |pts| && AgreeableFrom(pts, m) && Moving(Batch, pts[m])
    ensures AgreeableFrom(pts, NextLongStop(Marks(Batch, pts), m + 1)) && MovesOn(pts, Segment(m, m))
  {
    hide AllSeenAlike, AllMoveOn;
    var marks := Marks(Batch, pts);
    var e := NextLongStop(marks, m + 1);
    var rest := Segments(marks, e);
    assert marks[m].moving;
    SegmentsOpen(marks, m);
    hide Segments, NextLongStop, Marks, LongStop;
    AllMoveOnCons(pts, Segment(m, e), rest);
  }

  lemma {:induction false} InStepOutside(pts: seq<TripPoint>, i: nat)
    requires i <= |pts| && AgreeableFrom(pts, i)
    ensures AllInStep(Idle, Points(pts[i..]))
    decreases |pts| - i
  {
    hide AgreeableFrom;
    if i < |pts| {
      SeenAlikeAt(pts, i, i);
      PointsFrom(pts, i);
      if Moving(Batch, pts[i]) {
        AgreeableOpen(pts, i);
        assert pts[i..i + 1] == [pts[i]];
        InStepInside(pts, i, i + 1);
      } else {
        AgreeableSkip(pts, i);
        InStepOutside(pts, i + 1);
      }
    }
  }

  lemma SeenAlikeAt(pts: seq<TripPoint>, from: nat, i: nat)
    requires from <= |pts| && AgreeableFrom(pts, from) && i < |pts|
    ensures SeenAlike(pts[i])
  {
  }

  lemma PointInStep(pts: seq<TripPoint>, lo: nat, i: nat)
    requires lo < i < |pts| && lo <= PrevMoving(Batch, pts, i) && SeenAlike(pts[i])
    requires i == lo + 1 ==> Moving(Batch, pts[i])
    ensures InStep(TripPhase(Batch, pts, lo, i), Point(pts[i]))
  {
  }

  lemma AllInStepFirst(ph: Phase, pts: seq<TripPoint>, i: nat)
    requires i < |pts| && InStep(ph, Point(pts[i])) && AllInStep(Advance(Batch, ph, pts[i]), Points(pts[i + 1..]))
    ensures AllInStep(ph, Points(pts[i..]))
  {
    PointsFrom(pts, i);
  }

  lemma NoneLeftInStep(ph: Phase, pts: seq<TripPoint>)
    ensures AllInStep(ph, Points(pts[|pts|..]))
  {
  }

  lemma {:induction false} InStepInside(pts: seq<TripPoint>, lo: nat, i: nat)
    requires lo < i <= |pts| && lo <= PrevMoving(Batch, pts, i)
    requires AgreeableFrom(pts, NextLongStop(Marks(Batch, pts), i))
    requires i == lo + 1 < |pts| ==> Moving(Batch, pts[i])
    ensures AllInStep(TripPhase(Batch, pts, lo, i), Points(pts[i..]))
    decreases |pts| - i
  {
    hide *;
    var ph := TripPhase(Batch, pts, lo, i);
    if i == |pts| {
      NoneLeftInStep(ph, pts);
    } else {
      SeenAlikeAt(pts, NextLongStop(Marks(Batch, pts), i), i);
      PointInStep(pts, lo, i);
      TripPhaseStep(Batch, pts, lo, i);
      if LongStop(Batch, pts, i) {
        AgreeableSkip(pts, i);
        InStepOutside(pts, i + 1);
      } else {
        InStepInside(pts, lo, i + 1);
      }
      AllInStepFirst(ph, pts, i);
    }
  }

  /** If device d sent no heartbeat and its points are agreeable, every one of them is in step. */
  lemma OnlineEqualsBatch(dist: Metric, devices: set<string>, events: seq<Event>, d: string, pts: seq<TripPoint>)
    requires d in devices && NonZeroTimes(NOTHING, events, d)
    requires InputsOf(events, d) == Points(pts) && Agreeable(pts)
    ensures SavedAndOpen(dist, devices, Run(dist, devices, NOTHING, events), d) == BatchTrips(dist, pts)
  {
    assert pts[0..] == pts;
    InStepOutside(pts, 0);
    InStepEqualsBatch(dist, devices, events, d);
    PointsInPoints(pts);
    hide Run, AllInStep, BatchTrips, Agreeable;
  }

  // Dropping a condition breaks the agreement.

  const ONE_KM_PER_LEG: Metric := (a: real, b: real, c: real, d: real) => 1.0

  function At(speed: real, time: int, ignition: Option<bool>): TripPoint {
    TripPoint(0.0, 0.0, speed, time, ignition)
  }

  /** Points of one device. */
  function Stream(pts: seq<TripPoint>): seq<Event> {
    if pts == [] then [] else [Location("d", pts[0])] + Stream(pts[1..])
  }

  function Online(pts: seq<TripPoint>): seq<Trip> {
    SavedAndOpen(ONE_KM_PER_LEG, {"d"}, Run(ONE_KM_PER_LEG, {"d"}, NOTHING, Stream(pts)), "d")
  }

  lemma {:induction false} StreamInputs(pts: seq<TripPoint>)
    ensures InputsOf(Stream(pts), "d") == Points(pts)
    ensures (forall i | 0 <= i < |pts| :: pts[i].time != 0) ==> NonZeroTimes(NOTHING, Stream(pts), "d")
  {
    if pts != [] {
      StreamInputs(pts[1..]);
      assert Stream(pts)[1..] == Stream(pts[1..]);
      assert Points(pts) == [Point(pts[0])] + Points(pts[1..]);
    }
  }

  lemma BothAsFolds(pts: seq<TripPoint>)
    requires forall i | 0 <= i < |pts| :: pts[i].time != 0
    ensures BatchTrips(ONE_KM_PER_LEG, pts) == ValidTrips(ONE_KM_PER_LEG, Fold(Batch, Idle, pts))
    ensures Online(pts) == ValidTrips(ONE_KM_PER_LEG, Fold(Live, Idle, Kept(Idle, Points(pts))))
  {
    hide *;
    assert BatchTrips(ONE_KM_PER_LEG, pts) == ValidTrips(ONE_KM_PER_LEG, Fold(Batch, Idle, pts)) by {
      BatchTripsAsFold(ONE_KM_PER_LEG, pts);
    }
    StreamInputs(pts);
    ConsistentInitially();
    OnlineIsSegmentation(ONE_KM_PER_LEG, {"d"}, NOTHING, Stream(pts), "d");
    FromNothing(pts);
  }

  lemma FromNothing(pts: seq<TripPoint>)
    requires SavedAndOpen(ONE_KM_PER_LEG, {"d"}, Run(ONE_KM_PER_LEG, {"d"}, NOTHING, Stream(pts)), "d")
             == SavedFor(NOTHING.saved, "d")
                + Expected(ONE_KM_PER_LEG, {"d"}, "d", PhaseOf(NOTHING, "d"), InputsOf(Stream(pts), "d"))
    requires InputsOf(Stream(pts), "d") == Points(pts)
    ensures Online(pts) == ValidTrips(ONE_KM_PER_LEG, Fold(Live, Idle, Kept(Idle, Points(pts))))
  {
  }

  lemma {:induction false} PathOfUnitLegs(buf: seq<TripPoint>)
    requires buf != []
    ensures PathDistance(ONE_KM_PER_LEG, buf) == (|buf| - 1) as real
  {
    if |buf| > 1 {
      PathOfUnitLegs(buf[..|buf| - 1]);
    }
  }

  /** With legs of 1 km, a buffer of two points and a minute makes a trip of all its points. */
  lemma LongTrip(buf: seq<TripPoint>)
    requires |buf| >= 2 && buf[|buf| - 1].time - buf[0].time >= 60000
    ensures |TripOf(ONE_KM_PER_LEG, buf)| == 1 && TripOf(ONE_KM_PER_LEG, buf)[0].pointCount == |buf|
  {
    PathOfUnitLegs(buf);
  }

  lemma KeptCons(ph: Phase, p: TripPoint, rest: seq<TripPoint>)
    ensures Kept(ph, Points([p] + rest))
            == if Dropped(ph, p) then Kept(ph, Points(rest)) else [p] + Kept(Advance(Live, ph, p), Points(rest))
  {
    assert Points([p] + rest)[1..] == Points(rest);
  }

  const SLOW_1 := At(2.0, 1000, None)
  const SLOW_2 := At(2.0, 101000, None)
  const DRIVE_1 := At(50.0, 1000, None)
  const DRIVE_2 := At(50.0, 101000, None)
  const HALT := At(0.0, 2000, None)
  const PARK := At(0.0, 102000, Some(false))

  lemma FoldsOnSpeedTwo()
    ensures Fold(Batch, Idle, [SLOW_1, SLOW_2]) == [[SLOW_1, SLOW_2]]
    ensures Fold(Live, Idle, Kept(Idle, Points([SLOW_1, SLOW_2]))) == []
  {
    assert [SLOW_1] + [SLOW_2] == [SLOW_1, SLOW_2];
    FoldFirst(Batch, Idle, SLOW_1, [SLOW_2]);
    FoldFirst(Live, Idle, SLOW_1, [SLOW_2]);
    KeptCons(Idle, SLOW_1, [SLOW_2]);
    assert Kept(Idle, Points([SLOW_2])) == [SLOW_2];
  }

  lemma AtTheEnd(rule: Rule, ph: Phase)
    ensures Fold(rule, ph, []) == Leftover(ph) && Kept(ph, Points([])) == []
  {
  }

  lemma FoldsOnIgnitionOff()
    ensures var pts := [DRIVE_1, DRIVE_2, PARK];
            && Fold(Batch, Idle, pts) == [pts]
            && Fold(Live, Idle, Kept(Idle, Points(pts))) == [[DRIVE_1, DRIVE_2]]
  {
    hide Fold, Kept;
    var a, b := [DRIVE_2] + ([PARK] + []), [PARK] + [];
    assert [DRIVE_1] + a == [DRIVE_1, DRIVE_2, PARK];
    var open1, open2 := Open([DRIVE_1], 1000), Open([DRIVE_1] + [DRIVE_2], 101000);
    assert [DRIVE_1] + [DRIVE_2] == [DRIVE_1, DRIVE_2] && [DRIVE_1, DRIVE_2] + [PARK] == [DRIVE_1, DRIVE_2, PARK];
    FoldFirst(Batch, Idle, DRIVE_1, a);
    FoldFirst(Batch, open1, DRIVE_2, b);
    FoldFirst(Batch, open2, PARK, []);
    AtTheEnd(Batch, Open([DRIVE_1, DRIVE_2] + [PARK], 101000));
    FoldFirst(Live, Idle, DRIVE_1, a);
    FoldFirst(Live, open1, DRIVE_2, b);
    FoldFirst(Live, open2, PARK, []);
    AtTheEnd(Live, Idle);
    KeptCons(Idle, DRIVE_1, a);
    KeptCons(open1, DRIVE_2, b);
    KeptCons(open2, PARK, []);
  }

  lemma FoldsOnStopAfterOpening()
    ensures var pts := [DRIVE_1, HALT, DRIVE_2];
            && Fold(Batch, Idle, pts) == [pts]
            && Fold(Live, Idle, Kept(Idle, Points(pts))) == [[DRIVE_1, DRIVE_2]]
  {
    var a, b := [HALT, DRIVE_2], [DRIVE_2];
    assert [DRIVE_1] + a == [DRIVE_1, HALT, DRIVE_2] && [HALT] + b == a && [DRIVE_1] + b == [DRIVE_1, DRIVE_2];
    var open1 := Open([DRIVE_1], 1000);
    FoldFirst(Batch, Idle, DRIVE_1, a);
    FoldFirst(Batch, open1, HALT, b);
    assert [DRIVE_1] + [HALT] + [DRIVE_2] == [DRIVE_1, HALT, DRIVE_2];
    KeptCons(Idle, DRIVE_1, a);
    KeptCons(open1, HALT, b);
    assert Kept(open1, Points(b)) == b;
    FoldFirst(Live, Idle, DRIVE_1, b);
  }

  /** Such a buffer by itself gives that one trip. */
  lemma OneLongTrip(buf: seq<TripPoint>)
    requires |buf| >= 2 && buf[|buf| - 1].time - buf[0].time >= 60000
    ensures |ValidTrips(ONE_KM_PER_LEG, [buf])| == 1 && ValidTrips(ONE_KM_PER_LEG, [buf])[0].pointCount == |buf|
  {
    hide *;
    LongTrip(buf);
    ValidTripsOne(ONE_KM_PER_LEG, buf);
  }

  /** A speed of exactly 2 moves for one detector only. */
  lemma DisagreeOnSpeedTwo()
    ensures |BatchTrips(ONE_KM_PER_LEG, [SLOW_1, SLOW_2])| == 1 && Online([SLOW_1, SLOW_2]) == []
  {
    var pts := [SLOW_1, SLOW_2];
    assert pts[|pts| - 1].time - pts[0].time >= 60000;
    hide *;
    BothAsFolds(pts);
    FoldsOnSpeedTwo();
    OneLongTrip(pts);
    NoTrips(ONE_KM_PER_LEG);
  }

  /** A stop with the ignition off ends the trip online, and belongs to it in batch. */
  lemma DisagreeOnIgnitionOff()
    ensures var pts := [DRIVE_1, DRIVE_2, PARK];
            && |BatchTrips(ONE_KM_PER_LEG, pts)| == 1 && BatchTrips(ONE_KM_PER_LEG, pts)[0].pointCount == 3
            && |Online(pts)| == 1 && Online(pts)[0].pointCount == 2
  {
    var pts, fewer := [DRIVE_1, DRIVE_2, PARK], [DRIVE_1, DRIVE_2];
    assert pts[2].time - pts[0].time >= 60000 && fewer[1].time - fewer[0].time >= 60000;
    hide *;
    BothAsFolds(pts);
    FoldsOnIgnitionOff();
    OneLongTrip(pts);
    OneLongTrip(fewer);
  }

  /** A stop directly after the point that opens the trip is lost online. */
  lemma DisagreeOnStopAfterOpening()
    ensures var pts := [DRIVE_1, HALT, DRIVE_2];
            && |BatchTrips(ONE_KM_PER_LEG, pts)| == 1 && BatchTrips(ONE_KM_PER_LEG, pts)[0].pointCount == 3
            && |Online(pts)| == 1 && Online(pts)[0].pointCount == 2
  {
    var pts, fewer := [DRIVE_1, HALT, DRIVE_2], [DRIVE_1, DRIVE_2];
    assert pts[2].time - pts[0].time >= 60000 && fewer[1].time - fewer[0].time >= 60000;
    hide *;
    BothAsFolds(pts);
    FoldsOnStopAfterOpening();
    OneLongTrip(pts);
    OneLongTrip(fewer);
  }

  lemma NoTrips(dist: Metric)
    ensures ValidTrips(dist, []) == []
  {
  }
}
