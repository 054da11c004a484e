/**
  Candidate trips of a stream of location points: the two detection rules of the trips service, and the
  segmentation they give, once by index and once as a fold that sees one point at a time.

  The batch detector treats a point as moving from 2 km/h on; the online detector wants more than 2 km/h,
  and also ends a trip at a stopped point that reports the ignition off.
*/
module TripSegments {
  import opened Prelude
  import opened Segmentation

  const STOP_DURATION_THRESHOLD := 5 * 60 * 1000
  const MIN_SPEED_THRESHOLD := 2.0

  /** Times are milliseconds; `ignition` is absent when the device did not report it. */
  datatype TripPoint = TripPoint(lat: real, lng: real, speed: real, time: int, ignition: Option<bool>)

  datatype Rule = Batch | Live

  predicate Moving(rule: Rule, p: TripPoint) {
    match rule
    case Batch => p.speed >= MIN_SPEED_THRESHOLD
    case Live => p.speed > MIN_SPEED_THRESHOLD
  }

  /** Does the stopped point p end a trip that last moved at lastMoved? */
  predicate Ends(rule: Rule, lastMoved: int, p: TripPoint) {
    || (rule == Live && p.ignition == Some(false))
    || p.time - lastMoved >= STOP_DURATION_THRESHOLD
  }

  /** Index of the last moving point before k, or -1. */
  function PrevMoving(rule: Rule, pts: seq<TripPoint>, k: nat): (j: int)
    requires k <= |pts|
    ensures -1 <= j < k
    ensures j >= 0 ==> Moving(rule, pts[j])
    ensures forall i | j < i < k :: !Moving(rule, pts[i])
  {
    if k == 0 then -1 else if Moving(rule, pts[k - 1]) then k - 1 else PrevMoving(rule, pts, k - 1)
  }

  /** Point k is stopped, and far enough from the last moving point to end a trip. */
  predicate LongStop(rule: Rule, pts: seq<TripPoint>, k: nat)
    requires k < |pts|
  {
    var j := PrevMoving(rule, pts, k);
    !Moving(rule, pts[k]) && j >= 0 && Ends(rule, pts[j].time, pts[k])
  }

  function Marks(rule: Rule, pts: seq<TripPoint>): (marks: seq<Mark>)
    ensures |marks| == |pts|
  {
    seq(|pts|, i requires 0 <= i < |pts| => Mark(Moving(rule, pts[i]), LongStop(rule, pts, i)))
  }

  /** The points of each segment. */
  function Slices(pts: seq<TripPoint>, segs: seq<Segment>): seq<seq<TripPoint>> {
    if segs == [] then []
    else
      var s := segs[0];
      [if s.lo <= s.hi <= |pts| then pts[s.lo..s.hi] else []] + Slices(pts, segs[1..])
  }

  /** The candidate trips of the stream from point `from` on. */
  function Candidates(rule: Rule, pts: seq<TripPoint>, from: nat): seq<seq<TripPoint>>
    requires from <= |pts|
  {
    Slices(pts, Segments(Marks(rule, pts), from))
  }

  // The same candidates as a fold over the stream.

  /** No open trip, or the points of the open trip and the time it last moved. */
  datatype Phase = Idle | Open(buf: seq<TripPoint>, last: int)

  function Advance(rule: Rule, ph: Phase, p: TripPoint): Phase {
    match ph
    case Idle => if Moving(rule, p) then Open([p], p.time) else Idle
    case Open(buf, last) =>
      if Moving(rule, p) then Open(buf + [p], p.time)
      else if Ends(rule, last, p) then Idle
      else Open(buf + [p], last)
  }

  /** The buffer completed by point p, if any. */
  function Completed(rule: Rule, ph: Phase, p: TripPoint): seq<seq<TripPoint>> {
    if ph.Open? && !Moving(rule, p) && Ends(rule, ph.last, p) then [ph.buf] else []
  }

  function Leftover(ph: Phase): seq<seq<TripPoint>> {
    if ph.Open? then [ph.buf] else []
  }

  function Fold(rule: Rule, ph: Phase, pts: seq<TripPoint>): seq<seq<TripPoint>>
    decreases |pts|
  {
    if pts == [] then Leftover(ph)
    else Completed(rule, ph, pts[0]) + Fold(rule, Advance(rule, ph, pts[0]), pts[1..])
  }

  lemma CandidatesSkip(rule: Rule, pts: seq<TripPoint>, i: nat)
    requires i < |pts| && !Moving(rule, pts[i])
    ensures Candidates(rule, pts, i) == Candidates(rule, pts, i + 1)
  {
    var marks := Marks(rule, pts);
    assert !marks[i].moving;
    SegmentsSkip(marks, i);
  }

  lemma NoCandidates(rule: Rule, pts: seq<TripPoint>)
    ensures Candidates(rule, pts, |pts|) == []
  {
  }

  lemma CandidatesOpen(rule: Rule, pts: seq<TripPoint>, m: nat)
    requires m < |pts| && Moving(rule, pts[m])
    ensures var e := NextLongStop(Marks(rule, pts), m + 1);
            Candidates(rule, pts, m) == [pts[m..e]] + Candidates(rule, pts, e)
  {
    var marks := Marks(rule, pts);
    var e := NextLongStop(marks, m + 1);
    assert marks[m].moving;
    SegmentsOpen(marks, m);
    hide Segments, NextLongStop, LongStop, Moving, Marks;
    var segs := [Segment(m, e)] + Segments(marks, e);
    assert segs[1..] == Segments(marks, e);
  }

  lemma FoldStep(rule: Rule, ph: Phase, pts: seq<TripPoint>, i: nat)
    requires i < |pts|
    ensures Fold(rule, ph, pts[i..]) == Completed(rule, ph, pts[i])
            + Fold(rule, Advance(rule, ph, pts[i]), pts[i + 1..])
  {
    assert pts[i..][1..] == pts[i + 1..];
  }

  /** Outside a trip, folding over the rest of the stream gives its candidates. */
  lemma {:induction false} IdleFold(rule: Rule, pts: seq<TripPoint>, i: nat)
    requires i <= |pts|
    ensures Fold(rule, Idle, pts[i..]) == Candidates(rule, pts, i)
    decreases |pts| - i
  {
    if i < |pts| {
      FoldStep(rule, Idle, pts, i);
      if Moving(rule, pts[i]) {
        assert pts[i..i + 1] == [pts[i]];
        OpenFold(rule, pts, i, i + 1);
        CandidatesOpen(rule, pts, i);
      } else {
        IdleFold(rule, pts, i + 1);
        CandidatesSkip(rule, pts, i);
      }
    }
  }

  /** The fold's phase before point i, inside a trip opened at lo. */
  function TripPhase(rule: Rule, pts: seq<TripPoint>, lo: nat, i: nat): Phase
    requires lo < i <= |pts| && lo <= PrevMoving(rule, pts, i)
  {
    Open(pts[lo..i], pts[PrevMoving(rule, pts, i)].time)
  }

  lemma TripPhaseStep(rule: Rule, pts: seq<TripPoint>, lo: nat, i: nat)
    requires lo < i < |pts| && lo <= PrevMoving(rule, pts, i)
    ensures var ph, p, e := TripPhase(rule, pts, lo, i), pts[i], NextLongStop(Marks(rule, pts), i);
            if LongStop(rule, pts, i) then
              Completed(rule, ph, p) == [pts[lo..i]] && Advance(rule, ph, p) == Idle && e == i && !Moving(rule, p)
            else
              && Completed(rule, ph, p) == [] && e == NextLongStop(Marks(rule, pts), i + 1)
              && lo <= PrevMoving(rule, pts, i + 1) && Advance(rule, ph, p) == TripPhase(rule, pts, lo, i + 1)
  {
    assert pts[lo..i] + [pts[i]] == pts[lo..i + 1];
  }

  lemma OpenFoldEnd(rule: Rule, pts: seq<TripPoint>, lo: nat)
    requires lo < |pts| && lo <= PrevMoving(rule, pts, |pts|)
    ensures Fold(rule, TripPhase(rule, pts, lo, |pts|), pts[|pts|..]) == [pts[lo..]] + Candidates(rule, pts, |pts|)
  {
    assert pts[|pts|..] == [] && pts[lo..|pts|] == pts[lo..];
    assert Candidates(rule, pts, |pts|) == [];
  }

  /** Inside a trip opened at lo, it completes that trip at the next long stop and goes on from there. */
  lemma {:induction false} OpenFold(rule: Rule, pts: seq<TripPoint>, lo: nat, i: nat)
    requires lo < i <= |pts| && lo <= PrevMoving(rule, pts, i)
    ensures var e := NextLongStop(Marks(rule, pts), i);
            Fold(rule, TripPhase(rule, pts, lo, i), pts[i..]) == [pts[lo..e]] + Candidates(rule, pts, e)
    decreases |pts| - i
  {
    if i == |pts| {
      OpenFoldEnd(rule, pts, lo);
    } else {
      var ph := TripPhase(rule, pts, lo, i);
      FoldStep(rule, ph, pts, i);
      TripPhaseStep(rule, pts, lo, i);
      if LongStop(rule, pts, i) {
        IdleFold(rule, pts, i + 1);
        CandidatesSkip(rule, pts, i);
      } else {
        OpenFold(rule, pts, lo, i + 1);
      }
    }
  }
}
