/**
  When the online detector keeps step with the batch rule: the exact condition on each input, checked before it is
  handled, and what follows for the trips of a run.
*/
module LiveInStep {
  import opened Prelude
  import opened TripSegments
  import opened Trips
  import opened LiveTrips
  import opened LiveSimulation

  /** The open trip after an input, and the buffers the input completes. */
  datatype Moment = Moment(phase: Phase, completed: seq<seq<TripPoint>>)

  /** Online: a stopped point may be lost, and a heartbeat may end the trip. */
  function LiveMoment(ph: Phase, e: Input): Moment {
    match e
    case Point(p) => if Dropped(ph, p) then Moment(ph, []) else Moment(Advance(Live, ph, p), Completed(Live, ph, p))
    case Beat(at) => if EndsByBeat(ph, at) then Moment(Idle, [ph.buf]) else Moment(ph, [])
  }

  /** Batch detection sees the points only. */
  function BatchMoment(ph: Phase, e: Input): Moment {
    match e
    case Point(p) => Moment(Advance(Batch, ph, p), Completed(Batch, ph, p))
    case Beat(_) => Moment(ph, [])
  }

  /** The handler of the input's kind. */
  function OnInput(dist: Metric, devices: set<string>, s: LiveState, d: string, e: Input): LiveState {
    match e
    case Point(p) => OnLocation(dist, devices, s, d, p)
    case Beat(at) => OnHeartbeat(dist, devices, s, d, at)
  }

  /** The handlers make the online moments of the device whose input they handle. */
  lemma HandlersMakeLiveMoments(dist: Metric, devices: set<string>, s: LiveState, d: string, e: Input)
    requires Consistent(s) && (d in s.lastMoving ==> s.lastMoving[d] != 0)
    ensures var s' := OnInput(dist, devices, s, d, e);
            var m := LiveMoment(PhaseOf(s, d), e);
            && PhaseOf(s', d) == m.phase
            && SavedFor(s'.saved, d) == SavedFor(s.saved, d) + Recorded(dist, devices, d, m.completed)
  {
    hide OnLocation, OnHeartbeat, SavedFor, Consistent;
    assert Recorded(dist, devices, d, []) == [];
    match e
    case Point(p) => PointStep(dist, devices, s, d, p);
    case Beat(at) => BeatStep(dist, devices, s, d, at);
  }

  /**
    With no trip open, the speed is not exactly 2. In a trip, the point moves for both; or it is no first point after
    the opening one, and a speed of exactly 2 comes at the time of the last move without the ignition off, and a stop
    with the ignition off comes late enough to end the trip anyway. A heartbeat ends no trip.
  */
  predicate InStep(ph: Phase, e: Input) {
    match e
    case Beat(at) => !EndsByBeat(ph, at)
    case Point(p) =>
      match ph
      case Idle => p.speed != MIN_SPEED_THRESHOLD
      case Open(buf, last) =>
        || p.speed > MIN_SPEED_THRESHOLD
        || (&& |buf| > 1
            && (p.speed == MIN_SPEED_THRESHOLD ==> p.time == last && p.ignition != Some(false))
            && (p.speed < MIN_SPEED_THRESHOLD && p.ignition == Some(false) ==>
                p.time - last >= STOP_DURATION_THRESHOLD))
  }

  /** An input has the same effect on both detectors exactly when it is in step. */
  lemma SameMomentExactly(ph: Phase, e: Input)
    ensures LiveMoment(ph, e) == BatchMoment(ph, e) <==> InStep(ph, e)
  {
    if ph.Open? && e.Point? {
      assert |ph.buf + [e.p]| == |ph.buf| + 1;
    }
  }

  function LiveTrace(ph: Phase, ins: seq<Input>): seq<Moment>
    decreases |ins|
  {
    if ins == [] then []
    else var m := LiveMoment(ph, ins[0]); [m] + LiveTrace(m.phase, ins[1..])
  }

  function BatchTrace(ph: Phase, ins: seq<Input>): seq<Moment>
    decreases |ins|
  {
    if ins == [] then []
    else var m := BatchMoment(ph, ins[0]); [m] + BatchTrace(m.phase, ins[1..])
  }

  /** Every input is in step, at the trip that batch detection has open then. */
  predicate AllInStep(ph: Phase, ins: seq<Input>)
    decreases |ins|
  {
    ins == [] || (InStep(ph, ins[0]) && AllInStep(BatchMoment(ph, ins[0]).phase, ins[1..]))
  }

  /**
    The detectors have the same trip open and complete the same buffers throughout exactly when every input is in
    step.
  */
  lemma {:induction false} SameTraceExactly(ph: Phase, ins: seq<Input>)
    ensures LiveTrace(ph, ins) == BatchTrace(ph, ins) <==> AllInStep(ph, ins)
    decreases |ins|
  {
    hide LiveMoment, BatchMoment, InStep;
    if ins != [] {
      var l, b := LiveMoment(ph, ins[0]), BatchMoment(ph, ins[0]);
      SameMomentExactly(ph, ins[0]);
      SameTraceExactly(b.phase, ins[1..]);
      assert LiveTrace(ph, ins)[0] == l && LiveTrace(ph, ins)[1..] == LiveTrace(l.phase, ins[1..]);
      assert BatchTrace(ph, ins)[0] == b && BatchTrace(ph, ins)[1..] == BatchTrace(b.phase, ins[1..]);
    }
  }

  /** The points among the inputs: the stream that batch detection is given. */
  function PointsIn(ins: seq<Input>): seq<TripPoint> {
    if ins == [] then [] else (if ins[0].Point? then [ins[0].p] else []) + PointsIn(ins[1..])
  }

  lemma KeptInStep(ph: Phase, ins: seq<Input>)
    requires ins != [] && InStep(ph, ins[0])
    ensures var next := BatchMoment(ph, ins[0]).phase;
            && next == LiveMoment(ph, ins[0]).phase
            && Kept(ph, ins) == (if ins[0].Point? then [ins[0].p] else []) + Kept(next, ins[1..])
  {
    SameMomentExactly(ph, ins[0]);
    if ph.Open? && ins[0].Point? {
      assert |ph.buf + [ins[0].p]| == |ph.buf| + 1;
    }
  }

  lemma FoldFirst(rule: Rule, ph: Phase, p: TripPoint, rest: seq<TripPoint>)
    ensures Fold(rule, ph, [p] + rest) == Completed(rule, ph, p) + Fold(rule, Advance(rule, ph, p), rest)
  {
    assert ([p] + rest)[1..] == rest;
  }

  lemma {:induction false} InStepFolds(ph: Phase, ins: seq<Input>)
    requires AllInStep(ph, ins)
    ensures Fold(Live, ph, Kept(ph, ins)) == Fold(Batch, ph, PointsIn(ins))
    decreases |ins|
  {
    if ins != [] {
      var next := BatchMoment(ph, ins[0]).phase;
      InStepFolds(next, ins[1..]);
      KeptInStep(ph, ins);
      SameMomentExactly(ph, ins[0]);
      hide Fold, Advance, Completed, InStep, AllInStep;
      match ins[0]
      case Point(p) =>
        LiveOfKept(ph, p, Kept(next, ins[1..]));
        FoldFirst(Live, ph, p, Kept(next, ins[1..]));
        FoldFirst(Batch, ph, p, PointsIn(ins[1..]));
      case Beat(_) =>
        assert next == ph && Kept(ph, ins) == Kept(next, ins[1..]) && PointsIn(ins) == PointsIn(ins[1..]);
    }
  }

  lemma LiveOfKept(ph: Phase, p: TripPoint, rest: seq<TripPoint>)
    requires InStep(ph, Point(p))
    ensures Advance(Live, ph, p) == Advance(Batch, ph, p) && Completed(Live, ph, p) == Completed(Batch, ph, p)
  {
    SameMomentExactly(ph, Point(p));
    assert !Dropped(ph, p);
  }

  /**
    A run from an empty state, events of many devices interleaved in any way: if every input of a known device d is in
    step, what was saved for d and what its open buffer would give are the batch trips of its points.
  */
  lemma InStepEqualsBatch(dist: Metric, devices: set<string>, events: seq<Event>, d: string)
    requires d in devices && NonZeroTimes(NOTHING, events, d) && AllInStep(Idle, InputsOf(events, d))
    ensures SavedAndOpen(dist, devices, Run(dist, devices, NOTHING, events), d)
            == BatchTrips(dist, PointsIn(InputsOf(events, d)))
  {
    var ins := InputsOf(events, d);
    ConsistentInitially();
    OnlineIsSegmentation(dist, devices, NOTHING, events, d);
    InStepFolds(Idle, ins);
    BatchTripsAsFold(dist, PointsIn(ins));
    hide Run, AllInStep, InputsOf, Kept, Fold, BatchTrips, PointsIn;
  }
}
