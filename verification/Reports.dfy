/** Idle time and engine hours of a device's track, and how they compare with its stops and its span. */
module Reports {
  import opened Prelude
  import opened Stops

  /** Idle time of a run: up to the moving point that ends it, or to the last point of the track. */
  function IdleMs(points: seq<Point>, r: Run): int {
    if r.from < r.to <= |points| then
      points[if r.to < |points| then r.to else r.to - 1].deviceTime - points[r.from].deviceTime
    else 0
  }

  function CountedIdle(points: seq<Point>, r: Run, thresholdMs: int): int {
    var ms := IdleMs(points, r);
    if ms >= thresholdMs then ms else 0
  }

  /** Total idle time over the runs of the list that last at least the threshold. */
  function TotalIdle(points: seq<Point>, rs: seq<Run>, thresholdMs: int): int {
    if rs == [] then 0
    else TotalIdle(points, rs[..|rs| - 1], thresholdMs) + CountedIdle(points, rs[|rs| - 1], thresholdMs)
  }

  lemma TotalIdleMore(points: seq<Point>, rs: seq<Run>, r: Run, thresholdMs: int)
    ensures TotalIdle(points, rs + [r], thresholdMs) ==
            TotalIdle(points, rs, thresholdMs) + CountedIdle(points, r, thresholdMs)
  {
    assert (rs + [r])[..|rs|] == rs;
  }

  lemma NoIdle(points: seq<Point>, thresholdMs: int)
    ensures TotalIdle(points, ClosedRuns(points, 0), thresholdMs) == 0
  {
  }

  method GetIdleTime(points: seq<Point>, idleThresholdMinutes: Option<int>) returns (totalIdleMs: int)
    ensures totalIdleMs == TotalIdle(points, Runs(points), Threshold(idleThresholdMinutes))
  {
    hide Standing, TotalIdle;
    var thresholdMs := Threshold(idleThresholdMinutes);
    totalIdleMs := 0;
    NoIdle(points, thresholdMs);
    var idleStart: Option<int> := None;
    var i := 0;
    while i < |points|
      invariant 0 <= i <= |points|
      invariant idleStart == if OpenFrom(points, i) < i then Some(points[OpenFrom(points, i)].deviceTime) else None
      invariant totalIdleMs == TotalIdle(points, ClosedRuns(points, i), thresholdMs)
    {
      var isIdle := Standing(points[i]);
      OpenAfterClosed(points, i);
      ClosedRunsStep(points, i);
      TotalIdleMore(points, ClosedRuns(points, i), Run(OpenFrom(points, i), i), thresholdMs);
      hide ClosedRuns;
      if isIdle && idleStart == None {
        idleStart := Some(points[i].deviceTime);
      }
      if !isIdle && idleStart != None {
        var idleMs := points[i].deviceTime - idleStart.value;
        if idleMs >= thresholdMs {
          totalIdleMs := totalIdleMs + idleMs;
        }
        idleStart := None;
      }
      i := i + 1;
    }
    hide ClosedRuns, OpenFrom;
    TotalIdleMore(points, ClosedRuns(points, |points|), Run(OpenFrom(points, |points|), |points|), thresholdMs);
    if idleStart != None && |points| > 0 {
      var end := points[|points| - 1].deviceTime;
      var idleMs := end - idleStart.value;
      if idleMs >= thresholdMs {
        totalIdleMs := totalIdleMs + idleMs;
      }
    } else {
      assert Runs(points) == ClosedRuns(points, |points|);
    }
  }

  // Stops against idle time against the span.

  /** The summed lengths of the runs of the list that count as stops. */
  function TotalStopMs(points: seq<Point>, rs: seq<Run>, minStopMs: int): int {
    if rs == [] then 0
    else
      var r := rs[|rs| - 1];
      TotalStopMs(points, rs[..|rs| - 1], minStopMs) +
      (if r.from < r.to <= |points| && StopMs(points, r) >= minStopMs then StopMs(points, r) else 0)
  }

  /** Summed from the reported stops themselves, start to end. */
  function SumOfStops(stops: seq<Stop>): int {
    if stops == [] then 0
    else
      var last := stops[|stops| - 1];
      SumOfStops(stops[..|stops| - 1]) + (last.endTime - last.startTime)
  }

  lemma {:induction false} StopsSumUp(points: seq<Point>, rs: seq<Run>, minStopMs: int)
    ensures SumOfStops(LongStops(points, rs, minStopMs)) == TotalStopMs(points, rs, minStopMs)
  {
    if rs != [] {
      var front, r := rs[..|rs| - 1], rs[|rs| - 1];
      StopsSumUp(points, front, minStopMs);
      var before, all := LongStops(points, front, minStopMs), LongStops(points, rs, minStopMs);
      if r.from < r.to <= |points| && StopMs(points, r) >= minStopMs {
        assert all == before + [StopOf(points, r)];
        assert all[..|all| - 1] == before;
      } else {
        assert all == before;
      }
    }
  }

  lemma {:induction false} StopsWithinIdle(points: seq<Point>, rs: seq<Run>, thresholdMs: int)
    requires Sorted(points) && thresholdMs >= 0
    requires forall k | 0 <= k < |rs| :: rs[k].from < rs[k].to <= |points|
    ensures 0 <= TotalStopMs(points, rs, thresholdMs) <= TotalIdle(points, rs, thresholdMs)
  {
    if rs != [] {
      StopsWithinIdle(points, rs[..|rs| - 1], thresholdMs);
      var r := rs[|rs| - 1];
      assert 0 <= StopMs(points, r) <= IdleMs(points, r);
    }
  }

  /** Idle time ends by the point after the last run of the list. */
  lemma {:induction false} IdleWithinSpan(points: seq<Point>, rs: seq<Run>, thresholdMs: int)
    requires Sorted(points) && thresholdMs >= 0 && rs != []
    requires forall k | 0 <= k < |rs| :: rs[k].from < rs[k].to <= |points|
    requires forall j, k | 0 <= j < k < |rs| :: rs[j].to < rs[k].from
    ensures var last := rs[|rs| - 1];
            TotalIdle(points, rs, thresholdMs) <= points[last.from].deviceTime
                + IdleMs(points, last) - points[0].deviceTime
    decreases |rs|
  {
    var front, last := rs[..|rs| - 1], rs[|rs| - 1];
    assert 0 <= IdleMs(points, last);
    if front == [] {
      assert TotalIdle(points, front, thresholdMs) == 0;
    } else {
      IdleWithinSpan(points, front, thresholdMs);
      var before := front[|front| - 1];
      assert before.to < last.from;
      assert points[before.from].deviceTime + IdleMs(points, before) <= points[last.from].deviceTime;
    }
  }

  /** With one threshold, the stops last no longer than the idle time, and that no longer than the track. */
  lemma StopsIdleSpan(points: seq<Point>, thresholdMs: int)
    requires Sorted(points) && thresholdMs >= 0 && points != []
    ensures 0 <= SumOfStops(LongStops(points, Runs(points), thresholdMs))
            <= TotalIdle(points, Runs(points), thresholdMs)
    ensures TotalIdle(points, Runs(points), thresholdMs) <= points[|points| - 1].deviceTime - points[0].deviceTime
  {
    var rs := Runs(points);
    RunsExactly(points);
    hide Runs;
    forall k | 0 <= k < |rs| ensures rs[k].from < rs[k].to <= |points| {
      RunBounds(points, rs[k]);
    }
    hide IsMaximalRun;
    StopsSumUp(points, rs, thresholdMs);
    StopsWithinIdle(points, rs, thresholdMs);
    if rs != [] {
      IdleWithinSpan(points, rs, thresholdMs);
    }
  }

  // Engine hours.

  const MAX_GAP_MS := 600000

  predicate IgnitionOn(p: Point) {
    p.ignition == Some(true)
  }

  /** The time from point i - 1 to point i, if the engine was on at the first and the gap is positive and short. */
  function GapMs(points: seq<Point>, i: nat): int
    requires 0 < i < |points|
  {
    var delta := points[i].deviceTime - points[i - 1].deviceTime;
    if IgnitionOn(points[i - 1]) && 0 < delta <= MAX_GAP_MS then delta else 0
  }

  /** Engine-on time over the first n points. */
  function EngineOnMs(points: seq<Point>, n: nat): int
    requires n <= |points|
  {
    if n <= 1 then 0 else EngineOnMs(points, n - 1) + GapMs(points, n - 1)
  }

  /** How many of the first n points have the engine on and come right after one that does not. */
  function EngineStarts(points: seq<Point>, n: nat): nat
    requires n <= |points|
  {
    if n <= 1 then 0
    else EngineStarts(points, n - 1) + (if !IgnitionOn(points[n - 2]) && IgnitionOn(points[n - 1]) then 1 else 0)
  }

  method GetEngineHours(points: seq<Point>) returns (engineOnMs: int, engineStartCount: nat)
    ensures engineOnMs == EngineOnMs(points, |points|) && engineStartCount == EngineStarts(points, |points|)
  {
    engineOnMs, engineStartCount := 0, 0;
    var prevIgnition: Option<bool> := None;
    var i := 0;
    while i < |points|
      invariant 0 <= i <= |points|
      invariant prevIgnition == if i == 0 then None else Some(IgnitionOn(points[i - 1]))
      invariant engineOnMs == EngineOnMs(points, i) && engineStartCount == EngineStarts(points, i)
    {
      var curr := IgnitionOn(points[i]);
      if prevIgnition == Some(false) && curr {
        engineStartCount := engineStartCount + 1;
      }
      if i > 0 && IgnitionOn(points[i - 1]) {
        var deltaMs := points[i].deviceTime - points[i - 1].deviceTime;
        if deltaMs > 0 && deltaMs <= MAX_GAP_MS {
          engineOnMs := engineOnMs + deltaMs;
        }
      }
      prevIgnition := Some(curr);
      i := i + 1;
    }
  }

  /** How many of the first n - 1 points have the engine on. */
  function OnPoints(points: seq<Point>, n: nat): nat
    requires n <= |points|
  {
    if n <= 1 then 0 else OnPoints(points, n - 1) + (if IgnitionOn(points[n - 2]) then 1 else 0)
  }

  /** Engine-on time is at most the span, and at most ten minutes for each gap that begins with the engine on. */
  lemma {:induction false} EngineOnBounded(points: seq<Point>, n: nat)
    requires Sorted(points) && 0 < n <= |points|
    ensures 0 <= EngineOnMs(points, n) <= points[n - 1].deviceTime - points[0].deviceTime
    ensures EngineOnMs(points, n) <= MAX_GAP_MS * OnPoints(points, n)
    decreases n
  {
    if n > 1 {
      EngineOnBounded(points, n - 1);
    }
  }

  /** It equals the span exactly when no time passes with the engine off or in a gap longer than ten minutes. */
  lemma {:induction false} EngineOnIsSpanExactly(points: seq<Point>, n: nat)
    requires Sorted(points) && 0 < n <= |points|
    ensures EngineOnMs(points, n) == points[n - 1].deviceTime - points[0].deviceTime <==>
            forall i | 0 < i < n :: points[i].deviceTime == points[i - 1].deviceTime || GapMs(points, i) > 0
    decreases n
  {
    if n > 1 {
      EngineOnIsSpanExactly(points, n - 1);
      EngineOnBounded(points, n - 1);
      assert points[n - 2].deviceTime <= points[n - 1].deviceTime;
    }
  }

  // Where all the time goes.

  /** The time that passes over the first n points, from a point to the next where the condition holds of the two. */
  function TimeWhere(points: seq<Point>, n: nat, f: (Point, Point) -> bool): int
    requires n <= |points|
  {
    if n <= 1 then 0
    else
      TimeWhere(points, n - 1, f) +
      (if f(points[n - 2], points[n - 1]) then points[n - 1].deviceTime - points[n - 2].deviceTime else 0)
  }

  /** The engine is reported on at p, and q comes within ten minutes. */
  predicate RunsOn(p: Point, q: Point) {
    p.ignition == Some(true) && q.deviceTime - p.deviceTime <= 600000
  }

  /** Engine-on time is the time that passes there. */
  lemma {:induction false} EngineOnExactly(points: seq<Point>, n: nat)
    requires Sorted(points) && n <= |points|
    ensures EngineOnMs(points, n) == TimeWhere(points, n, RunsOn)
  {
    if n > 1 {
      EngineOnExactly(points, n - 1);
      assert points[n - 2].deviceTime <= points[n - 1].deviceTime;
    }
  }

  /** How many of the first n points do not report the engine on, right after one that does. */
  function EngineStops(points: seq<Point>, n: nat): nat
    requires n <= |points|
  {
    if n <= 1 then 0
    else
      EngineStops(points, n - 1) +
      (if points[n - 2].ignition == Some(true) && points[n - 1].ignition != Some(true) then 1 else 0)
  }

  /** The engine has started as often as it has stopped, but for how the track begins and ends. */
  lemma {:induction false} StartsAgainstStops(points: seq<Point>, n: nat)
    requires 0 < n <= |points|
    ensures EngineStarts(points, n) + (if points[0].ignition == Some(true) then 1 else 0)
            == EngineStops(points, n) + (if points[n - 1].ignition == Some(true) then 1 else 0)
  {
    if n > 1 {
      StartsAgainstStops(points, n - 1);
    }
  }

  /** The time of the run that is open before index n, up to the point before. */
  function OpenIdle(points: seq<Point>, n: nat): int
    requires n <= |points|
  {
    var a := OpenFrom(points, n);
    if a < n then points[n - 1].deviceTime - points[a].deviceTime else 0
  }

  predicate StartsSlow(p: Point, q: Point) {
    Slow(p)
  }

  /** The step from point m - 1 to point m. */
  lemma OpenIdleStep(points: seq<Point>, m: nat)
    requires Sorted(points) && m < |points|
    ensures var gap := if m > 0 && Slow(points[m - 1]) then points[m].deviceTime - points[m - 1].deviceTime else 0;
            var a := OpenFrom(points, m);
            && (Standing(points[m]) ==> OpenIdle(points, m + 1) == OpenIdle(points, m) + gap)
            && (!Standing(points[m]) ==> OpenIdle(points, m + 1) == 0)
            && (a < m ==> CountedIdle(points, Run(a, m), 0) == OpenIdle(points, m) + gap)
            && (a == m ==> OpenIdle(points, m) == gap == 0)
  {
    OpenAfterClosed(points, m);
    if m > 0 {
      OpenAfterClosed(points, m - 1);
    }
    var a := OpenFrom(points, m);
    assert a < m ==> points[a].deviceTime <= points[m].deviceTime;
    hide OpenFrom;
  }

  lemma {:induction false} IdleSoFar(points: seq<Point>, n: nat)
    requires Sorted(points) && n <= |points|
    ensures TotalIdle(points, ClosedRuns(points, n), 0) + OpenIdle(points, n) == TimeWhere(points, n, StartsSlow)
  {
    if n > 0 {
      var m := n - 1;
      IdleSoFar(points, m);
      ClosedRunsStep(points, m);
      OpenIdleStep(points, m);
      hide ClosedRuns, OpenFrom, TotalIdle, IdleMs, CountedIdle, OpenIdle, Standing, Slow, Sorted;
      TotalIdleMore(points, ClosedRuns(points, m), Run(OpenFrom(points, m), m), 0);
    }
  }

  /** Without a threshold, idle time is the time after each slow point until the next point. */
  lemma {:induction false} IdleExactly(points: seq<Point>)
    requires Sorted(points)
    ensures TotalIdle(points, Runs(points), 0) == TimeWhere(points, |points|, StartsSlow)
  {
    hide ClosedRuns, TotalIdle, OpenIdle, CountedIdle, TimeWhere;
    var n := |points|;
    var a := OpenFrom(points, n);
    IdleSoFar(points, n);
    OpenIdleAtEnd(points);
    hide OpenFrom;
    var closed := ClosedRuns(points, n);
    TotalIdleMore(points, closed, Run(a, n), 0);
    assert closed + [] == closed;
    assert Runs(points) == if a < n then closed + [Run(a, n)] else closed;
  }

  lemma OpenIdleAtEnd(points: seq<Point>)
    requires Sorted(points)
    ensures var a, n := OpenFrom(points, |points|), |points|;
            OpenIdle(points, n) == if a < n then CountedIdle(points, Run(a, n), 0) else 0
  {
    var a := OpenFrom(points, |points|);
    hide OpenFrom;
    assert a < |points| ==> points[a].deviceTime <= points[|points| - 1].deviceTime;
  }

  /** With one, a run counts in full exactly when it is that long, up to the point that ends it. */
  lemma IdleOfRun(points: seq<Point>, a: nat, b: nat, minutes: Option<int>)
    requires SlowFromTo(points, a, b)
    ensures var end := if b + 1 < |points| then b + 1 else b;
            var time := points[end].deviceTime - points[a].deviceTime;
            CountedIdle(points, Run(a, b + 1), Threshold(minutes))
            == if time >= 60000 * (if minutes.Some? then minutes.value else 5) then time else 0
  {
  }
}
