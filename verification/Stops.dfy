/** Stops in a device's track: the maximal runs of standing points that last long enough. */
module Stops {
  import opened Prelude

  datatype Point = Point(deviceTime: int, speed: Option<real>, ignition: Option<bool>, lat: real, lng: real)

  /** From the start point to the end point of a run. */
  datatype Stop = Stop(startTime: int, endTime: int, durationSeconds: int, lat: real, lng: real)

  /** The points from index from up to, not including, index to. */
  datatype Run = Run(from: nat, to: nat)

  predicate Standing(p: Point) {
    (if p.speed.Some? then p.speed.value else 0.0) <= 1.0
  }

  ghost predicate Sorted(points: seq<Point>) {
    forall i, j | 0 <= i <= j < |points| :: points[i].deviceTime <= points[j].deviceTime
  }

  /** A run of standing points that cannot be made longer. */
  ghost predicate IsMaximalRun(points: seq<Point>, r: Run) {
    && r.from < r.to <= |points|
    && (forall k | r.from <= k < r.to :: Standing(points[k]))
    && (r.from > 0 ==> !Standing(points[r.from - 1]))
    && (r.to < |points| ==> !Standing(points[r.to]))
  }

  /** Where the standing points that end just before index n begin; n itself when there are none. */
  function OpenFrom(points: seq<Point>, n: nat): (a: nat)
    requires n <= |points|
    ensures a <= n && (forall k | a <= k < n :: Standing(points[k])) && (a > 0 ==> !Standing(points[a - 1]))
  {
    if n == 0 || !Standing(points[n - 1]) then n else OpenFrom(points, n - 1)
  }

  /** The runs that a moving point before index n has ended. */
  function ClosedRuns(points: seq<Point>, n: nat): seq<Run>
    requires n <= |points|
  {
    if n == 0 then []
    else
      var a := OpenFrom(points, n - 1);
      ClosedRuns(points, n - 1) + (if !Standing(points[n - 1]) && a < n - 1 then [Run(a, n - 1)] else [])
  }

  /** All runs: the closed ones, and the one the track ends with, if it does. */
  function Runs(points: seq<Point>): seq<Run> {
    var n := |points|;
    var a := OpenFrom(points, n);
    ClosedRuns(points, n) + (if a < n then [Run(a, n)] else [])
  }

  /** Maximal runs that end before the bound, in order with a moving point between each two. */
  ghost predicate ListsRuns(points: seq<Point>, rs: seq<Run>, bound: nat) {
    && (forall k | 0 <= k < |rs| :: IsMaximalRun(points, rs[k]) && rs[k].to < bound)
    && (forall j, k | 0 <= j < k < |rs| :: rs[j].to < rs[k].from)
  }

  lemma ListsOneMore(points: seq<Point>, rs: seq<Run>, r: Run, bound: nat)
    requires ListsRuns(points, rs, r.from) && IsMaximalRun(points, r) && r.to < bound
    ensures ListsRuns(points, rs + [r], bound)
  {
    RunBounds(points, r);
    hide IsMaximalRun;
  }

  lemma ListsUpTo(points: seq<Point>, rs: seq<Run>, bound: nat, later: nat)
    requires ListsRuns(points, rs, bound) && bound <= later
    ensures ListsRuns(points, rs, later)
  {
    hide IsMaximalRun;
  }

  lemma ClosedRunIsMaximal(points: seq<Point>, m: nat)
    requires m < |points| && !Standing(points[m]) && OpenFrom(points, m) < m
    ensures IsMaximalRun(points, Run(OpenFrom(points, m), m))
  {
    hide Standing, OpenFrom;
    var a := OpenFrom(points, m);
    assert forall k | a <= k < m :: Standing(points[k]);
  }

  lemma {:induction false} ClosedRunsAreRuns(points: seq<Point>, n: nat)
    requires n <= |points|
    ensures ListsRuns(points, ClosedRuns(points, n), OpenFrom(points, n))
  {
    if n > 0 {
      var m := n - 1;
      var a := OpenFrom(points, m);
      ClosedRunsAreRuns(points, m);
      OpenAfterClosed(points, m);
      ClosedRunsStep(points, m);
      hide ClosedRuns, OpenFrom, ListsRuns, Standing, IsMaximalRun;
      if !Standing(points[m]) && a < m {
        ClosedRunIsMaximal(points, m);
        ListsOneMore(points, ClosedRuns(points, m), Run(a, m), n);
      } else {
        ListsUpTo(points, ClosedRuns(points, m), a, OpenFrom(points, n));
      }
    }
  }

  lemma ClosedRunsStep(points: seq<Point>, m: nat)
    requires m < |points|
    ensures ClosedRuns(points, m + 1) ==
            if !Standing(points[m]) && OpenFrom(points, m) < m then
              ClosedRuns(points, m) + [Run(OpenFrom(points, m), m)]
            else ClosedRuns(points, m)
  {
  }

  lemma OpenAfterClosed(points: seq<Point>, m: nat)
    requires m < |points|
    ensures OpenFrom(points, m + 1) == if Standing(points[m]) then OpenFrom(points, m) else m + 1
  {
  }

  /** Every maximal run that ends before n is listed. */
  lemma {:induction false} RunsAreListed(points: seq<Point>, n: nat, r: Run)
    requires n <= |points| && IsMaximalRun(points, r) && r.to < n
    ensures r in ClosedRuns(points, n)
  {
    if r.to < n - 1 {
      RunsAreListed(points, n - 1, r);
    } else {
      OpenIsStart(points, r, r.to);
      assert Run(OpenFrom(points, n - 1), n - 1) == r;
    }
  }

  lemma {:induction false} OpenIsStart(points: seq<Point>, r: Run, n: nat)
    requires IsMaximalRun(points, r) && r.from < n <= r.to
    ensures OpenFrom(points, n) == r.from
    decreases n
  {
    if n - 1 > r.from {
      OpenIsStart(points, r, n - 1);
    }
  }

  lemma OpenRunIsMaximal(points: seq<Point>)
    ensures var a := OpenFrom(points, |points|); a < |points| ==> IsMaximalRun(points, Run(a, |points|))
  {
    hide Standing, OpenFrom;
    var a := OpenFrom(points, |points|);
    assert forall k | a <= k < |points| :: Standing(points[k]);
  }

  lemma RunBounds(points: seq<Point>, r: Run)
    requires IsMaximalRun(points, r)
    ensures r.from < r.to <= |points|
  {
  }

  lemma RunsAreRuns(points: seq<Point>)
    ensures ListsRuns(points, Runs(points), |points| + 1)
  {
    var n := |points|;
    var a := OpenFrom(points, n);
    ClosedRunsAreRuns(points, n);
    OpenRunIsMaximal(points);
    hide ClosedRuns, OpenFrom, ListsRuns, IsMaximalRun;
    if a < n {
      ListsOneMore(points, ClosedRuns(points, n), Run(a, n), n + 1);
    } else {
      ListsUpTo(points, ClosedRuns(points, n), a, n + 1);
    }
  }

  lemma EveryRunIsListed(points: seq<Point>, r: Run)
    requires IsMaximalRun(points, r)
    ensures r in Runs(points)
  {
    RunBounds(points, r);
    var n := |points|;
    hide ClosedRuns, IsMaximalRun;
    if r.to < n {
      RunsAreListed(points, n, r);
    } else {
      OpenIsStart(points, r, n);
    }
  }

  /** The list is exactly the maximal runs, in order and disjoint. */
  lemma RunsExactly(points: seq<Point>)
    ensures forall r :: r in Runs(points) <==> IsMaximalRun(points, r)
    ensures forall j, k | 0 <= j < k < |Runs(points)| :: Runs(points)[j].to < Runs(points)[k].from
  {
    RunsAreRuns(points);
    hide Runs, IsMaximalRun;
    forall r | IsMaximalRun(points, r) ensures r in Runs(points) {
      EveryRunIsListed(points, r);
    }
  }

  function StopOf(points: seq<Point>, r: Run): Stop
    requires r.from < r.to <= |points|
  {
    var start, end := points[r.from], points[r.to - 1];
    Stop(start.deviceTime, end.deviceTime, MathRound((end.deviceTime - start.deviceTime) as real / 1000.0), start.lat,
        start.lng)
  }

  function StopMs(points: seq<Point>, r: Run): int {
    if r.from < r.to <= |points| then points[r.to - 1].deviceTime - points[r.from].deviceTime else 0
  }

  /** The stops of those runs of the list that last at least the minimum. */
  function LongStops(points: seq<Point>, rs: seq<Run>, minStopMs: int): seq<Stop> {
    if rs == [] then []
    else
      var r := rs[|rs| - 1];
      LongStops(points, rs[..|rs| - 1], minStopMs) +
      (if r.from < r.to <= |points| && StopMs(points, r) >= minStopMs then [StopOf(points, r)] else [])
  }

  lemma LongStopsMore(points: seq<Point>, rs: seq<Run>, r: Run, minStopMs: int)
    ensures LongStops(points, rs + [r], minStopMs) ==
            LongStops(points, rs, minStopMs) +
            (if r.from < r.to <= |points| && StopMs(points, r) >= minStopMs then [StopOf(points, r)] else [])
  {
    assert (rs + [r])[..|rs|] == rs;
  }

  /** Appends the run from index from up to index to, if it is long enough. */
  method AddIfLong(points: seq<Point>, ghost rs: seq<Run>, from: nat, to: nat, minStopMs: int, stops: seq<Stop>)
      returns (more: seq<Stop>)
    requires from < to <= |points| && stops == LongStops(points, rs, minStopMs)
    ensures more == LongStops(points, rs + [Run(from, to)], minStopMs)
  {
    LongStopsMore(points, rs, Run(from, to), minStopMs);
    hide LongStops;
    var start, end := points[from], points[to - 1];
    var durationMs := end.deviceTime - start.deviceTime;
    more := stops;
    if durationMs >= minStopMs {
      more := more + [Stop(start.deviceTime, end.deviceTime, MathRound(durationMs as real / 1000.0), start.lat,
          start.lng)];
    }
  }

  method GetStops(points: seq<Point>, minStopMinutes: Option<int>) returns (stops: seq<Stop>)
    ensures stops == LongStops(points, Runs(points), Threshold(minStopMinutes))
  {
    hide LongStops, MathRound, Standing;
    var minStopMs := Threshold(minStopMinutes);
    stops := [];
    assert stops == LongStops(points, ClosedRuns(points, 0), minStopMs) by { NoStops(points, minStopMs); }
    var stopStartIndex: Option<nat> := None;
    var i := 0;
    while i < |points|
      invariant 0 <= i <= |points|
      invariant stopStartIndex == if OpenFrom(points, i) < i then Some(OpenFrom(points, i)) else None
      invariant stops == LongStops(points, ClosedRuns(points, i), minStopMs)
    {
      var isStopped := Standing(points[i]);
      OpenAfterClosed(points, i);
      ghost var closed := ClosedRuns(points, i);
      ClosedRunsStep(points, i);
      hide ClosedRuns;
      if isStopped && stopStartIndex == None {
        stopStartIndex := Some(i);
      }
      if !isStopped && stopStartIndex != None {
        stops := AddIfLong(points, closed, stopStartIndex.value, i, minStopMs, stops);
        stopStartIndex := None;
      }
      i := i + 1;
    }
    hide ClosedRuns, OpenFrom;
    ghost var closed := ClosedRuns(points, |points|);
    assert Runs(points) == if stopStartIndex == None then closed else closed + [Run(stopStartIndex.value, |points|)];
    if stopStartIndex != None && |points| > 0 {
      stops := AddIfLong(points, ClosedRuns(points, |points|), stopStartIndex.value, |points|, minStopMs, stops);
    }
  }

  function Threshold(minutes: Option<int>): int {
    (if minutes.Some? then minutes.value else 5) * 60 * 1000
  }

  lemma NoStops(points: seq<Point>, minStopMs: int)
    ensures LongStops(points, ClosedRuns(points, 0), minStopMs) == []
  {
  }

  /** A stop is reported exactly for each maximal run that lasts at least the minimum. */
  lemma StopsExactly(points: seq<Point>, minStopMs: int, stop: Stop)
    ensures stop in LongStops(points, Runs(points), minStopMs) <==>
            exists r :: IsMaximalRun(points, r) && StopMs(points, r) >= minStopMs && stop == StopOf(points, r)
  {
    RunsExactly(points);
    LongStopsExactly(points, Runs(points), minStopMs, stop);
    hide Runs, LongStops, StopOf, StopMs;
    if r :| IsMaximalRun(points, r) && StopMs(points, r) >= minStopMs && stop == StopOf(points, r) {
      assert r in Runs(points);
    }
  }

  lemma {:induction false} LongStopsExactly(points: seq<Point>, rs: seq<Run>, minStopMs: int, stop: Stop)
    ensures stop in LongStops(points, rs, minStopMs) <==>
            exists r :: r in rs && r.from < r.to <= |points| && StopMs(points, r) >= minStopMs
                && stop == StopOf(points, r)
  {
    hide StopOf, StopMs;
    if rs != [] {
      LongStopsExactly(points, rs[..|rs| - 1], minStopMs, stop);
      assert rs == rs[..|rs| - 1] + [rs[|rs| - 1]];
    }
  }

  /** Stops come in the order of time and do not overlap. */
  lemma StopsInOrder(points: seq<Point>, minStopMs: int, j: nat, k: nat)
    requires Sorted(points) && j < k < |LongStops(points, Runs(points), minStopMs)|
    ensures var stops := LongStops(points, Runs(points), minStopMs);
            stops[j].startTime <= stops[j].endTime <= stops[k].startTime
  {
    RunsExactly(points);
    LongStopsInOrder(points, Runs(points), minStopMs, j, k);
  }

  /** The run of a reported stop. */
  lemma {:induction false} RunOfStop(points: seq<Point>, rs: seq<Run>, minStopMs: int, j: nat) returns (i: nat)
    requires j < |LongStops(points, rs, minStopMs)|
    ensures j <= i < |rs| && rs[i].from < rs[i].to <= |points|
            && LongStops(points, rs, minStopMs)[j] == StopOf(points, rs[i])
    decreases |rs|
  {
    hide StopOf, StopMs;
    var front := rs[..|rs| - 1];
    if j < |LongStops(points, front, minStopMs)| {
      i := RunOfStop(points, front, minStopMs, j);
    } else {
      i := |rs| - 1;
      FewerStops(points, front, minStopMs);
    }
  }

  lemma {:induction false} FewerStops(points: seq<Point>, rs: seq<Run>, minStopMs: int)
    ensures |LongStops(points, rs, minStopMs)| <= |rs|
  {
    if rs != [] {
      FewerStops(points, rs[..|rs| - 1], minStopMs);
    }
  }

  lemma {:induction false} LongStopsInOrder(points: seq<Point>, rs: seq<Run>, minStopMs: int, j: nat, k: nat)
    requires Sorted(points) && j < k < |LongStops(points, rs, minStopMs)|
    requires forall a, b | 0 <= a < b < |rs| :: rs[a].to < rs[b].from
    ensures var stops := LongStops(points, rs, minStopMs);
            stops[j].startTime <= stops[j].endTime <= stops[k].startTime
    decreases |rs|
  {
    var front := rs[..|rs| - 1];
    var before := LongStops(points, front, minStopMs);
    if k < |before| {
      LongStopsInOrder(points, front, minStopMs, j, k);
    } else {
      var i := RunOfStop(points, front, minStopMs, j);
      assert rs[i].to < rs[|rs| - 1].from;
    }
  }

  /** Slower than or at 1 km/h, or without a speed. */
  predicate Slow(p: Point) {
    p.speed.None? || p.speed.value <= 1.0
  }

  /** The points from index a to index b are slow, and those next to them are not. */
  ghost predicate SlowFromTo(points: seq<Point>, a: nat, b: nat) {
    && a <= b < |points| && (forall k | a <= k <= b :: Slow(points[k]))
    && (a > 0 ==> !Slow(points[a - 1])) && (b + 1 < |points| ==> !Slow(points[b + 1]))
  }

  /** The stop that a stretch of slow points makes, if it lasts the minimum of so many minutes, five by default. */
  ghost predicate MakesStop(points: seq<Point>, minutes: Option<int>, stop: Stop, a: nat, b: nat) {
    && SlowFromTo(points, a, b)
    && stop.startTime == points[a].deviceTime && stop.endTime == points[b].deviceTime
    && stop.lat == points[a].lat && stop.lng == points[a].lng
    && stop.durationSeconds == MathRound((stop.endTime - stop.startTime) as real / 1000.0)
    && stop.endTime - stop.startTime >= 60000 * (if minutes.Some? then minutes.value else 5)
  }

  /** The stops reported are exactly those of the longest stretches of slow points. */
  lemma StopsReported(points: seq<Point>, minutes: Option<int>, stop: Stop)
    ensures stop in LongStops(points, Runs(points), Threshold(minutes)) <==>
            exists a: nat, b: nat :: MakesStop(points, minutes, stop, a, b)
  {
    StopsExactly(points, Threshold(minutes), stop);
    hide LongStops, Runs, MakesStop, StopMs, StopOf, Threshold;
    if r :| IsMaximalRun(points, r) && StopMs(points, r) >= Threshold(minutes) && stop == StopOf(points, r) {
      RunBounds(points, r);
      StretchIsRun(points, minutes, stop, r.from, r.to - 1);
    }
    if a: nat, b: nat :| MakesStop(points, minutes, stop, a, b) {
      StretchIsRun(points, minutes, stop, a, b);
    }
  }

  lemma StretchIsRun(points: seq<Point>, minutes: Option<int>, stop: Stop, a: nat, b: nat)
    ensures MakesStop(points, minutes, stop, a, b) <==>
            var r := Run(a, b + 1);
            IsMaximalRun(points, r) && StopMs(points, r) >= Threshold(minutes) && stop == StopOf(points, r)
  {
    SlowRun(points, a, b);
    assert SlowFromTo(points, a, b) ==> a <= b < |points|;
    hide SlowFromTo, IsMaximalRun, MathRound;
  }

  lemma SlowRun(points: seq<Point>, a: nat, b: nat)
    ensures SlowFromTo(points, a, b) <==> IsMaximalRun(points, Run(a, b + 1))
  {
    assert forall k | 0 <= k < |points| :: Slow(points[k]) == Standing(points[k]);
    hide Slow, Standing;
  }
}
