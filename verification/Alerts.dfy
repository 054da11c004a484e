/**
  Engine and overspeed alerts: decisions taken from locations, disconnects and the job that looks for devices gone
  silent with the engine on. That job awaits a database read for each entry, so the read and what follows are two
  steps, and other handlers may run between them.
*/
module Alerts {
  import opened Prelude

  type Imei = string

  const ALERT_COOLDOWN_MS := 60000

  datatype Note = EngineOn(imei: Imei) | EngineOff(imei: Imei) | Overspeed(imei: Imei, at: int)

  datatype Board = Board(
    now: int,
    ignition: map<Imei, bool>,
    lastAlert: map<Imei, int>,
    reading: multiset<Imei>,   // entries found ON whose device document is being read, once for each run of the job
    notes: seq<Note>)          // alerts decided, oldest first

  datatype Event =
    | Tick(now: int)
    | Ignition(imei: Imei, current: Option<bool>)
    | Speed(imei: Imei, speed: real, limit: real)
    | Disconnect(imei: Imei)
    | StaleRead(imei: Imei)
    | StaleDecided(imei: Imei, gone: bool)   // gone: offline, and silent for long enough

  predicate Enabled(g: Board, e: Event) {
    match e
    case Tick(now) => now >= g.now
    case StaleRead(imei) => imei in g.ignition && g.ignition[imei]
    case StaleDecided(imei, _) => imei in g.reading
    case _ => true
  }

  predicate IsOn(g: Board, imei: Imei) {
    imei in g.ignition && g.ignition[imei]
  }

  function Step(g: Board, e: Event): Board
    requires Enabled(g, e)
  {
    match e
    case Tick(now) => g.(now := now)
    case Ignition(imei, current) =>
      if current.None? then g
      else if imei in g.ignition && g.ignition[imei] == current.value then g
      else
        var g' := g.(ignition := g.ignition[imei := current.value]);
        if imei !in g.ignition && !current.value then g'
        else g'.(notes := g.notes + [if current.value then EngineOn(imei) else EngineOff(imei)])
    case Speed(imei, speed, limit) =>
      if speed <= limit then g
      else if imei in g.lastAlert && g.lastAlert[imei] != 0 && g.now - g.lastAlert[imei] < ALERT_COOLDOWN_MS then g
      else g.(lastAlert := g.lastAlert[imei := g.now], notes := g.notes + [Overspeed(imei, g.now)])
    case Disconnect(imei) =>
      var g' := g.(ignition := g.ignition - {imei});
      if IsOn(g, imei) then g'.(notes := g.notes + [EngineOff(imei)]) else g'
    case StaleRead(imei) => g.(reading := g.reading + multiset{imei})
    case StaleDecided(imei, gone) =>
      var g' := g.(reading := g.reading - multiset{imei});
      if gone then g'.(ignition := g.ignition[imei := false], notes := g.notes + [EngineOff(imei)]) else g'
  }

  /** One entry of the job with nothing between the read and the decision. */
  function SweepOne(g: Board, imei: Imei, gone: bool): Board {
    if IsOn(g, imei) && gone then g.(ignition := g.ignition[imei := false], notes := g.notes + [EngineOff(imei)]) else g
  }

  /** The whole job, undisturbed: the entries in turn. */
  function Sweep(g: Board, imeis: seq<Imei>, gone: set<Imei>): Board {
    if imeis == [] then g
    else
      var last := imeis[|imeis| - 1];
      SweepOne(Sweep(g, imeis[..|imeis| - 1], gone), last, last in gone)
  }

  class AlertsService {
    var now: int
    var ignitionState: map<Imei, bool>
    var lastAlertTime: map<Imei, int>
    var reading: multiset<Imei>
    var notes: seq<Note>

    constructor (now: int)
      ensures State() == Board(now, map[], map[], multiset{}, [])
    {
      this.now, ignitionState, lastAlertTime, reading, notes := now, map[], map[], multiset{}, [];
    }

    function State(): Board
      reads this
    {
      Board(now, ignitionState, lastAlertTime, reading, notes)
    }

    method CheckOverspeed(imei: Imei, speed: real, speedLimitKph: real)
      modifies this
      ensures State() == Step(old(State()), Speed(imei, speed, speedLimitKph))
    {
      if speed > speedLimitKph {
        if imei in lastAlertTime && lastAlertTime[imei] != 0 && now - lastAlertTime[imei] < ALERT_COOLDOWN_MS {
          return;
        }
        lastAlertTime := lastAlertTime[imei := now];
        notes := notes + [Overspeed(imei, now)];
      }
    }

    method CheckIgnitionChange(imei: Imei, ignition: Option<bool>)
      modifies this
      ensures State() == Step(old(State()), Ignition(imei, ignition))
    {
      if ignition.None? {
        return;
      }
      var prev := if imei in ignitionState then Some(ignitionState[imei]) else None;
      var curr := ignition.value;
      if prev == Some(curr) {
        return;
      }
      ignitionState := ignitionState[imei := curr];
      if prev == None && !curr {
        return;
      }
      notes := notes + [if curr then EngineOn(imei) else EngineOff(imei)];
    }

    method HandleDeviceDisconnected(imei: Imei)
      modifies this
      ensures State() == Step(old(State()), Disconnect(imei))
    {
      var wasOn := imei in ignitionState && ignitionState[imei];
      ignitionState := ignitionState - {imei};
      if wasOn {
        notes := notes + [EngineOff(imei)];
      }
    }

    /** The job run undisturbed over the entries of the ignition map; gone are the devices the database calls silent. */
    method DetectStaleEngineOn(entries: seq<Imei>, gone: set<Imei>)
      requires forall i | 0 <= i < |entries| :: entries[i] in ignitionState
      requires forall i, j | 0 <= i < j < |entries| :: entries[i] != entries[j]
      modifies this
      ensures State() == Sweep(old(State()), entries, gone)
    {
      ghost var start := State();
      var i := 0;
      while i < |entries|
        invariant 0 <= i <= |entries|
        invariant State() == Sweep(start, entries[..i], gone)
        invariant ignitionState.Keys == start.ignition.Keys
      {
        var imei := entries[i];
        assert entries[..i + 1][..i] == entries[..i];
        i := i + 1;
        if !ignitionState[imei] || imei !in gone {
          continue;
        }
        ignitionState := ignitionState[imei := false];
        notes := notes + [EngineOff(imei)];
      }
      assert entries[..|entries|] == entries;
    }
  }

  // Engine alerts.

  /** What the last engine alert of the device said. */
  function LastEngine(notes: seq<Note>, imei: Imei): Option<bool> {
    if notes == [] then None
    else
      match notes[|notes| - 1]
      case EngineOn(i) => if i == imei then Some(true) else LastEngine(notes[..|notes| - 1], imei)
      case EngineOff(i) => if i == imei then Some(false) else LastEngine(notes[..|notes| - 1], imei)
      case Overspeed(_, _) => LastEngine(notes[..|notes| - 1], imei)
  }

  /** ON and OFF alternate for the device, starting with ON. */
  predicate Alternates(notes: seq<Note>, imei: Imei) {
    if notes == [] then true
    else
      var rest := notes[..|notes| - 1];
      && Alternates(rest, imei)
      && (notes[|notes| - 1] == EngineOn(imei) ==> LastEngine(rest, imei) != Some(true))
      && (notes[|notes| - 1] == EngineOff(imei) ==> LastEngine(rest, imei) == Some(true))
  }

  lemma EngineMore(notes: seq<Note>, n: Note, imei: Imei)
    ensures LastEngine(notes + [n], imei) ==
            (if n == EngineOn(imei) then Some(true)
             else if n == EngineOff(imei) then Some(false)
             else LastEngine(notes, imei))
    ensures Alternates(notes + [n], imei) ==
            (Alternates(notes, imei) && (n == EngineOn(imei) ==> LastEngine(notes, imei) != Some(true))
             && (n == EngineOff(imei) ==> LastEngine(notes, imei) == Some(true)))
  {
    assert (notes + [n])[..|notes|] == notes;
  }

  /** The map says ON exactly when the device's last engine alert did, and its alerts alternate. */
  ghost predicate EngineTracked(g: Board, imei: Imei) {
    Alternates(g.notes, imei) && (IsOn(g, imei) <==> LastEngine(g.notes, imei) == Some(true))
  }

  /** The job decides on an entry that another handler has turned off or removed during its read. */
  predicate Overtaken(g: Board, e: Event) {
    e.StaleDecided? && e.gone && !IsOn(g, e.imei)
  }

  /** A step keeps the alerts of every device alternating exactly when it is not an overtaken decision of the job. */
  lemma AlternationExactly(g: Board, e: Event, imei: Imei)
    requires EngineTracked(g, imei) && Enabled(g, e)
    ensures EngineTracked(Step(g, e), imei) <==> !(Overtaken(g, e) && e.imei == imei)
    ensures Overtaken(g, e) && e.imei == imei ==> !Alternates(Step(g, e).notes, imei)
  {
    hide Alternates, LastEngine;
    var g' := Step(g, e);
    if g'.notes != g.notes {
      EngineMore(g.notes, g'.notes[|g.notes|], imei);
      assert g'.notes == g.notes + [g'.notes[|g.notes|]];
    }
  }

  /** What a report of the ignition, or a disconnect, decides, told from the alerts so far alone. */
  lemma EngineAlertsExactly(g: Board, imei: Imei, current: bool)
    requires EngineTracked(g, imei)
    ensures var last := LastEngine(g.notes, imei);
            && Step(g, Ignition(imei, Some(current))).notes ==
               (if current && last != Some(true) then g.notes + [EngineOn(imei)]
                else if !current && last == Some(true) then g.notes + [EngineOff(imei)]
                else g.notes)
            && (IsOn(Step(g, Ignition(imei, Some(current))), imei) <==> current)
            && Step(g, Ignition(imei, None)) == g
            && Step(g, Disconnect(imei)).notes ==
               (if last == Some(true) then g.notes + [EngineOff(imei)] else g.notes)
            && !IsOn(Step(g, Disconnect(imei)), imei)
  {
    hide Alternates, LastEngine;
  }

  /** What the job decides: an alert exactly for a device that is gone, and for one that is not, nothing. */
  lemma JobDecidesExactly(g: Board, imei: Imei, gone: bool)
    requires Enabled(g, StaleDecided(imei, gone))
    ensures var g' := Step(g, StaleDecided(imei, gone));
            && g'.notes == (if gone then g.notes + [EngineOff(imei)] else g.notes)
            && (IsOn(g', imei) <==> !gone && IsOn(g, imei))
            && forall other | other != imei :: IsOn(g', other) <==> IsOn(g, other)
  {
  }

  /** The undisturbed job turns off exactly the devices among its entries that are gone, with one alert each. */
  lemma {:induction false} SweepExactly(g: Board, imeis: seq<Imei>, gone: set<Imei>, imei: Imei)
    ensures IsOn(Sweep(g, imeis, gone), imei) <==> IsOn(g, imei) && !(imei in imeis && imei in gone)
    ensures |Sweep(g, imeis, gone).notes| == |g.notes| + TurnedOff(g, imeis, gone)
  {
    if imeis != [] {
      var front, last := imeis[..|imeis| - 1], imeis[|imeis| - 1];
      assert imeis == front + [last];
      SweepExactly(g, front, gone, imei);
      SweepExactly(g, front, gone, last);
    }
  }

  /** How many of the entries are on and gone, each counted once. */
  function TurnedOff(g: Board, imeis: seq<Imei>, gone: set<Imei>): nat {
    if imeis == [] then 0
    else
      var front, last := imeis[..|imeis| - 1], imeis[|imeis| - 1];
      TurnedOff(g, front, gone) + (if IsOn(g, last) && last in gone && last !in front then 1 else 0)
  }

  lemma {:induction false} SweepKeepsAlternation(g: Board, imeis: seq<Imei>, gone: set<Imei>, imei: Imei)
    requires EngineTracked(g, imei)
    ensures EngineTracked(Sweep(g, imeis, gone), imei)
  {
    hide EngineTracked;
    if imeis != [] {
      var last := imeis[|imeis| - 1];
      SweepKeepsAlternation(g, imeis[..|imeis| - 1], gone, imei);
      SweepOneKeepsAlternation(Sweep(g, imeis[..|imeis| - 1], gone), last, last in gone, imei);
    }
  }

  lemma SweepOneKeepsAlternation(g: Board, last: Imei, gone: bool, imei: Imei)
    requires EngineTracked(g, imei)
    ensures EngineTracked(SweepOne(g, last, gone), imei)
  {
    hide Alternates, LastEngine;
    EngineMore(g.notes, EngineOff(last), imei);
  }

  // Overspeed alerts.

  /** The times of the overspeed alerts decided for the device. */
  function OverspeedTimes(notes: seq<Note>, imei: Imei): seq<int> {
    if notes == [] then []
    else
      var last := notes[|notes| - 1];
      OverspeedTimes(notes[..|notes| - 1], imei) + (if last.Overspeed? && last.imei == imei then [last.at] else [])
  }

  ghost predicate Spaced(ts: seq<int>) {
    forall i {:trigger ts[i]} | 0 <= i && i + 1 < |ts| :: ts[i + 1] - ts[i] >= ALERT_COOLDOWN_MS
  }

  /** The alerts are spaced, none is in the future, and the map has the last of them. */
  ghost predicate OverspeedTracked(g: Board, imei: Imei) {
    var ts := OverspeedTimes(g.notes, imei);
    && g.now > 0 && Spaced(ts)
    && (ts != [] ==> imei in g.lastAlert && g.lastAlert[imei] == ts[|ts| - 1] && 0 < ts[|ts| - 1] <= g.now)
    && (imei in g.lastAlert ==> ts != [])
  }

  lemma TimesMore(notes: seq<Note>, n: Note, imei: Imei)
    ensures OverspeedTimes(notes + [n], imei) ==
            OverspeedTimes(notes, imei) + (if n.Overspeed? && n.imei == imei then [n.at] else [])
  {
    assert (notes + [n])[..|notes|] == notes;
  }

  lemma OverspeedTrackedPreserved(g: Board, e: Event, imei: Imei)
    requires OverspeedTracked(g, imei) && Enabled(g, e)
    ensures OverspeedTracked(Step(g, e), imei)
  {
    hide OverspeedTimes;
    var g' := Step(g, e);
    if g'.notes != g.notes {
      TimesMore(g.notes, g'.notes[|g.notes|], imei);
      assert g'.notes == g.notes + [g'.notes[|g.notes|]];
    }
  }

  /** A speed gives an alert exactly when it is over the limit and the last alert, if any, is a minute old or more. */
  lemma OverspeedExactly(g: Board, imei: Imei, speed: real, limit: real)
    requires OverspeedTracked(g, imei)
    ensures var ts := OverspeedTimes(g.notes, imei);
            Step(g, Speed(imei, speed, limit)).notes ==
            if speed > limit && (ts == [] || g.now - ts[|ts| - 1] >= 60000) then g.notes + [Overspeed(imei, g.now)]
            else g.notes
  {
    hide OverspeedTimes;
  }

  /** A last alert at time 0 counts as none. */
  lemma ZeroTimeAlertsAgain(g: Board, imei: Imei, speed: real, limit: real)
    requires imei in g.lastAlert && g.lastAlert[imei] == 0 && speed > limit
    ensures Step(g, Speed(imei, speed, limit)).notes == g.notes + [Overspeed(imei, g.now)]
  {
  }

  /** How many of the times lie from a to b. */
  function Within(ts: seq<int>, a: int, b: int): nat {
    if ts == [] then 0
    else Within(ts[..|ts| - 1], a, b) + (if a <= ts[|ts| - 1] <= b then 1 else 0)
  }

  lemma {:induction false} WithinTighter(ts: seq<int>, a: int, b: int, c: int)
    requires c <= b && forall i | 0 <= i < |ts| :: ts[i] <= c
    ensures Within(ts, a, b) == Within(ts, a, c)
  {
    if ts != [] {
      WithinTighter(ts[..|ts| - 1], a, b, c);
    }
  }

  lemma {:induction false} NoneWithin(ts: seq<int>, a: int, b: int)
    requires b < a
    ensures Within(ts, a, b) == 0
  {
    if ts != [] {
      NoneWithin(ts[..|ts| - 1], a, b);
    }
  }

  lemma {:induction false} SpacedBefore(ts: seq<int>, i: nat)
    requires Spaced(ts) && i + 1 < |ts|
    ensures ts[i] <= ts[|ts| - 1] - ALERT_COOLDOWN_MS
    decreases |ts|
  {
    if i + 2 < |ts| {
      var front := ts[..|ts| - 1];
      SpacedBefore(front, i);
      assert ts[(|ts| - 2) + 1] - ts[|ts| - 2] >= ALERT_COOLDOWN_MS;
    }
  }

  /** Any window of b - a milliseconds holds at most one alert more than it has whole minutes. */
  lemma {:induction false} WindowHoldsFew(ts: seq<int>, a: int, b: int)
    requires Spaced(ts) && a <= b
    ensures Within(ts, a, b) <= (b - a) / ALERT_COOLDOWN_MS + 1
    decreases |ts|
  {
    if ts != [] {
      var front, last := ts[..|ts| - 1], ts[|ts| - 1];
      var c := last - ALERT_COOLDOWN_MS;
      if a <= last <= b {
        forall i | 0 <= i < |front| ensures front[i] <= c {
          SpacedBefore(ts, i);
        }
        WithinTighter(front, a, b, c);
        if a <= c {
          WindowHoldsFew(front, a, c);
          assert (c - a) / ALERT_COOLDOWN_MS + 1 == (last - a) / ALERT_COOLDOWN_MS;
        } else {
          NoneWithin(front, a, c);
        }
      } else {
        WindowHoldsFew(front, a, b);
      }
    }
  }

  // Whole runs.

  ghost predicate IsRun(g: Board, events: seq<Event>)
    decreases |events|
  {
    events == [] || (Enabled(g, events[0]) && IsRun(Step(g, events[0]), events[1..]))
  }

  function Run(g: Board, events: seq<Event>): Board
    requires IsRun(g, events)
    decreases |events|
  {
    if events == [] then g else Run(Step(g, events[0]), events[1..])
  }

  /** No decision of the job about the device is overtaken by another handler or another run of the job. */
  ghost predicate NeverOvertaken(g: Board, events: seq<Event>, imei: Imei)
    requires IsRun(g, events)
    decreases |events|
  {
    events == [] ||
    (!(Overtaken(g, events[0]) && events[0].imei == imei) && NeverOvertaken(Step(g, events[0]), events[1..], imei))
  }

  /** What does not alternate never will again. */
  lemma {:induction false} NeverRepaired(g: Board, events: seq<Event>, imei: Imei)
    requires !Alternates(g.notes, imei) && IsRun(g, events)
    ensures !Alternates(Run(g, events).notes, imei)
    decreases |events|
  {
    if events != [] {
      StepKeepsFault(g, events[0], imei);
      hide Alternates, Step, Enabled;
      NeverRepaired(Step(g, events[0]), events[1..], imei);
    }
  }

  lemma StepKeepsFault(g: Board, e: Event, imei: Imei)
    requires !Alternates(g.notes, imei) && Enabled(g, e)
    ensures !Alternates(Step(g, e).notes, imei)
  {
    hide Alternates, LastEngine;
    var g' := Step(g, e);
    if g'.notes != g.notes {
      EngineMore(g.notes, g'.notes[|g.notes|], imei);
      assert g'.notes == g.notes + [g'.notes[|g.notes|]];
    }
  }

  /** In any run a device's engine alerts alternate exactly when no decision of the job about it is overtaken. */
  lemma {:induction false} EveryRunAlternates(g: Board, events: seq<Event>, imei: Imei)
    requires EngineTracked(g, imei) && IsRun(g, events)
    ensures Alternates(Run(g, events).notes, imei) <==> NeverOvertaken(g, events, imei)
    ensures NeverOvertaken(g, events, imei) ==> EngineTracked(Run(g, events), imei)
    decreases |events|
  {
    if events != [] {
      AlternationExactly(g, events[0], imei);
      var g' := Step(g, events[0]);
      if Overtaken(g, events[0]) && events[0].imei == imei {
        NeverRepaired(g', events[1..], imei);
      } else {
        hide EngineTracked, Alternates, Step, Enabled, Overtaken;
        EveryRunAlternates(g', events[1..], imei);
      }
    }
  }

  lemma {:induction false} EveryRunSpaces(g: Board, events: seq<Event>, imei: Imei)
    requires OverspeedTracked(g, imei) && IsRun(g, events)
    ensures OverspeedTracked(Run(g, events), imei)
    decreases |events|
  {
    if events != [] {
      OverspeedTrackedPreserved(g, events[0], imei);
      hide OverspeedTracked, Step, Enabled;
      EveryRunSpaces(Step(g, events[0]), events[1..], imei);
    }
  }

  /** From a positive clock, in every run and any window, a device gets few overspeed alerts. */
  lemma OverspeedRateBounded(now: int, events: seq<Event>, imei: Imei, a: int, window: nat)
    requires now > 0 && IsRun(Board(now, map[], map[], multiset{}, []), events)
    ensures Within(OverspeedTimes(Run(Board(now, map[], map[], multiset{}, []), events).notes, imei), a, a + window)
            <= window / ALERT_COOLDOWN_MS + 1
  {
    var g := Board(now, map[], map[], multiset{}, []);
    EveryRunSpaces(g, events, imei);
    WindowHoldsFew(OverspeedTimes(Run(g, events).notes, imei), a, a + window);
    hide Run, OverspeedTimes, Within;
  }

  /** A location that turns the engine off during the job's read gives two ENGINE_OFF alerts in a row. */
  lemma OvertakenJobRepeatsOff(now: int, imei: Imei)
    ensures var events := [Ignition(imei, Some(true)), StaleRead(imei), Ignition(imei, Some(false)),
            StaleDecided(imei, true)];
            && IsRun(Board(now, map[], map[], multiset{}, []), events)
            && Run(Board(now, map[], map[], multiset{}, []), events).notes
                == [EngineOn(imei), EngineOff(imei), EngineOff(imei)]
  {
    var g0 := Board(now, map[], map[], multiset{}, []);
    var e1, e2, e3, e4 := Ignition(imei, Some(true)), StaleRead(imei), Ignition(imei, Some(false)),
        StaleDecided(imei, true);
    var g1 := Step(g0, e1);
    var g2 := Step(g1, e2);
    var g3 := Step(g2, e3);
    RunCons(g3, e4, []);
    RunCons(g2, e3, [e4]);
    RunCons(g1, e2, [e3, e4]);
    RunCons(g0, e1, [e2, e3, e4]);
  }

  lemma RunCons(g: Board, e: Event, rest: seq<Event>)
    requires Enabled(g, e) && IsRun(Step(g, e), rest)
    ensures IsRun(g, [e] + rest) && Run(g, [e] + rest) == Run(Step(g, e), rest)
  {
    hide Step, Enabled;
    assert ([e] + rest)[1..] == rest;
  }
}
