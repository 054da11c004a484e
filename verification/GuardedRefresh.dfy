/**
  The access guard in front of the session service, when refreshes are started only by the guard. Which record a
  presented token matches is left open: a record is traded in twice only if it matches tokens of two values at once.
*/
module GuardedRefresh {
  import opened Prelude
  import Sessions
  import SessionRecords
  import SessionRuns
  import JwtGuard

  /** The value of each signed token; tokens signed in the same second for the same session may have the same value. */
  type Values = nat -> JwtGuard.RefreshToken

  /** Which refresh of the guard a call of the session service serves. */
  datatype Front = Front(auth: Sessions.Auth, guard: JwtGuard.Guard, serves: map<nat, nat>)

  const START := Front(Sessions.EMPTY, JwtGuard.EMPTY, map[])

  datatype Event =
    | Arrive(token: nat)                              // a request whose access token needs renewal
    | Work(e: Sessions.Event)                         // any step of the session service but the start of a refresh
    | Settle(call: nat, outcome: JwtGuard.Outcome)    // a refresh call has returned or thrown
    | Finally(refresh: nat)
    | Resume(request: nat)

  predicate Enabled(values: Values, f: Front, e: Event) {
    match e
    case Arrive(t) => t < |f.auth.tokens|
    case Work(w) => Sessions.Enabled(f.auth, w) && !w.Refresh?
    case Settle(p, outcome) =>
      && p in f.serves && p < |f.auth.processes| && (f.auth.processes[p].Returned? || f.auth.processes[p].Failed?)
      && JwtGuard.Enabled(f.guard, JwtGuard.Settle(f.serves[p], outcome))
    case Finally(r) => JwtGuard.Enabled(f.guard, JwtGuard.Finally(r))
    case Resume(q) => JwtGuard.Enabled(f.guard, JwtGuard.Resume(q))
  }

  function Step(values: Values, f: Front, e: Event): Front
    requires Enabled(values, f, e)
  {
    match e
    case Arrive(t) =>
      var guard := JwtGuard.Step(f.guard, JwtGuard.Arrive(values(t)));
      if values(t) in f.guard.locks then f.(guard := guard)
      else
        f.(guard := guard, auth := Sessions.Step(f.auth, Sessions.Refresh(t)),
           serves := f.serves[|f.auth.processes| := |f.guard.refreshes|])
    case Work(w) => f.(auth := Sessions.Step(f.auth, w))
    case Settle(p, outcome) => f.(guard := JwtGuard.Step(f.guard, JwtGuard.Settle(f.serves[p], outcome)))
    case Finally(r) => f.(guard := JwtGuard.Step(f.guard, JwtGuard.Finally(r)))
    case Resume(q) => f.(guard := JwtGuard.Step(f.guard, JwtGuard.Resume(q)))
  }

  predicate IsRefreshing(f: Front, p: nat) {
    p < |f.auth.processes| && (f.auth.processes[p].Presented? || f.auth.processes[p].Found?)
  }

  /** A call that presents a token serves a pending refresh of its value, and no two calls serve the same one. */
  ghost predicate Served(values: Values, f: Front) {
    && (forall p | p in f.serves :: p < |f.auth.processes| && f.serves[p] < |f.guard.refreshes|)
    && (forall p, q | p in f.serves && q in f.serves && p != q :: f.serves[p] != f.serves[q])
    && (forall p: nat | IsRefreshing(f, p) ::
          && p in f.serves && f.guard.refreshes[f.serves[p]].outcome == None
          && f.guard.refreshes[f.serves[p]].token == values(f.auth.processes[p].token))
  }

  /** Calls that hold the same record present tokens of the same value. */
  ghost predicate Alike(values: Values, f: Front) {
    forall p: nat, q: nat, r: nat | SessionRecords.AboutToSpend(f.auth, p, r)
        && SessionRecords.AboutToSpend(f.auth, q, r) ::
      values(f.auth.processes[p].token) == values(f.auth.processes[q].token)
  }

  /** What a step of the session service other than the start of a refresh does to the calls that refresh. */
  lemma RefreshingAfter(values: Values, f: Front, w: Sessions.Event, p: nat)
    requires Enabled(values, f, Work(w)) && IsRefreshing(Step(values, f, Work(w)), p)
    ensures IsRefreshing(f, p) && Step(values, f, Work(w)).auth.processes[p].token == f.auth.processes[p].token
  {
  }

  lemma CallsStay(values: Values, f: Front, w: Sessions.Event)
    requires Enabled(values, f, Work(w))
    ensures |f.auth.processes| <= |Step(values, f, Work(w)).auth.processes|
  {
  }

  lemma WorkKeepsServed(values: Values, f: Front, w: Sessions.Event)
    requires Served(values, f) && Enabled(values, f, Work(w))
    ensures Served(values, Step(values, f, Work(w)))
  {
    var f' := Step(values, f, Work(w));
    CallsStay(values, f, w);
    assert f'.serves == f.serves && f'.guard == f.guard;
    forall p: nat | IsRefreshing(f', p)
      ensures p in f'.serves && f'.guard.refreshes[f'.serves[p]].outcome == None
      ensures f'.guard.refreshes[f'.serves[p]].token == values(f'.auth.processes[p].token)
    {
      RefreshingAfter(values, f, w, p);
    }
    hide Step, Enabled, IsRefreshing;
  }

  lemma ArriveKeepsServed(values: Values, f: Front, t: nat)
    requires Served(values, f) && Enabled(values, f, Arrive(t))
    ensures Served(values, Step(values, f, Arrive(t)))
  {
  }

  /** Settling ends no call that still presents its token. */
  lemma SettleKeepsServed(values: Values, f: Front, p: nat, outcome: JwtGuard.Outcome)
    requires Served(values, f) && Enabled(values, f, Settle(p, outcome))
    ensures Served(values, Step(values, f, Settle(p, outcome)))
  {
  }

  lemma ServedPreserved(values: Values, f: Front, e: Event)
    requires Served(values, f) && Enabled(values, f, e)
    ensures Served(values, Step(values, f, e))
  {
    hide Sessions.Step;
    match e
    case Arrive(t) => ArriveKeepsServed(values, f, t);
    case Work(w) => WorkKeepsServed(values, f, w);
    case Settle(p, outcome) => SettleKeepsServed(values, f, p, outcome);
    case _ =>
  }

  /** Single flight keeps refreshes of one record apart exactly when they are alike, whatever matches. */
  lemma FlightsSpendApartExactly(values: Values, f: Front)
    requires JwtGuard.SingleFlight(f.guard) && Served(values, f)
    ensures SessionRecords.SpendsApart(f.auth) <==> Alike(values, f)
  {
    if Alike(values, f) {
      forall p: nat, q: nat, r: nat | SessionRecords.AboutToSpend(f.auth, p, r)
          && SessionRecords.AboutToSpend(f.auth, q, r)
        ensures p == q
      {
        assert IsRefreshing(f, p) && IsRefreshing(f, q);
        JwtGuard.OnePendingRefresh(f.guard, f.serves[p], f.serves[q]);
      }
    }
  }

  /** So however the refreshes that hold a record save it, none is traded in twice exactly when they are alike. */
  lemma GuardedSavesExactly(values: Values, f: Front)
    requires JwtGuard.SingleFlight(f.guard) && Served(values, f) && SessionRecords.TradedOnce(f.auth)
    ensures SessionRecords.SavesOnce(f.auth) <==> Alike(values, f)
  {
    FlightsSpendApartExactly(values, f);
    SessionRecords.SharedRecordSpendsTwiceExactly(f.auth);
    hide Alike, Served, JwtGuard.SingleFlight, SessionRecords.TradedOnce, SessionRecords.SavesOnce,
      SessionRecords.SpendsApart;
  }

  /** What holds whatever matches. */
  ghost predicate Good(values: Values, f: Front) {
    JwtGuard.SingleFlight(f.guard) && Served(values, f)
  }

  lemma GuardStays(values: Values, f: Front, e: Event)
    requires JwtGuard.SingleFlight(f.guard) && Enabled(values, f, e)
    ensures JwtGuard.SingleFlight(Step(values, f, e).guard)
  {
    hide JwtGuard.SingleFlight, JwtGuard.Step, Sessions.Step;
    match e
    case Arrive(t) => JwtGuard.SingleFlightPreserved(f.guard, JwtGuard.Arrive(values(t)));
    case Work(_) =>
    case Settle(p, outcome) => JwtGuard.SingleFlightPreserved(f.guard, JwtGuard.Settle(f.serves[p], outcome));
    case Finally(r) => JwtGuard.SingleFlightPreserved(f.guard, JwtGuard.Finally(r));
    case Resume(q) => JwtGuard.SingleFlightPreserved(f.guard, JwtGuard.Resume(q));
  }

  lemma TradesStay(values: Values, f: Front, e: Event)
    requires SessionRecords.TradedOnce(f.auth) && SessionRecords.SpendsApart(f.auth) && Enabled(values, f, e)
    ensures SessionRecords.TradedOnce(Step(values, f, e).auth)
  {
    hide SessionRecords.TradedOnce, SessionRecords.SpendsApart, JwtGuard.Step, Sessions.Step;
    match e
    case Arrive(t) => SessionRecords.TradedOncePreserved(f.auth, Sessions.Refresh(t));
    case Work(w) => SessionRecords.TradedOncePreserved(f.auth, w);
    case _ =>
  }

  lemma GoodPreserved(values: Values, f: Front, e: Event)
    requires Good(values, f) && Enabled(values, f, e)
    ensures Good(values, Step(values, f, e))
  {
    GuardStays(values, f, e);
    ServedPreserved(values, f, e);
    hide Step, Enabled, Served, JwtGuard.SingleFlight;
  }

  // Whole runs.

  ghost predicate IsRun(values: Values, f: Front, events: seq<Event>)
    decreases |events|
  {
    events == [] || (Enabled(values, f, events[0]) && IsRun(values, Step(values, f, events[0]), events[1..]))
  }

  function Run(values: Values, f: Front, events: seq<Event>): Front
    requires IsRun(values, f, events)
    decreases |events|
  {
    if events == [] then f else Run(values, Step(values, f, events[0]), events[1..])
  }

  lemma {:induction false} GoodInEveryRun(values: Values, f: Front, events: seq<Event>)
    requires Good(values, f) && IsRun(values, f, events)
    ensures Good(values, Run(values, f, events))
    decreases |events|
  {
    if events != [] {
      GoodPreserved(values, f, events[0]);
      hide Good, Step, Enabled;
      GoodInEveryRun(values, Step(values, f, events[0]), events[1..]);
    }
  }

  /** Whatever matches, in every reachable state: two refreshes hold one record exactly when they are not alike. */
  lemma InEveryRun(values: Values, events: seq<Event>)
    requires IsRun(values, START, events)
    ensures var f := Run(values, START, events);
            && JwtGuard.SingleFlight(f.guard) && Served(values, f)
            && (SessionRecords.SpendsApart(f.auth) <==> Alike(values, f))
  {
    GoodInEveryRun(values, START, events);
    FlightsSpendApartExactly(values, Run(values, START, events));
    hide Run, JwtGuard.SingleFlight, Served, Alike, SessionRecords.SpendsApart;
  }

  /** In every state of the run, refreshes that hold the same record present tokens of the same value. */
  ghost predicate AlwaysAlike(values: Values, f: Front, events: seq<Event>)
    requires IsRun(values, f, events)
    decreases |events|
  {
    Alike(values, f) && (events == [] || AlwaysAlike(values, Step(values, f, events[0]), events[1..]))
  }

  lemma {:induction false} TradesInRun(values: Values, f: Front, events: seq<Event>)
    requires Good(values, f) && SessionRecords.TradedOnce(f.auth)
    requires IsRun(values, f, events) && AlwaysAlike(values, f, events)
    ensures SessionRecords.TradedOnce(Run(values, f, events).auth)
    decreases |events|
  {
    if events != [] {
      FlightsSpendApartExactly(values, f);
      GoodPreserved(values, f, events[0]);
      TradesStay(values, f, events[0]);
      hide Good, Alike, Step, Enabled, SessionRecords.TradedOnce, SessionRecords.SpendsApart;
      TradesInRun(values, Step(values, f, events[0]), events[1..]);
    }
  }

  /**
    Behind the guard, in every interleaving of requests, refreshes, logins and logouts: unless a record matches tokens
    of two values that are presented at once, a record is traded in once.
  */
  lemma GuardedRecordsSpentOnce(values: Values, events: seq<Event>)
    requires IsRun(values, START, events) && AlwaysAlike(values, START, events)
    ensures SessionRecords.SpentOnce(Run(values, START, events).auth)
  {
    TradesInRun(values, START, events);
    hide Run, AlwaysAlike;
  }

  // When a token matches only records that were stored for its own value.

  /** A call that finds a record presents a token of the value it was stored for. */
  predicate MatchesOwn(values: Values, f: Front, e: Event)
    requires Enabled(values, f, e)
  {
    e.Work? && e.e.FindToken? ==>
      values(f.auth.processes[e.e.process].token) == values(f.auth.records[e.e.record].token)
  }

  /** Every call that has found a record presents a token of the value it was stored for. */
  ghost predicate Matched(values: Values, f: Front) {
    forall p: nat, r: nat | SessionRecords.AboutToSpend(f.auth, p, r) ::
      values(f.auth.processes[p].token) == values(f.auth.records[r].token)
  }

  lemma MatchedPreserved(values: Values, f: Front, e: Event)
    requires SessionRecords.InRange(f.auth) && Matched(values, f) && Enabled(values, f, e) && MatchesOwn(values, f, e)
    ensures Matched(values, Step(values, f, e)) && SessionRecords.InRange(Step(values, f, e).auth)
  {
    if e.Work? {
      SessionRecords.InRangePreserved(f.auth, e.e);
    }
  }

  ghost predicate MatchesOwnInRun(values: Values, f: Front, events: seq<Event>)
    requires IsRun(values, f, events)
    decreases |events|
  {
    events == [] ||
    (MatchesOwn(values, f, events[0]) && MatchesOwnInRun(values, Step(values, f, events[0]), events[1..]))
  }

  /** Then calls that hold the same record are alike in every state. */
  lemma {:induction false} OwnMatchesAreAlike(values: Values, f: Front, events: seq<Event>)
    requires SessionRecords.InRange(f.auth) && Matched(values, f)
    requires IsRun(values, f, events) && MatchesOwnInRun(values, f, events)
    ensures AlwaysAlike(values, f, events)
    decreases |events|
  {
    if events != [] {
      MatchedPreserved(values, f, events[0]);
      hide Step, Enabled, MatchesOwn;
      OwnMatchesAreAlike(values, Step(values, f, events[0]), events[1..]);
    }
  }

  // When a record matches tokens of two values.

  function Works(events: seq<Sessions.Event>): (works: seq<Event>)
    ensures |works| == |events|
  {
    seq(|events|, i requires 0 <= i < |events| => Work(events[i]))
  }

  /** Steps of the session service that start no refresh are steps behind the guard. */
  lemma {:induction false} WorksRun(values: Values, f: Front, events: seq<Sessions.Event>)
    requires Sessions.IsRun(f.auth, events) && forall i | 0 <= i < |events| :: !events[i].Refresh?
    ensures IsRun(values, f, Works(events))
    ensures Run(values, f, Works(events)) == f.(auth := Sessions.Run(f.auth, events))
    decreases |events|
  {
    if events != [] {
      assert Works(events)[1..] == Works(events[1..]);
      hide Sessions.Step, Sessions.Enabled;
      WorksRun(values, Step(values, f, Work(events[0])), events[1..]);
    }
  }

  lemma {:induction false} Join(values: Values, f: Front, x: seq<Event>, y: seq<Event>)
    requires IsRun(values, f, x) && IsRun(values, Run(values, f, x), y)
    ensures IsRun(values, f, x + y) && Run(values, f, x + y) == Run(values, Run(values, f, x), y)
    decreases |x|
  {
    hide Step, Enabled;
    if x == [] {
      assert x + y == y;
    } else {
      assert (x + y)[0] == x[0] && (x + y)[1..] == x[1..] + y;
      Join(values, Step(values, f, x[0]), x[1..], y);
    }
  }

  /** Two requests, with the token of an earlier login and that of the latest, whose refreshes find the same record. */
  function BothFind(): (events: seq<Event>)
    ensures |events| == 4
  {
    [Arrive(0), Arrive(1), Work(Sessions.FindToken(2, 1)), Work(Sessions.FindToken(3, 1))]
  }

  lemma BothFindRuns(values: Values, u: Sessions.User) returns (f: Front)
    requires values(0) != values(1)
    ensures var f0 := START.(auth := SessionRuns.LoggedInTwice(u));
            IsRun(values, f0, BothFind()) && Run(values, f0, BothFind()) == f
    ensures f.auth.processes[2..] == [Sessions.Found(0, 1), Sessions.Found(1, 1)] && |f.auth.processes| == 4
    ensures |f.auth.records| == 2 && f.auth.spent == []
  {
    var f0 := START.(auth := SessionRuns.LoggedInTwice(u));
    var es := BothFind();
    var f1 := Step(values, f0, es[0]);
    var f2 := Step(values, f1, es[1]);
    var f3 := Step(values, f2, es[2]);
    f := Step(values, f3, es[3]);
    hide IsRun, Run;
    Done(values, f);
    First(values, f3, es[3], es[4..], f);
    First(values, f2, es[2], es[3..], f);
    First(values, f1, es[1], es[2..], f);
    First(values, f0, es[0], es[1..], f);
  }

  lemma Done(values: Values, f: Front)
    ensures IsRun(values, f, []) && Run(values, f, []) == f
  {
  }

  lemma First(values: Values, f: Front, e: Event, rest: seq<Event>, f': Front)
    requires Enabled(values, f, e) && IsRun(values, Step(values, f, e), rest)
    requires Run(values, Step(values, f, e), rest) == f'
    ensures IsRun(values, f, [e] + rest) && Run(values, f, [e] + rest) == f'
  {
    hide Step, Enabled;
    assert ([e] + rest)[1..] == rest;
  }

  function LoginsThenBothFind(u: Sessions.User): seq<Event> {
    Works(SessionRuns.FirstLogin(u) + SessionRuns.SecondLogin(u)) + BothFind()
  }

  lemma LoginsThenBothFindRun(values: Values, u: Sessions.User) returns (f: Front)
    requires values(0) != values(1)
    ensures IsRun(values, START, LoginsThenBothFind(u)) && Run(values, START, LoginsThenBothFind(u)) == f
    ensures SessionRecords.AboutToSpend(f.auth, 2, 1) && SessionRecords.AboutToSpend(f.auth, 3, 1)
    ensures !Alike(values, f)
  {
    var logins := SessionRuns.FirstLogin(u) + SessionRuns.SecondLogin(u);
    SessionRuns.TwoLoginsRun(u);
    WorksRun(values, START, logins);
    f := BothFindRuns(values, u);
    Join(values, START, Works(logins), BothFind());
    assert SessionRecords.AboutToSpend(f.auth, 2, 1) && SessionRecords.AboutToSpend(f.auth, 3, 1);
    hide IsRun, Run, Works, BothFind, SessionRuns.FirstLogin, SessionRuns.SecondLogin;
  }

  function BothSave(): (events: seq<Sessions.Event>)
    ensures |events| == 2 && SessionRecords.OnlySaves(events)
  {
    [Sessions.SaveRevoked(2)] + ([Sessions.SaveRevoked(3)] + [])
  }

  /** From nothing, behind the guard: tokens of two values that match one record trade it in twice. */
  lemma UnlikeTokensSpendTwice(values: Values, u: Sessions.User)
    requires values(0) != values(1)
    ensures var found := LoginsThenBothFind(u);
            IsRun(values, START, found) && !Alike(values, Run(values, START, found))
    ensures var events := LoginsThenBothFind(u) + Works(BothSave());
            IsRun(values, START, events) && !SessionRecords.SpentOnce(Run(values, START, events).auth)
  {
    var f := LoginsThenBothFindRun(values, u);
    SessionRecords.BothSpend(f.auth, 2, 3, 1);
    WorksRun(values, f, BothSave());
    Join(values, START, LoginsThenBothFind(u), Works(BothSave()));
    hide *;
  }
}
