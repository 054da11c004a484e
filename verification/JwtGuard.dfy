/**
  The access guard's single flight: requests whose access token needs renewal share one refresh per refresh token
  through the refreshLocks map. Each stretch of code between awaits is one step, and steps interleave freely.
*/
module JwtGuard {
  import opened Prelude

  type RefreshToken = string

  datatype Outcome = Renewed(accessToken: string, refreshToken: string) | Rejected

  /** A refresh the guard has started; its lock goes when its finally handler has run. */
  datatype Refresh = Refresh(token: RefreshToken, outcome: Option<Outcome>, unlocked: bool)

  /** A request at the await of a refresh, and what it got. */
  datatype Request = Request(token: RefreshToken, refresh: nat, got: Option<Outcome>)

  datatype Guard = Guard(locks: map<RefreshToken, nat>, refreshes: seq<Refresh>, requests: seq<Request>)

  const EMPTY := Guard(map[], [], [])

  datatype Event =
    | Arrive(token: RefreshToken)
    | Settle(refresh: nat, outcome: Outcome)
    | Finally(refresh: nat)
    | Resume(request: nat)

  /** The promise in the map is the one behind the finally handler, so a request resumes after that handler. */
  predicate Enabled(g: Guard, e: Event) {
    match e
    case Arrive(_) => true
    case Settle(r, _) => r < |g.refreshes| && g.refreshes[r].outcome == None
    case Finally(r) => r < |g.refreshes| && g.refreshes[r].outcome.Some? && !g.refreshes[r].unlocked
    case Resume(q) =>
      && q < |g.requests| && g.requests[q].got == None && g.requests[q].refresh < |g.refreshes|
      && g.refreshes[g.requests[q].refresh].unlocked
  }

  function Step(g: Guard, e: Event): Guard
    requires Enabled(g, e)
  {
    match e
    case Arrive(token) =>
      if token in g.locks then g.(requests := g.requests + [Request(token, g.locks[token], None)])
      else
        var r := |g.refreshes|;
        g.(locks := g.locks[token := r], refreshes := g.refreshes + [Refresh(token, None, false)],
           requests := g.requests + [Request(token, r, None)])
    case Settle(r, outcome) => g.(refreshes := g.refreshes[r := g.refreshes[r].(outcome := Some(outcome))])
    case Finally(r) =>
      g.(locks := g.locks - {g.refreshes[r].token}, refreshes := g.refreshes[r := g.refreshes[r].(unlocked := true)])
    case Resume(q) =>
      g.(requests := g.requests[q := g.requests[q].(got := g.refreshes[g.requests[q].refresh].outcome)])
  }

  class JwtAuthGuard {
    var refreshLocks: map<RefreshToken, nat>
    var refreshes: seq<Refresh>
    var requests: seq<Request>

    constructor ()
      ensures State() == EMPTY && SingleFlight(State())
    {
      refreshLocks, refreshes, requests := map[], [], [];
    }

    function State(): Guard
      reads this
    {
      Guard(refreshLocks, refreshes, requests)
    }

    /** canActivate from the decision to refresh to the await. */
    method AwaitRefresh(token: RefreshToken) returns (inflight: nat)
      modifies this
      ensures State() == Step(old(State()), Arrive(token))
      ensures inflight == State().requests[|old(requests)|].refresh
    {
      if token in refreshLocks {
        inflight := refreshLocks[token];
      } else {
        inflight := |refreshes|;
        refreshes := refreshes + [Refresh(token, None, false)];
        refreshLocks := refreshLocks[token := inflight];
      }
      requests := requests + [Request(token, inflight, None)];
    }

    method RunFinally(r: nat)
      requires Enabled(State(), Finally(r))
      modifies this
      ensures State() == Step(old(State()), Finally(r))
    {
      refreshLocks := refreshLocks - {refreshes[r].token};
      refreshes := refreshes[r := refreshes[r].(unlocked := true)];
    }

    /** canActivate after the await: the cookies of the request become the tokens, or stay when the refresh failed. */
    method AfterRefresh(q: nat, cookies: (string, string)) returns (after: (string, string))
      requires Enabled(State(), Resume(q)) && SingleFlight(State())
      modifies this
      ensures State() == Step(old(State()), Resume(q))
      ensures requests[q].got.Some?
      ensures after == match requests[q].got.value
                       case Renewed(access, refresh) => (access, refresh)
                       case Rejected => cookies
    {
      var outcome := refreshes[requests[q].refresh].outcome;
      requests := requests[q := requests[q].(got := outcome)];
      match outcome.value
      case Renewed(access, refresh) => after := (access, refresh);
      case Rejected => after := cookies;
    }
  }

  /**
    The lock of a token is there exactly while a refresh of it has not been unlocked; unlocking comes after settling.
  */
  ghost predicate LocksExact(g: Guard) {
    && (forall t | t in g.locks ::
          g.locks[t] < |g.refreshes| && g.refreshes[g.locks[t]].token == t && !g.refreshes[g.locks[t]].unlocked)
    && (forall r | 0 <= r < |g.refreshes| && !g.refreshes[r].unlocked ::
          g.refreshes[r].token in g.locks && g.locks[g.refreshes[r].token] == r)
    && (forall r | 0 <= r < |g.refreshes| && g.refreshes[r].unlocked :: g.refreshes[r].outcome.Some?)
  }

  /** Refreshes of one token never overlap: an earlier one was unlocked before the later one started. */
  ghost predicate OneAfterTheOther(g: Guard) {
    forall r, s | 0 <= r < s < |g.refreshes| && g.refreshes[r].token == g.refreshes[s].token :: g.refreshes[r].unlocked
  }

  /** A request waits for a refresh of its own token, and what it got is that refresh's outcome. */
  ghost predicate RequestsServed(g: Guard) {
    forall q | 0 <= q < |g.requests| ::
      var request := g.requests[q];
      && request.refresh < |g.refreshes| && g.refreshes[request.refresh].token == request.token
      && (request.got.Some? ==> request.got == g.refreshes[request.refresh].outcome)
  }

  ghost predicate SingleFlight(g: Guard) {
    LocksExact(g) && OneAfterTheOther(g) && RequestsServed(g)
  }

  lemma LocksExactPreserved(g: Guard, e: Event)
    requires LocksExact(g) && Enabled(g, e)
    ensures LocksExact(Step(g, e))
  {
  }

  lemma OneAfterTheOtherPreserved(g: Guard, e: Event)
    requires LocksExact(g) && OneAfterTheOther(g) && Enabled(g, e)
    ensures OneAfterTheOther(Step(g, e))
  {
  }

  lemma RequestsServedPreserved(g: Guard, e: Event)
    requires LocksExact(g) && RequestsServed(g) && Enabled(g, e)
    ensures RequestsServed(Step(g, e))
  {
  }

  lemma SingleFlightPreserved(g: Guard, e: Event)
    requires SingleFlight(g) && Enabled(g, e)
    ensures SingleFlight(Step(g, e))
  {
    LocksExactPreserved(g, e);
    OneAfterTheOtherPreserved(g, e);
    RequestsServedPreserved(g, e);
    hide LocksExact, OneAfterTheOther, RequestsServed, Step, Enabled;
  }

  /** At most one refresh of a token is pending. */
  lemma OnePendingRefresh(g: Guard, r: nat, s: nat)
    requires SingleFlight(g) && r < |g.refreshes| && s < |g.refreshes|
    requires g.refreshes[r].token == g.refreshes[s].token && !g.refreshes[r].unlocked && !g.refreshes[s].unlocked
    ensures r == s
  {
  }

  // Whole runs.

  ghost predicate IsRun(g: Guard, events: seq<Event>)
    decreases |events|
  {
    events == [] || (Enabled(g, events[0]) && IsRun(Step(g, events[0]), events[1..]))
  }

  function Run(g: Guard, events: seq<Event>): Guard
    requires IsRun(g, events)
    decreases |events|
  {
    if events == [] then g else Run(Step(g, events[0]), events[1..])
  }

  /** A refresh keeps its token and, once it has one, its outcome; unlocking is for good; requests stay attached. */
  ghost predicate Grows(g: Guard, g': Guard) {
    && |g.refreshes| <= |g'.refreshes| && |g.requests| <= |g'.requests|
    && (forall r | 0 <= r < |g.refreshes| ::
          && g'.refreshes[r].token == g.refreshes[r].token
          && (g.refreshes[r].outcome.Some? ==> g'.refreshes[r].outcome == g.refreshes[r].outcome)
          && (g.refreshes[r].unlocked ==> g'.refreshes[r].unlocked))
    && (forall q | 0 <= q < |g.requests| :: g'.requests[q].refresh == g.requests[q].refresh)
  }

  lemma StepGrows(g: Guard, e: Event)
    requires Enabled(g, e)
    ensures Grows(g, Step(g, e))
  {
  }

  lemma {:induction false} EveryRun(g: Guard, events: seq<Event>)
    requires SingleFlight(g) && IsRun(g, events)
    ensures SingleFlight(Run(g, events)) && Grows(g, Run(g, events))
    decreases |events|
  {
    if events != [] {
      SingleFlightPreserved(g, events[0]);
      StepGrows(g, events[0]);
      hide SingleFlight, Step, Enabled;
      EveryRun(Step(g, events[0]), events[1..]);
    }
  }

  /**
    A request that arrives while a refresh of its token is pending joins it, however the run goes on, and gets the
    outcome of every other request that waits for that refresh.
  */
  lemma OverlappingRequestsShareOutcome(g: Guard, r: nat, events: seq<Event>, p: nat)
    requires SingleFlight(g) && r < |g.refreshes| && !g.refreshes[r].unlocked
    requires IsRun(Step(g, Arrive(g.refreshes[r].token)), events)
    requires p < |Run(Step(g, Arrive(g.refreshes[r].token)), events).requests|
    requires Run(Step(g, Arrive(g.refreshes[r].token)), events).requests[p].refresh == r
    ensures var g' := Run(Step(g, Arrive(g.refreshes[r].token)), events);
            var q := |g.requests|;
            && q < |g'.requests| && g'.requests[q].refresh == r
            && (g'.requests[p].got.Some? && g'.requests[q].got.Some? ==> g'.requests[p].got == g'.requests[q].got)
  {
    SingleFlightPreserved(g, Arrive(g.refreshes[r].token));
    EveryRun(Step(g, Arrive(g.refreshes[r].token)), events);
    hide Run, IsRun;
  }

  /** A refresh is started exactly when none of the token is pending. */
  lemma StartsExactlyWhenNonePending(g: Guard, token: RefreshToken)
    requires SingleFlight(g)
    ensures |Step(g, Arrive(token)).refreshes| > |g.refreshes| <==>
            forall r | 0 <= r < |g.refreshes| && g.refreshes[r].token == token :: g.refreshes[r].unlocked
  {
  }

  /** Whatever happens after a refresh has settled, a request attached to it that has resumed got that outcome. */
  lemma ResumedGetsOutcome(g: Guard, r: nat, outcome: Outcome, events: seq<Event>, q: nat)
    requires SingleFlight(g) && Enabled(g, Settle(r, outcome)) && IsRun(Step(g, Settle(r, outcome)), events)
    requires var g' := Run(Step(g, Settle(r, outcome)), events);
             q < |g'.requests| && g'.requests[q].refresh == r && g'.requests[q].got.Some?
    ensures Run(Step(g, Settle(r, outcome)), events).requests[q].got == Some(outcome)
  {
    var g1 := Step(g, Settle(r, outcome));
    assert g1.refreshes[r].outcome == Some(outcome);
    SingleFlightPreserved(g, Settle(r, outcome));
    EveryRun(g1, events);
    hide Run, IsRun, Step;
  }
}
