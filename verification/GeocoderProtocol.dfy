/** Safety of the geocoder over all interleavings of its steps. */
module GeocoderProtocol {
  import opened Prelude
  import opened Geocoder

  predicate Settled(st: Stage) {
    st.Done? || st.Failed?
  }

  /** The chain: settled lookups, then one that may be at work, then queued ones. Only settled lookups are cleaned. */
  ghost predicate InOrder(g: Geo) {
    && g.served <= |g.lookups|
    && (forall i | 0 <= i < |g.lookups| ::
          && (i < g.served ==> Settled(g.lookups[i].stage))
          && (i == g.served ==> !Settled(g.lookups[i].stage))
          && (i > g.served ==> g.lookups[i].stage == Queued)
          && (i >= g.served ==> !g.lookups[i].cleaned))
  }

  lemma InOrderPreserved(c: Config, g: Geo, e: Event)
    requires InOrder(g) && Enabled(g, e)
    ensures InOrder(Step(c, g, e))
  {
  }

  /** At most one lookup is fetching, and it is the oldest unsettled one. */
  lemma OneFetchAtATime(g: Geo, i: nat, j: nat)
    requires InOrder(g) && i < |g.lookups| && j < |g.lookups|
    requires g.lookups[i].stage == Fetching && g.lookups[j].stage == Fetching
    ensures i == j == g.served
  {
  }

  /** The inflight map holds exactly the lookups whose finally handler has not run; so a key has at most one. */
  ghost predicate InflightExact(g: Geo) {
    && (forall k | k in g.inflight ::
          g.inflight[k] < |g.lookups| && g.lookups[g.inflight[k]].key == k && !g.lookups[g.inflight[k]].cleaned)
    && (forall i | 0 <= i < |g.lookups| && !g.lookups[i].cleaned ::
          g.lookups[i].key in g.inflight && g.inflight[g.lookups[i].key] == i)
  }

  /** A step that starts no lookup and cleans none leaves the inflight map and the keys alone. */
  lemma OtherStepsKeepInflight(c: Config, g: Geo, e: Event)
    requires Enabled(g, e) && !e.Reverse? && !e.Cleanup?
    ensures var g' := Step(c, g, e);
            && g'.inflight == g.inflight && |g'.lookups| == |g.lookups|
            && forall i | 0 <= i < |g.lookups| ::
                 g'.lookups[i].key == g.lookups[i].key && g'.lookups[i].cleaned == g.lookups[i].cleaned
  {
  }

  lemma InflightExactPreserved(c: Config, g: Geo, e: Event)
    requires InOrder(g) && InflightExact(g) && Enabled(g, e)
    ensures InflightExact(Step(c, g, e))
  {
    if !e.Reverse? && !e.Cleanup? {
      OtherStepsKeepInflight(c, g, e);
      hide Step, Enabled, InOrder;
    }
  }

  lemma OnePendingPerKey(g: Geo, i: nat, j: nat)
    requires InflightExact(g) && i < |g.lookups| && j < |g.lookups|
    requires !g.lookups[i].cleaned && !g.lookups[j].cleaned && g.lookups[i].key == g.lookups[j].key
    ensures i == j
  {
  }

  /** Lookup i fetched the cached value of its key, and it expires one time to live after that. */
  ghost predicate Explains(c: Config, g: Geo, i: nat, k: Key, entry: CachedAddress) {
    && i < |g.lookups| && g.lookups[i].key == k && g.lookups[i].stage == Done(entry.value)
    && g.lookups[i].doneAt <= g.now && entry.expiresAt == g.lookups[i].doneAt + c.ttl
  }

  ghost predicate CacheExplained(c: Config, g: Geo) {
    forall k | k in g.cache :: exists i: nat :: Explains(c, g, i, k, g.cache[k])
  }

  lemma ExplainsStays(c: Config, g: Geo, e: Event, i: nat, k: Key, entry: CachedAddress)
    requires InOrder(g) && Enabled(g, e) && Explains(c, g, i, k, entry)
    ensures Explains(c, Step(c, g, e), i, k, entry)
  {
  }

  lemma CacheExplainedPreserved(c: Config, g: Geo, e: Event)
    requires InOrder(g) && CacheExplained(c, g) && Enabled(g, e)
    ensures CacheExplained(c, Step(c, g, e))
  {
    var g' := Step(c, g, e);
    forall k | k in g'.cache ensures exists i: nat :: Explains(c, g', i, k, g'.cache[k]) {
      if e.FetchDone? && k == g.lookups[g.served].key {
        assert Explains(c, g', g.served, k, g'.cache[k]);
      } else {
        assert k in g.cache && g'.cache[k] == g.cache[k];
        var i: nat :| Explains(c, g, i, k, g.cache[k]);
        ExplainsStays(c, g, e, i, k, g.cache[k]);
      }
    }
  }

  /**
    Every call is answered from a lookup with its own rounded key: one that completed less than the time to live
    ago, or one whose promise is still pending.
  */
  lemma AnswersHaveTheRightKey(c: Config, g: Geo, lat: real, lng: real)
    requires InflightExact(g) && CacheExplained(c, g)
    ensures var (g', answer) := CallReverse(c, g, lat, lng);
            match answer
            case Nothing => !c.enabled || !ValidCoordinate(lat, lng)
            case Cached(v) =>
              exists i :: && 0 <= i < |g.lookups| && g.lookups[i].key == c.keyOf(lat, lng)
                          && g.lookups[i].stage == Done(v) && 0 <= g.now - g.lookups[i].doneAt < c.ttl
            case Await(i) =>
              i < |g'.lookups| && g'.lookups[i].key == c.keyOf(lat, lng) && !g'.lookups[i].cleaned
  {
    var key := c.keyOf(lat, lng);
    if c.enabled && ValidCoordinate(lat, lng) && key in g.cache && g.cache[key].expiresAt > g.now {
      var i: nat :| Explains(c, g, i, key, g.cache[key]);
      assert 0 <= i < |g.lookups|;
    }
  }

  // The rate limiter.

  /** Successive grants are at least minInterval apart, and the timer of a waiting lookup respects that. */
  ghost predicate GrantsSpaced(c: Config, g: Geo) {
    && (forall i {:trigger g.grants[i]} | 0 <= i && i + 1 < |g.grants| ::
        g.grants[i + 1] - g.grants[i] >= c.minInterval)
    && (g.grants != [] ==> g.lastRequestAt == g.grants[|g.grants| - 1])
    && (Head(g).Some? && Head(g).value.Waiting? ==> Head(g).value.until >= g.lastRequestAt + c.minInterval)
  }

  /** The head may be let through: its timer has fired, or it need not wait. */
  lemma GrantKeepsSpaced(c: Config, g: Geo)
    requires GrantsSpaced(c, g) && g.served < |g.lookups| && g.now >= g.lastRequestAt + c.minInterval
    ensures GrantsSpaced(c, Grant(g))
  {
    var g' := Grant(g);
    forall i {:trigger g'.grants[i]} | 0 <= i && i + 1 < |g'.grants|
      ensures g'.grants[i + 1] - g'.grants[i] >= c.minInterval
    {
      if i + 1 < |g.grants| {
        NextGrant(c, g, i);
      }
    }
  }

  /** Grants and the head's timer do not change otherwise, except when the head starts to wait or is served. */
  lemma NoGrantKeepsSpaced(c: Config, g: Geo, g': Geo)
    requires GrantsSpaced(c, g) && g'.grants == g.grants && g'.lastRequestAt == g.lastRequestAt
    requires Head(g').Some? && Head(g').value.Waiting? ==> Head(g').value.until >= g.lastRequestAt + c.minInterval
    ensures GrantsSpaced(c, g')
  {
    forall i {:trigger g'.grants[i]} | 0 <= i && i + 1 < |g'.grants|
      ensures g'.grants[i + 1] - g'.grants[i] >= c.minInterval
    {
      NextGrant(c, g, i);
    }
  }

  lemma HeadWaits(c: Config, g: Geo, e: Event)
    requires InOrder(g) && Enabled(g, e) && Head(g) != None
    ensures var g' := Step(c, g, e);
            Head(g').Some? && Head(g').value.Waiting? ==>
              Head(g') == Head(g) || (e == StartTask && Head(g').value.until == g.lastRequestAt + c.minInterval)
    ensures e.StartTask? && !Head(Step(c, g, e)).value.Waiting? ==>
              Step(c, g, e) == Grant(g) && g.now >= g.lastRequestAt + c.minInterval
  {
  }

  lemma GrantsSpacedPreserved(c: Config, g: Geo, e: Event)
    requires InOrder(g) && GrantsSpaced(c, g) && Enabled(g, e)
    ensures GrantsSpaced(c, Step(c, g, e))
  {
    var g' := Step(c, g, e);
    if Head(g) != None {
      HeadWaits(c, g, e);
    }
    hide InOrder;
    match e
    case TimerFires => GrantKeepsSpaced(c, g);
    case StartTask =>
      if Head(g').value.Waiting? {
        NoGrantKeepsSpaced(c, g, g');
      } else {
        GrantKeepsSpaced(c, g);
      }
    case _ => NoGrantKeepsSpaced(c, g, g');
  }

  /** One grant per lookup that the rate limiter has let through, in order, none in the future. */
  ghost predicate GrantsCounted(g: Geo) {
    && |g.grants| == g.served + (if Head(g) == Some(Granted) || Head(g) == Some(Fetching) then 1 else 0)
    && forall i | 0 <= i < |g.grants| :: g.grants[i] <= g.now
  }

  lemma GrantsCountedPreserved(c: Config, g: Geo, e: Event)
    requires InOrder(g) && GrantsCounted(g) && Enabled(g, e)
    ensures GrantsCounted(Step(c, g, e))
  {
  }

  /** Fetch j was let through before it began, and began no later than the next lookup was let through. */
  predicate FetchFits(g: Geo, f: FetchStart) {
    && f.lookup < |g.grants| && g.grants[f.lookup] <= f.at <= g.now
    && (f.lookup + 1 < |g.grants| ==> f.at <= g.grants[f.lookup + 1])
  }

  /** Fetches begin in the order of the lookups, each within its turn; the lookup next to fetch has not fetched. */
  ghost predicate FetchesInTurn(g: Geo) {
    && (forall j | 0 <= j < |g.fetches| :: FetchFits(g, g.fetches[j]))
    && (forall j, k | 0 <= j < k < |g.fetches| :: g.fetches[j].lookup < g.fetches[k].lookup)
    && (forall j | 0 <= j < |g.fetches| ::
          g.fetches[j].lookup < g.served + (if Head(g) == Some(Fetching) then 1 else 0))
  }

  lemma FetchesInTurnPreserved(c: Config, g: Geo, e: Event)
    requires InOrder(g) && GrantsCounted(g) && FetchesInTurn(g) && Enabled(g, e)
    ensures FetchesInTurn(Step(c, g, e))
  {
    GrantsCountedPreserved(c, g, e);
    var g' := Step(c, g, e);
    forall j | 0 <= j < |g'.fetches| ensures FetchFits(g', g'.fetches[j]) {
      if j < |g.fetches| {
        assert FetchFits(g, g.fetches[j]);
      }
    }
  }

  // Whole runs.

  /** What holds in every reachable state. */
  ghost predicate Good(c: Config, g: Geo) {
    InOrder(g) && InflightExact(g) && CacheExplained(c, g) && GrantsSpaced(c, g) && GrantsCounted(g) && FetchesInTurn(g)
  }

  lemma GoodStep(c: Config, g: Geo, e: Event)
    requires Good(c, g) && Enabled(g, e)
    ensures Good(c, Step(c, g, e))
  {
    InOrderPreserved(c, g, e);
    InflightExactPreserved(c, g, e);
    CacheExplainedPreserved(c, g, e);
    GrantsSpacedPreserved(c, g, e);
    GrantsCountedPreserved(c, g, e);
    FetchesInTurnPreserved(c, g, e);
    hide InOrder, InflightExact, CacheExplained, GrantsSpaced, GrantsCounted, FetchesInTurn, Step, Enabled;
  }

  ghost predicate IsRun(c: Config, g: Geo, events: seq<Event>)
    decreases |events|
  {
    events == [] || (Enabled(g, events[0]) && IsRun(c, Step(c, g, events[0]), events[1..]))
  }

  function Run(c: Config, g: Geo, events: seq<Event>): Geo
    requires IsRun(c, g, events)
    decreases |events|
  {
    if events == [] then g else Run(c, Step(c, g, events[0]), events[1..])
  }

  /** Good is kept, and the histories of grants and fetches only grow. */
  lemma {:induction false} RunKeepsGood(c: Config, g: Geo, events: seq<Event>)
    requires Good(c, g) && IsRun(c, g, events)
    ensures var g' := Run(c, g, events); Good(c, g') && g.grants <= g'.grants && g.fetches <= g'.fetches
    decreases |events|
  {
    if events != [] {
      GoodStep(c, g, events[0]);
      StepExtends(c, g, events[0]);
      hide Good, Step, Enabled;
      RunKeepsGood(c, Step(c, g, events[0]), events[1..]);
    }
  }

  lemma StepExtends(c: Config, g: Geo, e: Event)
    requires Enabled(g, e)
    ensures g.grants <= Step(c, g, e).grants && g.fetches <= Step(c, g, e).fetches
  {
  }

  lemma EveryRun(c: Config, events: seq<Event>)
    requires IsRun(c, START, events)
    ensures Good(c, Run(c, START, events))
  {
    RunKeepsGood(c, START, events);
    hide Run, Good;
  }

  // Spacing.

  /** Grant j is at least j - i intervals after grant i. */
  lemma {:induction false} GrantsApart(c: Config, g: Geo, i: nat, j: nat)
    requires GrantsSpaced(c, g) && i <= j < |g.grants|
    ensures g.grants[j] - g.grants[i] >= Intervals(j - i, c.minInterval)
    decreases j - i
  {
    hide Intervals;
    if i < j {
      GrantsApart(c, g, i, j - 1);
      NextGrant(c, g, j - 1);
      OneMore(j - 1 - i, c.minInterval);
    } else {
      NoInterval(c.minInterval);
    }
  }

  /** The length of n intervals of m milliseconds. */
  function Intervals(n: int, m: int): int {
    n * m
  }

  lemma NoInterval(m: int)
    ensures Intervals(0, m) == 0
  {
  }

  lemma NextGrant(c: Config, g: Geo, i: nat)
    requires GrantsSpaced(c, g) && i + 1 < |g.grants|
    ensures g.grants[i + 1] - g.grants[i] >= c.minInterval
  {
  }

  lemma OneMore(n: int, m: int)
    ensures Intervals(n + 1, m) == Intervals(n, m) + m
  {
  }

  /**
    Fetch j begins at least j - i - 1 intervals after fetch i, and a full j - i after it when fetch i began at the
    very time its lookup was let through.
  */
  lemma FetchesApart(c: Config, g: Geo, i: nat, j: nat)
    requires GrantsSpaced(c, g) && GrantsCounted(g) && FetchesInTurn(g) && c.minInterval >= 0
    requires i < j < |g.fetches|
    ensures g.fetches[j].at - g.fetches[i].at >= Intervals(j - i - 1, c.minInterval)
    ensures g.fetches[i].at == g.grants[g.fetches[i].lookup] ==>
              g.fetches[j].at - g.fetches[i].at >= Intervals(j - i, c.minInterval)
  {
    hide Intervals;
    var a, b := g.fetches[i].lookup, g.fetches[j].lookup;
    LookupsApart(g, i, j);
    assert FetchFits(g, g.fetches[i]) && FetchFits(g, g.fetches[j]);
    GrantsApart(c, g, a, b);
    GrantsApart(c, g, a + 1, b);
    Times(j - i, b - a, c.minInterval);
    Times(j - i - 1, b - a - 1, c.minInterval);
    hide GrantsSpaced, GrantsCounted, FetchesInTurn;
  }

  lemma Times(x: nat, y: nat, m: nat)
    requires x <= y
    ensures Intervals(x, m) <= Intervals(y, m)
  {
  }

  lemma {:induction false} LookupsApart(g: Geo, i: nat, j: nat)
    requires FetchesInTurn(g) && i <= j < |g.fetches|
    ensures g.fetches[i].lookup + (j - i) <= g.fetches[j].lookup
    decreases j - i
  {
    if i < j {
      LookupsApart(g, i, j - 1);
    }
  }

  /** A fetch that begins without delay is recorded at the time of its lookup's grant. */
  lemma PromptFetch(c: Config, g: Geo)
    requires Good(c, g) && Head(g) == Some(Granted) && g.lastRequestAt == g.now
    ensures var s, i := Step(c, g, BeginFetch), |g.fetches|;
            && Good(c, s) && |s.fetches| == i + 1 && s.fetches[i] == FetchStart(g.served, g.now)
            && g.served < |s.grants| && s.grants[g.served] == g.now
  {
    GoodStep(c, g, BeginFetch);
    hide InOrder, InflightExact, CacheExplained, FetchesInTurn;
  }

  /** Once a fetch begins without delay after its grant, every later fetch of every continuation is an interval away. */
  lemma PromptFetchKeepsNextAway(c: Config, g: Geo, events: seq<Event>, j: nat)
    requires Good(c, g) && Head(g) == Some(Granted) && g.lastRequestAt == g.now && c.minInterval >= 0
    requires IsRun(c, Step(c, g, BeginFetch), events)
    requires |g.fetches| < j < |Run(c, Step(c, g, BeginFetch), events).fetches|
    ensures Run(c, Step(c, g, BeginFetch), events).fetches[j].at - g.now >= c.minInterval
  {
    var i, s := |g.fetches|, Step(c, g, BeginFetch);
    PromptFetch(c, g);
    hide Step, Good;
    RunKeepsGood(c, s, events);
    var g' := Run(c, s, events);
    assert g'.fetches[i] == s.fetches[i] && g'.grants[g.served] == s.grants[g.served];
    PromptFetchApart(c, g', i, j);
  }

  lemma PromptFetchApart(c: Config, g: Geo, i: nat, j: nat)
    requires Good(c, g) && c.minInterval >= 0 && i < j < |g.fetches|
    requires g.fetches[i].lookup < |g.grants| && g.fetches[i].at == g.grants[g.fetches[i].lookup]
    ensures g.fetches[j].at - g.fetches[i].at >= c.minInterval
  {
    hide InOrder, InflightExact, CacheExplained;
    FetchesApart(c, g, i, j);
    Times(1, j - i, c.minInterval);
    hide GrantsSpaced, GrantsCounted, FetchesInTurn;
    assert Intervals(1, c.minInterval) == c.minInterval;
  }

  /** A clock that has moved between a grant and its fetch lets the next lookup in line begin its fetch too early. */
  function EarlyRun(c: Config, s: Geo): seq<Event> {
    var due := s.lastRequestAt + c.minInterval;
    if due > s.now then [FetchDone(None), StartTask, Tick(due), TimerFires, BeginFetch]
    else [FetchDone(None), StartTask, BeginFetch]
  }

  lemma NextInLineStarts(c: Config, s: Geo) returns (s1: Geo, s2: Geo)
    requires InOrder(s) && Head(s) == Some(Fetching) && s.lastRequestAt < s.now && c.minInterval > 0
    requires s.served + 1 < |s.lookups|
    ensures s1 == Step(c, s, FetchDone(None)) && Enabled(s1, StartTask) && s2 == Step(c, s1, StartTask)
    ensures var due := s.lastRequestAt + c.minInterval;
            Head(s2) == Some(if due > s.now then Waiting(due) else Granted)
    ensures s2.now == s.now && s2.fetches == s.fetches
  {
    s1 := Step(c, s, FetchDone(None));
    s2 := Step(c, s1, StartTask);
  }

  lemma WaitAndFetch(c: Config, s: Geo, due: int)
    requires Head(s) == Some(Waiting(due)) && due > s.now
    ensures IsRun(c, s, [Tick(due), TimerFires, BeginFetch])
    ensures Run(c, s, [Tick(due), TimerFires, BeginFetch]).fetches == s.fetches + [FetchStart(s.served, due)]
  {
    var s1 := Step(c, s, Tick(due));
    var s2 := Step(c, s1, TimerFires);
    RunCons(c, s2, BeginFetch, []);
    RunCons(c, s1, TimerFires, [BeginFetch]);
    RunCons(c, s, Tick(due), [TimerFires, BeginFetch]);
  }

  lemma NextInLineComesEarly(c: Config, s: Geo)
    requires InOrder(s) && Head(s) == Some(Fetching) && s.lastRequestAt < s.now && c.minInterval > 0
    requires s.served + 1 < |s.lookups|
    ensures IsRun(c, s, EarlyRun(c, s))
    ensures var g' := Run(c, s, EarlyRun(c, s));
            |g'.fetches| == |s.fetches| + 1 && g'.fetches[|s.fetches|].at - s.now < c.minInterval
  {
    var due := s.lastRequestAt + c.minInterval;
    var s1, s2 := NextInLineStarts(c, s);
    hide InOrder;
    if due > s.now {
      WaitAndFetch(c, s2, due);
      hide Step;
      RunCons(c, s1, StartTask, [Tick(due), TimerFires, BeginFetch]);
      RunCons(c, s, FetchDone(None), [StartTask, Tick(due), TimerFires, BeginFetch]);
    } else {
      RunCons(c, s2, BeginFetch, []);
      assert Step(c, s2, BeginFetch).fetches == s.fetches + [FetchStart(s2.served, s.now)];
      hide Step;
      RunCons(c, s1, StartTask, [BeginFetch]);
      RunCons(c, s, FetchDone(None), [StartTask, BeginFetch]);
    }
  }

  /** A call for the coordinate would queue a lookup of its own. */
  predicate NeedsLookup(c: Config, g: Geo, lat: real, lng: real) {
    && c.enabled && ValidCoordinate(lat, lng)
    && var key := c.keyOf(lat, lng);
       key !in g.inflight && (key in g.cache ==> g.cache[key].expiresAt <= g.now)
  }

  /** Another lookup is in line, or a call could put one there. */
  ghost predicate CanQueue(c: Config, g: Geo) {
    g.served + 1 < |g.lookups| || exists lat, lng :: NeedsLookup(c, g, lat, lng)
  }

  lemma NewLookupQueues(c: Config, s: Geo, lat: real, lng: real)
    requires InOrder(s) && Head(s) == Some(Fetching) && NeedsLookup(c, s, lat, lng)
    ensures var s' := Step(c, s, Reverse(lat, lng));
            && InOrder(s') && Head(s') == Some(Fetching) && s'.served + 1 < |s'.lookups|
            && s'.now == s.now && s'.lastRequestAt == s.lastRequestAt && s'.fetches == s.fetches
  {
  }

  lemma LateFetchLetsNextComeEarly(c: Config, g: Geo) returns (events: seq<Event>)
    requires Good(c, g) && Head(g) == Some(Granted) && g.lastRequestAt < g.now && c.minInterval > 0 && CanQueue(c, g)
    ensures var s := Step(c, g, BeginFetch);
            && IsRun(c, s, events)
            && var g' := Run(c, s, events);
               |g'.fetches| == |g.fetches| + 2 && g'.fetches[|g.fetches| + 1].at - g.now < c.minInterval
  {
    var s := Step(c, g, BeginFetch);
    InOrderPreserved(c, g, BeginFetch);
    assert Head(s) == Some(Fetching) && s.now == g.now && |s.fetches| == |g.fetches| + 1;
    hide Good, InOrder;
    if s.served + 1 < |s.lookups| {
      NextInLineComesEarly(c, s);
      events := EarlyRun(c, s);
    } else {
      var lat, lng :| NeedsLookup(c, g, lat, lng);
      NewLookupQueues(c, s, lat, lng);
      var s' := Step(c, s, Reverse(lat, lng));
      NextInLineComesEarly(c, s');
      RunCons(c, s, Reverse(lat, lng), EarlyRun(c, s'));
      events := [Reverse(lat, lng)] + EarlyRun(c, s');
    }
  }

  lemma RunCons(c: Config, g: Geo, e: Event, rest: seq<Event>)
    requires Enabled(g, e) && IsRun(c, Step(c, g, e), rest)
    ensures IsRun(c, g, [e] + rest) && Run(c, g, [e] + rest) == Run(c, Step(c, g, e), rest)
  {
    hide Step;
    assert ([e] + rest)[1..] == rest;
  }

  /** No continuation brings the next fetch closer than the interval. */
  ghost predicate NextFetchAway(c: Config, s: Geo, at: int) {
    forall events, j | IsRun(c, s, events) && |s.fetches| <= j < |Run(c, s, events).fetches| ::
      Run(c, s, events).fetches[j].at - at >= c.minInterval
  }

  /**
    Where another lookup is in line or can still come, beginning a fetch now keeps every later fetch an interval away
    exactly when the clock has not moved since the lookup was let through.
  */
  lemma SpacingExactlyWhenPrompt(c: Config, g: Geo)
    requires Good(c, g) && Head(g) == Some(Granted) && c.minInterval > 0 && CanQueue(c, g)
    ensures NextFetchAway(c, Step(c, g, BeginFetch), g.now) <==> g.lastRequestAt == g.now
  {
    var s := Step(c, g, BeginFetch);
    assert g.lastRequestAt == g.grants[|g.grants| - 1] <= g.now;
    if g.lastRequestAt == g.now {
      forall events, j | IsRun(c, s, events) && |s.fetches| <= j < |Run(c, s, events).fetches|
        ensures Run(c, s, events).fetches[j].at - g.now >= c.minInterval
      {
        PromptFetchKeepsNextAway(c, g, events, j);
      }
    } else {
      var events := LateFetchLetsNextComeEarly(c, g);
      var j := |g.fetches| + 1;
      assert IsRun(c, s, events) && |s.fetches| <= j < |Run(c, s, events).fetches|;
    }
  }

  // From the start.

  lemma {:induction false} RunsJoin(c: Config, g: Geo, x: seq<Event>, y: seq<Event>)
    requires IsRun(c, g, x) && IsRun(c, Run(c, g, x), y)
    ensures IsRun(c, g, x + y) && Run(c, g, x + y) == Run(c, Run(c, g, x), y)
    decreases |x|
  {
    hide Step, Enabled;
    if x == [] {
      assert x + y == y;
    } else {
      RunsJoin(c, Step(c, g, x[0]), x[1..], y);
      assert (x + y)[0] == x[0] && (x + y)[1..] == x[1..] + y;
    }
  }

  /** Two lookups are queued, the first is let through, and the clock moves before it begins to fetch. */
  function LateStart(c: Config): seq<Event> {
    [Tick(c.minInterval), Reverse(0.0, 0.0), Reverse(1.0, 1.0), StartTask, Tick(c.minInterval + 1)]
  }

  lemma LateStartRuns(c: Config)
    requires c.enabled && c.minInterval > 0 && c.keyOf(0.0, 0.0) != c.keyOf(1.0, 1.0)
    ensures IsRun(c, START, LateStart(c))
    ensures var g := Run(c, START, LateStart(c));
            && Head(g) == Some(Granted) && g.lastRequestAt < g.now && CanQueue(c, g) && g.fetches == []
  {
    var m := c.minInterval;
    var s1 := Step(c, START, Tick(m));
    var s2 := Step(c, s1, Reverse(0.0, 0.0));
    var s3 := Step(c, s2, Reverse(1.0, 1.0));
    var s4 := Step(c, s3, StartTask);
    assert |s4.lookups| == 2 && Head(s4) == Some(Granted) && s4.lastRequestAt == m == s4.now;
    RunCons(c, s4, Tick(m + 1), []);
    RunCons(c, s3, StartTask, [Tick(m + 1)]);
    RunCons(c, s2, Reverse(1.0, 1.0), [StartTask, Tick(m + 1)]);
    RunCons(c, s1, Reverse(0.0, 0.0), [Reverse(1.0, 1.0), StartTask, Tick(m + 1)]);
    RunCons(c, START, Tick(m), [Reverse(0.0, 0.0), Reverse(1.0, 1.0), StartTask, Tick(m + 1)]);
  }

  /** So there is a run from the start in which two successive fetches begin less than an interval apart. */
  lemma FetchesCanComeTooClose(c: Config) returns (events: seq<Event>)
    requires c.enabled && c.minInterval > 0 && c.keyOf(0.0, 0.0) != c.keyOf(1.0, 1.0)
    ensures IsRun(c, START, events)
    ensures var g := Run(c, START, events); |g.fetches| == 2 && g.fetches[1].at - g.fetches[0].at < c.minInterval
  {
    LateStartRuns(c);
    var g := Run(c, START, LateStart(c));
    EveryRun(c, LateStart(c));
    var s := Step(c, g, BeginFetch);
    assert s.fetches == [FetchStart(g.served, g.now)];
    var rest := LateFetchLetsNextComeEarly(c, g);
    RunCons(c, g, BeginFetch, rest);
    RunKeepsGood(c, s, rest) by { GoodStep(c, g, BeginFetch); }
    hide LateStart, Good, Step, Enabled, CanQueue;
    RunsJoin(c, START, LateStart(c), [BeginFetch] + rest);
    events := LateStart(c) + ([BeginFetch] + rest);
    assert Run(c, START, events).fetches[0] == s.fetches[0];
  }
}
