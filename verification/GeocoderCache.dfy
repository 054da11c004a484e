/** What the cache and the inflight map of the geocoder are for: when a call fetches, and how often a key is fetched. */
module GeocoderCache {
  import opened Prelude
  import opened Geocoder
  import opened GeocoderProtocol

  // Which answer is given.

  /** The entry of the key has not expired. */
  predicate Holds(g: Geo, k: Key) {
    k in g.cache && g.now < g.cache[k].expiresAt
  }

  /** Lookup i of the key has been started and not cleaned up. */
  predicate Pending(g: Geo, i: nat, k: Key) {
    i < |g.lookups| && g.lookups[i].key == k && !g.lookups[i].cleaned
  }

  /**
    A call is answered at once, and changes nothing, exactly when the service is off, the coordinate is none on earth,
    or the key has an entry that has not expired. Otherwise it waits for the one pending lookup of its key, and starts
    one exactly when there is none; an entry that has expired goes.
  */
  lemma AnswersExactly(c: Config, g: Geo, lat: real, lng: real)
    requires InflightExact(g)
    ensures var (g', answer) := CallReverse(c, g, lat, lng);
            var k := c.keyOf(lat, lng);
            var proper := c.enabled && -90.0 <= lat <= 90.0 && -180.0 <= lng <= 180.0;
            && (!proper ==> answer == Nothing && g' == g)
            && (proper && Holds(g, k) ==> answer == Cached(g.cache[k].value) && g' == g)
            && (proper && !Holds(g, k) ==>
                  && answer.Await? && Pending(g', answer.lookup, k) && g'.cache == g.cache - {k}
                  && (answer.lookup < |g.lookups| ==> Pending(g, answer.lookup, k) && g'.lookups == g.lookups)
                  && (answer.lookup >= |g.lookups| ==>
                        && (forall i: nat :: !Pending(g, i, k))
                        && g'.lookups == g.lookups + [Lookup(k, Queued, false, 0)]))
  {
  }

  // How often a key is fetched.

  /** Lookup i has answered, and the answer has not expired. */
  predicate Fresh(c: Config, g: Geo, i: nat) {
    i < |g.lookups| && g.lookups[i].stage.Done? && g.now < g.lookups[i].doneAt + c.ttl
  }

  /** An answer that has not expired is in the cache, and no later lookup has its key. */
  predicate Remembers(c: Config, g: Geo, i: nat)
    requires i < |g.lookups| && g.lookups[i].stage.Done?
  {
    var l := g.lookups[i];
    && l.key in g.cache && g.cache[l.key] == CachedAddress(l.stage.value, l.doneAt + c.ttl)
    && forall j | i < j < |g.lookups| :: g.lookups[j].key != l.key
  }

  ghost predicate Remembered(c: Config, g: Geo) {
    forall i: nat | Fresh(c, g, i) :: Remembers(c, g, i)
  }

  /** A lookup that is answered stays answered. */
  lemma AnswerStays(c: Config, g: Geo, e: Event, i: nat)
    requires InOrder(g) && Enabled(g, e) && Fresh(c, Step(c, g, e), i)
    ensures (e.FetchDone? && i == g.served) || Fresh(c, g, i)
  {
  }

  lemma RememberedAnswer(c: Config, g: Geo, e: Event)
    requires InOrder(g) && InflightExact(g) && Enabled(g, e) && e.FetchDone?
    ensures Remembers(c, Step(c, g, e), g.served)
  {
    forall j | g.served < j < |g.lookups| ensures g.lookups[j].key != g.lookups[g.served].key {
      assert !g.lookups[j].cleaned && !g.lookups[g.served].cleaned;
    }
  }

  lemma StillRemembered(c: Config, g: Geo, e: Event, i: nat)
    requires InOrder(g) && InflightExact(g) && Enabled(g, e) && Fresh(c, g, i) && Remembers(c, g, i)
    requires Fresh(c, Step(c, g, e), i) && !(e.FetchDone? && i == g.served)
    ensures Remembers(c, Step(c, g, e), i)
  {
    if e.FetchDone? {
      assert g.lookups[g.served].key != g.lookups[i].key;
    }
  }

  lemma RememberedPreserved(c: Config, g: Geo, e: Event)
    requires InOrder(g) && InflightExact(g) && Remembered(c, g) && Enabled(g, e)
    ensures Remembered(c, Step(c, g, e))
  {
    var g' := Step(c, g, e);
    forall i: nat | Fresh(c, g', i) ensures Remembers(c, g', i) {
      AnswerStays(c, g, e, i);
      if e.FetchDone? && i == g.served {
        RememberedAnswer(c, g, e);
      } else {
        StillRemembered(c, g, e, i);
      }
    }
    hide Step, Enabled, InOrder, InflightExact;
  }

  /** A fetch begins for a key only when each earlier answer of the key has expired. */
  ghost predicate FetchesAfterExpiry(c: Config, g: Geo) {
    forall f, i: nat | 0 <= f < |g.fetches| && i < g.fetches[f].lookup < |g.lookups|
        && g.lookups[i].stage.Done? && g.lookups[i].key == g.lookups[g.fetches[f].lookup].key ::
      g.fetches[f].at >= g.lookups[i].doneAt + c.ttl
  }

  lemma FetchesAfterExpiryPreserved(c: Config, g: Geo, e: Event)
    requires InOrder(g) && FetchesInTurn(g) && Remembered(c, g) && FetchesAfterExpiry(c, g) && Enabled(g, e)
    ensures FetchesAfterExpiry(c, Step(c, g, e))
  {
    var g' := Step(c, g, e);
    forall f, i: nat | 0 <= f < |g'.fetches| && i < g'.fetches[f].lookup < |g'.lookups|
        && g'.lookups[i].stage.Done? && g'.lookups[i].key == g'.lookups[g'.fetches[f].lookup].key
      ensures g'.fetches[f].at >= g'.lookups[i].doneAt + c.ttl
    {
      if f == |g.fetches| {
        assert e.BeginFetch?;
        BeginsAfterExpiry(c, g, i);
      } else {
        EarlierFetch(c, g, e, f, i);
      }
    }
  }

  /** A fetch that begins now, for the lookup at the head. */
  lemma BeginsAfterExpiry(c: Config, g: Geo, i: nat)
    requires Remembered(c, g) && i < g.served < |g.lookups|
    requires g.lookups[i].stage.Done? && g.lookups[i].key == g.lookups[g.served].key
    ensures g.now >= g.lookups[i].doneAt + c.ttl
  {
    assert Fresh(c, g, i) ==> Remembers(c, g, i);
  }

  lemma EarlierFetch(c: Config, g: Geo, e: Event, f: nat, i: nat)
    requires InOrder(g) && FetchesInTurn(g) && Enabled(g, e) && f < |g.fetches| && i < g.fetches[f].lookup
    ensures Step(c, g, e).fetches[f] == g.fetches[f] && g.fetches[f].lookup < |g.lookups|
    ensures Step(c, g, e).lookups[i].stage == g.lookups[i].stage
    ensures Step(c, g, e).lookups[i].doneAt == g.lookups[i].doneAt && Step(c, g, e).lookups[i].key == g.lookups[i].key
    ensures Step(c, g, e).lookups[g.fetches[f].lookup].key == g.lookups[g.fetches[f].lookup].key
  {
  }

  ghost predicate Frugal(c: Config, g: Geo) {
    Good(c, g) && Remembered(c, g) && FetchesAfterExpiry(c, g)
  }

  lemma FrugalStep(c: Config, g: Geo, e: Event)
    requires Frugal(c, g) && Enabled(g, e)
    ensures Frugal(c, Step(c, g, e))
  {
    GoodStep(c, g, e);
    RememberedPreserved(c, g, e);
    FetchesAfterExpiryPreserved(c, g, e);
    hide Remembered, FetchesAfterExpiry, Step, Enabled, InOrder, InflightExact, CacheExplained, GrantsSpaced,
      GrantsCounted, FetchesInTurn;
  }

  lemma {:induction false} FrugalRun(c: Config, g: Geo, events: seq<Event>)
    requires Frugal(c, g) && IsRun(c, g, events)
    ensures Frugal(c, Run(c, g, events))
    decreases |events|
  {
    if events != [] {
      FrugalStep(c, g, events[0]);
      hide Frugal, Step, Enabled;
      FrugalRun(c, Step(c, g, events[0]), events[1..]);
    }
  }

  lemma StartsFrugal(c: Config)
    ensures Frugal(c, START)
  {
  }

  /**
    In every run: two fetches for one key are at least a time to live apart, counted from when the first one was
    answered, if it was.
  */
  lemma FetchesOfKeyApart(c: Config, events: seq<Event>, e: nat, f: nat)
    requires IsRun(c, START, events)
    requires var g := Run(c, START, events); e < f < |g.fetches|
    ensures var g := Run(c, START, events);
            && g.fetches[e].lookup < g.fetches[f].lookup < |g.lookups|
            && var first, second := g.lookups[g.fetches[e].lookup], g.lookups[g.fetches[f].lookup];
               first.key == second.key && first.stage.Done? ==> g.fetches[f].at >= first.doneAt + c.ttl
  {
    hide *;
    StartsFrugal(c);
    FrugalRun(c, START, events);
    FetchPair(c, Run(c, START, events), e, f);
  }

  lemma FetchPair(c: Config, g: Geo, e: nat, f: nat)
    requires Frugal(c, g) && e < f < |g.fetches|
    ensures g.fetches[e].lookup < g.fetches[f].lookup < |g.lookups|
    ensures var first, second := g.lookups[g.fetches[e].lookup], g.lookups[g.fetches[f].lookup];
            first.key == second.key && first.stage.Done? ==> g.fetches[f].at >= first.doneAt + c.ttl
  {
    hide CacheExplained, InflightExact, GrantsSpaced, GrantsCounted, Remembered;
  }

  /**
    From any reachable state in which a lookup has just been answered: as long as the answer has not expired, a call
    for its coordinate is given that answer, changes nothing, and so fetches nothing, whatever happened in between.
  */
  lemma AnsweredFromCache(c: Config, g: Geo, value: Option<string>, events: seq<Event>, lat: real, lng: real)
    requires Frugal(c, g) && Enabled(g, FetchDone(value)) && c.keyOf(lat, lng) == g.lookups[g.served].key
    requires IsRun(c, Step(c, g, FetchDone(value)), events)
    requires c.enabled && -90.0 <= lat <= 90.0 && -180.0 <= lng <= 180.0
    requires Run(c, Step(c, g, FetchDone(value)), events).now < g.now + c.ttl
    ensures var g' := Run(c, Step(c, g, FetchDone(value)), events);
            CallReverse(c, g', lat, lng) == (g', Cached(value))
  {
    var g1 := Step(c, g, FetchDone(value));
    var i := g.served;
    FrugalStep(c, g, FetchDone(value));
    assert i < g1.served && g1.lookups[i] == g.lookups[i].(stage := Done(value), doneAt := g.now);
    hide Step, Enabled;
    SettledStays(c, g1, events, i);
    FrugalRun(c, g1, events);
    var g' := Run(c, g1, events);
    hide Run, IsRun;
    assert Fresh(c, g', i);
    assert Remembers(c, g', i);
    AnswersExactly(c, g', lat, lng);
    hide CallReverse;
  }

  /** A settled lookup keeps its key, its answer and its time. */
  lemma {:induction false} SettledStays(c: Config, g: Geo, events: seq<Event>, i: nat)
    requires Good(c, g) && IsRun(c, g, events) && i < g.served && i < |g.lookups|
    ensures var g' := Run(c, g, events);
            && i < g'.served && i < |g'.lookups| && g'.lookups[i].key == g.lookups[i].key
            && g'.lookups[i].stage == g.lookups[i].stage && g'.lookups[i].doneAt == g.lookups[i].doneAt
    decreases |events|
  {
    if events != [] {
      GoodStep(c, g, events[0]);
      SettledStep(c, g, events[0], i);
      hide Good, Step, Enabled;
      SettledStays(c, Step(c, g, events[0]), events[1..], i);
    }
  }

  lemma SettledStep(c: Config, g: Geo, e: Event, i: nat)
    requires Enabled(g, e) && i < g.served && i < |g.lookups|
    ensures var g' := Step(c, g, e);
            && i < g'.served && i < |g'.lookups| && g'.lookups[i].key == g.lookups[i].key
            && g'.lookups[i].stage == g.lookups[i].stage && g'.lookups[i].doneAt == g.lookups[i].doneAt
  {
  }

  /** A lookup that fails leaves nothing behind but its settled promise, so the next call can try again. */
  lemma FailureIsForgotten(c: Config, g: Geo, lat: real, lng: real)
    requires Good(c, g) && Enabled(g, TaskThrows) && c.keyOf(lat, lng) == g.lookups[g.served].key
    requires c.enabled && -90.0 <= lat <= 90.0 && -180.0 <= lng <= 180.0 && !Holds(g, c.keyOf(lat, lng))
    ensures var g1 := Step(c, g, TaskThrows);
            && Enabled(g1, Cleanup(g.served))
            && CallReverse(c, Step(c, g1, Cleanup(g.served)), lat, lng).1 == Await(|g.lookups|)
  {
    var g1 := Step(c, g, TaskThrows);
    assert g1.cache == g.cache && g1.now == g.now;
    var g2 := Step(c, g1, Cleanup(g.served));
    assert g2.cache == g.cache && c.keyOf(lat, lng) !in g2.inflight;
  }

  // Waiting no longer than needed.

  /** The lookup at the head is let through at once exactly when the interval has passed, and otherwise at its end. */
  lemma LetThroughExactly(c: Config, g: Geo)
    requires Enabled(g, StartTask)
    ensures var g' := Step(c, g, StartTask);
            if g.now >= g.lastRequestAt + c.minInterval then Head(g') == Some(Granted)
            else Head(g') == Some(Waiting(g.lastRequestAt + c.minInterval))
    ensures var g' := Step(c, g, StartTask);
            Head(g') == Some(Waiting(g.lastRequestAt + c.minInterval)) ==>
              forall now | now >= g.now ::
                Enabled(g'.(now := now), TimerFires) <==> now >= g.lastRequestAt + c.minInterval
  {
  }
}
