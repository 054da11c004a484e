/**
  The reverse geocoder: a cache with a time to live, one pending lookup per cache key, a promise chain that runs
  lookups one after the other, and a rate limiter. Between two awaits the service runs undisturbed, so each
  stretch of code between awaits is one step; steps of different lookups and of the clock interleave freely.
*/
module Geocoder {
  import opened Prelude

  type Key = string

  /** Settings; keyOf rounds a coordinate to its cache key. */
  datatype Config = Config(enabled: bool, ttl: int, minInterval: int, keyOf: (real, real) -> Key)

  datatype Stage =
    | Queued                       // behind other lookups in the promise chain
    | Waiting(until: int)          // the rate limiter's timer is running
    | Granted                      // past the rate limiter, fetch not started yet
    | Fetching
    | Done(value: Option<string>)  // the answer, undefined when there is none
    | Failed                       // it threw before it could fetch

  /** One lookup; `cleaned` once its finally handler has removed the inflight entry. */
  datatype Lookup = Lookup(key: Key, stage: Stage, cleaned: bool, doneAt: int)

  datatype CachedAddress = CachedAddress(value: Option<string>, expiresAt: int)

  datatype FetchStart = FetchStart(lookup: nat, at: int)

  datatype Geo = Geo(
    now: int,
    cache: map<Key, CachedAddress>,
    inflight: map<Key, nat>,
    lookups: seq<Lookup>,         // in the order of enqueueRequest
    served: nat,                  // the promise chain has settled this many of them
    lastRequestAt: int,
    grants: seq<int>,             // the values lastRequestAt has had
    fetches: seq<FetchStart>)

  datatype Answer = Nothing | Cached(value: Option<string>) | Await(lookup: nat)

  datatype Event =
    | Tick(now: int)
    | Reverse(lat: real, lng: real)
    | StartTask
    | TimerFires
    | BeginFetch
    | TaskThrows
    | FetchDone(value: Option<string>)
    | Cleanup(lookup: nat)

  const START := Geo(0, map[], map[], [], 0, 0, [], [])

  predicate ValidCoordinate(lat: real, lng: real) {
    -90.0 <= lat <= 90.0 && -180.0 <= lng <= 180.0
  }

  /** The stage of the lookup at the head of the promise chain. */
  function Head(g: Geo): Option<Stage> {
    if g.served < |g.lookups| then Some(g.lookups[g.served].stage) else None
  }

  predicate Enabled(g: Geo, e: Event) {
    match e
    case Tick(now) => now >= g.now
    case Reverse(_, _) => true
    case StartTask => Head(g) == Some(Queued)
    case TimerFires => Head(g).Some? && Head(g).value.Waiting? && g.now >= Head(g).value.until
    case BeginFetch => Head(g) == Some(Granted)
    case TaskThrows => Head(g) == Some(Granted)
    case FetchDone(_) => Head(g) == Some(Fetching)
    case Cleanup(i) => i < g.served && i < |g.lookups| && !g.lookups[i].cleaned
  }

  function Max(a: int, b: int): int {
    if a > b then a else b
  }

  function SetStage(g: Geo, stage: Stage): Geo
    requires g.served < |g.lookups|
  {
    g.(lookups := g.lookups[g.served := g.lookups[g.served].(stage := stage)])
  }

  function Grant(g: Geo): Geo
    requires g.served < |g.lookups|
  {
    SetStage(g, Granted).(lastRequestAt := g.now, grants := g.grants + [g.now])
  }

  function CallReverse(c: Config, g: Geo, lat: real, lng: real): (Geo, Answer) {
    if !c.enabled || !ValidCoordinate(lat, lng) then (g, Nothing)
    else
      var key := c.keyOf(lat, lng);
      if key in g.cache && g.cache[key].expiresAt > g.now then (g, Cached(g.cache[key].value))
      else
        var g' := g.(cache := g.cache - {key});
        if key in g.inflight then (g', Await(g.inflight[key]))
        else
          var id := |g.lookups|;
          (g'.(lookups := g.lookups + [Lookup(key, Queued, false, 0)], inflight := g.inflight[key := id]), Await(id))
  }

  function Step(c: Config, g: Geo, e: Event): Geo
    requires Enabled(g, e)
  {
    match e
    case Tick(now) => g.(now := now)
    case Reverse(lat, lng) => CallReverse(c, g, lat, lng).0
    case StartTask =>
      var waitMs := Max(0, g.lastRequestAt + c.minInterval - g.now);
      if waitMs > 0 then SetStage(g, Waiting(g.now + waitMs)) else Grant(g)
    case TimerFires => Grant(g)
    case BeginFetch => SetStage(g, Fetching).(fetches := g.fetches + [FetchStart(g.served, g.now)])
    case TaskThrows => SetStage(g, Failed).(served := g.served + 1)
    case FetchDone(value) =>
      var l := g.lookups[g.served];
      g.(lookups := g.lookups[g.served := l.(stage := Done(value), doneAt := g.now)],
         cache := g.cache[l.key := CachedAddress(value, g.now + c.ttl)],
         served := g.served + 1)
    case Cleanup(i) =>
      g.(lookups := g.lookups[i := g.lookups[i].(cleaned := true)], inflight := g.inflight - {g.lookups[i].key})
  }

  class ReverseGeocodingService {
    const config: Config
    var now: int
    var cache: map<Key, CachedAddress>
    var inflight: map<Key, nat>
    var lookups: seq<Lookup>
    var served: nat
    var lastRequestAt: int
    var grants: seq<int>
    var fetches: seq<FetchStart>

    constructor (config: Config)
      ensures this.config == config && State() == START
    {
      this.config := config;
      now, cache, inflight, lookups, served, lastRequestAt, grants, fetches := 0, map[], map[], [], 0, 0, [], [];
    }

    function State(): Geo
      reads this
    {
      Geo(now, cache, inflight, lookups, served, lastRequestAt, grants, fetches)
    }

    method ReverseGeocode(lat: real, lng: real) returns (answer: Answer)
      modifies this
      ensures (State(), answer) == CallReverse(config, old(State()), lat, lng)
      ensures config.enabled && -90.0 <= lat <= 90.0 && -180.0 <= lng <= 180.0 && config.keyOf(lat, lng) in old(cache)
              && old(cache)[config.keyOf(lat, lng)].expiresAt > now ==>
                answer == Cached(old(cache)[config.keyOf(lat, lng)].value) && State() == old(State())
    {
      if !config.enabled || !ValidCoordinate(lat, lng) {
        return Nothing;
      }
      var cacheKey := config.keyOf(lat, lng);
      if cacheKey in cache && cache[cacheKey].expiresAt > now {
        return Cached(cache[cacheKey].value);
      }
      cache := cache - {cacheKey};
      if cacheKey in inflight {
        return Await(inflight[cacheKey]);
      }
      answer := Await(|lookups|);
      inflight := inflight[cacheKey := |lookups|];
      lookups := lookups + [Lookup(cacheKey, Queued, false, 0)];
    }

    /** waitForRateLimit up to its await, when the lookup at the head of the chain gets its turn. */
    method StartRateLimit()
      requires Enabled(State(), StartTask)
      modifies this
      ensures State() == Step(config, old(State()), StartTask)
    {
      var waitMs := Max(0, lastRequestAt + config.minInterval - now);
      if waitMs > 0 {
        lookups := lookups[served := lookups[served].(stage := Waiting(now + waitMs))];
      } else {
        EndRateLimit();
      }
    }

    /** The rest of waitForRateLimit. */
    method EndRateLimit()
      requires served < |lookups|
      modifies this
      ensures State() == Grant(old(State()))
    {
      lookups := lookups[served := lookups[served].(stage := Granted)];
      lastRequestAt := now;
      grants := grants + [now];
    }

    /** The queued function once fetchAddress has an answer. */
    method FinishTask(address: Option<string>)
      requires Enabled(State(), FetchDone(address))
      modifies this
      ensures State() == Step(config, old(State()), FetchDone(address))
    {
      var l := lookups[served];
      lookups := lookups[served := l.(stage := Done(address), doneAt := now)];
      cache := cache[l.key := CachedAddress(address, now + config.ttl)];
      served := served + 1;
    }

    /** The finally handler of lookup i. */
    method FinallyHandler(i: nat)
      requires Enabled(State(), Cleanup(i))
      modifies this
      ensures State() == Step(config, old(State()), Cleanup(i))
    {
      inflight := inflight - {lookups[i].key};
      lookups := lookups[i := lookups[i].(cleaned := true)];
    }
  }
}
