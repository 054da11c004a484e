/**
  Sessions: logins, refreshes and logouts as processes that interleave at every await, over the accounts' session
  versions and the stored refresh token records. A token here is the access and refresh token signed together.
  Which record a presented refresh token matches is left open, so nothing rests on comparing hashes.
*/
module Sessions {
  type User = string

  datatype Account = Account(version: nat, active: bool)

  /** Where a token came from: the version bump of its login, or the token presented to refresh. */
  datatype Origin = AtLogin(bump: nat) | ByRefresh(parent: nat)

  datatype Token = Token(user: User, version: nat, origin: Origin)

  /** A stored refresh token record; the stored hash is that of one token. */
  datatype Record = Record(user: User, token: nat, revoked: bool)

  /** One increment of a session version, and the version it gave. */
  datatype Bump = Bump(user: User, version: nat)

  datatype Process =
    | LoginChecked(user: User)                                  // password accepted
    | Presented(token: nat)                                     // refresh token verified
    | Found(token: nat, record: nat)                            // a stored record matched
    | Rotated(token: nat)                                       // that record is saved as revoked
    | Minting(user: User, version: nat, origin: Origin)         // generateTokens called
    | Signed(token: nat)
    | Cleared(token: nat)                                       // earlier records revoked
    | Returned(token: nat)
    | Failed

  datatype Auth = Auth(
    accounts: map<User, Account>,
    records: seq<Record>,
    tokens: seq<Token>,      // every token signed, oldest first
    bumps: seq<Bump>,        // every version bump, oldest first
    processes: seq<Process>,
    spent: seq<nat>)         // the records that refreshes have traded in, oldest first

  const EMPTY := Auth(map[], [], [], [], [], [])

  datatype Event =
    | CreateUser(user: User)
    | SetActive(user: User, active: bool)
    | Login(user: User)
    | IncrementVersion(process: nat)
    | Refresh(token: nat)
    | FindToken(process: nat, record: nat)
    | SaveRevoked(process: nat)
    | FindUser(process: nat)
    | Sign(process: nat)
    | RevokePrevious(process: nat)
    | CreateRecord(process: nat)
    | Throw(process: nat)
    | Logout(token: nat)

  predicate At(g: Auth, p: nat) {
    p < |g.processes|
  }

  predicate Enabled(g: Auth, e: Event) {
    match e
    case CreateUser(u) => u !in g.accounts
    case SetActive(u, _) => u in g.accounts
    case Login(u) => u in g.accounts && g.accounts[u].active
    case IncrementVersion(p) => At(g, p) && g.processes[p].LoginChecked? && g.processes[p].user in g.accounts
    case Refresh(t) => t < |g.tokens|
    case FindToken(p, r) =>
      && At(g, p) && g.processes[p].Presented? && g.processes[p].token < |g.tokens| && r < |g.records|
      && g.records[r].user == g.tokens[g.processes[p].token].user && !g.records[r].revoked
    case SaveRevoked(p) => At(g, p) && g.processes[p].Found? && g.processes[p].record < |g.records|
    case FindUser(p) => At(g, p) && g.processes[p].Rotated? && g.processes[p].token < |g.tokens|
    case Sign(p) => At(g, p) && g.processes[p].Minting?
    case RevokePrevious(p) => At(g, p) && g.processes[p].Signed? && g.processes[p].token < |g.tokens|
    case CreateRecord(p) => At(g, p) && g.processes[p].Cleared? && g.processes[p].token < |g.tokens|
    case Throw(p) => At(g, p) && !g.processes[p].Returned?
    case Logout(t) => t < |g.tokens|
  }

  function Move(g: Auth, p: nat, to: Process): Auth
    requires At(g, p)
  {
    g.(processes := g.processes[p := to])
  }

  /** updateMany({ userId, isRevoked: false }, { isRevoked: true }). */
  function RevokeAll(records: seq<Record>, u: User): (r: seq<Record>)
    ensures |r| == |records|
    ensures forall i | 0 <= i < |r| :: r[i].user == records[i].user && r[i].token == records[i].token
    ensures forall i | 0 <= i < |r| :: r[i].revoked <==> records[i].revoked || records[i].user == u
  {
    seq(|records|, i requires 0 <= i < |records| =>
      records[i].(revoked := records[i].revoked || records[i].user == u))
  }

  function Step(g: Auth, e: Event): Auth
    requires Enabled(g, e)
  {
    match e
    case CreateUser(u) => g.(accounts := g.accounts[u := Account(1, true)])
    case SetActive(u, active) => g.(accounts := g.accounts[u := g.accounts[u].(active := active)])
    case Login(u) => g.(processes := g.processes + [LoginChecked(u)])
    case IncrementVersion(p) =>
      var u := g.processes[p].user;
      var v := g.accounts[u].version + 1;
      Move(g, p, Minting(u, v, AtLogin(|g.bumps|)))
        .(accounts := g.accounts[u := g.accounts[u].(version := v)], bumps := g.bumps + [Bump(u, v)])
    case Refresh(t) => g.(processes := g.processes + [Presented(t)])
    case FindToken(p, r) => Move(g, p, Found(g.processes[p].token, r))
    case SaveRevoked(p) =>
      var r := g.processes[p].record;
      Move(g, p, Rotated(g.processes[p].token))
        .(records := g.records[r := g.records[r].(revoked := true)], spent := g.spent + [r])
    case FindUser(p) =>
      var t := g.processes[p].token;
      var u := g.tokens[t].user;
      if u in g.accounts && g.accounts[u].active then Move(g, p, Minting(u, g.tokens[t].version, ByRefresh(t)))
      else Move(g, p, Failed)
    case Sign(p) =>
      var m := g.processes[p];
      Move(g, p, Signed(|g.tokens|)).(tokens := g.tokens + [Token(m.user, m.version, m.origin)])
    case RevokePrevious(p) =>
      var t := g.processes[p].token;
      Move(g, p, Cleared(t)).(records := RevokeAll(g.records, g.tokens[t].user))
    case CreateRecord(p) =>
      var t := g.processes[p].token;
      Move(g, p, Returned(t)).(records := g.records + [Record(g.tokens[t].user, t, false)])
    case Throw(p) => Move(g, p, Failed)
    case Logout(t) => g.(records := RevokeAll(g.records, g.tokens[t].user))
  }

  /** The access check of a request that carries access token t. */
  predicate Accepts(g: Auth, t: nat)
    requires t < |g.tokens|
  {
    var token := g.tokens[t];
    token.user in g.accounts && g.accounts[token.user].active && token.version == g.accounts[token.user].version
  }

  /** The stretches of code between awaits that write to the database. */
  class AuthService {
    var accounts: map<User, Account>
    var records: seq<Record>
    var tokens: seq<Token>
    var bumps: seq<Bump>
    var processes: seq<Process>
    var spent: seq<nat>

    constructor ()
      ensures State() == EMPTY && Good(State())
    {
      accounts, records, tokens, bumps, processes, spent := map[], [], [], [], [], [];
    }

    function State(): Auth
      reads this
    {
      Auth(accounts, records, tokens, bumps, processes, spent)
    }

    /** One atomic $inc that returns the new value. */
    method IncrementSessionVersion(p: nat)
      requires Enabled(State(), IncrementVersion(p))
      modifies this
      ensures State() == Step(old(State()), IncrementVersion(p))
    {
      var user := processes[p].user;
      var version := accounts[user].version + 1;
      accounts := accounts[user := accounts[user].(version := version)];
      processes := processes[p := Minting(user, version, AtLogin(|bumps|))];
      bumps := bumps + [Bump(user, version)];
    }

    method SaveRevokedToken(p: nat)
      requires Enabled(State(), SaveRevoked(p))
      modifies this
      ensures State() == Step(old(State()), SaveRevoked(p))
    {
      var r := processes[p].record;
      records := records[r := records[r].(revoked := true)];
      processes := processes[p := Rotated(processes[p].token)];
      spent := spent + [r];
    }

    /** From reading the user to calling generateTokens with the presented token's version. */
    method ContinueRefresh(p: nat)
      requires Enabled(State(), FindUser(p))
      modifies this
      ensures State() == Step(old(State()), FindUser(p))
    {
      var presented := tokens[processes[p].token];
      if presented.user !in accounts || !accounts[presented.user].active {
        processes := processes[p := Failed];
      } else {
        processes := processes[p := Minting(presented.user, presented.version, ByRefresh(processes[p].token))];
      }
    }

    method SignTokens(p: nat)
      requires Enabled(State(), Sign(p))
      modifies this
      ensures State() == Step(old(State()), Sign(p))
    {
      tokens := tokens + [Token(processes[p].user, processes[p].version, processes[p].origin)];
      processes := processes[p := Signed(|tokens| - 1)];
    }

    method RevokePreviousSessions(p: nat)
      requires Enabled(State(), RevokePrevious(p))
      modifies this
      ensures State() == Step(old(State()), RevokePrevious(p))
    {
      records := RevokeAll(records, tokens[processes[p].token].user);
      processes := processes[p := Cleared(processes[p].token)];
    }

    method StoreRecord(p: nat)
      requires Enabled(State(), CreateRecord(p))
      modifies this
      ensures State() == Step(old(State()), CreateRecord(p))
    {
      records := records + [Record(tokens[processes[p].token].user, processes[p].token, false)];
      processes := processes[p := Returned(processes[p].token)];
    }
  }

  // Versions.

  /** Later bumps of one user give greater versions, all above the initial one, and the account has the last of them. */
  ghost predicate VersionsIncrease(g: Auth) {
    && (forall i, j | 0 <= i < j < |g.bumps| && g.bumps[i].user == g.bumps[j].user ::
        g.bumps[i].version < g.bumps[j].version)
    && (forall i | 0 <= i < |g.bumps| ::
          && g.bumps[i].user in g.accounts && 1 < g.bumps[i].version <= g.accounts[g.bumps[i].user].version)
    && (forall u | u in g.accounts ::
          g.accounts[u].version == 1 || exists i | 0 <= i < |g.bumps| :: g.bumps[i] == Bump(u, g.accounts[u].version))
  }

  /** Only IncrementVersion touches versions and bumps; CreateUser adds an account at the initial version. */
  lemma OtherStepsKeepVersions(g: Auth, e: Event)
    requires Enabled(g, e) && !e.IncrementVersion?
    ensures var g' := Step(g, e);
            && g'.bumps == g.bumps && g.accounts.Keys <= g'.accounts.Keys
            && forall u | u in g'.accounts ::
                 if u in g.accounts then g'.accounts[u].version == g.accounts[u].version
                 else g'.accounts[u].version == 1
  {
  }

  lemma VersionsIncreasePreserved(g: Auth, e: Event)
    requires VersionsIncrease(g) && Enabled(g, e)
    ensures VersionsIncrease(Step(g, e))
  {
    var g' := Step(g, e);
    if e.IncrementVersion? {
      IncrementKeepsVersions(g, e.process);
    } else {
      OtherStepsKeepVersions(g, e);
      hide Step, Enabled;
    }
  }

  lemma IncrementKeepsVersions(g: Auth, p: nat)
    requires VersionsIncrease(g) && Enabled(g, IncrementVersion(p))
    ensures VersionsIncrease(Step(g, IncrementVersion(p)))
  {
    var g' := Step(g, IncrementVersion(p));
    var user := g.processes[p].user;
    assert g'.bumps[|g.bumps|] == Bump(user, g'.accounts[user].version);
    forall u | u in g'.accounts && g'.accounts[u].version != 1
      ensures exists i | 0 <= i < |g'.bumps| :: g'.bumps[i] == Bump(u, g'.accounts[u].version)
    {
      if u != user {
        var i :| 0 <= i < |g.bumps| && g.bumps[i] == Bump(u, g.accounts[u].version);
        assert g'.bumps[i] == g.bumps[i];
      }
    }
  }

  // Lineage.

  /** An origin is an earlier bump with this user and version, or an earlier token with this user and version. */
  predicate OriginFits(g: Auth, u: User, v: nat, o: Origin, before: nat) {
    match o
    case AtLogin(b) => b < |g.bumps| && g.bumps[b] == Bump(u, v)
    case ByRefresh(t) => t < before <= |g.tokens| && g.tokens[t].user == u && g.tokens[t].version == v
  }

  ghost predicate OriginsFit(g: Auth) {
    && (forall t | 0 <= t < |g.tokens| :: OriginFits(g, g.tokens[t].user, g.tokens[t].version, g.tokens[t].origin, t))
    && (forall p | 0 <= p < |g.processes| && g.processes[p].Minting? ::
          OriginFits(g, g.processes[p].user, g.processes[p].version, g.processes[p].origin, |g.tokens|))
  }

  lemma OriginsFitPreserved(g: Auth, e: Event)
    requires OriginsFit(g) && Enabled(g, e)
    ensures OriginsFit(Step(g, e))
  {
  }

  /** The bump of the login from which token t descends through any number of refreshes. */
  function Root(g: Auth, t: nat): (b: nat)
    requires OriginsFit(g) && t < |g.tokens|
    ensures b < |g.bumps|
    decreases t
  {
    match g.tokens[t].origin
    case AtLogin(b) => assert OriginFits(g, g.tokens[t].user, g.tokens[t].version, AtLogin(b), t); b
    case ByRefresh(parent) =>
      assert OriginFits(g, g.tokens[t].user, g.tokens[t].version, ByRefresh(parent), t);
      Root(g, parent)
  }

  /** However long the refresh chain, a token carries the user and the version of the login it descends from. */
  lemma {:induction false} RefreshCopiesRootVersion(g: Auth, t: nat)
    requires OriginsFit(g) && t < |g.tokens|
    ensures g.bumps[Root(g, t)] == Bump(g.tokens[t].user, g.tokens[t].version)
    decreases t
  {
    assert OriginFits(g, g.tokens[t].user, g.tokens[t].version, g.tokens[t].origin, t);
    if g.tokens[t].origin.ByRefresh? {
      RefreshCopiesRootVersion(g, g.tokens[t].origin.parent);
    }
  }

  /** Bump b is the latest of its user. */
  ghost predicate IsLatest(g: Auth, b: nat)
    requires b < |g.bumps|
  {
    forall i | b < i < |g.bumps| :: g.bumps[i].user != g.bumps[b].user
  }

  /** An access token is accepted exactly when its user is active and it descends from the user's latest login. */
  lemma AcceptedExactlyFromLatestLogin(g: Auth, t: nat)
    requires VersionsIncrease(g) && OriginsFit(g) && t < |g.tokens|
    ensures g.tokens[t].user in g.accounts
    ensures Accepts(g, t) <==> g.accounts[g.tokens[t].user].active && IsLatest(g, Root(g, t))
  {
    RefreshCopiesRootVersion(g, t);
    var b, u := Root(g, t), g.tokens[t].user;
    assert g.bumps[b].user == u;
    hide Root, OriginsFit;
    if g.accounts[u].version != 1 {
      var i :| 0 <= i < |g.bumps| && g.bumps[i] == Bump(u, g.accounts[u].version);
      assert i < b ==> g.bumps[i].version < g.bumps[b].version;
    }
  }

  /** A bump belongs to one login: at most one process or token was made with it. */
  ghost predicate BumpsUsedOnce(g: Auth) {
    && (forall t | 0 <= t < |g.tokens| && g.tokens[t].origin.AtLogin? :: g.tokens[t].origin.bump < |g.bumps|)
    && (forall p | 0 <= p < |g.processes| && IsLoginMint(g.processes[p]) :: g.processes[p].origin.bump < |g.bumps|)
    && (forall s, t | 0 <= s < t < |g.tokens| && g.tokens[s].origin.AtLogin? ::
        g.tokens[s].origin != g.tokens[t].origin)
    && (forall p, q | 0 <= p < q < |g.processes| && IsLoginMint(g.processes[p]) && IsLoginMint(g.processes[q]) ::
          g.processes[p].origin != g.processes[q].origin)
    && (forall t, p | 0 <= t < |g.tokens| && 0 <= p < |g.processes| && IsLoginMint(g.processes[p]) ::
          g.tokens[t].origin != g.processes[p].origin)
  }

  predicate IsLoginMint(p: Process) {
    p.Minting? && p.origin.AtLogin?
  }

  lemma OtherStepsStartNoLogin(g: Auth, e: Event)
    requires Enabled(g, e) && !e.IncrementVersion? && !e.Sign?
    ensures var g' := Step(g, e);
            && g'.tokens == g.tokens && g'.bumps == g.bumps && |g.processes| <= |g'.processes|
            && forall p | 0 <= p < |g'.processes| && IsLoginMint(g'.processes[p]) ::
                 p < |g.processes| && g.processes[p] == g'.processes[p]
  {
  }

  lemma SignKeepsBumps(g: Auth, p: nat)
    requires BumpsUsedOnce(g) && Enabled(g, Sign(p))
    ensures BumpsUsedOnce(Step(g, Sign(p)))
  {
  }

  lemma IncrementKeepsBumps(g: Auth, p: nat)
    requires BumpsUsedOnce(g) && Enabled(g, IncrementVersion(p))
    ensures BumpsUsedOnce(Step(g, IncrementVersion(p)))
  {
  }

  lemma BumpsUsedOncePreserved(g: Auth, e: Event)
    requires BumpsUsedOnce(g) && Enabled(g, e)
    ensures BumpsUsedOnce(Step(g, e))
  {
    match e
    case IncrementVersion(p) => IncrementKeepsBumps(g, p);
    case Sign(p) => SignKeepsBumps(g, p);
    case _ =>
      OtherStepsStartNoLogin(g, e);
      hide Step, Enabled, IsLoginMint;
  }

  // Whole runs.

  ghost predicate Good(g: Auth) {
    VersionsIncrease(g) && OriginsFit(g) && BumpsUsedOnce(g)
  }

  lemma GoodStep(g: Auth, e: Event)
    requires Good(g) && Enabled(g, e)
    ensures Good(Step(g, e)) && g.bumps <= Step(g, e).bumps && g.tokens <= Step(g, e).tokens
  {
    VersionsIncreasePreserved(g, e);
    OriginsFitPreserved(g, e);
    BumpsUsedOncePreserved(g, e);
    hide VersionsIncrease, OriginsFit, BumpsUsedOnce;
  }

  ghost predicate IsRun(g: Auth, events: seq<Event>)
    decreases |events|
  {
    events == [] || (Enabled(g, events[0]) && IsRun(Step(g, events[0]), events[1..]))
  }

  function Run(g: Auth, events: seq<Event>): Auth
    requires IsRun(g, events)
    decreases |events|
  {
    if events == [] then g else Run(Step(g, events[0]), events[1..])
  }

  lemma {:induction false} RunKeepsGood(g: Auth, events: seq<Event>)
    requires Good(g) && IsRun(g, events)
    ensures var g' := Run(g, events); Good(g') && g.bumps <= g'.bumps && g.tokens <= g'.tokens
    decreases |events|
  {
    if events != [] {
      GoodStep(g, events[0]);
      hide Good, Step, Enabled;
      RunKeepsGood(Step(g, events[0]), events[1..]);
    }
  }

  lemma EveryRun(events: seq<Event>)
    requires IsRun(EMPTY, events)
    ensures Good(Run(EMPTY, events))
  {
    RunKeepsGood(EMPTY, events);
    hide Run, Good;
  }

  /**
    Once user u has logged in again, no token descending from any earlier login is accepted in any later state,
    including tokens refreshed after the new login by refreshes that were already under way.
  */
  lemma EarlierChainsAreDead(g: Auth, b: nat, events: seq<Event>, t: nat)
    requires Good(g) && b < |g.bumps| && !IsLatest(g, b)
    requires IsRun(g, events) && t < |Run(g, events).tokens|
    requires Good(Run(g, events)) && Root(Run(g, events), t) == b
    ensures !Accepts(Run(g, events), t)
  {
    RunKeepsGood(g, events);
    var g' := Run(g, events);
    AcceptedExactlyFromLatestLogin(g', t);
    var i :| b < i < |g.bumps| && g.bumps[i].user == g.bumps[b].user;
    assert g'.bumps[i] == g.bumps[i] && g'.bumps[b] == g.bumps[b];
  }

  lemma RunCons(g: Auth, e: Event, rest: seq<Event>)
    requires Enabled(g, e) && IsRun(Step(g, e), rest)
    ensures IsRun(g, [e] + rest) && Run(g, [e] + rest) == Run(Step(g, e), rest)
  {
    hide Step, Enabled;
    assert ([e] + rest)[1..] == rest;
  }
}
