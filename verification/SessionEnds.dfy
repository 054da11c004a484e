/** How sessions end: after a logout nothing of the user can be refreshed, and an inactive user gets no new tokens. */
module SessionEnds {
  import opened Prelude
  import opened Sessions
  import opened SessionRecords

  // Logout.

  /** A logout revokes every record of the token's user, and leaves everything else as it is. */
  lemma LogoutRevokesExactly(g: Auth, t: nat, r: nat)
    requires Enabled(g, Logout(t)) && r < |g.records|
    ensures var g' := Step(g, Logout(t));
            && g' == g.(records := g'.records) && |g'.records| == |g.records|
            && g'.records[r].user == g.records[r].user && g'.records[r].token == g.records[r].token
            && (g'.records[r].revoked <==> g.records[r].revoked || g.records[r].user == g.tokens[t].user)
  {
  }

  ghost predicate NoneLive(g: Auth, u: User) {
    forall r: nat :: !Live(g, r, u)
  }

  /** The event stores a record of user u. */
  predicate StoresFor(g: Auth, e: Event, u: User) {
    e.CreateRecord? && AboutToStore(g, e.process, u)
  }

  ghost predicate NeverStoresFor(g: Auth, events: seq<Event>, u: User)
    requires IsRun(g, events)
    decreases |events|
  {
    events == [] || (!StoresFor(g, events[0], u) && NeverStoresFor(Step(g, events[0]), events[1..], u))
  }

  /** A step gives user u a live record, when there was none, exactly by storing one. */
  lemma NoneLiveExactly(g: Auth, e: Event, u: User)
    requires NoneLive(g, u) && Enabled(g, e)
    ensures NoneLive(Step(g, e), u) <==> !StoresFor(g, e, u)
  {
    var g' := Step(g, e);
    if StoresFor(g, e, u) {
      assert Live(g', |g.records|, u);
    }
    forall r: nat ensures Live(g', r, u) ==> StoresFor(g, e, u) {
      if Live(g', r, u) {
        LiveAfter(g, e, r, u);
      }
    }
    hide Step, Enabled, Live;
  }

  lemma {:induction false} NoneLiveInRun(g: Auth, events: seq<Event>, u: User)
    requires NoneLive(g, u) && IsRun(g, events) && NeverStoresFor(g, events, u)
    ensures NoneLive(Run(g, events), u)
    decreases |events|
  {
    if events != [] {
      NoneLiveExactly(g, events[0], u);
      hide NoneLive, Step, Enabled, StoresFor;
      NoneLiveInRun(Step(g, events[0]), events[1..], u);
    }
  }

  /**
    After a logout no refresh of the user gets on, whichever token it presents and whatever other calls do, until a call
    of the user that was under way stores a record, or a new one does.
  */
  lemma LoggedOutStaysOut(g: Auth, t: nat, events: seq<Event>, p: nat, r: nat)
    requires Enabled(g, Logout(t))
    requires IsRun(Step(g, Logout(t)), events) && NeverStoresFor(Step(g, Logout(t)), events, g.tokens[t].user)
    requires var g' := Run(Step(g, Logout(t)), events);
             p < |g'.processes| && g'.processes[p].Presented? && g'.processes[p].token < |g'.tokens|
             && g'.tokens[g'.processes[p].token].user == g.tokens[t].user
    ensures !Enabled(Run(Step(g, Logout(t)), events), FindToken(p, r))
  {
    var g1, u := Step(g, Logout(t)), g.tokens[t].user;
    forall s: nat ensures !Live(g1, s, u) {
      if s < |g.records| {
        LogoutRevokesExactly(g, t, s);
      }
    }
    assert NoneLive(g1, u);
    NoneLiveInRun(g1, events, u);
    var g' := Run(g1, events);
    assert !Live(g', r, u);
    hide Run, Step;
  }

  // Deactivation.

  /** The call is past the check that its user is active, and has not signed yet. */
  predicate PastCheck(p: Process, u: User) {
    (p.LoginChecked? && p.user == u) || (p.Minting? && p.user == u)
  }

  /** The tokens signed for u, and those that calls past the check may still sign. */
  function TokensToCome(g: Auth, u: User): nat {
    Count(g.tokens, (t: Token) => t.user == u) + Count(g.processes, (p: Process) => PastCheck(p, u))
  }

  ghost predicate Inactive(g: Auth, u: User) {
    u in g.accounts && !g.accounts[u].active
  }

  lemma CallMoved(g: Auth, p: nat, to: Process, u: User)
    requires p < |g.processes|
    ensures TokensToCome(g.(processes := g.processes[p := to]), u) ==
            TokensToCome(g, u) - (if PastCheck(g.processes[p], u) then 1 else 0) + (if PastCheck(to, u) then 1 else 0)
  {
    CountUpdate(g.processes, p, to, (p: Process) => PastCheck(p, u));
  }

  lemma CallBegun(g: Auth, to: Process, u: User)
    ensures TokensToCome(g.(processes := g.processes + [to]), u) ==
            TokensToCome(g, u) + (if PastCheck(to, u) then 1 else 0)
  {
    CountConcat(g.processes, [to], (p: Process) => PastCheck(p, u));
    CountOne(to, (p: Process) => PastCheck(p, u));
  }

  lemma TokenSigned(g: Auth, t: Token, u: User)
    ensures TokensToCome(g.(tokens := g.tokens + [t]), u) == TokensToCome(g, u) + (if t.user == u then 1 else 0)
  {
    CountConcat(g.tokens, [t], (t: Token) => t.user == u);
    CountOne(t, (t: Token) => t.user == u);
  }

  /** Only these two parts count. */
  lemma TokensOnly(g: Auth, g': Auth, u: User)
    requires g'.tokens == g.tokens && g'.processes == g.processes
    ensures TokensToCome(g', u) == TokensToCome(g, u)
  {
  }

  /** What a step does to the tokens to come: more of them only when a check of an active user passes. */
  lemma TokensToComeAfter(g: Auth, e: Event, u: User)
    requires Enabled(g, e)
    ensures TokensToCome(Step(g, e), u) <= TokensToCome(g, u)
            || ((e.Login? || e.FindUser?) && u in g.accounts && g.accounts[u].active)
  {
    var g' := Step(g, e);
    match e
    case Login(v) => CallBegun(g, LoginChecked(v), u);
    case Refresh(t) => CallBegun(g, Presented(t), u);
    case IncrementVersion(p) => CallMoved(g, p, g'.processes[p], u); TokensOnly(g.(processes := g'.processes), g', u);
    case FindToken(p, _) => CallMoved(g, p, g'.processes[p], u);
    case SaveRevoked(p) => CallMoved(g, p, g'.processes[p], u); TokensOnly(g.(processes := g'.processes), g', u);
    case FindUser(p) => CallMoved(g, p, g'.processes[p], u);
    case Sign(p) =>
      CallMoved(g, p, g'.processes[p], u);
      TokenSigned(g.(processes := g'.processes), g'.tokens[|g.tokens|], u);
      TokensOnly(g', g.(processes := g'.processes, tokens := g'.tokens), u);
    case RevokePrevious(p) => CallMoved(g, p, g'.processes[p], u); TokensOnly(g.(processes := g'.processes), g', u);
    case CreateRecord(p) => CallMoved(g, p, g'.processes[p], u); TokensOnly(g.(processes := g'.processes), g', u);
    case Throw(p) => CallMoved(g, p, g'.processes[p], u);
    case _ => TokensOnly(g, g', u);
    hide TokensToCome;
  }

  ghost predicate NeverActivates(events: seq<Event>, u: User) {
    forall i | 0 <= i < |events| :: events[i] != SetActive(u, true)
  }

  lemma StaysInactive(g: Auth, e: Event, u: User)
    requires Inactive(g, u) && Enabled(g, e) && e != SetActive(u, true)
    ensures Inactive(Step(g, e), u)
  {
  }

  /**
    While a user is not active, in every interleaving, only calls that were past the check before can still sign a token
    for that user, each at most one.
  */
  lemma {:induction false} InactiveGetNothingNew(g: Auth, events: seq<Event>, u: User)
    requires Inactive(g, u) && IsRun(g, events) && NeverActivates(events, u)
    ensures Inactive(Run(g, events), u) && TokensToCome(Run(g, events), u) <= TokensToCome(g, u)
    decreases |events|
  {
    if events != [] {
      assert events[0] != SetActive(u, true);
      assert NeverActivates(events[1..], u);
      StaysInactive(g, events[0], u);
      TokensToComeAfter(g, events[0], u);
      hide Step, Enabled, TokensToCome, NeverActivates;
      InactiveGetNothingNew(Step(g, events[0]), events[1..], u);
    }
  }

  /** Setting a user inactive stops every access at once, and setting it active again restores what was latest. */
  lemma SetActiveExactly(g: Auth, u: User, active: bool, t: nat)
    requires Enabled(g, SetActive(u, active)) && t < |g.tokens| && g.tokens[t].user == u
    ensures Accepts(Step(g, SetActive(u, active)), t) <==> active && g.tokens[t].version == g.accounts[u].version
  {
  }
}
