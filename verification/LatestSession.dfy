/** Exactly which steps keep the live refresh record of a user with the user's latest login, however records match. */
module LatestSession {
  import opened Sessions
  import opened SessionRecords
  import opened SessionRuns

  /** The user of a call that acts on the stored records: from finding a record, or bumping the version, to storing. */
  predicate UnderWay(g: Auth, p: nat, u: User) {
    && p < |g.processes|
    && match g.processes[p]
       case Found(t, _) => t < |g.tokens| && g.tokens[t].user == u
       case Rotated(t) => t < |g.tokens| && g.tokens[t].user == u
       case Minting(user, _, _) => user == u
       case Signed(t) => t < |g.tokens| && g.tokens[t].user == u
       case Cleared(t) => t < |g.tokens| && g.tokens[t].user == u
       case _ => false
  }

  /** The call is about to revoke the earlier records. */
  predicate WillRevoke(g: Auth, p: nat, u: User) {
    UnderWay(g, p, u) && (g.processes[p].Minting? || g.processes[p].Signed?)
  }

  /** Every token that a process or a record names has been signed, and a record has its token's user. */
  ghost predicate Named(g: Auth) {
    && OriginsFit(g)
    && (forall r | 0 <= r < |g.records| ::
          g.records[r].token < |g.tokens| && g.tokens[g.records[r].token].user == g.records[r].user)
    && (forall p | 0 <= p < |g.processes| && HasToken(g.processes[p]) :: g.processes[p].token < |g.tokens|)
    && (forall p | 0 <= p < |g.processes| && g.processes[p].Found? :: g.processes[p].record < |g.records|)
  }

  predicate HasToken(p: Process) {
    p.Presented? || p.Found? || p.Rotated? || p.Signed? || p.Cleared?
  }

  lemma NamedPreserved(g: Auth, e: Event)
    requires Named(g) && Enabled(g, e)
    ensures Named(Step(g, e))
  {
    OriginsFitPreserved(g, e);
    hide OriginsFit;
  }

  /** The token descends from its user's latest login. */
  ghost predicate TokenLatest(g: Auth, t: nat)
    requires OriginsFit(g)
  {
    t < |g.tokens| && IsLatest(g, Root(g, t))
  }

  ghost predicate OriginLatest(g: Auth, o: Origin)
    requires OriginsFit(g)
  {
    match o
    case AtLogin(b) => b < |g.bumps| && IsLatest(g, b)
    case ByRefresh(t) => TokenLatest(g, t)
  }

  ghost predicate ProcessLatest(g: Auth, p: Process)
    requires OriginsFit(g)
  {
    if p.Minting? then OriginLatest(g, p.origin) else if HasToken(p) then TokenLatest(g, p.token) else true
  }

  /** Calls under way descend from the latest login, and so do live records unless a call is about to revoke them. */
  ghost predicate Fresh(g: Auth) {
    && Named(g)
    && (forall p: nat, u | UnderWay(g, p, u) :: ProcessLatest(g, g.processes[p]))
    && (forall r: nat, u | Live(g, r, u) :: TokenLatest(g, g.records[r].token) || exists p: nat :: WillRevoke(g, p, u))
  }

  /**
    The steps that lose the latest login: bumping a version while a call of the user is under way, finding a record with
    a token of an earlier login, and failing as the last call that would have revoked an outdated record.
  */
  ghost predicate Breaks(g: Auth, e: Event)
    requires Named(g) && Enabled(g, e)
  {
    match e
    case IncrementVersion(p) => exists q: nat :: UnderWay(g, q, g.processes[p].user)
    case FindToken(p, _) => !TokenLatest(g, g.processes[p].token)
    case Throw(p) => exists r: nat, u :: Live(g, r, u) && !TokenLatest(g, g.records[r].token) && OnlyRevoker(g, p, u)
    case _ => false
  }

  ghost predicate OnlyRevoker(g: Auth, p: nat, u: User) {
    WillRevoke(g, p, u) && forall q: nat :: WillRevoke(g, q, u) ==> q == p
  }

  // Lineage does not change.

  lemma {:induction false} RootStays(g: Auth, g': Auth, t: nat)
    requires OriginsFit(g) && OriginsFit(g') && g.tokens <= g'.tokens && g.bumps <= g'.bumps && t < |g.tokens|
    ensures Root(g', t) == Root(g, t)
    decreases t
  {
    assert g'.tokens[t] == g.tokens[t];
    assert OriginFits(g, g.tokens[t].user, g.tokens[t].version, g.tokens[t].origin, t);
    hide OriginsFit;
    if g.tokens[t].origin.ByRefresh? {
      RootStays(g, g', g.tokens[t].origin.parent);
    }
  }

  /** Unless the user's version is bumped, a token stays of the latest login. */
  lemma TokenStaysLatest(g: Auth, e: Event, t: nat)
    requires Named(g) && Enabled(g, e) && Named(Step(g, e)) && TokenLatest(g, t)
    requires e.IncrementVersion? ==> g.processes[e.process].user != g.tokens[t].user
    ensures TokenLatest(Step(g, e), t)
  {
    var g' := Step(g, e);
    Prefixes(g, e);
    RootStays(g, g', t);
    RefreshCopiesRootVersion(g, t);
    BumpsAfter(g, e);
    hide OriginsFit, Step, Enabled, Root;
  }

  lemma TokenStaysOutdated(g: Auth, e: Event, t: nat)
    requires Named(g) && Enabled(g, e) && Named(Step(g, e)) && t < |g.tokens| && !TokenLatest(g, t)
    ensures !TokenLatest(Step(g, e), t)
  {
    var g' := Step(g, e);
    Prefixes(g, e);
    RootStays(g, g', t);
    hide OriginsFit, Step, Enabled, Root;
    var i :| Root(g, t) < i < |g.bumps| && g.bumps[i].user == g.bumps[Root(g, t)].user;
    assert g'.bumps[i] == g.bumps[i];
  }

  lemma Prefixes(g: Auth, e: Event)
    requires Enabled(g, e)
    ensures g.tokens <= Step(g, e).tokens && g.bumps <= Step(g, e).bumps
  {
  }

  lemma BumpsAfter(g: Auth, e: Event)
    requires Enabled(g, e)
    ensures Step(g, e).bumps == g.bumps || (e.IncrementVersion? && |Step(g, e).bumps| == |g.bumps| + 1)
    ensures e.IncrementVersion? ==> Step(g, e).bumps[|g.bumps|].user == g.processes[e.process].user
  {
  }

  /** The bump of user u does not touch what descends from other users' logins. */
  predicate Bumps(g: Auth, e: Event, u: User)
    requires Enabled(g, e)
  {
    e.IncrementVersion? && g.processes[e.process].user == u
  }

  lemma OriginStaysLatest(g: Auth, e: Event, u: User, v: nat, o: Origin)
    requires Named(g) && Enabled(g, e) && Named(Step(g, e)) && OriginLatest(g, o) && !Bumps(g, e, u)
    requires OriginFits(g, u, v, o, |g.tokens|)
    ensures OriginLatest(Step(g, e), o)
  {
    if o.ByRefresh? {
      TokenStaysLatest(g, e, o.parent);
    } else {
      Prefixes(g, e);
      BumpsAfter(g, e);
    }
    hide OriginsFit, Step, Enabled, Root;
  }

  /** The user and the origin of a minting call fit. */
  lemma MintingFits(g: Auth, p: nat)
    requires Named(g) && p < |g.processes| && g.processes[p].Minting?
    ensures var m := g.processes[p]; OriginFits(g, m.user, m.version, m.origin, |g.tokens|)
  {
  }

  /** A call that the event does not move. */
  lemma ProcessStaysLatest(g: Auth, e: Event, p: nat, u: User)
    requires Named(g) && Enabled(g, e) && Named(Step(g, e)) && UnderWay(g, p, u) && !Bumps(g, e, u)
    requires ProcessLatest(g, g.processes[p])
    ensures ProcessLatest(Step(g, e), g.processes[p])
  {
    var m := g.processes[p];
    if m.Minting? {
      MintingFits(g, p);
      OriginStaysLatest(g, e, u, m.version, m.origin);
    } else {
      TokenStaysLatest(g, e, m.token);
    }
    hide Step, Enabled, Named, TokenLatest, OriginLatest;
  }

  /** A freshly signed token descends from where its call's origin does. */
  lemma SignedRoot(g: Auth, p: nat)
    requires Named(g) && Enabled(g, Sign(p)) && Named(Step(g, Sign(p))) && OriginLatest(g, g.processes[p].origin)
    ensures TokenLatest(Step(g, Sign(p)), |g.tokens|)
  {
    var g' := Step(g, Sign(p));
    MintingFits(g, p);
    var o := g.processes[p].origin;
    assert g'.tokens[|g.tokens|].origin == o && g'.bumps == g.bumps;
    if o.ByRefresh? {
      RootStays(g, g', o.parent);
    }
  }

  /** The event is a step of call p other than its beginning. */
  predicate Moves(e: Event, p: nat) {
    && (e.IncrementVersion? || e.FindToken? || e.SaveRevoked? || e.FindUser? || e.Sign? || e.RevokePrevious?
        || e.CreateRecord? || e.Throw?)
    && e.process == p
  }

  lemma UnmovedCalls(g: Auth, e: Event, p: nat, u: User)
    requires Named(g) && Enabled(g, e) && !Moves(e, p)
    ensures UnderWay(Step(g, e), p, u) <==> UnderWay(g, p, u)
    ensures UnderWay(g, p, u) ==> Step(g, e).processes[p] == g.processes[p]
  {
  }

  /** The call that bumps the version is under way after it, and was not before. */
  lemma BumpingCall(g: Auth, e: Event, u: User)
    requires Enabled(g, e) && Bumps(g, e, u)
    ensures WillRevoke(Step(g, e), e.process, u) && !UnderWay(g, e.process, u)
  {
  }

  /** A call that the event moves, by what it was before. */
  lemma MovedCall(g: Auth, e: Event, p: nat, u: User)
    requires Named(g) && Enabled(g, e) && Moves(e, p) && UnderWay(Step(g, e), p, u)
    ensures var before, after := g.processes[p], Step(g, e).processes[p];
            match e
            case IncrementVersion(_) => Bumps(g, e, u) && after.Minting? && after.origin == AtLogin(|g.bumps|)
            case FindToken(_, r) => after == Found(before.token, r) && Live(g, r, u)
            case SaveRevoked(_) => UnderWay(g, p, u) && before.Found? && after == Rotated(before.token)
            case FindUser(_) =>
              UnderWay(g, p, u) && before.Rotated? && after.Minting? && after.origin == ByRefresh(before.token)
            case Sign(_) => UnderWay(g, p, u) && before.Minting? && after == Signed(|g.tokens|)
            case RevokePrevious(_) => UnderWay(g, p, u) && before.Signed? && after == Cleared(before.token)
            case _ => false
  {
  }

  /** A live record of a user of whom no other call is under way descends from the latest login. */
  lemma LiveIsLatest(g: Auth, r: nat, u: User)
    requires Fresh(g) && Live(g, r, u) && forall p: nat :: !WillRevoke(g, p, u)
    ensures TokenLatest(g, g.records[r].token)
  {
  }

  lemma MovedStaysLatest(g: Auth, e: Event, p: nat, u: User)
    requires Fresh(g) && Enabled(g, e) && Named(Step(g, e)) && !Breaks(g, e)
    requires Moves(e, p) && UnderWay(Step(g, e), p, u)
    ensures ProcessLatest(Step(g, e), Step(g, e).processes[p])
  {
    var before := g.processes[p];
    MovedCall(g, e, p, u);
    if UnderWay(g, p, u) {
      assert ProcessLatest(g, before);
      ProcessStaysLatest(g, e, p, u);
    }
    match e
    case IncrementVersion(_) => BumpsAfter(g, e); hide Named, OriginsFit;
    case FindToken(_, _) =>
      TokenStaysLatest(g, e, before.token);
      hide Step, Enabled, Named, OriginsFit, TokenLatest;
    case Sign(_) => SignedRoot(g, p); hide Step, Enabled, Named, OriginsFit, TokenLatest;
    case _ => hide Step, Enabled, Named, OriginsFit, TokenLatest;
  }

  lemma OwnToken(g: Auth, r: nat, u: User)
    requires Named(g) && Live(g, r, u)
    ensures g.records[r].token < |g.tokens| && g.tokens[g.records[r].token].user == u
  {
  }

  lemma CallsStayLatest(g: Auth, e: Event, p: nat, u: User)
    requires Fresh(g) && Enabled(g, e) && Named(Step(g, e)) && !Breaks(g, e)
    requires UnderWay(Step(g, e), p, u)
    ensures ProcessLatest(Step(g, e), Step(g, e).processes[p])
  {
    if Moves(e, p) {
      MovedStaysLatest(g, e, p, u);
    } else {
      UnmovedCalls(g, e, p, u);
      assert !Bumps(g, e, u);
      ProcessStaysLatest(g, e, p, u);
    }
  }

  /** A call about to revoke still is, or it has just revoked or failed. */
  lemma StillWillRevoke(g: Auth, e: Event, p: nat, u: User)
    requires Named(g) && Enabled(g, e) && WillRevoke(g, p, u)
    ensures
      || WillRevoke(Step(g, e), p, u) || e == Throw(p)
      || (e == RevokePrevious(p) && g.tokens[g.processes[p].token].user == u)
  {
  }

  /** An outdated record that stays live still has a call about to revoke it. */
  lemma RevokerLeft(g: Auth, e: Event, r: nat, u: User)
    requires Fresh(g) && Enabled(g, e) && !Breaks(g, e) && Live(g, r, u) && Live(Step(g, e), r, u)
    requires !TokenLatest(g, g.records[r].token)
    ensures exists p: nat :: WillRevoke(Step(g, e), p, u)
  {
    var p: nat :| WillRevoke(g, p, u) && (e == Throw(p) ==> !OnlyRevoker(g, p, u));
    StillWillRevoke(g, e, p, u);
    LiveAfter(g, e, r, u);
    if e == Throw(p) {
      var q: nat :| WillRevoke(g, q, u) && q != p;
      StillWillRevoke(g, e, q, u);
    }
    hide Step, Enabled, Named, TokenLatest, WillRevoke;
  }

  lemma StoredIsLatest(g: Auth, p: nat)
    requires Fresh(g) && Enabled(g, CreateRecord(p)) && Named(Step(g, CreateRecord(p)))
    ensures TokenLatest(Step(g, CreateRecord(p)), g.processes[p].token)
  {
    var u := g.tokens[g.processes[p].token].user;
    assert UnderWay(g, p, u);
    assert ProcessLatest(g, g.processes[p]);
    TokenStaysLatest(g, CreateRecord(p), g.processes[p].token);
  }

  lemma RecordsStayLatest(g: Auth, e: Event, r: nat, u: User)
    requires Fresh(g) && Enabled(g, e) && Named(Step(g, e)) && !Breaks(g, e) && Live(Step(g, e), r, u)
    ensures TokenLatest(Step(g, e), Step(g, e).records[r].token) || exists p: nat :: WillRevoke(Step(g, e), p, u)
  {
    var g' := Step(g, e);
    LiveAfter(g, e, r, u);
    if !Live(g, r, u) {
      StoredIsLatest(g, e.process);
      assert g'.records[r].token == g.processes[e.process].token;
    } else if Bumps(g, e, u) {
      BumpingCall(g, e, u);
    } else {
      SameToken(g, e, r, u);
      if TokenLatest(g, g.records[r].token) {
        OwnToken(g, r, u);
        TokenStaysLatest(g, e, g.records[r].token);
      } else {
        RevokerLeft(g, e, r, u);
      }
    }
    hide Step, Enabled, Named, OriginsFit, TokenLatest, WillRevoke, Breaks;
  }

  lemma SameToken(g: Auth, e: Event, r: nat, u: User)
    requires Enabled(g, e) && Live(g, r, u)
    ensures r < |Step(g, e).records| && Step(g, e).records[r].token == g.records[r].token
  {
  }

  lemma FreshKept(g: Auth, e: Event)
    requires Fresh(g) && Enabled(g, e) && !Breaks(g, e)
    ensures Fresh(Step(g, e))
  {
    var g' := Step(g, e);
    NamedPreserved(g, e);
    forall p: nat, u | UnderWay(g', p, u) ensures ProcessLatest(g', g'.processes[p]) {
      CallsStayLatest(g, e, p, u);
    }
    forall r: nat, u | Live(g', r, u)
      ensures TokenLatest(g', g'.records[r].token) || exists p: nat :: WillRevoke(g', p, u)
    {
      RecordsStayLatest(g, e, r, u);
    }
    hide Step, Enabled, Named, UnderWay, Live, WillRevoke, TokenLatest, ProcessLatest;
  }

  // What a breaking step breaks.

  /** A call under way descends from an earlier login once the version of its user is bumped. */
  lemma BumpOutdates(g: Auth, e: Event, q: nat, u: User)
    requires Named(g) && Enabled(g, e) && Named(Step(g, e)) && Bumps(g, e, u) && UnderWay(g, q, u)
    ensures UnderWay(Step(g, e), q, u) && !ProcessLatest(Step(g, e), Step(g, e).processes[q])
  {
    var g' := Step(g, e);
    UnmovedCalls(g, e, q, u);
    var m := g'.processes[q];
    BumpsAfter(g, e);
    Prefixes(g, e);
    if m.Minting? {
      MintingFits(g, q);
      if m.origin.ByRefresh? {
        TokenOutdated(g, e, m.origin.parent);
      }
    } else {
      TokenOutdated(g, e, m.token);
    }
    hide Step, Enabled, Named, OriginsFit, TokenLatest;
  }

  lemma TokenOutdated(g: Auth, e: Event, t: nat)
    requires Named(g) && Enabled(g, e) && Named(Step(g, e)) && t < |g.tokens| && Bumps(g, e, g.tokens[t].user)
    ensures !TokenLatest(Step(g, e), t)
  {
    Prefixes(g, e);
    BumpsAfter(g, e);
    RootStays(g, Step(g, e), t);
    RefreshCopiesRootVersion(g, t);
    hide OriginsFit, Step, Enabled, Root;
  }

  /** The call that finds a record with an outdated token is under way with it. */
  lemma FindOutdates(g: Auth, p: nat, r: nat)
    requires Named(g) && Enabled(g, FindToken(p, r)) && Named(Step(g, FindToken(p, r))) && Breaks(g, FindToken(p, r))
    ensures var g' := Step(g, FindToken(p, r));
            UnderWay(g', p, g.records[r].user) && !ProcessLatest(g', g'.processes[p])
  {
    TokenStaysOutdated(g, FindToken(p, r), g.processes[p].token);
  }

  /** No call is left that would revoke the outdated record. */
  lemma ThrowStrands(g: Auth, p: nat, r: nat, u: User)
    requires Named(g) && Enabled(g, Throw(p)) && Named(Step(g, Throw(p)))
    requires Live(g, r, u) && !TokenLatest(g, g.records[r].token) && OnlyRevoker(g, p, u)
    ensures var g' := Step(g, Throw(p));
            Live(g', r, u) && !TokenLatest(g', g'.records[r].token) && forall q: nat :: !WillRevoke(g', q, u)
  {
    var g' := Step(g, Throw(p));
    OwnToken(g, r, u);
    TokenStaysOutdated(g, Throw(p), g.records[r].token);
    assert forall q: nat :: WillRevoke(g', q, u) ==> q != p && WillRevoke(g, q, u);
  }

  lemma FreshLost(g: Auth, e: Event)
    requires Named(g) && Enabled(g, e) && Breaks(g, e)
    ensures !Fresh(Step(g, e))
  {
    NamedPreserved(g, e);
    match e
    case IncrementVersion(p) =>
      var q: nat :| UnderWay(g, q, g.processes[p].user);
      BumpOutdates(g, e, q, g.processes[p].user);
      hide Step, Enabled, Named, UnderWay, ProcessLatest;
    case FindToken(p, r) => FindOutdates(g, p, r); hide Step, Enabled, Named, UnderWay, ProcessLatest;
    case Throw(p) =>
      var r: nat, u :| Live(g, r, u) && !TokenLatest(g, g.records[r].token) && OnlyRevoker(g, p, u);
      ThrowStrands(g, p, r, u);
      hide Step, Enabled, Named, UnderWay, TokenLatest, OnlyRevoker;
  }

  /** Calls and live records stay with the latest login exactly at the steps that do not break. */
  lemma FreshBrokenExactly(g: Auth, e: Event)
    requires Fresh(g) && Enabled(g, e)
    ensures Fresh(Step(g, e)) <==> !Breaks(g, e)
  {
    if Breaks(g, e) {
      FreshLost(g, e);
    } else {
      FreshKept(g, e);
    }
  }

  // Whole runs.

  /** No step of the run breaks. */
  ghost predicate Unbroken(g: Auth, events: seq<Event>)
    requires Named(g) && IsRun(g, events)
    decreases |events|
  {
    events == [] ||
    (&& !Breaks(g, events[0])
     && (NamedPreserved(g, events[0]); Unbroken(Step(g, events[0]), events[1..])))
  }

  /** Every state of the run is fresh. */
  ghost predicate AlwaysFresh(g: Auth, events: seq<Event>)
    requires IsRun(g, events)
    decreases |events|
  {
    Fresh(g) && (events == [] || AlwaysFresh(Step(g, events[0]), events[1..]))
  }

  lemma {:induction false} AlwaysFreshExactly(g: Auth, events: seq<Event>)
    requires Fresh(g) && IsRun(g, events)
    ensures AlwaysFresh(g, events) <==> Unbroken(g, events)
    ensures AlwaysFresh(g, events) ==> Fresh(Run(g, events))
    decreases |events|
  {
    if events != [] {
      var g' := Step(g, events[0]);
      FreshBrokenExactly(g, events[0]);
      NamedPreserved(g, events[0]);
      hide Breaks, Step, Enabled, Named;
      if Fresh(g') {
        AlwaysFreshExactly(g', events[1..]);
      }
    }
  }

  /**
    From nothing, in a run without a breaking step: whenever no call of user u is about to revoke, a live record of u
    descends from u's latest login, so that trading it in gives an access token that is accepted.
  */
  lemma LiveRecordOfLatestLogin(events: seq<Event>, r: nat, u: User)
    requires IsRun(EMPTY, events) && Unbroken(EMPTY, events) && Live(Run(EMPTY, events), r, u)
    requires forall p: nat :: !WillRevoke(Run(EMPTY, events), p, u)
    ensures var g := Run(EMPTY, events);
            && OriginsFit(g) && TokenLatest(g, g.records[r].token)
            && u in g.accounts && (Accepts(g, g.records[r].token) <==> g.accounts[u].active)
  {
    var g := Run(EMPTY, events);
    AlwaysFreshExactly(EMPTY, events);
    EveryRun(events);
    LiveIsLatest(g, r, u);
    OwnToken(g, r, u);
    AcceptedExactlyFromLatestLogin(g, g.records[r].token);
    hide Run, OriginsFit, VersionsIncrease, BumpsUsedOnce;
  }

  // A simpler condition that is enough.

  /** No two calls of a user are under way. */
  ghost predicate OneAtATime(g: Auth) {
    forall p: nat, q: nat, u | UnderWay(g, p, u) && UnderWay(g, q, u) :: p == q
  }

  /** A refresh matches the record of the token presented, and no call fails between minting and revoking. */
  predicate Orderly(g: Auth, e: Event)
    requires Enabled(g, e)
  {
    match e
    case FindToken(p, r) => g.records[r].token == g.processes[p].token
    case Throw(p) => !g.processes[p].Minting? && !g.processes[p].Signed?
    case _ => true
  }

  lemma OrderlyDoesNotBreak(g: Auth, e: Event)
    requires Fresh(g) && Enabled(g, e) && OneAtATime(Step(g, e)) && Orderly(g, e)
    ensures !Breaks(g, e)
  {
    match e
    case IncrementVersion(p) => BumpsAlone(g, e);
    case FindToken(p, r) => FindsAlone(g, e);
    case _ =>
  }

  lemma BumpsAlone(g: Auth, e: Event)
    requires Named(g) && Enabled(g, e) && OneAtATime(Step(g, e)) && e.IncrementVersion?
    ensures forall q: nat :: !UnderWay(g, q, g.processes[e.process].user)
  {
    var u := g.processes[e.process].user;
    BumpingCall(g, e, u);
    forall q: nat ensures !UnderWay(g, q, u) {
      if q != e.process {
        UnmovedCalls(g, e, q, u);
      }
    }
  }

  lemma FindsAlone(g: Auth, e: Event)
    requires Fresh(g) && Enabled(g, e) && OneAtATime(Step(g, e)) && Orderly(g, e) && e.FindToken?
    ensures TokenLatest(g, g.processes[e.process].token)
  {
    var u := g.records[e.record].user;
    assert UnderWay(Step(g, e), e.process, u);
    forall q: nat ensures !WillRevoke(g, q, u) {
      if q != e.process {
        UnmovedCalls(g, e, q, u);
      }
    }
    LiveIsLatest(g, e.record, u);
  }

  /** Every event of the run is orderly, and no two calls of a user are ever under way at once. */
  ghost predicate OrderlyRun(g: Auth, events: seq<Event>)
    requires IsRun(g, events)
    decreases |events|
  {
    events == [] ||
    (&& Orderly(g, events[0]) && OneAtATime(Step(g, events[0])) && OrderlyRun(Step(g, events[0]), events[1..]))
  }

  lemma {:induction false} OrderlyRunsAreUnbroken(g: Auth, events: seq<Event>)
    requires Fresh(g) && IsRun(g, events) && OrderlyRun(g, events)
    ensures Unbroken(g, events)
    decreases |events|
  {
    if events != [] {
      OrderlyDoesNotBreak(g, events[0]);
      FreshKept(g, events[0]);
      hide Fresh, Breaks, Step, Enabled, Orderly, OneAtATime;
      OrderlyRunsAreUnbroken(Step(g, events[0]), events[1..]);
    }
  }

  // Breaking steps happen.

  /** A login that fails after its version bump leaves the earlier record, which nothing accepts any more. */
  lemma FailedLoginStrandsSession(u: User)
    ensures var events := FirstLogin(u) + [Login(u), IncrementVersion(1), Throw(1)];
            && IsRun(EMPTY, events)
            && var g := Run(EMPTY, events);
               && Live(g, 0, u) && g.processes == [Returned(0), Failed] && g.records[0].token < |g.tokens|
               && g.accounts == map[u := Account(3, true)] && !Accepts(g, g.records[0].token)
  {
    hide RunsTo, FirstLogin;
    FirstLoginRuns(u);
    var s0 := LoggedIn(u);
    var e1, e2, e3 := Login(u), IncrementVersion(1), Throw(1);
    var s1 := Step(s0, e1);
    var s2 := Step(s1, e2);
    var s3 := Step(s2, e3);
    Nothing(s0);
    Then(s0, [], s0, e1, [e1]);
    Then(s0, [e1], s1, e2, [e1, e2]);
    Then(s0, [e1, e2], s2, e3, [e1, e2, e3]);
    Join(EMPTY, FirstLogin(u), s0, [e1, e2, e3], s3);
    assert s3.accounts[u].version == 3 && s3.tokens[0].version == 2;
    RunOf(EMPTY, FirstLogin(u) + [e1, e2, e3], s3);
  }

  lemma RunOf(g: Auth, events: seq<Event>, g': Auth)
    requires RunsTo(g, events, g')
    ensures IsRun(g, events) && Run(g, events) == g'
  {
  }

  /** A refresh that found its record before a login goes on after it. */
  function OvertakenLogin(u: User): (events: seq<Event>)
    ensures |events| == 12
  {
    [Refresh(0), FindToken(1, 0), Login(u), IncrementVersion(2), Sign(2), RevokePrevious(2), CreateRecord(2),
     SaveRevoked(1), FindUser(1), Sign(1), RevokePrevious(1), CreateRecord(1)]
  }

  lemma LoginCompletes(u: User) returns (g: Auth)
    ensures RunsTo(LoggedIn(u), OvertakenLogin(u)[..7], g)
    ensures g.records == [Record(u, 0, true), Record(u, 1, false)] && g.accounts == map[u := Account(3, true)]
    ensures g.processes == [Returned(0), Found(0, 0), Returned(1)]
    ensures g.tokens == [Token(u, 2, AtLogin(0)), Token(u, 3, AtLogin(1))]
  {
    hide RunsTo;
    var s0 := LoggedIn(u);
    var es := OvertakenLogin(u);
    var s1 := Step(s0, es[0]);
    var s2 := Step(s1, es[1]);
    var s3 := Step(s2, es[2]);
    var s4 := Step(s3, es[3]);
    var s5 := Step(s4, es[4]);
    var s6 := Step(s5, es[5]);
    g := Step(s6, es[6]);
    Nothing(s0);
    Then(s0, [], s0, es[0], es[..1]);
    Then(s0, es[..1], s1, es[1], es[..2]);
    Then(s0, es[..2], s2, es[2], es[..3]);
    Then(s0, es[..3], s3, es[3], es[..4]);
    Then(s0, es[..4], s4, es[4], es[..5]);
    Then(s0, es[..5], s5, es[5], es[..6]);
    Then(s0, es[..6], s6, es[6], es[..7]);
  }

  lemma RefreshOvertakes(u: User) returns (g: Auth)
    ensures RunsTo(LoggedIn(u), OvertakenLogin(u), g)
    ensures g.records == [Record(u, 0, true), Record(u, 1, true), Record(u, 2, false)]
    ensures g.accounts == map[u := Account(3, true)] && |g.tokens| == 3 && g.tokens[2] == Token(u, 2, ByRefresh(0))
  {
    var es := OvertakenLogin(u);
    var s7 := LoginCompletes(u);
    hide RunsTo, LoggedIn;
    var s8 := Step(s7, es[7]);
    var s9 := Step(s8, es[8]);
    var s10 := Step(s9, es[9]);
    var s11 := Step(s10, es[10]);
    g := Step(s11, es[11]);
    Then(LoggedIn(u), es[..7], s7, es[7], es[..8]);
    Then(LoggedIn(u), es[..8], s8, es[8], es[..9]);
    Then(LoggedIn(u), es[..9], s9, es[9], es[..10]);
    Then(LoggedIn(u), es[..10], s10, es[10], es[..11]);
    Then(LoggedIn(u), es[..11], s11, es[11], es);
  }

  /** Then the only live record is of the earlier login, and the latest login has none. */
  lemma OvertakenLoginLosesItsRecord(u: User)
    ensures var events := FirstLogin(u) + OvertakenLogin(u);
            && IsRun(EMPTY, events)
            && var g := Run(EMPTY, events);
               && Live(g, 2, u) && (forall r: nat | Live(g, r, u) :: r == 2) && g.records[2].token < |g.tokens|
               && g.accounts == map[u := Account(3, true)] && !Accepts(g, g.records[2].token)
  {
    hide RunsTo, FirstLogin, OvertakenLogin, LoggedIn;
    FirstLoginRuns(u);
    var g := RefreshOvertakes(u);
    Join(EMPTY, FirstLogin(u), LoggedIn(u), OvertakenLogin(u), g);
    RunOf(EMPTY, FirstLogin(u) + OvertakenLogin(u), g);
  }
}
