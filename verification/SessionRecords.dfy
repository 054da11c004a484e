/**
  The stored refresh token records over all interleavings: how many of a user's are live, how often one is traded in,
  and which login the live one belongs to.
*/
module SessionRecords {
  import opened Sessions

  // Stored refresh tokens: "only one active session at a time".

  predicate Live(g: Auth, r: nat, u: User) {
    r < |g.records| && g.records[r].user == u && !g.records[r].revoked
  }

  ghost predicate OneLiveRecord(g: Auth) {
    forall r: nat, s: nat, u | Live(g, r, u) && Live(g, s, u) :: r == s
  }

  /** Processes name tokens that were signed and records that are stored. */
  ghost predicate InRange(g: Auth) {
    forall p | 0 <= p < |g.processes| ::
      && (g.processes[p].Signed? || g.processes[p].Cleared? ==> g.processes[p].token < |g.tokens|)
      && (g.processes[p].Found? ==> g.processes[p].record < |g.records|)
  }

  lemma InRangePreserved(g: Auth, e: Event)
    requires InRange(g) && Enabled(g, e)
    ensures InRange(Step(g, e))
  {
  }

  /** Process p has revoked the earlier records of user u and not stored its own yet. */
  predicate AboutToStore(g: Auth, p: nat, u: User) {
    && p < |g.processes| && g.processes[p].Cleared? && g.processes[p].token < |g.tokens|
    && g.tokens[g.processes[p].token].user == u
  }

  /** No two calls of one user are between revoking and storing. */
  ghost predicate StoresApart(g: Auth) {
    forall p: nat, q: nat, u | AboutToStore(g, p, u) && AboutToStore(g, q, u) :: p == q
  }

  /** At most one live record per user, and none while a call of the user is about to store one. */
  ghost predicate OneSession(g: Auth) {
    InRange(g) && OneLiveRecord(g) && forall p: nat, r: nat, u | AboutToStore(g, p, u) :: !Live(g, r, u)
  }

  /** What a step does to the calls about to store. */
  lemma AboutToStoreAfter(g: Auth, e: Event, p: nat, u: User)
    requires InRange(g) && Enabled(g, e) && AboutToStore(Step(g, e), p, u)
    ensures AboutToStore(g, p, u) || (e == RevokePrevious(p) && g.tokens[g.processes[p].token].user == u)
    ensures e.CreateRecord? ==> p != e.process
  {
  }

  /** What a step does to the live records. */
  lemma LiveAfter(g: Auth, e: Event, r: nat, u: User)
    requires Enabled(g, e) && Live(Step(g, e), r, u)
    ensures Live(g, r, u) || (e.CreateRecord? && AboutToStore(g, e.process, u) && r == |g.records|)
    ensures e.RevokePrevious? ==> g.tokens[g.processes[e.process].token].user != u
  {
  }

  /** As long as the calls of a user do not overlap there, a step keeps one session per user. */
  lemma OneSessionPreserved(g: Auth, e: Event)
    requires OneSession(g) && StoresApart(g) && Enabled(g, e)
    ensures OneSession(Step(g, e))
  {
    var g' := Step(g, e);
    InRangePreserved(g, e);
    hide Step, Enabled, AboutToStore, Live, InRange;
    forall r: nat, s: nat, u | Live(g', r, u) && Live(g', s, u) ensures r == s {
      LiveAfter(g, e, r, u);
      LiveAfter(g, e, s, u);
    }
    forall p: nat, r: nat, u | AboutToStore(g', p, u) ensures !Live(g', r, u) {
      if Live(g', r, u) {
        LiveAfter(g, e, r, u);
        AboutToStoreAfter(g, e, p, u);
      }
    }
  }

  /** In no state of the run, its start included, do two calls of one user overlap between revoking and storing. */
  ghost predicate AlwaysStoresApart(g: Auth, events: seq<Event>)
    requires IsRun(g, events)
    decreases |events|
  {
    StoresApart(g) && (events == [] || AlwaysStoresApart(Step(g, events[0]), events[1..]))
  }

  /** Then "only one active session at a time" holds of the stored records, in the whole run. */
  lemma {:induction false} OneSessionInEveryRun(g: Auth, events: seq<Event>)
    requires OneSession(g) && IsRun(g, events) && AlwaysStoresApart(g, events)
    ensures OneSession(Run(g, events))
    decreases |events|
  {
    if events != [] {
      OneSessionPreserved(g, events[0]);
      hide OneSession, StoresApart, Step, Enabled;
      OneSessionInEveryRun(Step(g, events[0]), events[1..]);
    }
  }

  /** Calls that are about to store do so; nothing else happens. */
  predicate OnlyStores(events: seq<Event>) {
    forall i | 0 <= i < |events| :: events[i].CreateRecord?
  }

  lemma StoringKeepsApart(g: Auth, e: Event)
    requires InRange(g) && StoresApart(g) && Enabled(g, e) && e.CreateRecord?
    ensures StoresApart(Step(g, e))
  {
    var g' := Step(g, e);
    hide Step, Enabled, AboutToStore, InRange;
    forall p: nat, q: nat, u | AboutToStore(g', p, u) && AboutToStore(g', q, u) ensures p == q {
      AboutToStoreAfter(g, e, p, u);
      AboutToStoreAfter(g, e, q, u);
    }
  }

  lemma {:induction false} StoringApart(g: Auth, events: seq<Event>)
    requires OneSession(g) && StoresApart(g) && IsRun(g, events) && OnlyStores(events)
    ensures OneSession(Run(g, events))
    decreases |events|
  {
    if events != [] {
      assert events[0].CreateRecord?;
      OneSessionPreserved(g, events[0]);
      StoringKeepsApart(g, events[0]);
      hide OneSession, StoresApart, Step, Enabled;
      StoringApart(Step(g, events[0]), events[1..]);
    }
  }

  lemma BothStoring(g: Auth, p: nat, q: nat, u: User)
    requires AboutToStore(g, p, u) && AboutToStore(g, q, u) && p != q
    ensures var events := [CreateRecord(p)] + ([CreateRecord(q)] + []);
            IsRun(g, events) && OnlyStores(events) && !OneLiveRecord(Run(g, events))
  {
    var g1 := Step(g, CreateRecord(p));
    var g2 := Step(g1, CreateRecord(q));
    assert Live(g2, |g.records|, u) && Live(g2, |g.records| + 1, u);
    RunCons(g1, CreateRecord(q), []);
    RunCons(g, CreateRecord(p), [CreateRecord(q)] + []);
  }

  /** However the calls that are about to store finish, each user has one live record. */
  ghost predicate FinishesWithOne(g: Auth) {
    forall events | IsRun(g, events) && OnlyStores(events) :: OneLiveRecord(Run(g, events))
  }

  /** From one session per user, storing what has been prepared keeps it exactly when no two calls of a user overlap. */
  lemma OverlapBreaksExactly(g: Auth)
    requires OneSession(g)
    ensures FinishesWithOne(g) <==> StoresApart(g)
  {
    hide OneLiveRecord;
    if StoresApart(g) {
      forall events | IsRun(g, events) && OnlyStores(events) ensures OneLiveRecord(Run(g, events)) {
        StoringApart(g, events);
      }
    } else {
      var p: nat, q: nat, u :| AboutToStore(g, p, u) && AboutToStore(g, q, u) && p != q;
      BothStoring(g, p, q, u);
    }
  }

  // Stored refresh tokens: traded in once.

  ghost predicate SpentOnce(g: Auth) {
    forall i, j | 0 <= i < j < |g.spent| :: g.spent[i] != g.spent[j]
  }

  /** Process p has found record r live and not saved it as revoked yet. */
  predicate AboutToSpend(g: Auth, p: nat, r: nat) {
    p < |g.processes| && g.processes[p].Found? && g.processes[p].record == r && r < |g.records|
  }

  /** No two refreshes hold the same record between finding and saving it. */
  ghost predicate SpendsApart(g: Auth) {
    forall p: nat, q: nat, r: nat | AboutToSpend(g, p, r) && AboutToSpend(g, q, r) :: p == q
  }

  /** Records are traded in once, are revoked then, and are not about to be traded in again. */
  ghost predicate TradedOnce(g: Auth) {
    && InRange(g) && SpentOnce(g)
    && (forall i | 0 <= i < |g.spent| :: g.spent[i] < |g.records| && g.records[g.spent[i]].revoked)
    && (forall p: nat, r: nat | AboutToSpend(g, p, r) :: r !in g.spent)
  }

  lemma TradedOncePreserved(g: Auth, e: Event)
    requires TradedOnce(g) && SpendsApart(g) && Enabled(g, e)
    ensures TradedOnce(Step(g, e))
  {
    var g' := Step(g, e);
    forall p: nat, r: nat | AboutToSpend(g', p, r) ensures r !in g'.spent {
      AboutToSpendAfter(g, e, p, r);
    }
    SpentAfter(g, e);
    InRangePreserved(g, e);
    hide Step, Enabled, AboutToSpend;
  }

  lemma AboutToSpendAfter(g: Auth, e: Event, p: nat, r: nat)
    requires TradedOnce(g) && SpendsApart(g) && Enabled(g, e) && AboutToSpend(Step(g, e), p, r)
    ensures r !in Step(g, e).spent
  {
    if !AboutToSpend(g, p, r) {
      assert e == FindToken(p, r);
      assert !g.records[r].revoked;
    }
    if e.SaveRevoked? {
      assert AboutToSpend(g, e.process, g.processes[e.process].record);
    }
  }

  lemma SpentAfter(g: Auth, e: Event)
    requires TradedOnce(g) && Enabled(g, e)
    ensures var g' := Step(g, e);
            && SpentOnce(g')
            && forall i | 0 <= i < |g'.spent| :: g'.spent[i] < |g'.records| && g'.records[g'.spent[i]].revoked
  {
    if e.SaveRevoked? {
      assert AboutToSpend(g, e.process, g.processes[e.process].record);
    }
  }

  /** In no state of the run do two refreshes hold the same record. */
  ghost predicate AlwaysSpendsApart(g: Auth, events: seq<Event>)
    requires IsRun(g, events)
    decreases |events|
  {
    SpendsApart(g) && (events == [] || AlwaysSpendsApart(Step(g, events[0]), events[1..]))
  }

  lemma {:induction false} SpentOnceInEveryRun(g: Auth, events: seq<Event>)
    requires TradedOnce(g) && IsRun(g, events) && AlwaysSpendsApart(g, events)
    ensures TradedOnce(Run(g, events))
    decreases |events|
  {
    if events != [] {
      TradedOncePreserved(g, events[0]);
      hide TradedOnce, SpendsApart, Step, Enabled;
      SpentOnceInEveryRun(Step(g, events[0]), events[1..]);
    }
  }

  /** Two refreshes that hold the same record both trade it in. */
  lemma BothSpend(g: Auth, p: nat, q: nat, r: nat)
    requires AboutToSpend(g, p, r) && AboutToSpend(g, q, r) && p != q
    ensures var events := [SaveRevoked(p)] + ([SaveRevoked(q)] + []);
            IsRun(g, events) && !SpentOnce(Run(g, events))
  {
    var g1 := Step(g, SaveRevoked(p));
    var g2 := Step(g1, SaveRevoked(q));
    assert g2.spent[|g.spent|] == r && g2.spent[|g.spent| + 1] == r;
    RunCons(g1, SaveRevoked(q), []);
    RunCons(g, SaveRevoked(p), [SaveRevoked(q)] + []);
  }

  predicate OnlySaves(events: seq<Event>) {
    forall i | 0 <= i < |events| :: events[i].SaveRevoked?
  }

  lemma SavingKeepsApart(g: Auth, e: Event)
    requires SpendsApart(g) && Enabled(g, e) && e.SaveRevoked?
    ensures SpendsApart(Step(g, e))
  {
    var g' := Step(g, e);
    forall p: nat, q: nat, r: nat | AboutToSpend(g', p, r) && AboutToSpend(g', q, r) ensures p == q {
      assert AboutToSpend(g, p, r) && AboutToSpend(g, q, r);
    }
  }

  lemma {:induction false} SavingApart(g: Auth, events: seq<Event>)
    requires TradedOnce(g) && SpendsApart(g) && IsRun(g, events) && OnlySaves(events)
    ensures TradedOnce(Run(g, events))
    decreases |events|
  {
    if events != [] {
      assert events[0].SaveRevoked?;
      TradedOncePreserved(g, events[0]);
      SavingKeepsApart(g, events[0]);
      hide TradedOnce, SpendsApart, Step, Enabled;
      SavingApart(Step(g, events[0]), events[1..]);
    }
  }

  /** However the refreshes that have found a record finish saving it, no record is traded in twice. */
  ghost predicate SavesOnce(g: Auth) {
    forall events | IsRun(g, events) && OnlySaves(events) :: SpentOnce(Run(g, events))
  }

  /** A stored token mints once exactly as long as no two refreshes hold its record between finding and saving it. */
  lemma SharedRecordSpendsTwiceExactly(g: Auth)
    requires TradedOnce(g)
    ensures SavesOnce(g) <==> SpendsApart(g)
  {
    hide SpentOnce;
    if SpendsApart(g) {
      forall events | IsRun(g, events) && OnlySaves(events) ensures SpentOnce(Run(g, events)) {
        SavingApart(g, events);
      }
    } else {
      var p: nat, q: nat, r: nat :| AboutToSpend(g, p, r) && AboutToSpend(g, q, r) && p != q;
      BothSpend(g, p, q, r);
      assert OnlySaves([SaveRevoked(p)] + ([SaveRevoked(q)] + []));
    }
  }

  lemma StartsTidy()
    ensures OneSession(EMPTY) && TradedOnce(EMPTY)
  {
  }

  /** From nothing, only calls that overlap at those two places leave two live records or trade one in twice. */
  lemma OnlyOverlapsLeaveTwo(events: seq<Event>)
    requires IsRun(EMPTY, events)
    ensures !OneLiveRecord(Run(EMPTY, events)) ==> !AlwaysStoresApart(EMPTY, events)
    ensures !SpentOnce(Run(EMPTY, events)) ==> !AlwaysSpendsApart(EMPTY, events)
  {
    StartsTidy();
    if AlwaysStoresApart(EMPTY, events) {
      OneSessionInEveryRun(EMPTY, events);
    }
    if AlwaysSpendsApart(EMPTY, events) {
      SpentOnceInEveryRun(EMPTY, events);
    }
    hide Run, AlwaysStoresApart, AlwaysSpendsApart;
  }
}
