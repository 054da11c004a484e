/** Runs from nothing in which overlapping calls of one user go wrong. */
module SessionRuns {
  import opened Sessions
  import opened SessionRecords

  ghost predicate RunsTo(g: Auth, events: seq<Event>, g': Auth) {
    IsRun(g, events) && Run(g, events) == g'
  }

  lemma Nothing(g: Auth)
    ensures RunsTo(g, [], g)
  {
  }

  lemma {:induction false} Join(g: Auth, x: seq<Event>, g1: Auth, y: seq<Event>, g2: Auth)
    requires RunsTo(g, x, g1) && RunsTo(g1, y, g2)
    ensures RunsTo(g, x + y, g2)
    decreases |x|
  {
    hide Step, Enabled;
    if x == [] {
      assert x + y == y;
    } else {
      Join(Step(g, x[0]), x[1..], g1, y, g2);
      assert (x + y)[0] == x[0] && (x + y)[1..] == x[1..] + y;
    }
  }

  /** A run made longer by one event. */
  lemma Then(g: Auth, events: seq<Event>, g1: Auth, e: Event, longer: seq<Event>)
    requires RunsTo(g, events, g1) && Enabled(g1, e) && longer == events + [e]
    ensures RunsTo(g, longer, Step(g1, e))
  {
    hide Step, Enabled;
    RunCons(g1, e, []);
    assert [e] + [] == [e];
    assert RunsTo(g1, [e], Step(g1, e));
    Join(g, events, g1, [e], Step(g1, e));
  }

  /** A new user and a whole login by the first process. */
  function FirstLogin(u: User): seq<Event> {
    [CreateUser(u), Login(u), IncrementVersion(0), Sign(0), RevokePrevious(0), CreateRecord(0)]
  }

  function LoggedIn(u: User): Auth {
    Auth(map[u := Account(2, true)], [Record(u, 0, false)], [Token(u, 2, AtLogin(0))], [Bump(u, 2)], [Returned(0)], [])
  }

  function Bumped(u: User): Auth {
    Auth(map[u := Account(2, true)], [], [], [Bump(u, 2)], [Minting(u, 2, AtLogin(0))], [])
  }

  lemma StepsToBumped(u: User) returns (s1: Auth, s2: Auth)
    ensures Enabled(EMPTY, CreateUser(u)) && s1 == Step(EMPTY, CreateUser(u))
    ensures Enabled(s1, Login(u)) && s2 == Step(s1, Login(u))
    ensures Enabled(s2, IncrementVersion(0)) && Step(s2, IncrementVersion(0)) == Bumped(u)
  {
    s1 := Step(EMPTY, CreateUser(u));
    s2 := Step(s1, Login(u));
    assert s2.processes == [LoginChecked(u)];
  }

  lemma StepsToLoggedIn(u: User) returns (s4: Auth, s5: Auth)
    ensures Enabled(Bumped(u), Sign(0)) && s4 == Step(Bumped(u), Sign(0))
    ensures Enabled(s4, RevokePrevious(0)) && s5 == Step(s4, RevokePrevious(0))
    ensures Enabled(s5, CreateRecord(0)) && Step(s5, CreateRecord(0)) == LoggedIn(u)
  {
    s4 := Step(Bumped(u), Sign(0));
    s5 := Step(s4, RevokePrevious(0));
    assert s5.records == [];
  }

  lemma FirstLoginRuns(u: User)
    ensures RunsTo(EMPTY, FirstLogin(u), LoggedIn(u))
  {
    hide RunsTo, Step, Enabled, LoggedIn, Bumped;
    var e1, e2, e3, e4, e5, e6 := CreateUser(u), Login(u), IncrementVersion(0), Sign(0), RevokePrevious(0),
        CreateRecord(0);
    var s1, s2 := StepsToBumped(u);
    var s4, s5 := StepsToLoggedIn(u);
    Nothing(EMPTY);
    Then(EMPTY, [], EMPTY, e1, [e1]);
    Then(EMPTY, [e1], s1, e2, [e1, e2]);
    Then(EMPTY, [e1, e2], s2, e3, [e1, e2, e3]);
    Then(EMPTY, [e1, e2, e3], Bumped(u), e4, [e1, e2, e3, e4]);
    Then(EMPTY, [e1, e2, e3, e4], s4, e5, [e1, e2, e3, e4, e5]);
    Then(EMPTY, [e1, e2, e3, e4, e5], s5, e6, FirstLogin(u));
  }

  /** A second login of the user, by the second process. */
  function SecondLogin(u: User): (events: seq<Event>)
    ensures |events| == 5
  {
    [Login(u), IncrementVersion(1), Sign(1), RevokePrevious(1), CreateRecord(1)]
  }

  function LoggedInTwice(u: User): Auth {
    Auth(map[u := Account(3, true)], [Record(u, 0, true), Record(u, 1, false)],
         [Token(u, 2, AtLogin(0)), Token(u, 3, AtLogin(1))], [Bump(u, 2), Bump(u, 3)], [Returned(0), Returned(1)], [])
  }

  lemma SecondLoginRuns(u: User)
    ensures RunsTo(LoggedIn(u), SecondLogin(u), LoggedInTwice(u))
  {
    hide RunsTo;
    var s0 := LoggedIn(u);
    var es := SecondLogin(u);
    var s1 := Step(s0, es[0]);
    var s2 := Step(s1, es[1]);
    var s3 := Step(s2, es[2]);
    var s4 := Step(s3, es[3]);
    var s5 := Step(s4, es[4]);
    Nothing(s0);
    Then(s0, [], s0, es[0], es[..1]);
    Then(s0, es[..1], s1, es[1], es[..2]);
    Then(s0, es[..2], s2, es[2], es[..3]);
    Then(s0, es[..3], s3, es[3], es[..4]);
    Then(s0, es[..4], s4, es[4], es[..5]);
    assert es[..5] == es && s5.accounts == map[u := Account(3, true)];
    var after := LoggedInTwice(u);
    assert s5.records == after.records && s5.tokens == after.tokens && s5.bumps == after.bumps;
    assert s5.processes == after.processes && s5.spent == after.spent;
  }

  lemma TwoLoginsRun(u: User)
    ensures RunsTo(EMPTY, FirstLogin(u) + SecondLogin(u), LoggedInTwice(u))
    ensures forall e | e in FirstLogin(u) + SecondLogin(u) :: !e.Refresh?
  {
    FirstLoginRuns(u);
    SecondLoginRuns(u);
    hide RunsTo, LoggedIn, LoggedInTwice;
    Join(EMPTY, FirstLogin(u), LoggedIn(u), SecondLogin(u), LoggedInTwice(u));
  }

  // One refresh token, two refreshes.

  /** Two refreshes with the same token that both find its record before either saves it. */
  function TwiceFound(): (events: seq<Event>)
    ensures |events| == 6
  {
    [Refresh(0), Refresh(0), FindToken(1, 0), FindToken(2, 0), SaveRevoked(1), SaveRevoked(2)]
  }

  lemma TwiceFoundRuns(u: User) returns (g: Auth, g': Auth)
    ensures RunsTo(LoggedIn(u), TwiceFound()[..4], g) && AboutToSpend(g, 1, 0) && AboutToSpend(g, 2, 0)
    ensures RunsTo(LoggedIn(u), TwiceFound(), g') && g'.spent == [0, 0]
  {
    hide RunsTo;
    var s0 := LoggedIn(u);
    var e1, e2, e3, e4, e5 := Refresh(0), FindToken(1, 0), FindToken(2, 0), SaveRevoked(1), SaveRevoked(2);
    var s1 := Step(s0, e1);
    var s2 := Step(s1, e1);
    var s3 := Step(s2, e2);
    g := Step(s3, e3);
    var s5 := Step(g, e4);
    g' := Step(s5, e5);
    Nothing(s0);
    Then(s0, [], s0, e1, [e1]);
    Then(s0, [e1], s1, e1, [e1, e1]);
    Then(s0, [e1, e1], s2, e2, [e1, e1, e2]);
    Then(s0, [e1, e1, e2], s3, e3, TwiceFound()[..4]);
    Then(s0, TwiceFound()[..4], g, e4, TwiceFound()[..5]);
    Then(s0, TwiceFound()[..5], s5, e5, TwiceFound());
  }

  /** So from nothing, one stored refresh token can be traded in twice. */
  lemma OneTokenTradedTwice(u: User)
    ensures var found := FirstLogin(u) + TwiceFound()[..4];
            IsRun(EMPTY, found) && AboutToSpend(Run(EMPTY, found), 1, 0) && AboutToSpend(Run(EMPTY, found), 2, 0)
    ensures var events := FirstLogin(u) + TwiceFound();
            IsRun(EMPTY, events) && Run(EMPTY, events).spent == [0, 0] && !SpentOnce(Run(EMPTY, events))
  {
    FirstLoginRuns(u);
    var g, g' := TwiceFoundRuns(u);
    hide FirstLogin, TwiceFound, LoggedIn, IsRun, Run, AboutToSpend;
    Join(EMPTY, FirstLogin(u), LoggedIn(u), TwiceFound()[..4], g);
    Join(EMPTY, FirstLogin(u), LoggedIn(u), TwiceFound(), g');
    assert g'.spent[0] == g'.spent[1];
  }

  // Two overlapping logins.

  /** A second and a third login of the user that both revoke before either stores. */
  function OverlappingLogins(u: User): seq<Event> {
    [Login(u), Login(u), IncrementVersion(1), IncrementVersion(2), Sign(1), Sign(2),
     RevokePrevious(1), RevokePrevious(2), CreateRecord(1), CreateRecord(2)]
  }

  lemma BothSign(u: User) returns (g: Auth)
    ensures RunsTo(LoggedIn(u), OverlappingLogins(u)[..6], g)
    ensures g.records == [Record(u, 0, false)] && |g.tokens| == 3 && g.tokens[1].user == g.tokens[2].user == u
    ensures g.processes == [Returned(0), Signed(1), Signed(2)] && g.tokens[0].user == u
  {
    hide RunsTo;
    var s0 := LoggedIn(u);
    var es := OverlappingLogins(u);
    var s1 := Step(s0, es[0]);
    var s2 := Step(s1, es[1]);
    var s3 := Step(s2, es[2]);
    var s4 := Step(s3, es[3]);
    var s5 := Step(s4, es[4]);
    g := Step(s5, es[5]);
    Nothing(s0);
    Then(s0, [], s0, es[0], es[..1]);
    Then(s0, es[..1], s1, es[1], es[..2]);
    Then(s0, es[..2], s2, es[2], es[..3]);
    Then(s0, es[..3], s3, es[3], es[..4]);
    Then(s0, es[..4], s4, es[4], es[..5]);
    Then(s0, es[..5], s5, es[5], es[..6]);
  }

  lemma BothStore(u: User) returns (g: Auth)
    ensures RunsTo(LoggedIn(u), OverlappingLogins(u), g)
    ensures |g.records| == 3 && g.records[1] == Record(u, 1, false) && g.records[2] == Record(u, 2, false)
  {
    var es := OverlappingLogins(u);
    var s6 := BothSign(u);
    hide RunsTo, LoggedIn;
    var s7 := Step(s6, es[6]);
    var s8 := Step(s7, es[7]);
    var s9 := Step(s8, es[8]);
    g := Step(s9, es[9]);
    Then(LoggedIn(u), es[..6], s6, es[6], es[..7]);
    Then(LoggedIn(u), es[..7], s7, es[7], es[..8]);
    Then(LoggedIn(u), es[..8], s8, es[8], es[..9]);
    Then(LoggedIn(u), es[..9], s9, es[9], es);
  }

  /** So from nothing, two sessions of a user can hold live records at once. */
  lemma OverlappingLoginsLeaveTwoLiveRecords(u: User)
    ensures var events := FirstLogin(u) + OverlappingLogins(u);
            IsRun(EMPTY, events) && !OneLiveRecord(Run(EMPTY, events))
  {
    FirstLoginRuns(u);
    var g := BothStore(u);
    hide FirstLogin, OverlappingLogins, LoggedIn, IsRun, Run;
    Join(EMPTY, FirstLogin(u), LoggedIn(u), OverlappingLogins(u), g);
    assert Live(g, 1, u) && Live(g, 2, u);
  }
}
