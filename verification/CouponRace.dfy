/**
  Subscribe calls with coupon codes that interleave at every await with each other and with whole ledger operations:
  the guard, the coupon's read and its increment, and the insert that may meet a duplicate key. The admin's calls are
  among the whole operations, so what is lost here is lost by subscribe calls.
*/
module CouponRace {
  import opened Prelude
  import opened Ledger
  import opened CouponLoss
  import Coupons
  import LedgerTheorems
  import Months

  /** The requests of the calls, in the order of the coupon's calls. */
  datatype Race = Race(now: nat, site: Site, requests: seq<Request>)

  datatype Event =
    | Advance(now: nat)
    | Check(request: Request)                       // the guard, the plan and the devices pass
    | Read(call: nat)
    | Increment(call: nat)
    | Insert(call: nat)                             // from cancelling the others to the payment record
    | Break(call: nat)                              // the call throws for some other reason
    | Other(operation: LedgerTheorems.Operation)

  predicate Valid(r: Request, prices: Prices) {
    r.plan in prices && r.devices.Devices? && r.devices.count >= 1
  }

  predicate Enabled(prices: Prices, j: Race, e: Event)
    requires PricesFit(prices)
  {
    match e
    case Advance(now) => now >= j.now && now >= j.site.shop.now
    case Check(r) => Valid(r, prices) && ReachesCoupon(j.site.books, j.now, r, prices)
    case Read(p) => Coupons.Enabled(j.site.shop, Coupons.Read(p))
    case Increment(p) => Coupons.Enabled(j.site.shop, Coupons.Increment(p))
    case Insert(p) =>
      p < |j.site.shop.calls| && j.site.shop.calls[p].stage.Applied? && p < |j.requests| && Valid(j.requests[p], prices)
    case Break(p) => Coupons.Enabled(j.site.shop, Coupons.Fail(p))
    case Other(_) => true
  }

  /** The new subscription, with the discount that the call's coupon gave. */
  function ToInsert(now: nat, r: Request, prices: Prices, discount: real): (s: Subscription)
    requires Valid(r, prices) && PricesFit(prices)
    ensures s.status == Active && s.user == r.user
  {
    var base := Base(r, prices);
    Subscription(r.user, r.plan, Active, now, Months.ExtendBy(now, Duration(r)), r.devices.count,
                 base, discount, Coupons.Max(0.0, base - discount))
  }

  /** What the insert of call p does to the books. */
  function Inserted(prices: Prices, j: Race, p: nat): (Books, Outcome)
    requires PricesFit(prices) && Enabled(prices, j, Insert(p))
  {
    var r := j.requests[p];
    Store(CancelOthers(j.site.books, r.user), ToInsert(j.now, r, prices, j.site.shop.calls[p].stage.discount))
  }

  function Step(prices: Prices, j: Race, e: Event): Race
    requires PricesFit(prices) && Enabled(prices, j, e)
  {
    var shop := j.site.shop;
    match e
    case Advance(now) => j.(now := now, site := j.site.(shop := shop.(now := now)))
    case Check(r) =>
      j.(site := j.site.(shop := Coupons.Step(shop, Coupons.Begin(r.code, r.plan, Base(r, prices)))),
         requests := j.requests + [r])
    case Read(p) => j.(site := j.site.(shop := Coupons.Step(shop, Coupons.Read(p))))
    case Increment(p) => j.(site := j.site.(shop := Coupons.Step(shop, Coupons.Increment(p))))
    case Insert(p) =>
      var (books, outcome) := Inserted(prices, j, p);
      j.(site := Site(books, Coupons.Step(shop, if outcome.Success? then Coupons.Pay(p) else Coupons.Fail(p))))
    case Break(p) => j.(site := j.site.(shop := Coupons.Step(shop, Coupons.Fail(p))))
    case Other(op) => j.(site := j.site.(books := LedgerTheorems.Apply(j.site.books, op, j.now)))
  }

  predicate IsLost(j: Race, p: nat) {
    p < |j.site.shop.calls| && j.site.shop.calls[p].stage.Lost?
  }

  /** At its insert the user has an ACTIVE subscription, wherever that came from since the guard. */
  predicate MeetsActive(j: Race, p: nat) {
    p < |j.requests| && FindActive(j.site.books.subscriptions, j.requests[p].user).Some?
  }

  /**
    At the insert of a call, over whatever books there are by then: its use is lost exactly when the user has an ACTIVE
    subscription, which is exactly when the key is a duplicate, and exactly when no payment is stored.
  */
  lemma InsertLosesExactly(prices: Prices, j: Race, p: nat)
    requires PricesFit(prices) && Enabled(prices, j, Insert(p))
    ensures var j' := Step(prices, j, Insert(p));
            var (books, outcome) := Inserted(prices, j, p);
            && (IsLost(j', p) <==> MeetsActive(j, p))
            && (outcome == DuplicateKey <==> MeetsActive(j, p))
            && (books.payments == j.site.books.payments <==> MeetsActive(j, p))
            && (j'.site.shop.payments == j.site.shop.payments <==> MeetsActive(j, p))
  {
    hide FindActive, BaseAmount, Months.ExtendBy, Coupons.Max;
    CancelKeepsActive(j.site.books, j.requests[p].user);
  }

  /**
    Where the guard would still let the call pass, its insert does to the books what the whole operation does with the
    discount that the coupon gave.
  */
  lemma InsertIsSubscribe(prices: Prices, j: Race, p: nat, c: CouponAnswer)
    requires PricesFit(prices) && Enabled(prices, j, Insert(p)) && c.Accepted?
    requires ReachesCoupon(j.site.books, j.now, j.requests[p], prices)
    requires j.site.shop.calls[p].stage.discount
             == Coupons.Discount(c.discountType, c.value, Base(j.requests[p], prices))
    ensures Inserted(prices, j, p) == Answer(j.site.books, j.now, j.requests[p], prices, c)
  {
    hide FindActive, Store, CancelOthers, BaseAmount, Months.ExtendBy, Coupons.Max, Coupons.Discount;
  }

  /** Cancelling what is not ACTIVE neither hides nor makes an ACTIVE subscription. */
  lemma CancelKeepsActive(b: Books, u: User)
    ensures FindActive(CancelOthers(b, u).subscriptions, u).Some? <==> FindActive(b.subscriptions, u).Some?
    ensures CancelOthers(b, u).payments == b.payments
  {
    var existing := FindActive(b.subscriptions, u);
    var subs := CancelOthers(b, u).subscriptions;
    var after := FindActive(subs, u);
    hide FindActive;
    if existing.Some? {
      assert subs[existing.value] == b.subscriptions[existing.value];
    } else {
      assert after.Some? ==> b.subscriptions[after.value].user == u;
    }
  }

  /**
    In every interleaving, a call loses its use at exactly two steps: an insert that meets an ACTIVE subscription, or
    a break.
  */
  lemma UseLostExactlyAtInsert(prices: Prices, j: Race, e: Event, p: nat)
    requires PricesFit(prices) && Enabled(prices, j, e) && !IsLost(j, p)
    ensures IsLost(Step(prices, j, e), p) <==>
            || (e == Insert(p) && MeetsActive(j, p))
            || (e == Break(p) && j.site.shop.calls[p].stage.Applied?)
  {
    if e.Insert? {
      InsertMovesOne(prices, j, e.call, p);
      InsertLosesExactly(prices, j, e.call);
    } else {
      OtherStepsLose(prices, j, e, p);
    }
    hide Step, Enabled, MeetsActive, FindActive;
  }

  lemma InsertMovesOne(prices: Prices, j: Race, p: nat, q: nat)
    requires PricesFit(prices) && Enabled(prices, j, Insert(p))
    ensures p != q ==> IsLost(Step(prices, j, Insert(p)), q) == IsLost(j, q)
  {
    hide Store, CancelOthers, ToInsert, FindActive;
  }

  lemma OtherStepsLose(prices: Prices, j: Race, e: Event, p: nat)
    requires PricesFit(prices) && Enabled(prices, j, e) && !e.Insert? && !IsLost(j, p)
    ensures IsLost(Step(prices, j, e), p) <==> e == Break(p) && j.site.shop.calls[p].stage.Applied?
  {
    hide FindActive, LedgerTheorems.Apply, Base, ReachesCoupon, Coupons.Discount;
  }

  // Whole runs.

  ghost predicate IsRun(prices: Prices, j: Race, events: seq<Event>)
    requires PricesFit(prices)
    decreases |events|
  {
    events == [] || (Enabled(prices, j, events[0]) && IsRun(prices, Step(prices, j, events[0]), events[1..]))
  }

  function Run(prices: Prices, j: Race, events: seq<Event>): Race
    requires PricesFit(prices) && IsRun(prices, j, events)
    decreases |events|
  {
    if events == [] then j else Run(prices, Step(prices, j, events[0]), events[1..])
  }

  lemma RunCons(prices: Prices, j: Race, e: Event, rest: seq<Event>)
    requires PricesFit(prices) && Enabled(prices, j, e) && IsRun(prices, Step(prices, j, e), rest)
    ensures IsRun(prices, j, [e] + rest) && Run(prices, j, [e] + rest) == Run(prices, Step(prices, j, e), rest)
  {
    hide Step, Enabled;
    assert ([e] + rest)[1..] == rest;
  }

  // Two calls of a user who has no subscription at all.

  /** One user without a subscription, and one coupon. */
  function Fresh(now: nat, r: Request, c: Coupons.Coupon): Race {
    Race(now, Site(Books([], [], map[r.user := None]), Coupons.Shop(now, map[r.code := c], [], [])), [])
  }

  /** Both calls have incremented the coupon. */
  function BothApplied(now: nat, r: Request, prices: Prices, c: Coupons.Coupon): Race
    requires Valid(r, prices) && PricesFit(prices)
  {
    var base := Base(r, prices);
    var call := Coupons.Call(r.code, r.plan, base, Coupons.Applied(Coupons.Discount(c.discountType, c.discountValue,
        base)));
    Race(now, Site(Books([], [], map[r.user := None]),
                   Coupons.Shop(now, map[r.code := c.(usedCount := c.usedCount + 2)], [call, call], [])), [r, r])
  }

  predicate TwoUses(now: nat, r: Request, c: Coupons.Coupon) {
    Coupons.Usable(c, r.plan, now) && c.usedCount + 2 <= c.maxUsage
  }

  lemma BothCheckAndRead(now: nat, r: Request, prices: Prices, c: Coupons.Coupon)
      returns (j1: Race, j2: Race, j3: Race, j4: Race)
    requires PricesFit(prices) && Valid(r, prices) && TwoUses(now, r, c)
    ensures Enabled(prices, Fresh(now, r, c), Check(r)) && j1 == Step(prices, Fresh(now, r, c), Check(r))
    ensures Enabled(prices, j1, Check(r)) && j2 == Step(prices, j1, Check(r))
    ensures Enabled(prices, j2, Read(0)) && j3 == Step(prices, j2, Read(0))
    ensures Enabled(prices, j3, Read(1)) && j4 == Step(prices, j3, Read(1))
    ensures var read := Coupons.Call(r.code, r.plan, Base(r, prices), Coupons.Validated(c));
            j4 == Fresh(now, r, c).(requests := [r, r],
                    site := Fresh(now, r, c).site.(shop := Coupons.Shop(now, map[r.code := c], [read, read], [])))
  {
    hide Base;
    j1 := Step(prices, Fresh(now, r, c), Check(r));
    j2 := Step(prices, j1, Check(r));
    j3 := Step(prices, j2, Read(0));
    j4 := Step(prices, j3, Read(1));
    assert j4.requests == [r, r];
  }

  lemma BothIncrement(now: nat, r: Request, prices: Prices, c: Coupons.Coupon, j4: Race) returns (j5: Race)
    requires PricesFit(prices) && Valid(r, prices) && TwoUses(now, r, c)
    requires var read := Coupons.Call(r.code, r.plan, Base(r, prices), Coupons.Validated(c));
             j4 == Fresh(now, r, c).(requests := [r, r],
                     site := Fresh(now, r, c).site.(shop := Coupons.Shop(now, map[r.code := c], [read, read], [])))
    ensures Enabled(prices, j4, Increment(0)) && j5 == Step(prices, j4, Increment(0))
    ensures Enabled(prices, j5, Increment(1)) && Step(prices, j5, Increment(1)) == BothApplied(now, r, prices, c)
  {
    hide Base, Coupons.Discount;
    j5 := Step(prices, j4, Increment(0));
    var j6 := Step(prices, j5, Increment(1));
    assert j6.site.shop.coupons == map[r.code := c.(usedCount := c.usedCount + 2)];
    assert j6.site.shop.calls == BothApplied(now, r, prices, c).site.shop.calls;
  }

  lemma BothInsert(now: nat, r: Request, prices: Prices, c: Coupons.Coupon) returns (j7: Race)
    requires PricesFit(prices) && Valid(r, prices)
    ensures var j6 := BothApplied(now, r, prices, c);
            Enabled(prices, j6, Insert(0)) && j7 == Step(prices, j6, Insert(0)) && Enabled(prices, j7, Insert(1))
    ensures var j8 := Step(prices, j7, Insert(1));
            && |j8.site.books.payments| == |j8.site.shop.payments| == 1
            && j8.site.shop.coupons == map[r.code := c.(usedCount := c.usedCount + 2)]
            && IsLost(j8, 1) && !IsLost(j8, 0)
            && |j8.site.books.subscriptions| == 1
            && j8.site.books.subscriptions[0].endDate == Months.ExtendBy(now, Duration(r))
  {
    hide Base, Coupons.Discount, Months.ExtendBy, Coupons.Max, BaseAmount;
    var j6 := BothApplied(now, r, prices, c);
    InsertLosesExactly(prices, j6, 0);
    j7 := Step(prices, j6, Insert(0));
    InsertLosesExactly(prices, j7, 1);
  }

  function BothSubscribe(r: Request): seq<Event> {
    [Check(r), Check(r), Read(0), Read(1), Increment(0), Increment(1), Insert(0), Insert(1)]
  }

  lemma BothSubscribeRuns(now: nat, r: Request, prices: Prices, c: Coupons.Coupon) returns (j7: Race)
    requires PricesFit(prices) && Valid(r, prices) && TwoUses(now, r, c)
    ensures var j6 := BothApplied(now, r, prices, c);
            Enabled(prices, j6, Insert(0)) && j7 == Step(prices, j6, Insert(0)) && Enabled(prices, j7, Insert(1))
    ensures IsRun(prices, Fresh(now, r, c), BothSubscribe(r))
    ensures Run(prices, Fresh(now, r, c), BothSubscribe(r)) == Step(prices, j7, Insert(1))
  {
    var j1, j2, j3, j4 := BothCheckAndRead(now, r, prices, c);
    var j5 := BothIncrement(now, r, prices, c, j4);
    j7 := BothInsert(now, r, prices, c);
    hide Step, Enabled, BothApplied, Fresh, Inserted;
    RunCons(prices, j7, Insert(1), []);
    RunCons(prices, BothApplied(now, r, prices, c), Insert(0), [Insert(1)]);
    RunCons(prices, j5, Increment(1), [Insert(0), Insert(1)]);
    RunCons(prices, j4, Increment(0), [Increment(1), Insert(0), Insert(1)]);
    RunCons(prices, j3, Read(1), [Increment(0), Increment(1), Insert(0), Insert(1)]);
    RunCons(prices, j2, Read(0), [Read(1), Increment(0), Increment(1), Insert(0), Insert(1)]);
    RunCons(prices, j1, Check(r), [Read(0), Read(1), Increment(0), Increment(1), Insert(0), Insert(1)]);
    RunCons(prices, Fresh(now, r, c), Check(r), [Check(r), Read(0), Read(1), Increment(0), Increment(1), Insert(0),
        Insert(1)]);
  }

  /** The coupon loses a use though the user's only subscription is the one that the other call has just begun. */
  lemma OverlappingSubscribesLoseUse(now: nat, r: Request, prices: Prices, c: Coupons.Coupon)
    requires PricesFit(prices) && Valid(r, prices) && TwoUses(now, r, c)
    ensures IsRun(prices, Fresh(now, r, c), BothSubscribe(r))
    ensures var j := Run(prices, Fresh(now, r, c), BothSubscribe(r));
            && r.code in j.site.shop.coupons && j.site.shop.coupons[r.code].usedCount == c.usedCount + 2
            && |j.site.shop.payments| == 1 && |j.site.books.payments| == 1 && IsLost(j, 1)
            && |j.site.books.subscriptions| == 1
            && (Duration(r) > 0 ==> j.site.books.subscriptions[0].endDate > now)
  {
    var j7 := BothSubscribeRuns(now, r, prices, c);
    var j7' := BothInsert(now, r, prices, c);
    if Duration(r) > 0 {
      Months.ExtendByMovesForward(now, Duration(r));
    }
    hide Duration, Months.ExtendBy;
    hide Step, Enabled, BothApplied, Fresh, Run, IsRun, BothSubscribe;
  }
}
