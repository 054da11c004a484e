/** What every run of ledger operations keeps, and where subscribing departs from its own documentation. */
module LedgerTheorems {
  import opened Prelude
  import opened Ledger
  import Coupons
  import Months

  // Conservation.

  datatype Sums = Sums(base: real, discount: real, amount: real)

  /** The sums over the payment records of subscription i. */
  function SumsOf(payments: seq<Payment>, i: nat): Sums {
    if payments == [] then Sums(0.0, 0.0, 0.0)
    else
      var p := payments[|payments| - 1];
      var rest := SumsOf(payments[..|payments| - 1], i);
      if p.subscription == i then
        Sums(rest.base + p.baseAmount, rest.discount + p.discountAmount, rest.amount + p.amount)
      else rest
  }

  lemma SumsMore(payments: seq<Payment>, p: Payment, i: nat)
    ensures var before := SumsOf(payments, i);
            SumsOf(payments + [p], i) ==
            if p.subscription == i then
              Sums(before.base + p.baseAmount, before.discount + p.discountAmount, before.amount + p.amount)
            else before
  {
    assert (payments + [p])[..|payments|] == payments;
  }

  lemma {:induction false} NoPaymentsYet(payments: seq<Payment>, i: nat)
    requires forall k | 0 <= k < |payments| :: payments[k].subscription < i
    ensures SumsOf(payments, i) == Sums(0.0, 0.0, 0.0)
  {
    if payments != [] {
      NoPaymentsYet(payments[..|payments| - 1], i);
    }
  }

  /** A subscription's amounts are the sums over its payment records, add up, and none is negative. */
  predicate Balanced(s: Subscription, sums: Sums) {
    && Sums(s.baseAmount, s.discountAmount, s.amountPaid) == sums
    && s.amountPaid + s.discountAmount == s.baseAmount
    && s.baseAmount >= 0.0 && s.discountAmount >= 0.0 && s.amountPaid >= 0.0
  }

  ghost predicate Conserved(b: Books) {
    && (forall i | 0 <= i < |b.subscriptions| :: Balanced(b.subscriptions[i], SumsOf(b.payments, i)))
    && (forall k | 0 <= k < |b.payments| ::
          && b.payments[k].subscription < |b.subscriptions|
          && b.payments[k].user == b.subscriptions[b.payments[k].subscription].user)
  }

  /** At most one subscription of a user is ACTIVE, and a user who has one points at it. */
  ghost predicate Pointed(b: Books) {
    forall i | 0 <= i < |b.subscriptions| && b.subscriptions[i].status == Active ::
      && FindActive(b.subscriptions, b.subscriptions[i].user) == Some(i)
      && (b.subscriptions[i].user in b.users ==> b.users[b.subscriptions[i].user] == Some(i))
  }

  // Operations.

  datatype Operation =
    | DoSubscribe(user: User, plan: Coupons.Plan, prices: Prices, devices: Devices, duration: Option<nat>,
        coupon: CouponAnswer)
    | DoCreate(user: User, plan: Coupons.Plan, prices: Prices, devices: Devices, months: nat, coupon: CouponAnswer)
    | DoRenew(user: User, prices: Prices, chosen: Option<Devices>, months: nat, coupon: CouponAnswer)
    | DoCancel(user: User)
    | DoExpire

  ghost predicate Sensible(op: Operation) {
    (op.DoSubscribe? || op.DoCreate? || op.DoRenew?) ==> PricesFit(op.prices) && CouponFits(op.coupon)
  }

  function Apply(b: Books, op: Operation, now: nat): Books {
    match op
    case DoSubscribe(u, plan, prices, devices, duration, c) =>
        Subscribe(b, now, u, plan, prices, devices, duration, c).0
    case DoCreate(u, plan, prices, devices, months, c) => AdminCreate(b, now, u, plan, prices, devices, months, c).0
    case DoRenew(u, prices, chosen, months, c) => AdminRenew(b, now, u, prices, chosen, months, c).0
    case DoCancel(u) => Cancel(b, u).0
    case DoExpire => Expire(b, now)
  }

  /** Changing only statuses keeps every balance. */
  lemma StatusesKeepConserved(b: Books, subs: seq<Subscription>, users: map<User, Option<nat>>)
    requires Conserved(b) && |subs| == |b.subscriptions|
    requires forall i | 0 <= i < |subs| :: subs[i] == b.subscriptions[i].(status := subs[i].status)
    ensures Conserved(Books(subs, b.payments, users))
  {
    hide SumsOf;
    forall i | 0 <= i < |subs| ensures Balanced(subs[i], SumsOf(b.payments, i)) {
      assert Balanced(b.subscriptions[i], SumsOf(b.payments, i));
    }
  }

  /** A charge splits its base into discount and amount. */
  lemma ChargeSplits(base: real, c: CouponAnswer)
    requires base >= 0.0 && CouponFits(c)
    ensures var d := DiscountFor(c, base);
            var amount := Coupons.Max(0.0, base - d);
            0.0 <= d && 0.0 <= amount && amount + d == base
  {
    hide Coupons.Discount;
  }

  predicate NewlyBalanced(s: Subscription) {
    && s.amountPaid + s.discountAmount == s.baseAmount
    && s.baseAmount >= 0.0 && s.discountAmount >= 0.0 && s.amountPaid >= 0.0
  }

  lemma NewSubscriptionBalanced(now: nat, u: User, plan: Coupons.Plan, price: real, devices: nat, months: nat,
      c: CouponAnswer)
    requires price >= 0.0 && CouponFits(c)
    ensures NewlyBalanced(NewSubscription(now, u, plan, price, devices, months, c))
  {
    ChargeSplits(BaseAmount(devices, price, months), c);
    hide BaseAmount, DiscountFor, Coupons.Max, Months.ExtendBy;
  }

  lemma StoreKeepsConserved(b: Books, s: Subscription)
    requires Conserved(b) && s.status == Active && NewlyBalanced(s)
    ensures Conserved(Store(b, s).0)
  {
    var (b', outcome) := Store(b, s);
    if outcome.Success? {
      var n := |b.subscriptions|;
      var p := b'.payments[|b.payments|];
      NoPaymentsYet(b.payments, n);
      hide SumsOf, FindActive;
      forall i | 0 <= i < |b'.subscriptions| ensures Balanced(b'.subscriptions[i], SumsOf(b'.payments, i)) {
        SumsMore(b.payments, p, i);
        if i < n {
          assert Balanced(b.subscriptions[i], SumsOf(b.payments, i));
        }
      }
    }
  }

  lemma RenewKeepsConserved(b: Books, i: nat, s: Subscription, p: Payment)
    requires Conserved(b) && i < |b.subscriptions|
    requires p.user == s.user == b.subscriptions[i].user && p.subscription == i
    requires p.amount + p.discountAmount == p.baseAmount && p.amount >= 0.0 && p.discountAmount >= 0.0
             && p.baseAmount >= 0.0
    requires s.baseAmount == b.subscriptions[i].baseAmount + p.baseAmount
    requires s.discountAmount == b.subscriptions[i].discountAmount + p.discountAmount
    requires s.amountPaid == b.subscriptions[i].amountPaid + p.amount
    ensures Conserved(b.(subscriptions := b.subscriptions[i := s], payments := b.payments + [p]))
  {
    hide SumsOf;
    var b' := b.(subscriptions := b.subscriptions[i := s], payments := b.payments + [p]);
    forall k | 0 <= k < |b'.subscriptions| ensures Balanced(b'.subscriptions[k], SumsOf(b'.payments, k)) {
      SumsMore(b.payments, p, k);
      assert Balanced(b.subscriptions[k], SumsOf(b.payments, k));
    }
  }

  lemma SubscribeKeepsConserved(b: Books, op: Operation, now: nat)
    requires Conserved(b) && Sensible(op) && (op.DoSubscribe? || op.DoCreate?)
    ensures Conserved(Apply(b, op, now))
  {
    hide Conserved, Store, NewSubscription, FindActive, SetStatusWhere;
    if op.plan in op.prices && op.devices.Devices? {
      var price := op.prices[op.plan];
      var months :=
        if op.DoCreate? then op.months else if op.duration.Some? then op.duration.value else DefaultMonths(op.plan);
      var s := NewSubscription(now, op.user, op.plan, price, op.devices.count, months, op.coupon);
      assert s.status == Active && s.user == op.user by {
        NewIsActive(now, op.user, op.plan, price, op.devices.count, months, op.coupon);
      }
      NewSubscriptionBalanced(now, op.user, op.plan, price, op.devices.count, months, op.coupon);
      CancelsKeepConserved(b, op.user);
      StoreKeepsConserved(CancelOthers(b, op.user), s);
      StoreKeepsConserved(CancelAll(b, op.user), s);
    }
  }

  lemma NewIsActive(now: nat, u: User, plan: Coupons.Plan, price: real, devices: nat, months: nat, c: CouponAnswer)
    ensures var s := NewSubscription(now, u, plan, price, devices, months, c); s.status == Active && s.user == u
  {
    hide BaseAmount, DiscountFor, Months.ExtendBy, Coupons.Max;
  }

  lemma CancelsKeepConserved(b: Books, u: User)
    requires Conserved(b)
    ensures Conserved(CancelOthers(b, u)) && Conserved(CancelAll(b, u))
  {
    hide Conserved;
    StatusesKeepConserved(b, CancelOthers(b, u).subscriptions, b.users);
    StatusesKeepConserved(b, CancelAll(b, u).subscriptions, b.users);
  }

  lemma ConservedPreserved(b: Books, op: Operation, now: nat)
    requires Conserved(b) && Sensible(op)
    ensures Conserved(Apply(b, op, now))
  {
    match op
    case DoSubscribe(_, _, _, _, _, _) => SubscribeKeepsConserved(b, op, now);
    case DoCreate(_, _, _, _, _, _) => SubscribeKeepsConserved(b, op, now);
    case DoRenew(_, _, _, _, _) => RenewOperationKeepsConserved(b, op, now);
    case DoCancel(u) =>
      hide Conserved, FindActive;
      StatusesKeepConserved(b, Cancel(b, u).0.subscriptions, Cancel(b, u).0.users);
      assert Cancel(b, u).0.payments == b.payments;
    case DoExpire =>
      hide Conserved;
      StatusesKeepConserved(b, Expire(b, now).subscriptions, b.users);
  }

  lemma RenewOperationKeepsConserved(b: Books, op: Operation, now: nat)
    requires Conserved(b) && Sensible(op) && op.DoRenew?
    ensures Conserved(Apply(b, op, now))
  {
    hide Conserved, FindActive, BaseAmount, DiscountFor, Coupons.Max, Months.ExtendBy;
    var (b', outcome) := AdminRenew(b, now, op.user, op.prices, op.chosen, op.months, op.coupon);
    if outcome.Success? {
      var i := outcome.subscription;
      var s := b.subscriptions[i];
      var count := if op.chosen.Some? then op.chosen.value.count else s.deviceCount;
      var base := BaseAmount(count, op.prices[s.plan], op.months);
      ChargeSplits(base, op.coupon);
      RenewKeepsConserved(b, i, b'.subscriptions[i], b'.payments[|b.payments|]);
    }
  }

  // The active subscription.

  /** FindActive in terms of positions, when no user has two ACTIVE ones. */
  lemma {:induction false} FindActiveIs(subs: seq<Subscription>, u: User, i: nat)
    requires i < |subs| && subs[i].user == u && subs[i].status == Active
    requires forall k | i < k < |subs| :: subs[k].user != u || subs[k].status != Active
    ensures FindActive(subs, u) == Some(i)
  {
    if i < |subs| - 1 {
      FindActiveIs(subs[..|subs| - 1], u, i);
    }
  }

  /** Turning ACTIVE subscriptions into something else keeps the rest pointed at. */
  lemma StatusesKeepPointed(b: Books, subs: seq<Subscription>)
    requires Pointed(b) && |subs| == |b.subscriptions|
    requires forall i | 0 <= i < |subs| ::
               subs[i].user == b.subscriptions[i].user
                   && (subs[i].status == Active ==> b.subscriptions[i].status == Active)
    ensures Pointed(b.(subscriptions := subs))
  {
    hide FindActive;
    forall i | 0 <= i < |subs| && subs[i].status == Active ensures FindActive(subs, subs[i].user) == Some(i) {
      var u := subs[i].user;
      assert FindActive(b.subscriptions, u) == Some(i);
      forall k | i < k < |subs| ensures subs[k].user != u || subs[k].status != Active {
        assert b.subscriptions[k].user == u && b.subscriptions[k].status == Active ==>
            FindActive(b.subscriptions, u) == Some(k);
      }
      FindActiveIs(subs, u, i);
    }
  }

  lemma StoreKeepsPointed(b: Books, s: Subscription)
    requires Pointed(b) && s.status == Active
    ensures Pointed(Store(b, s).0)
  {
    var (b', outcome) := Store(b, s);
    if outcome.Success? {
      var n := |b.subscriptions|;
      hide FindActive;
      FindActiveIs(b'.subscriptions, s.user, n);
      forall i | 0 <= i < n && b.subscriptions[i].status == Active
        ensures b.subscriptions[i].user != s.user && FindActive(b'.subscriptions, b.subscriptions[i].user) == Some(i)
      {
        assert FindActive(b.subscriptions, b.subscriptions[i].user) == Some(i);
        OthersFound(b.subscriptions, s, b.subscriptions[i].user);
      }
    }
  }

  lemma OthersFound(subs: seq<Subscription>, s: Subscription, u: User)
    requires s.user != u
    ensures FindActive(subs + [s], u) == FindActive(subs, u)
  {
    assert (subs + [s])[..|subs|] == subs;
  }

  lemma CancelsKeepPointed(b: Books, u: User)
    requires Pointed(b)
    ensures Pointed(CancelOthers(b, u)) && Pointed(CancelAll(b, u))
  {
    hide Pointed;
    StatusesKeepPointed(b, CancelOthers(b, u).subscriptions);
    StatusesKeepPointed(b, CancelAll(b, u).subscriptions);
  }

  lemma SubscribeKeepsPointed(b: Books, op: Operation, now: nat)
    requires Pointed(b) && (op.DoSubscribe? || op.DoCreate?)
    ensures Pointed(Apply(b, op, now))
  {
    hide Pointed, Store, NewSubscription, FindActive, SetStatusWhere;
    if op.plan in op.prices && op.devices.Devices? {
      var price := op.prices[op.plan];
      var months :=
        if op.DoCreate? then op.months else if op.duration.Some? then op.duration.value else DefaultMonths(op.plan);
      var s := NewSubscription(now, op.user, op.plan, price, op.devices.count, months, op.coupon);
      assert s.status == Active && s.user == op.user by {
        NewIsActive(now, op.user, op.plan, price, op.devices.count, months, op.coupon);
      }
      CancelsKeepPointed(b, op.user);
      StoreKeepsPointed(CancelOthers(b, op.user), s);
      StoreKeepsPointed(CancelAll(b, op.user), s);
    }
  }

  lemma CancelKeepsPointed(b: Books, u: User)
    requires Pointed(b)
    ensures Pointed(Cancel(b, u).0)
  {
    var b' := Cancel(b, u).0;
    StatusesKeepPointed(b, b'.subscriptions);
    hide FindActive;
    forall i | 0 <= i < |b'.subscriptions| && b'.subscriptions[i].status == Active
      ensures b'.subscriptions[i].user != u
    {
      assert b.subscriptions[i].user == u ==> FindActive(b.subscriptions, u) == Some(i);
    }
  }

  lemma RenewKeepsPointed(b: Books, op: Operation, now: nat)
    requires Pointed(b) && op.DoRenew?
    ensures Pointed(Apply(b, op, now))
  {
    hide Pointed, FindActive, BaseAmount, DiscountFor, Coupons.Max, Months.ExtendBy;
    var b' := AdminRenew(b, now, op.user, op.prices, op.chosen, op.months, op.coupon).0;
    StatusesKeepPointed(b, b'.subscriptions);
    PointedIgnoresPayments(b.(subscriptions := b'.subscriptions), b'.payments);
  }

  lemma PointedIgnoresPayments(b: Books, payments: seq<Payment>)
    requires Pointed(b)
    ensures Pointed(b.(payments := payments))
  {
  }

  lemma PointedPreserved(b: Books, op: Operation, now: nat)
    requires Pointed(b)
    ensures Pointed(Apply(b, op, now))
  {
    hide Pointed;
    match op
    case DoSubscribe(_, _, _, _, _, _) => SubscribeKeepsPointed(b, op, now);
    case DoCreate(_, _, _, _, _, _) => SubscribeKeepsPointed(b, op, now);
    case DoRenew(_, _, _, _, _) => RenewKeepsPointed(b, op, now);
    case DoCancel(u) => CancelKeepsPointed(b, u);
    case DoExpire => StatusesKeepPointed(b, Expire(b, now).subscriptions);
  }

  // Whole runs.

  function RunAll(b: Books, ops: seq<(Operation, nat)>): Books
    decreases |ops|
  {
    if ops == [] then b else RunAll(Apply(b, ops[0].0, ops[0].1), ops[1..])
  }

  lemma {:induction false} EveryRun(b: Books, ops: seq<(Operation, nat)>)
    requires Conserved(b) && Pointed(b)
    requires forall k | 0 <= k < |ops| :: Sensible(ops[k].0)
    ensures Conserved(RunAll(b, ops)) && Pointed(RunAll(b, ops))
    decreases |ops|
  {
    hide Conserved, Pointed, Apply, Sensible;
    if ops != [] {
      assert Sensible(ops[0].0);
      ConservedPreserved(b, ops[0].0, ops[0].1);
      PointedPreserved(b, ops[0].0, ops[0].1);
      EveryRun(Apply(b, ops[0].0, ops[0].1), ops[1..]);
    }
  }

  /** No user has two ACTIVE subscriptions. */
  lemma OneActivePerUser(b: Books, i: nat, j: nat)
    requires Pointed(b) && i < |b.subscriptions| && j < |b.subscriptions|
    requires b.subscriptions[i].status == Active && b.subscriptions[j].status == Active
    requires b.subscriptions[i].user == b.subscriptions[j].user
    ensures i == j
  {
    hide FindActive;
    assert FindActive(b.subscriptions, b.subscriptions[i].user) == Some(i);
  }

  // Renewing before expiry.

  /** Every operation renews subscription i of user u, succeeds, and comes before the end date of the moment. */
  ghost predicate RenewsInTime(b: Books, u: User, i: nat, ops: seq<(Operation, nat)>)
    decreases |ops|
  {
    ops == [] ||
    (var (op, now) := ops[0];
     && op.DoRenew? && op.user == u && i < |b.subscriptions| && b.subscriptions[i].endDate > now
     && AdminRenew(b, now, u, op.prices, op.chosen, op.months, op.coupon).1 == Success(i)
     && RenewsInTime(Apply(b, op, now), u, i, ops[1..]))
  }

  function RenewedMonths(ops: seq<(Operation, nat)>): seq<nat> {
    seq(|ops|, k requires 0 <= k < |ops| => if ops[k].0.DoRenew? then ops[k].0.months else 0)
  }

  lemma RenewMovesEnd(b: Books, now: nat, op: Operation, i: nat)
    requires op.DoRenew? && i < |b.subscriptions| && b.subscriptions[i].endDate > now
    requires AdminRenew(b, now, op.user, op.prices, op.chosen, op.months, op.coupon).1 == Success(i)
    ensures var b' := Apply(b, op, now);
            |b'.subscriptions| == |b.subscriptions|
            && b'.subscriptions[i].endDate == Months.ExtendBy(b.subscriptions[i].endDate, op.months)
  {
    hide BaseAmount, DiscountFor, Months.ExtendBy, FindActive, Coupons.Max;
  }

  lemma {:induction false} RenewalsExtend(b: Books, u: User, i: nat, ops: seq<(Operation, nat)>)
    requires i < |b.subscriptions| && RenewsInTime(b, u, i, ops)
    ensures i < |RunAll(b, ops).subscriptions|
    ensures RunAll(b, ops).subscriptions[i].endDate == Months.ExtendAll(b.subscriptions[i].endDate, RenewedMonths(ops))
    decreases |ops|
  {
    hide Apply, AdminRenew, Months.ExtendBy;
    if ops != [] {
      var next := Apply(b, ops[0].0, ops[0].1);
      RenewMovesEnd(b, ops[0].1, ops[0].0, i);
      RenewalsExtend(next, u, i, ops[1..]);
      assert RenewedMonths(ops)[1..] == RenewedMonths(ops[1..]);
    }
  }

  /**
    However a subscription's renewals are split, as long as each comes in time the end date drifts by at most 3 days.
  */
  lemma RenewalsInTimeStayWithinThreeDays(b: Books, u: User, i: nat, ops: seq<(Operation, nat)>)
    requires i < |b.subscriptions| && RenewsInTime(b, u, i, ops)
    ensures i < |RunAll(b, ops).subscriptions|
    ensures var single := Months.ExtendBy(b.subscriptions[i].endDate, Months.Total(RenewedMonths(ops)));
            -2 * Months.MS_PER_DAY <= RunAll(b, ops).subscriptions[i].endDate - single <= 3 * Months.MS_PER_DAY
  {
    RenewalsExtend(b, u, i, ops);
    Months.SplitRenewalsStayWithinThreeDays(b.subscriptions[i].endDate, RenewedMonths(ops));
    hide RunAll, RenewedMonths, Months.ExtendAll, Months.ExtendBy, Months.Total, RenewsInTime;
  }

  // Subscribing, exactly.

  /**
    Given a plan, devices and a coupon that pass, subscribing succeeds exactly when the user has no ACTIVE
    subscription. One that has lapsed passes the guard but runs into the unique index.
  */
  lemma SubscribeSucceedsExactly(b: Books, now: nat, u: User, plan: Coupons.Plan, prices: Prices, n: nat,
      duration: Option<nat>, c: CouponAnswer)
    requires plan in prices && n >= 1 && !c.RejectedCode?
    ensures var outcome := Subscribe(b, now, u, plan, prices, Devices(n), duration, c).1;
            var existing := FindActive(b.subscriptions, u);
            && (outcome.Success? <==> existing.None?)
            && (outcome == Conflict <==> existing.Some? && b.subscriptions[existing.value].endDate > now)
            && (outcome == DuplicateKey <==> existing.Some? && b.subscriptions[existing.value].endDate <= now)
  {
    hide SumsOf, FindActive, BaseAmount, DiscountFor, Months.ExtendBy;
    var subs := CancelOthers(b, u).subscriptions;
    var existing := FindActive(b.subscriptions, u);
    var after := FindActive(subs, u);
    if existing.Some? {
      assert subs[existing.value] == b.subscriptions[existing.value];
      assert after.Some?;
    } else {
      assert after.Some? ==> b.subscriptions[after.value].user == u;
    }
  }

  /** Once the hourly job has run, a user whose subscription has lapsed can subscribe again. */
  lemma ExpiryLetsLapsedSubscribe(b: Books, now: nat, u: User)
    requires Pointed(b)
    requires var existing := FindActive(b.subscriptions, u);
             existing.Some? ==> b.subscriptions[existing.value].endDate < now
    ensures FindActive(Expire(b, now).subscriptions, u).None?
  {
    var after := FindActive(Expire(b, now).subscriptions, u);
    hide FindActive;
    assert forall i | 0 <= i < |b.subscriptions| ::
        b.subscriptions[i].user == u && b.subscriptions[i].status == Active ==>
            FindActive(b.subscriptions, u) == Some(i);
  }

  /** A lapsed subscription is reached by two requests of a new user, the second one at or after the first one's end. */
  lemma LapsedUserMeetsDuplicateKey(now: nat, later: nat, u: User, plan: Coupons.Plan, prices: Prices, n: nat,
      months: nat)
    requires plan in prices && n >= 1 && Months.ExtendBy(now, months) <= later
    ensures var b := Subscribe(Books([], [], map[u := None]), now, u, plan, prices, Devices(n), Some(months), NoCode).0;
            && FindActive(b.subscriptions, u) == Some(0)
            && Subscribe(b, later, u, plan, prices, Devices(n), Some(months), NoCode).1 == DuplicateKey
  {
    hide BaseAmount, DiscountFor, Months.ExtendBy;
    var b0 := Books([], [], map[u := None]);
    SubscribeSucceedsExactly(b0, now, u, plan, prices, n, Some(months), NoCode);
    var s := NewSubscription(now, u, plan, prices[plan], n, months, NoCode);
    var b := Subscribe(b0, now, u, plan, prices, Devices(n), Some(months), NoCode).0;
    assert b.subscriptions == [s];
    SubscribeSucceedsExactly(b, later, u, plan, prices, n, Some(months), NoCode);
  }

  // What is charged against what is quoted.

  /** The amount of a charge whose base is x, given the coupon. */
  function AmountOf(c: CouponAnswer, x: real): real {
    Coupons.Max(0.0, x - DiscountFor(c, x))
  }

  /** subscribe multiplies the plan's price, which is a year's for a yearly plan, by the number of months. */
  lemma ChargeAndQuote(now: nat, u: User, plan: Coupons.Plan, price: real, devices: nat, months: nat, c: CouponAnswer)
    requires price >= 0.0
    ensures var base := BaseAmount(devices, price, 1);
            && base >= 0.0
            && CheckoutTotal(price, devices, c) == AmountOf(c, base)
            && NewSubscription(now, u, plan, price, devices, months, c).amountPaid == AmountOf(c, Times(months, base))
  {
    hide Months.ExtendBy, DiscountFor;
    NonNegative(devices, price);
    var base := devices as real * price;
    assert BaseAmount(devices, price, 1) == base;
    assert BaseAmount(devices, price, months) == Times(months, base);
  }

  /**
    Several months cost what one is quoted at only when the coupon leaves nothing to pay, or nothing costs anything.
  */
  predicate NothingToPay(c: CouponAnswer, base: real, months: nat) {
    if c.Accepted? && c.discountType == Coupons.Fixed then base <= c.value && Times(months, base) <= c.value
    else if c.Accepted? then base == 0.0 || c.value >= 100.0
    else base == 0.0
  }

  lemma FixedAmounts(c: CouponAnswer, base: real, months: nat)
    requires c.Accepted? && c.discountType == Coupons.Fixed && c.value >= 0.0 && base >= 0.0
    ensures AmountOf(c, Times(months, base)) == AmountOf(c, base) <==> months == 1 || NothingToPay(c, base, months)
  {
    var x, v := Times(months, base), c.value;
    TimesBounds(months, base);
    TimesIsOne(months, base);
    hide Times;
    assert AmountOf(c, base) == if base <= v then 0.0 else base - v;
    assert AmountOf(c, x) == if x <= v then 0.0 else x - v;
  }

  lemma PercentAmount(c: CouponAnswer, x: real)
    requires c.Accepted? && c.discountType == Coupons.Percent && c.value >= 0.0 && x >= 0.0
    ensures AmountOf(c, x) == if c.value >= 100.0 then 0.0 else x * (100.0 - c.value) / 100.0
    ensures AmountOf(c, x) >= 0.0
  {
    Share(x, c.value);
    assert DiscountFor(c, x) == Coupons.Min(x, x * c.value / 100.0);
    hide DiscountFor;
  }

  lemma Product(x: real, y: real)
    requires x >= 0.0 && y >= 0.0
    ensures x * y >= 0.0
  {
  }

  lemma Share(x: real, v: real)
    requires x >= 0.0 && v >= 0.0
    ensures x - x * v / 100.0 == x * (100.0 - v) / 100.0
    ensures v >= 100.0 ==> x * v / 100.0 >= x
    ensures v < 100.0 ==> x * v / 100.0 <= x && x * (100.0 - v) / 100.0 >= 0.0
  {
    assert x * v - 100.0 * x == x * (v - 100.0) == -(x * (100.0 - v));
    if v >= 100.0 {
      Product(x, v - 100.0);
    } else {
      Product(x, 100.0 - v);
    }
  }

  lemma PercentAmounts(c: CouponAnswer, base: real, months: nat)
    requires c.Accepted? && c.discountType == Coupons.Percent && c.value >= 0.0 && base >= 0.0
    ensures AmountOf(c, Times(months, base)) == AmountOf(c, base) <==> months == 1 || NothingToPay(c, base, months)
  {
    TimesBounds(months, base);
    PercentAmount(c, base);
    PercentAmount(c, Times(months, base));
    hide AmountOf;
    if c.value < 100.0 {
      var f := (100.0 - c.value) / 100.0;
      assert AmountOf(c, base) == base * f && AmountOf(c, Times(months, base)) == Times(months, base) * f;
      SameScaled(Times(months, base), base, f);
      TimesIsOne(months, base);
    }
  }

  lemma SameScaled(x: real, y: real, f: real)
    requires f > 0.0
    ensures x * f == y * f <==> x == y
  {
    assert x * f - y * f == (x - y) * f;
  }

  /** The charge is the quote exactly for one month of a plan, or when there is nothing to pay either way. */
  lemma ChargeMatchesQuoteExactly(
      now: nat, u: User, plan: Coupons.Plan, price: real, devices: nat, months: nat, c: CouponAnswer)
    requires price >= 0.0 && CouponFits(c)
    ensures NewSubscription(now, u, plan, price, devices, months, c).amountPaid == CheckoutTotal(price, devices, c)
            <==> months == 1 || NothingToPay(c, BaseAmount(devices, price, 1), months)
  {
    ChargeAndQuote(now, u, plan, price, devices, months, c);
    var base := BaseAmount(devices, price, 1);
    hide NewSubscription, CheckoutTotal, BaseAmount;
    if c.Accepted? && c.discountType == Coupons.Fixed {
      FixedAmounts(c, base, months);
    } else if c.Accepted? {
      PercentAmounts(c, base, months);
    } else {
      TimesBounds(months, base);
      TimesIsOne(months, base);
      hide Times;
    }
    hide AmountOf;
  }

  /** A greater base never costs less. */
  lemma AmountsGrow(c: CouponAnswer, x: real, y: real)
    requires CouponFits(c) && 0.0 <= x <= y
    ensures AmountOf(c, x) <= AmountOf(c, y)
  {
    if c.Accepted? && c.discountType == Coupons.Percent {
      PercentAmount(c, x);
      PercentAmount(c, y);
      hide AmountOf;
      if c.value < 100.0 {
        Product(y - x, 100.0 - c.value);
        assert (y - x) * (100.0 - c.value) == y * (100.0 - c.value) - x * (100.0 - c.value);
      }
    }
  }

  /** From one month on nothing is charged less than quoted; from two on, more unless there is nothing to pay. */
  lemma ChargeExceedsQuoteExactly(
      now: nat, u: User, plan: Coupons.Plan, price: real, devices: nat, months: nat, c: CouponAnswer)
    requires price >= 0.0 && CouponFits(c) && months >= 1
    ensures NewSubscription(now, u, plan, price, devices, months, c).amountPaid >= CheckoutTotal(price, devices, c)
    ensures NewSubscription(now, u, plan, price, devices, months, c).amountPaid > CheckoutTotal(price, devices, c)
            <==> months >= 2 && !NothingToPay(c, BaseAmount(devices, price, 1), months)
  {
    ChargeMatchesQuoteExactly(now, u, plan, price, devices, months, c);
    ChargeAndQuote(now, u, plan, price, devices, months, c);
    var base := BaseAmount(devices, price, 1);
    TimesBounds(months, base);
    hide NewSubscription, CheckoutTotal, BaseAmount, Times;
    AmountsGrow(c, base, Times(months, base));
    hide AmountOf, NothingToPay;
  }

  /** For one month the charge is the quote, whatever the coupon. */
  lemma OneMonthChargeIsQuote(now: nat, u: User, plan: Coupons.Plan, price: real, devices: nat, c: CouponAnswer)
    requires price >= 0.0
    ensures NewSubscription(now, u, plan, price, devices, 1, c).amountPaid == CheckoutTotal(price, devices, c)
  {
    ChargeAndQuote(now, u, plan, price, devices, 1, c);
    TimesBounds(1, BaseAmount(devices, price, 1));
    hide NewSubscription, CheckoutTotal, BaseAmount, AmountOf;
  }

  function Times(n: nat, x: real): real {
    n as real * x
  }

  lemma TimesBounds(n: nat, x: real)
    requires x >= 0.0
    ensures Times(n, x) >= 0.0 && (n >= 1 ==> Times(n, x) >= x) && (n == 1 ==> Times(n, x) == x)
  {
    if n >= 1 {
      var more := n as real - 1.0;
      assert Times(n, x) == x + more * x;
    }
  }

  lemma TimesIsOne(n: nat, x: real)
    requires x >= 0.0
    ensures Times(n, x) == x <==> n == 1 || x == 0.0
  {
    if n >= 2 {
      var more := n as real - 2.0;
      assert Times(n, x) == x + x + more * x;
      assert more * x >= 0.0;
    } else {
      assert n == 0 || n == 1;
    }
  }

  /** So a yearly plan bought without a coupon for its default duration is charged twelve times the quote. */
  lemma YearlyDefaultIsTwelveQuotes(now: nat, u: User, price: real, devices: nat)
    requires price >= 0.0
    ensures NewSubscription(now, u, Coupons.Yearly, price, devices, DefaultMonths(Coupons.Yearly), NoCode).amountPaid
            == 12.0 * CheckoutTotal(price, devices, NoCode)
  {
    ChargeAndQuote(now, u, Coupons.Yearly, price, devices, 12, NoCode);
    TimesBounds(12, BaseAmount(devices, price, 1));
    assert DefaultMonths(Coupons.Yearly) == 12;
    hide NewSubscription, CheckoutTotal, BaseAmount;
  }
}
