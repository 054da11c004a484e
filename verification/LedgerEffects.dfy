/** What each ledger operation does to every single subscription, payment record and user, and when it does nothing. */
module LedgerEffects {
  import opened Prelude
  import opened Ledger
  import Coupons
  import Months

  // Charges.

  /** What coupon c takes off a base amount: a share of it or a fixed sum, at most all of it. */
  predicate TakesOff(c: CouponAnswer, base: real, discount: real) {
    if !c.Accepted? then discount == 0.0
    else if c.discountType == Coupons.Percent then
      if c.value <= 100.0 then 100.0 * discount == base * c.value else discount == base
    else if c.value <= base then discount == c.value
    else discount == base
  }

  /** A charge for so many devices and months at the price of one device and month. */
  predicate Charges(
      c: CouponAnswer, price: real, devices: nat, months: nat, base: real, discount: real, amount: real) {
    base == (devices * months) as real * price && TakesOff(c, base, discount) && amount == base - discount
  }

  lemma ShareOfBase(base: real, value: real, share: real)
    requires base >= 0.0 && value >= 0.0 && share == base * value / 100.0
    ensures value <= 100.0 ==> share <= base
    ensures value > 100.0 ==> share >= base
    ensures 100.0 * share == base * value
  {
    if value <= 100.0 {
      assert base * (100.0 - value) >= 0.0;
    } else {
      assert base * (value - 100.0) >= 0.0;
    }
  }

  lemma ChargeIs(c: CouponAnswer, price: real, devices: nat, months: nat)
    requires price >= 0.0 && CouponFits(c)
    ensures var base := BaseAmount(devices, price, months);
            var discount := DiscountFor(c, base);
            Charges(c, price, devices, months, base, discount, Coupons.Max(0.0, base - discount))
  {
    var base := BaseAmount(devices, price, months);
    assert base == (devices * months) as real * price;
    hide BaseAmount;
    DiscountIs(c, base);
    hide TakesOff, Coupons.Discount;
  }

  lemma DiscountIs(c: CouponAnswer, base: real)
    requires base >= 0.0 && CouponFits(c)
    ensures TakesOff(c, base, DiscountFor(c, base))
  {
    if c.Accepted? && c.discountType == Coupons.Percent {
      var share := base * c.value / 100.0;
      assert DiscountFor(c, base) == Coupons.Min(base, share);
      hide DiscountFor;
      ShareOfBase(base, c.value, share);
      PercentTakesOff(c, base, share);
    }
  }

  lemma PercentTakesOff(c: CouponAnswer, base: real, share: real)
    requires c.Accepted? && c.discountType == Coupons.Percent && 100.0 * share == base * c.value
    requires (c.value <= 100.0 ==> share <= base) && (c.value > 100.0 ==> share >= base)
    ensures TakesOff(c, base, Coupons.Min(base, share))
  {
  }

  // Subscribing.

  /** The subscription and the payment record that a call with these arguments makes. */
  predicate MadeBy(
      s: Subscription, p: Payment, id: nat, now: nat, u: User, plan: Coupons.Plan, price: real, devices: nat,
      months: nat, c: CouponAnswer) {
    && s.user == u && s.plan == plan && s.status == Active && s.deviceCount == devices
    && s.startDate == now && s.endDate == Months.ExtendBy(now, months)
    && Charges(c, price, devices, months, s.baseAmount, s.discountAmount, s.amountPaid)
    && p == Payment(u, id, s.baseAmount, s.discountAmount, s.amountPaid)
  }

  lemma NewIsMade(now: nat, u: User, plan: Coupons.Plan, price: real, devices: nat, months: nat, c: CouponAnswer,
      id: nat)
    requires price >= 0.0 && CouponFits(c)
    ensures var s := NewSubscription(now, u, plan, price, devices, months, c);
            MadeBy(s, Payment(u, id, s.baseAmount, s.discountAmount, s.amountPaid), id, now, u, plan, price, devices,
                months, c)
  {
    ChargeIs(c, price, devices, months);
    hide BaseAmount, DiscountFor, Coupons.Max, Months.ExtendBy, Charges;
  }

  /** Subscription i has only had its status set to CANCELLED, if it was one of the chosen. */
  predicate OnlyCancelled(before: Subscription, after: Subscription, chosen: bool) {
    after == if chosen then before.(status := Cancelled) else before
  }

  /** A subscription, its payment record and its user's pointer are added; of the others, the chosen are cancelled. */
  ghost predicate Adds(b: Books, b': Books, u: User, chosen: Subscription -> bool) {
    && |b'.subscriptions| == |b.subscriptions| + 1 && |b'.payments| == |b.payments| + 1
    && (forall i | 0 <= i < |b.subscriptions| ::
          OnlyCancelled(b.subscriptions[i], b'.subscriptions[i], chosen(b.subscriptions[i])))
    && b'.payments[..|b.payments|] == b.payments
    && b'.users.Keys == b.users.Keys
    && (forall v | v in b.users :: b'.users[v] == if v == u then Some(|b.subscriptions|) else b.users[v])
  }

  predicate EndedOf(s: Subscription, u: User) {
    s.user == u && s.status != Active
  }

  ghost predicate OnlyCancels(b: Books, b': Books, chosen: Subscription -> bool) {
    && |b'.subscriptions| == |b.subscriptions| && b'.payments == b.payments && b'.users == b.users
    && forall i | 0 <= i < |b.subscriptions| ::
         OnlyCancelled(b.subscriptions[i], b'.subscriptions[i], chosen(b.subscriptions[i]))
  }

  /** The user has an ACTIVE subscription. */
  ghost predicate HasActive(b: Books, u: User) {
    exists i :: 0 <= i < |b.subscriptions| && b.subscriptions[i].user == u && b.subscriptions[i].status == Active
  }

  lemma HasActiveIs(b: Books, u: User)
    ensures HasActive(b, u) <==> FindActive(b.subscriptions, u).Some?
  {
    var r := FindActive(b.subscriptions, u);
    hide FindActive;
    if r.Some? {
      assert b.subscriptions[r.value].user == u;
    }
  }

  /**
    subscribe, given a plan with its price, at least one device and a coupon that is not refused: what it makes, what it
    does to the user's earlier subscriptions, and that a user with an ACTIVE one gets nothing.
  */
  lemma SubscribeMakes(b: Books, now: nat, u: User, plan: Coupons.Plan, prices: Prices, n: nat, duration: Option<nat>,
      c: CouponAnswer)
    requires PricesFit(prices) && CouponFits(c) && plan in prices && n >= 1 && !c.RejectedCode?
    ensures var (b', outcome) := Subscribe(b, now, u, plan, prices, Devices(n), duration, c);
            var months := if duration.Some? then duration.value else if plan == Coupons.Yearly then 12 else 1;
            var ended := (s: Subscription) => EndedOf(s, u);
            if !HasActive(b, u) then
              && outcome == Success(|b.subscriptions|) && Adds(b, b', u, ended)
              && MadeBy(b'.subscriptions[|b.subscriptions|], b'.payments[|b.payments|], |b.subscriptions|, now, u, plan,
                  prices[plan], n, months, c)
            else b' == b || (outcome == DuplicateKey && OnlyCancels(b, b', ended))
  {
    var months := if duration.Some? then duration.value else if plan == Coupons.Yearly then 12 else 1;
    var s := NewSubscription(now, u, plan, prices[plan], n, months, c);
    hide CancelOthers, NewSubscription, FindActive, MadeBy, Adds, OnlyCancels, HasActive, Store;
    SubscribeIs(b, now, u, plan, prices, n, duration, c);
    hide Subscribe;
    NewIsMade(now, u, plan, prices[plan], n, months, c, |b.subscriptions|);
    NewIsActive(now, u, plan, prices[plan], n, months, c);
    HasActiveIs(b, u);
    CancelsOthers(b, u);
    StoreAdds(b, CancelOthers(b, u), s, u, (x: Subscription) => EndedOf(x, u));
  }

  lemma SubscribeIs(b: Books, now: nat, u: User, plan: Coupons.Plan, prices: Prices, n: nat, duration: Option<nat>,
      c: CouponAnswer)
    requires plan in prices && n >= 1 && !c.RejectedCode?
    ensures var months := if duration.Some? then duration.value else if plan == Coupons.Yearly then 12 else 1;
            Subscribe(b, now, u, plan, prices, Devices(n), duration, c) ==
            if FindActive(b.subscriptions, u).Some?
                && b.subscriptions[FindActive(b.subscriptions, u).value].endDate > now then (b, Conflict)
            else Store(CancelOthers(b, u), NewSubscription(now, u, plan, prices[plan], n, months, c))
  {
    hide CancelOthers, NewSubscription, FindActive, Store;
  }

  lemma NewIsActive(now: nat, u: User, plan: Coupons.Plan, price: real, devices: nat, months: nat, c: CouponAnswer)
    ensures var s := NewSubscription(now, u, plan, price, devices, months, c); s.status == Active && s.user == u
  {
    hide BaseAmount, DiscountFor, Months.ExtendBy, Coupons.Max;
  }

  lemma CancelsOthers(b: Books, u: User)
    ensures OnlyCancels(b, CancelOthers(b, u), (s: Subscription) => EndedOf(s, u))
    ensures HasActive(CancelOthers(b, u), u) <==> HasActive(b, u)
  {
    var subs := CancelOthers(b, u).subscriptions;
    assert forall i | 0 <= i < |subs| ::
        subs[i].user == b.subscriptions[i].user && (subs[i].status == Active <==> b.subscriptions[i].status == Active);
    hide SetStatusWhere, CancelOthers;
  }

  lemma StoreAdds(b: Books, cancelled: Books, s: Subscription, u: User, chosen: Subscription -> bool)
    requires OnlyCancels(b, cancelled, chosen) && s.status == Active && s.user == u
    ensures var (b', outcome) := Store(cancelled, s);
            if !HasActive(cancelled, u) then
              && outcome == Success(|b.subscriptions|) && Adds(b, b', u, chosen)
              && b'.subscriptions[|b.subscriptions|] == s
              && b'.payments[|b.payments|]
                 == Payment(u, |b.subscriptions|, s.baseAmount, s.discountAmount, s.amountPaid)
            else b' == cancelled && outcome == DuplicateKey
  {
    HasActiveIs(cancelled, u);
    hide FindActive, HasActive;
  }

  /** When subscribe does not get to the database writes, which error it gives; nothing is changed then. */
  lemma SubscribeRefuses(b: Books, now: nat, u: User, plan: Coupons.Plan, prices: Prices, devices: Devices,
      duration: Option<nat>, c: CouponAnswer)
    ensures var (b', outcome) := Subscribe(b, now, u, plan, prices, devices, duration, c);
            var bad := devices.InvalidDevices? || devices.count == 0 || c.RejectedCode?;
            var current := FindActive(b.subscriptions, u);
            var running := current.Some? && b.subscriptions[current.value].endDate > now;
            && (outcome == Conflict <==> running)
            && (outcome == NotFound <==> !running && plan !in prices)
            && (outcome == BadRequest <==> !running && plan in prices && bad)
            && (outcome.Conflict? || outcome.NotFound? || outcome.BadRequest? ==> b' == b)
  {
    hide FindActive, NewSubscription, CancelOthers;
  }

  // Creating and renewing by an admin.

  /** adminCreateSubscription: the outcome, and on success every earlier subscription of the user is cancelled. */
  lemma AdminCreateMakes(b: Books, now: nat, u: User, plan: Coupons.Plan, prices: Prices, devices: Devices, months: nat,
      c: CouponAnswer)
    requires PricesFit(prices) && CouponFits(c)
    ensures var (b', outcome) := AdminCreate(b, now, u, plan, prices, devices, months, c);
            var mine := (s: Subscription) => s.user == u;
            if u !in b.users || plan !in prices then outcome == NotFound && b' == b
            else if devices.InvalidDevices? || c.RejectedCode? then outcome == BadRequest && b' == b
            else
              && outcome == Success(|b.subscriptions|) && Adds(b, b', u, mine)
              && MadeBy(b'.subscriptions[|b.subscriptions|], b'.payments[|b.payments|], |b.subscriptions|, now, u, plan,
                  prices[plan], devices.count, months, c)
  {
    if u in b.users && plan in prices && devices.Devices? {
      var s := NewSubscription(now, u, plan, prices[plan], devices.count, months, c);
      NewIsMade(now, u, plan, prices[plan], devices.count, months, c, |b.subscriptions|);
      NewIsActive(now, u, plan, prices[plan], devices.count, months, c);
      hide CancelAll, NewSubscription, FindActive, MadeBy, Adds, OnlyCancels, HasActive, Store;
      CancelsAll(b, u);
      StoreAdds(b, CancelAll(b, u), s, u, (x: Subscription) => x.user == u);
    }
  }

  lemma CancelsAll(b: Books, u: User)
    ensures OnlyCancels(b, CancelAll(b, u), (s: Subscription) => s.user == u) && !HasActive(CancelAll(b, u), u)
  {
    var subs := CancelAll(b, u).subscriptions;
    assert forall i | 0 <= i < |subs| :: subs[i].user == u ==> subs[i].status == Cancelled;
    hide SetStatusWhere, CancelAll;
  }

  /** The renewal of s to s': its payment p is a charge for the months, and its amounts go up by that. */
  predicate RenewedBy(
      s: Subscription, s': Subscription, p: Payment, i: nat, now: nat, price: real, devices: nat, months: nat,
      c: CouponAnswer) {
    && p.user == s.user && p.subscription == i
    && Charges(c, price, devices, months, p.baseAmount, p.discountAmount, p.amount)
    && s' == s.(endDate := s'.endDate, deviceCount := devices, baseAmount := s.baseAmount + p.baseAmount,
            discountAmount := s.discountAmount + p.discountAmount, amountPaid := s.amountPaid + p.amount)
    && (s.endDate > now ==> s'.endDate == Months.ExtendBy(s.endDate, months))
    && (s.endDate <= now ==> s'.endDate == Months.ExtendBy(now, months))
  }

  lemma RenewedIs(s: Subscription, i: nat, now: nat, price: real, devices: nat, months: nat, c: CouponAnswer)
    requires price >= 0.0 && CouponFits(c)
    ensures var base := BaseAmount(devices, price, months);
            var discount := DiscountFor(c, base);
            RenewedBy(s, Renewed(s, now, devices, months, base, discount),
                Payment(s.user, i, base, discount, Coupons.Max(0.0, base - discount)), i, now, price, devices, months,
                c)
  {
    ChargeIs(c, price, devices, months);
    hide BaseAmount, DiscountFor, Coupons.Max, Charges, Months.ExtendBy;
  }

  /** When adminRenewSubscription refuses, and with which error; nothing is changed then. */
  lemma RenewalRefuses(b: Books, now: nat, u: User, plans: Prices, chosen: Option<Devices>, months: nat,
      c: CouponAnswer)
    ensures var (b', outcome) := AdminRenew(b, now, u, plans, chosen, months, c);
            var found := FindActive(b.subscriptions, u);
            var invalid := chosen.Some? && chosen.value.InvalidDevices?;
            var unknown := u !in b.users || found.None?
                || (!invalid && b.subscriptions[found.value].plan !in plans);
            && (outcome == NotFound <==> unknown)
            && (outcome == BadRequest <==> !unknown && (invalid || c.RejectedCode?))
            && (outcome.Success? <==> !unknown && !invalid && !c.RejectedCode?)
            && (!outcome.Success? ==> b' == b)
  {
    hide FindActive, BaseAmount, DiscountFor, Coupons.Max, Renewed;
  }

  /** Otherwise the one subscription that it changes, and the one payment record that it adds. */
  lemma RenewalMakes(b: Books, now: nat, u: User, plans: Prices, chosen: Option<Devices>, months: nat, c: CouponAnswer)
    requires PricesFit(plans) && CouponFits(c)
    requires AdminRenew(b, now, u, plans, chosen, months, c).1.Success?
    ensures var (b', outcome) := AdminRenew(b, now, u, plans, chosen, months, c);
            var i := outcome.subscription;
            && FindActive(b.subscriptions, u) == Some(i) && b.subscriptions[i].plan in plans
            && b'.users == b.users && |b'.payments| == |b.payments| + 1 && b'.payments[..|b.payments|] == b.payments
            && |b'.subscriptions| == |b.subscriptions|
            && (forall k | 0 <= k < |b.subscriptions| && k != i :: b'.subscriptions[k] == b.subscriptions[k])
            && RenewedBy(b.subscriptions[i], b'.subscriptions[i], b'.payments[|b.payments|], i, now,
                plans[b.subscriptions[i].plan],
                if chosen.Some? && chosen.value.Devices? then chosen.value.count else b.subscriptions[i].deviceCount,
                months, c)
  {
    hide FindActive, RenewedBy, Renewed, BaseAmount, DiscountFor, Coupons.Max;
    var s := b.subscriptions[FindActive(b.subscriptions, u).value];
    RenewedIs(s, FindActive(b.subscriptions, u).value, now, plans[s.plan],
        if chosen.Some? then chosen.value.count else s.deviceCount, months, c);
  }

  /** So a renewal for at least a month always ends in the future, at least 28 days a month away. */
  lemma RenewalEndsInFuture(b: Books, now: nat, u: User, plans: Prices, chosen: Option<Devices>, months: nat,
      c: CouponAnswer)
    requires PricesFit(plans) && CouponFits(c) && months >= 1
    ensures var (b', outcome) := AdminRenew(b, now, u, plans, chosen, months, c);
            outcome.Success? ==>
              && outcome.subscription < |b.subscriptions| == |b'.subscriptions|
              && b'.subscriptions[outcome.subscription].endDate >= now + 28 * months * 86400000
              && b'.subscriptions[outcome.subscription].endDate
                 >= b.subscriptions[outcome.subscription].endDate + 28 * months * 86400000
  {
    var outcome := AdminRenew(b, now, u, plans, chosen, months, c).1;
    hide AdminRenew, FindActive, Charges, Months.ExtendBy;
    if outcome.Success? {
      RenewalMakes(b, now, u, plans, chosen, months, c);
      Months.ExtendByMovesForward(b.subscriptions[outcome.subscription].endDate, months);
      Months.ExtendByMovesForward(now, months);
    }
  }

  // Cancelling and expiring.

  /** A cancellation ends the user's ACTIVE subscription and clears the pointer, and does nothing without one. */
  lemma CancellationExactly(b: Books, u: User)
    ensures var (b', outcome) := Cancel(b, u);
            var found := FindActive(b.subscriptions, u);
            if found.None? then outcome == NotFound && b' == b
            else
              && outcome == Success(found.value) && b'.payments == b.payments
              && |b'.subscriptions| == |b.subscriptions| && b'.users.Keys == b.users.Keys
              && (forall i | 0 <= i < |b.subscriptions| ::
                    OnlyCancelled(b.subscriptions[i], b'.subscriptions[i], i == found.value))
              && (forall v | v in b.users :: b'.users[v] == if v == u then None else b.users[v])
  {
    hide FindActive;
  }

  /** The hourly job turns exactly the ACTIVE subscriptions whose end has passed into EXPIRED ones. */
  lemma ExpiryExactly(b: Books, now: nat, i: nat)
    requires i < |b.subscriptions|
    ensures var b', s := Expire(b, now), b.subscriptions[i];
            && b'.payments == b.payments && b'.users == b.users && |b'.subscriptions| == |b.subscriptions|
            && (b'.subscriptions[i].status == Expired <==>
                s.status == Expired || (s.status == Active && s.endDate < now))
            && (s.status != Active || s.endDate >= now ==> b'.subscriptions[i] == s)
            && b'.subscriptions[i] == s.(status := b'.subscriptions[i].status)
  {
  }

  /** Jobs at two times do what one at the later time does, in either order. */
  lemma ExpiryTwice(b: Books, early: nat, late: nat)
    requires early <= late
    ensures Expire(Expire(b, early), late) == Expire(b, late) == Expire(Expire(b, late), early)
  {
    var x, y, z := Expire(Expire(b, early), late), Expire(b, late), Expire(Expire(b, late), early);
    assert x.subscriptions == y.subscriptions;
    assert z.subscriptions == y.subscriptions;
  }
}
