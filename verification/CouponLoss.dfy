/**
  One subscribe call with a coupon code, undisturbed: the ledger and the coupon together, in the order in which the
  call goes through them.
*/
module CouponLoss {
  import opened Prelude
  import opened Ledger
  import Coupons
  import Months

  datatype Site = Site(books: Books, shop: Coupons.Shop)

  datatype Request = Request(user: User, plan: Coupons.Plan, devices: Devices, duration: Option<nat>,
      code: Coupons.Code)

  function Duration(r: Request): nat {
    if r.duration.Some? then r.duration.value else DefaultMonths(r.plan)
  }

  function Answer(b: Books, now: nat, r: Request, prices: Prices, c: CouponAnswer): (Books, Outcome) {
    Subscribe(b, now, r.user, r.plan, prices, r.devices, r.duration, c)
  }

  /** The checks that come before the coupon pass. */
  predicate ReachesCoupon(b: Books, now: nat, r: Request, prices: Prices) {
    && r.plan in prices && r.devices.Devices? && r.devices.count >= 1
    && var existing := FindActive(b.subscriptions, r.user);
       !(existing.Some? && b.subscriptions[existing.value].endDate > now)
  }

  function Base(r: Request, prices: Prices): (base: real)
    requires r.plan in prices && r.devices.Devices? && PricesFit(prices)
    ensures base >= 0.0
  {
    BaseAmount(r.devices.count, prices[r.plan], Duration(r))
  }

  /** The coupon steps of the call up to its increment, made or refused. */
  function UseCoupon(shop: Coupons.Shop, now: nat, code: Coupons.Code, plan: Coupons.Plan,
      base: real): (after: Coupons.Shop)
    requires shop.now <= now && base >= 0.0
    ensures |after.calls| == |shop.calls| + 1
    ensures after.calls[|shop.calls|].stage.Applied? || after.calls[|shop.calls|].stage.Refused?
  {
    var p := |shop.calls|;
    var begun := Coupons.Step(Coupons.Step(shop, Coupons.Tick(now)), Coupons.Begin(code, plan, base));
    var read := Coupons.Step(begun, Coupons.Read(p));
    if read.calls[p].stage.Refused? then read else Coupons.Step(read, Coupons.Increment(p))
  }

  function SubscribeWithCode(site: Site, now: nat, r: Request, prices: Prices): (Site, Outcome)
    requires PricesFit(prices) && site.shop.now <= now
  {
    if !ReachesCoupon(site.books, now, r, prices) then (site, Answer(site.books, now, r, prices, NoCode).1)
    else
      var p := |site.shop.calls|;
      var shop := UseCoupon(site.shop, now, r.code, r.plan, Base(r, prices));
      if shop.calls[p].stage.Refused? || r.code !in site.shop.coupons then (site.(shop := shop), BadRequest)
      else
        var coupon := site.shop.coupons[r.code];
        var (books, outcome) := Answer(site.books, now, r, prices, Accepted(coupon.discountType, coupon.discountValue));
        var ended :=
          if shop.calls[p].stage.Applied? then
            Coupons.Step(shop, if outcome.Success? then Coupons.Pay(p) else Coupons.Fail(p))
          else shop;
        (Site(books, ended), outcome)
  }

  /** The coupon is active, in date, for the plan, and has uses left. */
  predicate HasUse(c: Coupons.Coupon, plan: Coupons.Plan, now: nat) {
    Coupons.Usable(c, plan, now) && c.usedCount < c.maxUsage
  }

  lemma CouponUsedExactly(shop: Coupons.Shop, now: nat, code: Coupons.Code, plan: Coupons.Plan, base: real)
    requires shop.now <= now && base >= 0.0 && code in shop.coupons
    ensures var after := UseCoupon(shop, now, code, plan, base);
            var c, call := shop.coupons[code], after.calls[|shop.calls|];
            && call.code == code && call.basePrice == base && after.payments == shop.payments && code in after.coupons
            && (call.stage.Applied? <==> HasUse(c, plan, now))
            && after.coupons[code].usedCount == c.usedCount + (if HasUse(c, plan, now) then 1 else 0)
            && (call.stage.Applied? ==> call.stage.discount == Coupons.Discount(c.discountType, c.discountValue, base))
  {
  }

  /** The answer of the ledger once the coupon has been accepted. */
  lemma AnswerAfterCoupon(b: Books, now: nat, r: Request, prices: Prices, c: CouponAnswer)
    requires ReachesCoupon(b, now, r, prices) && !c.RejectedCode? && PricesFit(prices)
    ensures var (b', outcome) := Answer(b, now, r, prices, c);
            && (outcome.Success? <==> FindActive(b.subscriptions, r.user).None?)
            && (outcome == DuplicateKey <==> FindActive(b.subscriptions, r.user).Some?)
            && (outcome == DuplicateKey ==> b'.payments == b.payments)
            && (outcome.Success? ==>
                  && |b'.payments| == |b.payments| + 1
                  && var p := b'.payments[|b.payments|];
                     && p.baseAmount == Base(r, prices) && p.discountAmount == DiscountFor(c, Base(r, prices))
                     && p.amount == Coupons.Max(0.0, p.baseAmount - p.discountAmount))
  {
    hide FindActive, BaseAmount, DiscountFor, Months.ExtendBy;
    var existing := FindActive(b.subscriptions, r.user);
    var subs := CancelOthers(b, r.user).subscriptions;
    var after := FindActive(subs, r.user);
    if existing.Some? {
      assert subs[existing.value] == b.subscriptions[existing.value];
    } else {
      assert after.Some? ==> b.subscriptions[after.value].user == r.user;
    }
  }

  lemma EarlyAnswer(b: Books, now: nat, r: Request, prices: Prices)
    requires !ReachesCoupon(b, now, r, prices)
    ensures !Answer(b, now, r, prices, NoCode).1.Success?
  {
    hide Store, FindActive, NewSubscription;
  }

  /** The user has an ACTIVE subscription whose end has passed. */
  predicate HasLapsed(b: Books, now: nat, u: User) {
    var existing := FindActive(b.subscriptions, u);
    existing.Some? && b.subscriptions[existing.value].endDate <= now
  }

  /** A call costs a use of its coupon without any payment. */
  predicate LosesUse(before: Site, after: Site, code: Coupons.Code) {
    && code in before.shop.coupons && code in after.shop.coupons
    && after.shop.coupons[code].usedCount == before.shop.coupons[code].usedCount + 1
    && after.shop.payments == before.shop.payments && after.books.payments == before.books.payments
  }

  /** How a call ends, by its payment record or by failing, leaves the coupons alone. */
  lemma EndOfCall(shop: Coupons.Shop, p: nat)
    requires p < |shop.calls| && shop.calls[p].stage.Applied?
    ensures Coupons.Step(shop, Coupons.Pay(p)).coupons == shop.coupons
    ensures Coupons.Step(shop, Coupons.Fail(p)).coupons == shop.coupons
    ensures Coupons.Step(shop, Coupons.Fail(p)).payments == shop.payments
    ensures var call, d := shop.calls[p], shop.calls[p].stage.discount;
            Coupons.Step(shop, Coupons.Pay(p)).payments ==
            shop.payments + [Coupons.Payment(call.code, call.basePrice, d, Coupons.Max(0.0, call.basePrice - d))]
  {
  }

  /** The counter moves exactly when the call reaches the coupon and the coupon has a use. */
  lemma CounterAfter(site: Site, now: nat, r: Request, prices: Prices)
    requires PricesFit(prices) && site.shop.now <= now && r.code in site.shop.coupons
    ensures var after := SubscribeWithCode(site, now, r, prices).0;
            && r.code in after.shop.coupons
            && after.shop.coupons[r.code].usedCount == site.shop.coupons[r.code].usedCount
               + (if ReachesCoupon(site.books, now, r, prices) && HasUse(site.shop.coupons[r.code], r.plan, now) then 1
                  else 0)
  {
    hide UseCoupon, Answer, FindActive, Coupons.Step, Base, HasUse, Subscribe;
    if ReachesCoupon(site.books, now, r, prices) {
      var shop := UseCoupon(site.shop, now, r.code, r.plan, Base(r, prices));
      CouponUsedExactly(site.shop, now, r.code, r.plan, Base(r, prices));
      if shop.calls[|site.shop.calls|].stage.Applied? {
        EndOfCall(shop, |site.shop.calls|);
      }
    }
  }

  lemma LapsedLoses(site: Site, now: nat, r: Request, prices: Prices)
    requires PricesFit(prices) && site.shop.now <= now && r.code in site.shop.coupons
    requires ReachesCoupon(site.books, now, r, prices) && HasUse(site.shop.coupons[r.code], r.plan, now)
    ensures var (after, outcome) := SubscribeWithCode(site, now, r, prices);
            if FindActive(site.books.subscriptions, r.user).Some? then
              && outcome == DuplicateKey
              && after.shop.payments == site.shop.payments && after.books.payments == site.books.payments
            else |after.books.payments| == |site.books.payments| + 1
  {
    hide UseCoupon, Answer, FindActive, Coupons.Step, Coupons.Discount, Coupons.Max, HasUse, Base, DiscountFor,
        Subscribe;
    var c := site.shop.coupons[r.code];
    CouponUsedExactly(site.shop, now, r.code, r.plan, Base(r, prices));
    AnswerAfterCoupon(site.books, now, r, prices, Accepted(c.discountType, c.discountValue));
    EndOfCall(UseCoupon(site.shop, now, r.code, r.plan, Base(r, prices)), |site.shop.calls|);
  }

  /** A use is lost exactly when a user whose subscription has lapsed makes a valid request with a usable code. */
  lemma UseLostExactly(site: Site, now: nat, r: Request, prices: Prices)
    requires PricesFit(prices) && site.shop.now <= now && r.code in site.shop.coupons
    ensures LosesUse(site, SubscribeWithCode(site, now, r, prices).0, r.code) <==>
            && r.plan in prices && r.devices.Devices? && r.devices.count >= 1
            && HasLapsed(site.books, now, r.user) && HasUse(site.shop.coupons[r.code], r.plan, now)
    ensures LosesUse(site, SubscribeWithCode(site, now, r, prices).0, r.code) ==>
              SubscribeWithCode(site, now, r, prices).1 == DuplicateKey
  {
    CounterAfter(site, now, r, prices);
    if ReachesCoupon(site.books, now, r, prices) && HasUse(site.shop.coupons[r.code], r.plan, now) {
      LapsedLoses(site, now, r, prices);
    }
    hide SubscribeWithCode, HasUse, FindActive;
  }

  /** When the call succeeds, the ledger's payment record carries the discount that the coupon gave. */
  lemma PaymentsAgree(site: Site, now: nat, r: Request, prices: Prices)
    requires PricesFit(prices) && site.shop.now <= now && r.code in site.shop.coupons
    requires SubscribeWithCode(site, now, r, prices).1.Success?
    ensures var after := SubscribeWithCode(site, now, r, prices).0;
            && |after.books.payments| == |site.books.payments| + 1 && |after.shop.payments| == |site.shop.payments| + 1
            && var p, q := after.books.payments[|site.books.payments|], after.shop.payments[|site.shop.payments|];
               && q.code == r.code && p.baseAmount == q.baseAmount && p.discountAmount == q.discountAmount
                   && p.amount == q.amount
  {
    hide UseCoupon, Answer, FindActive, Coupons.Step, Coupons.Discount, Coupons.Max, Base, Subscribe;
    if ReachesCoupon(site.books, now, r, prices) {
      var c := site.shop.coupons[r.code];
      CouponUsedExactly(site.shop, now, r.code, r.plan, Base(r, prices));
      AnswerAfterCoupon(site.books, now, r, prices, Accepted(c.discountType, c.discountValue));
      var shop := UseCoupon(site.shop, now, r.code, r.plan, Base(r, prices));
      if shop.calls[|site.shop.calls|].stage.Applied? {
        EndOfCall(shop, |site.shop.calls|);
      }
    } else {
      EarlyAnswer(site.books, now, r, prices);
    }
  }
}
