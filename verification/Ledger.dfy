/**
  Subscriptions and their payment records: subscribing, creating, renewing, cancelling and expiring, each as one
  whole operation. Money is exact. The coupon service's answer is a parameter; Coupons models how it comes about.
*/
module Ledger {
  import opened Prelude
  import Coupons
  import Months

  type User = string

  datatype Status = Active | Expired | Cancelled

  datatype Subscription = Subscription(
    user: User, plan: Coupons.Plan, status: Status, startDate: nat, endDate: nat, deviceCount: nat,
    baseAmount: real, discountAmount: real, amountPaid: real)

  datatype Payment = Payment(user: User, subscription: nat, baseAmount: real, discountAmount: real, amount: real)

  /** The stored documents; a subscription's position is its id, and users maps each user to its subscriptionId. */
  datatype Books = Books(subscriptions: seq<Subscription>, payments: seq<Payment>, users: map<User, Option<nat>>)

  /** What the coupon service answered: no code given, a rejection, or a discount. */
  datatype CouponAnswer = NoCode | RejectedCode | Accepted(discountType: Coupons.DiscountType, value: real)

  /** Devices chosen for a subscription: an invalid choice, or how many. */
  datatype Devices = InvalidDevices | Devices(count: nat)

  datatype Outcome =
    | Success(subscription: nat)
    | Conflict
    | NotFound
    | BadRequest
    | DuplicateKey   // the database refuses a second ACTIVE subscription of the user

  /** The price of a unit of a plan for a month; a plan that is not there or not active has none. */
  type Prices = map<Coupons.Plan, real>

  ghost predicate PricesFit(prices: Prices) {
    forall plan | plan in prices :: prices[plan] >= 0.0
  }

  predicate CouponFits(c: CouponAnswer) {
    c.Accepted? ==> c.value >= 0.0
  }

  /** deviceCount * pricePerUnit * durationMonths. */
  function BaseAmount(devices: nat, price: real, months: nat): (r: real)
    ensures price >= 0.0 ==> r >= 0.0
  {
    var units := devices * months;
    NonNegative(units, price);
    units as real * price
  }

  lemma NonNegative(n: nat, price: real)
    ensures price >= 0.0 ==> n as real * price >= 0.0
  {
  }

  function DiscountFor(c: CouponAnswer, base: real): (d: real)
    ensures base >= 0.0 && CouponFits(c) ==> 0.0 <= d <= base
  {
    if c.Accepted? then Coupons.Discount(c.discountType, c.value, base) else 0.0
  }

  /** findOne({ userId, status: ACTIVE }). */
  function FindActive(subs: seq<Subscription>, u: User): (r: Option<nat>)
    ensures r.Some? ==> r.value < |subs| && subs[r.value].user == u && subs[r.value].status == Active
    ensures r.None? ==> forall i | 0 <= i < |subs| :: subs[i].user != u || subs[i].status != Active
  {
    if subs == [] then None
    else
      var last := |subs| - 1;
      if subs[last].user == u && subs[last].status == Active then Some(last) else FindActive(subs[..last], u)
  }

  /** updateMany: the subscriptions that meet the filter get the status. */
  function SetStatusWhere(subs: seq<Subscription>, filter: Subscription -> bool, status: Status): (r: seq<Subscription>)
    ensures |r| == |subs|
    ensures forall i | 0 <= i < |r| :: r[i] == if filter(subs[i]) then subs[i].(status := status) else subs[i]
  {
    seq(|subs|, i requires 0 <= i < |subs| => if filter(subs[i]) then subs[i].(status := status) else subs[i])
  }

  function SetPointer(users: map<User, Option<nat>>, u: User, id: Option<nat>): map<User, Option<nat>> {
    if u in users then users[u := id] else users
  }

  /** Storing a new ACTIVE subscription, its user's pointer and its payment record; the unique index may refuse it. */
  function Store(b: Books, s: Subscription): (Books, Outcome)
    requires s.status == Active
  {
    var id := |b.subscriptions|;
    if FindActive(b.subscriptions, s.user).Some? then (b, DuplicateKey)
    else
      (Books(b.subscriptions + [s],
             b.payments + [Payment(s.user, id, s.baseAmount, s.discountAmount, s.amountPaid)],
             SetPointer(b.users, s.user, Some(id))),
       Success(id))
  }

  function NewSubscription(now: nat, u: User, plan: Coupons.Plan, price: real, devices: nat, months: nat,
      c: CouponAnswer): Subscription {
    var base := BaseAmount(devices, price, months);
    var discount := DiscountFor(c, base);
    Subscription(u, plan, Active, now, Months.ExtendBy(now, months), devices, base, discount,
        Coupons.Max(0.0, base - discount))
  }

  function DefaultMonths(plan: Coupons.Plan): nat {
    if plan == Coupons.Yearly then 12 else 1
  }

  function CancelOthers(b: Books, u: User): Books {
    var others := (s: Subscription) => s.user == u && s.status != Active;
    b.(subscriptions := SetStatusWhere(b.subscriptions, others, Cancelled))
  }

  function CancelAll(b: Books, u: User): Books {
    b.(subscriptions := SetStatusWhere(b.subscriptions, (s: Subscription) => s.user == u, Cancelled))
  }

  function Subscribe(
      b: Books, now: nat, u: User, plan: Coupons.Plan, prices: Prices, devices: Devices, months: Option<nat>,
      c: CouponAnswer): (Books, Outcome) {
    var existing := FindActive(b.subscriptions, u);
    if existing.Some? && b.subscriptions[existing.value].endDate > now then (b, Conflict)
    else if plan !in prices then (b, NotFound)
    else if devices.InvalidDevices? || devices.count < 1 then (b, BadRequest)
    else if c.RejectedCode? then (b, BadRequest)
    else
      var duration := if months.Some? then months.value else DefaultMonths(plan);
      Store(CancelOthers(b, u), NewSubscription(now, u, plan, prices[plan], devices.count, duration, c))
  }

  function AdminCreate(
      b: Books, now: nat, u: User, plan: Coupons.Plan, prices: Prices, devices: Devices, months: nat, c: CouponAnswer)
      : (Books, Outcome) {
    if u !in b.users then (b, NotFound)
    else if plan !in prices then (b, NotFound)
    else if devices.InvalidDevices? then (b, BadRequest)
    else if c.RejectedCode? then (b, BadRequest)
    else Store(CancelAll(b, u), NewSubscription(now, u, plan, prices[plan], devices.count, months, c))
  }

  function Later(a: nat, b: nat): nat {
    if a > b then a else b
  }

  /** The renewed subscription: its end moves on from its own end, or from now once that has passed. */
  function Renewed(s: Subscription, now: nat, devices: nat, months: nat, base: real, discount: real): Subscription {
    s.(endDate := Months.ExtendBy(Later(s.endDate, now), months), deviceCount := devices,
       baseAmount := s.baseAmount + base, discountAmount := s.discountAmount + discount,
       amountPaid := s.amountPaid + Coupons.Max(0.0, base - discount))
  }

  /** Devices are chosen anew or, with None, stay as they are; plans lists every stored plan, active or not. */
  function AdminRenew(
      b: Books, now: nat, u: User, plans: Prices, devices: Option<Devices>, months: nat, c: CouponAnswer): (Books,
          Outcome) {
    if u !in b.users then (b, NotFound)
    else
      var found := FindActive(b.subscriptions, u);
      if found.None? then (b, NotFound)
      else
        var s := b.subscriptions[found.value];
        if devices.Some? && devices.value.InvalidDevices? then (b, BadRequest)
        else if s.plan !in plans then (b, NotFound)
        else if c.RejectedCode? then (b, BadRequest)
        else
          var count := if devices.Some? then devices.value.count else s.deviceCount;
          var base := BaseAmount(count, plans[s.plan], months);
          var discount := DiscountFor(c, base);
          (b.(subscriptions := b.subscriptions[found.value := Renewed(s, now, count, months, base, discount)],
              payments := b.payments + [Payment(u, found.value, base, discount, Coupons.Max(0.0, base - discount))]),
           Success(found.value))
  }

  function Cancel(b: Books, u: User): (Books, Outcome) {
    var found := FindActive(b.subscriptions, u);
    if found.None? then (b, NotFound)
    else
      (b.(subscriptions := b.subscriptions[found.value := b.subscriptions[found.value].(status := Cancelled)],
          users := SetPointer(b.users, u, None)),
       Success(found.value))
  }

  function Expire(b: Books, now: nat): Books {
    b.(subscriptions := SetStatusWhere(b.subscriptions, (s: Subscription) => s.status == Active
        && s.endDate < now, Expired))
  }

  /** getCheckoutSummary: what a plan is quoted at. */
  function CheckoutTotal(price: real, devices: nat, c: CouponAnswer): real {
    var cycleAmount := devices as real * price;
    Coupons.Max(0.0, cycleAmount - DiscountFor(c, cycleAmount))
  }

  class SubscriptionsService {
    var subscriptions: seq<Subscription>
    var payments: seq<Payment>
    var users: map<User, Option<nat>>

    constructor (users: set<User>)
      ensures State() == Books([], [], map u | u in users :: None)
    {
      subscriptions, payments := [], [];
      this.users := map u | u in users :: None;
    }

    function State(): Books
      reads this
    {
      Books(subscriptions, payments, users)
    }

    /** updateMany over the subscriptions that meet the filter. */
    method UpdateMany(filter: Subscription -> bool, status: Status)
      modifies this`subscriptions
      ensures subscriptions == SetStatusWhere(old(subscriptions), filter, status)
    {
      var i := 0;
      var before := subscriptions;
      while i < |subscriptions|
        invariant 0 <= i <= |subscriptions| == |before|
        invariant forall k | 0 <= k < i ::
                    subscriptions[k] == if filter(before[k]) then before[k].(status := status) else before[k]
        invariant forall k | i <= k < |before| :: subscriptions[k] == before[k]
      {
        if filter(subscriptions[i]) {
          subscriptions := subscriptions[i := subscriptions[i].(status := status)];
        }
        i := i + 1;
      }
    }

    /** The inserts and the update that end subscribe and adminCreateSubscription. */
    method CreateSubscription(s: Subscription) returns (outcome: Outcome)
      requires s.status == Active
      modifies this
      ensures (State(), outcome) == Store(old(State()), s)
    {
      if FindActive(subscriptions, s.user).Some? {
        return DuplicateKey;
      }
      outcome := Success(|subscriptions|);
      subscriptions := subscriptions + [s];
      users := SetPointer(users, s.user, Some(|subscriptions| - 1));
      payments := payments + [Payment(s.user, |subscriptions| - 1, s.baseAmount, s.discountAmount, s.amountPaid)];
    }

    method SubscribeUser(
        now: nat, userId: User, planName: Coupons.Plan, prices: Prices, devices: Devices, durationMonths: Option<nat>,
        coupon: CouponAnswer) returns (outcome: Outcome)
      modifies this
      ensures (State(), outcome) == Subscribe(old(State()), now, userId, planName, prices, devices, durationMonths,
              coupon)
    {
      hide FindActive, Store, BaseAmount, DiscountFor, Months.ExtendBy;
      var existing := FindActive(subscriptions, userId);
      if existing.Some? && subscriptions[existing.value].endDate > now {
        return Conflict;
      }
      if planName !in prices {
        return NotFound;
      }
      if devices.InvalidDevices? || devices.count < 1 || coupon.RejectedCode? {
        return BadRequest;
      }
      var months := if durationMonths.Some? then durationMonths.value else DefaultMonths(planName);
      UpdateMany((s: Subscription) => s.user == userId && s.status != Active, Cancelled);
      outcome := CreateSubscription(NewSubscription(now, userId, planName, prices[planName], devices.count, months,
          coupon));
    }

    method AdminCreateSubscription(
        now: nat, userId: User, planName: Coupons.Plan, prices: Prices, devices: Devices, durationMonths: nat,
        coupon: CouponAnswer) returns (outcome: Outcome)
      modifies this
      ensures (State(), outcome) == AdminCreate(old(State()), now, userId, planName, prices, devices, durationMonths,
              coupon)
    {
      if userId !in users || planName !in prices {
        return NotFound;
      }
      if devices.InvalidDevices? || coupon.RejectedCode? {
        return BadRequest;
      }
      UpdateMany((s: Subscription) => s.user == userId, Cancelled);
      outcome := CreateSubscription(
        NewSubscription(now, userId, planName, prices[planName], devices.count, durationMonths, coupon));
    }

    method AdminRenewSubscription(
        now: nat, userId: User, plans: Prices, devices: Option<Devices>, durationMonths: nat, coupon: CouponAnswer)
      returns (outcome: Outcome)
      modifies this
      ensures (State(), outcome) == AdminRenew(old(State()), now, userId, plans, devices, durationMonths, coupon)
    {
      hide BaseAmount, DiscountFor, Renewed, FindActive, Coupons.Max, Months.ExtendBy;
      if userId !in users {
        return NotFound;
      }
      var found := FindActive(subscriptions, userId);
      if found.None? {
        return NotFound;
      }
      var s := subscriptions[found.value];
      if devices.Some? && devices.value.InvalidDevices? {
        return BadRequest;
      }
      var deviceCount := if devices.Some? then devices.value.count else s.deviceCount;
      if s.plan !in plans {
        return NotFound;
      }
      if coupon.RejectedCode? {
        return BadRequest;
      }
      var baseAmount := BaseAmount(deviceCount, plans[s.plan], durationMonths);
      var discountAmount := DiscountFor(coupon, baseAmount);
      subscriptions := subscriptions[found.value :=
          Renewed(s, now, deviceCount, durationMonths, baseAmount, discountAmount)];
      payments := payments +
        [Payment(userId, found.value, baseAmount, discountAmount, Coupons.Max(0.0, baseAmount - discountAmount))];
      return Success(found.value);
    }

    method CancelSubscription(userId: User) returns (outcome: Outcome)
      modifies this
      ensures (State(), outcome) == Cancel(old(State()), userId)
    {
      var found := FindActive(subscriptions, userId);
      if found.None? {
        return NotFound;
      }
      subscriptions := subscriptions[found.value := subscriptions[found.value].(status := Cancelled)];
      users := SetPointer(users, userId, None);
      return Success(found.value);
    }

    method ExpireSubscriptions(now: nat)
      modifies this`subscriptions
      ensures State() == Expire(old(State()), now)
      ensures |subscriptions| == |old(subscriptions)|
      ensures forall i | 0 <= i < |subscriptions| ::
                var s := old(subscriptions)[i];
                subscriptions[i] == if s.status == Active && s.endDate < now then s.(status := Expired) else s
    {
      UpdateMany((s: Subscription) => s.status == Active && s.endDate < now, Expired);
    }
  }
}
