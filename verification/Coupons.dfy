/**
  Coupon counting: subscribe, create and renew calls that read a coupon, then increment its use count in one
  conditional update, and later store a payment record, as processes that interleave at every await.
*/
module Coupons {
  import opened Prelude

  type Code = string

  datatype DiscountType = Percent | Fixed

  datatype Plan = Monthly | Yearly

  datatype Coupon = Coupon(
    discountType: DiscountType, discountValue: real, applicablePlans: seq<Plan>,
    maxUsage: int, usedCount: int, expiresAt: int, isActive: bool)

  datatype Stage =
    | Reading
    | Validated(coupon: Coupon)   // the copy that was read
    | Applied(discount: real)     // the use count is incremented
    | Paid
    | Lost                        // failed after the increment
    | Refused                     // failed before it

  datatype Call = Call(code: Code, plan: Plan, basePrice: real, stage: Stage)

  datatype Payment = Payment(code: Code, baseAmount: real, discountAmount: real, amount: real)

  datatype Shop = Shop(now: int, coupons: map<Code, Coupon>, calls: seq<Call>, payments: seq<Payment>)

  datatype Event =
    | Tick(now: int)
    | Edit(code: Code, coupon: Coupon)
    | Begin(code: Code, plan: Plan, basePrice: real)
    | Read(call: nat)
    | Increment(call: nat)
    | Pay(call: nat)
    | Fail(call: nat)             // the process throws, for instance on a duplicate key

  /** Edits leave the bound and the counter alone. */
  predicate Enabled(g: Shop, e: Event) {
    match e
    case Tick(now) => now >= g.now
    case Edit(code, c) =>
      code in g.coupons && c.maxUsage == g.coupons[code].maxUsage && c.usedCount == g.coupons[code].usedCount
    case Begin(_, _, base) => base >= 0.0
    case Read(p) => p < |g.calls| && g.calls[p].stage == Reading
    case Increment(p) => p < |g.calls| && g.calls[p].stage.Validated?
    case Pay(p) => p < |g.calls| && g.calls[p].stage.Applied?
    case Fail(p) => p < |g.calls| && !Over(g.calls[p].stage)
  }

  predicate Over(st: Stage) {
    st.Paid? || st.Lost? || st.Refused?
  }

  function Min(a: real, b: real): real {
    if a < b then a else b
  }

  function Max(a: real, b: real): real {
    if a < b then b else a
  }

  /** calculateDiscountAmount. */
  function Discount(t: DiscountType, value: real, base: real): (d: real)
    ensures base >= 0.0 && value >= 0.0 ==> 0.0 <= d <= base
  {
    Min(base, if t == Percent then base * value / 100.0 else value)
  }

  /** The checks of validateAndApplyCoupon before the update. */
  predicate Usable(c: Coupon, plan: Plan, now: int) {
    c.isActive && c.expiresAt >= now && (c.applicablePlans == [] || plan in c.applicablePlans)
  }

  function SetStage(g: Shop, p: nat, st: Stage): Shop
    requires p < |g.calls|
  {
    g.(calls := g.calls[p := g.calls[p].(stage := st)])
  }

  function Step(g: Shop, e: Event): Shop
    requires Enabled(g, e)
  {
    match e
    case Tick(now) => g.(now := now)
    case Edit(code, c) => g.(coupons := g.coupons[code := c])
    case Begin(code, plan, base) => g.(calls := g.calls + [Call(code, plan, base, Reading)])
    case Read(p) =>
      var code := g.calls[p].code;
      if code in g.coupons && Usable(g.coupons[code], g.calls[p].plan, g.now) then
        SetStage(g, p, Validated(g.coupons[code]))
      else SetStage(g, p, Refused)
    case Increment(p) =>
      var code := g.calls[p].code;
      if code in g.coupons && g.coupons[code].isActive && g.coupons[code].usedCount < g.coupons[code].maxUsage then
        var read := g.calls[p].stage.coupon;
        SetStage(g, p, Applied(Discount(read.discountType, read.discountValue, g.calls[p].basePrice)))
          .(coupons := g.coupons[code := g.coupons[code].(usedCount := g.coupons[code].usedCount + 1)])
      else SetStage(g, p, Refused)
    case Pay(p) =>
      var c := g.calls[p];
      SetStage(g, p, Paid)
        .(payments := g.payments + [Payment(c.code, c.basePrice, c.stage.discount,
            Max(0.0, c.basePrice - c.stage.discount))])
    case Fail(p) => SetStage(g, p, if g.calls[p].stage.Applied? then Lost else Refused)
  }

  class CouponDesk {
    var now: int
    var coupons: map<Code, Coupon>
    var calls: seq<Call>
    var payments: seq<Payment>

    function State(): Shop
      reads this
    {
      Shop(now, coupons, calls, payments)
    }

    constructor (now: int, coupons: map<Code, Coupon>)
      ensures State() == Shop(now, coupons, [], [])
    {
      this.now, this.coupons, calls, payments := now, coupons, [], [];
    }

    method ValidateCoupon(p: nat)
      requires Enabled(State(), Read(p))
      modifies this
      ensures State() == Step(old(State()), Read(p))
    {
      var call := calls[p];
      if call.code !in coupons || !coupons[call.code].isActive {
        calls := calls[p := call.(stage := Refused)];
        return;
      }
      var coupon := coupons[call.code];
      if coupon.expiresAt < now || (coupon.applicablePlans != [] && call.plan !in coupon.applicablePlans) {
        calls := calls[p := call.(stage := Refused)];
      } else {
        calls := calls[p := call.(stage := Validated(coupon))];
      }
    }

    /** The conditional findOneAndUpdate, and the discount worked out after it. */
    method IncrementUsage(p: nat)
      requires Enabled(State(), Increment(p))
      modifies this
      ensures State() == Step(old(State()), Increment(p))
    {
      var call := calls[p];
      if call.code in coupons && coupons[call.code].isActive
          && coupons[call.code].usedCount < coupons[call.code].maxUsage {
        var found := coupons[call.code];
        coupons := coupons[call.code := found.(usedCount := found.usedCount + 1)];
        var read := call.stage.coupon;
        calls := calls[p := call.(stage := Applied(Discount(read.discountType, read.discountValue, call.basePrice)))];
      } else {
        calls := calls[p := call.(stage := Refused)];
      }
    }

    method CreatePaymentRecord(p: nat)
      requires Enabled(State(), Pay(p))
      modifies this
      ensures State() == Step(old(State()), Pay(p))
    {
      var call := calls[p];
      var discount := call.stage.discount;
      payments := payments + [Payment(call.code, call.basePrice, discount, Max(0.0, call.basePrice - discount))];
      calls := calls[p := call.(stage := Paid)];
    }
  }

  // Counting.

  predicate Spent(c: Call, code: Code) {
    c.code == code && (c.stage.Applied? || c.stage.Paid? || c.stage.Lost?)
  }

  predicate HasPaid(c: Call, code: Code) {
    c.code == code && c.stage.Paid?
  }

  /** Increments made on the code so far, and payment records that carry it. */
  function Increments(g: Shop, code: Code): nat {
    Count(g.calls, c => Spent(c, code))
  }

  function PaidCalls(g: Shop, code: Code): nat {
    Count(g.calls, c => HasPaid(c, code))
  }

  function Payments(g: Shop, code: Code): nat {
    Count(g.payments, (p: Payment) => p.code == code)
  }

  /** Relative to the coupons at the start: the counter has moved by the increments and respects the bound. */
  ghost predicate Counted(start: map<Code, Coupon>, g: Shop, code: Code) {
    && code in start && code in g.coupons
    && g.coupons[code].maxUsage == start[code].maxUsage
    && g.coupons[code].usedCount == start[code].usedCount + Increments(g, code)
    && (g.coupons[code].usedCount <= g.coupons[code].maxUsage || g.coupons[code].usedCount == start[code].usedCount)
    && Payments(g, code) == PaidCalls(g, code)
  }

  /** What a step does to the counts of a code. */
  lemma CountsAfter(g: Shop, e: Event, code: Code)
    requires Enabled(g, e)
    ensures var g' := Step(g, e);
            && Increments(g', code) - Increments(g, code) == (if Increments1(g, e, code) then 1 else 0)
            && PaidCalls(g', code) - PaidCalls(g, code) == (if e.Pay? && g.calls[e.call].code == code then 1 else 0)
            && Payments(g', code) - Payments(g, code) == (if e.Pay? && g.calls[e.call].code == code then 1 else 0)
  {
    hide Count;
    var g' := Step(g, e);
    match e
    case Tick(_) =>
    case Edit(_, _) =>
    case Begin(_, _, _) =>
      CallsAdded(g, g'.calls[|g.calls|], code);
    case Read(p) => CallChanged(g, p, g'.calls[p], code);
    case Increment(p) => CallChanged(g, p, g'.calls[p], code);
    case Pay(p) =>
      CallChanged(g, p, g'.calls[p], code);
      var payment := g'.payments[|g.payments|];
      CountConcat(g.payments, [payment], (p: Payment) => p.code == code);
      CountOne(payment, (p: Payment) => p.code == code);
    case Fail(p) => CallChanged(g, p, g'.calls[p], code);
  }

  /** The step is a successful increment of the code. */
  predicate Increments1(g: Shop, e: Event, code: Code)
    requires Enabled(g, e)
  {
    && e.Increment? && g.calls[e.call].code == code && code in g.coupons && g.coupons[code].isActive
    && g.coupons[code].usedCount < g.coupons[code].maxUsage
  }

  lemma CallChanged(g: Shop, p: nat, c: Call, code: Code)
    requires p < |g.calls|
    ensures var g' := g.(calls := g.calls[p := c]);
            && Increments(g', code) == Increments(g, code) - (if Spent(g.calls[p], code) then 1 else 0)
                + (if Spent(c, code) then 1 else 0)
            && PaidCalls(g', code) == PaidCalls(g, code) - (if HasPaid(g.calls[p], code) then 1 else 0)
                + (if HasPaid(c, code) then 1 else 0)
  {
    hide Count;
    CountUpdate(g.calls, p, c, c => Spent(c, code));
    CountUpdate(g.calls, p, c, c => HasPaid(c, code));
  }

  lemma CallsAdded(g: Shop, c: Call, code: Code)
    requires c.stage == Reading
    ensures var g' := g.(calls := g.calls + [c]);
            Increments(g', code) == Increments(g, code) && PaidCalls(g', code) == PaidCalls(g, code)
  {
    hide Count;
    CountConcat(g.calls, [c], c => Spent(c, code));
    CountConcat(g.calls, [c], c => HasPaid(c, code));
    CountOne(c, c => Spent(c, code));
    CountOne(c, c => HasPaid(c, code));
  }

  lemma CountedPreserved(start: map<Code, Coupon>, g: Shop, e: Event, code: Code)
    requires Counted(start, g, code) && Enabled(g, e)
    ensures Counted(start, Step(g, e), code)
  {
    CountsAfter(g, e, code);
    hide Increments, PaidCalls, Payments;
  }

  // Whole runs.

  ghost predicate IsRun(g: Shop, events: seq<Event>)
    decreases |events|
  {
    events == [] || (Enabled(g, events[0]) && IsRun(Step(g, events[0]), events[1..]))
  }

  function Run(g: Shop, events: seq<Event>): Shop
    requires IsRun(g, events)
    decreases |events|
  {
    if events == [] then g else Run(Step(g, events[0]), events[1..])
  }

  lemma {:induction false} RunKeepsCounted(start: map<Code, Coupon>, g: Shop, events: seq<Event>, code: Code)
    requires Counted(start, g, code) && IsRun(g, events)
    ensures Counted(start, Run(g, events), code)
    decreases |events|
  {
    if events != [] {
      CountedPreserved(start, g, events[0], code);
      hide Counted, Step, Enabled;
      RunKeepsCounted(start, Step(g, events[0]), events[1..], code);
    }
  }

  /**
    After any interleaving of any number of calls, the payment records that carry the code are at most the
    increments made, and those never take the counter past the bound, though the read and the increment are apart.
  */
  lemma NeverOverspent(now: int, coupons: map<Code, Coupon>, events: seq<Event>, code: Code)
    requires code in coupons && coupons[code].usedCount <= coupons[code].maxUsage
    requires IsRun(Shop(now, coupons, [], []), events)
    ensures var g := Run(Shop(now, coupons, [], []), events);
            && code in g.coupons
            && Payments(g, code) <= Increments(g, code)
            && g.coupons[code].usedCount == coupons[code].usedCount + Increments(g, code)
            && g.coupons[code].usedCount <= coupons[code].maxUsage
            && (Payments(g, code) == Increments(g, code) <==>
                forall i | 0 <= i < |g.calls| && g.calls[i].code == code :: !g.calls[i].stage.Applied?
                    && !g.calls[i].stage.Lost?)
  {
    var g0 := Shop(now, coupons, [], []);
    assert Counted(coupons, g0, code);
    RunKeepsCounted(coupons, g0, events, code);
    var g := Run(g0, events);
    PaidAgainstSpent(g, code);
    hide Run, Increments, Payments, PaidCalls;
  }

  lemma PaidAgainstSpent(g: Shop, code: Code)
    ensures PaidCalls(g, code) <= Increments(g, code)
    ensures PaidCalls(g, code) == Increments(g, code) <==>
            forall i | 0 <= i < |g.calls| && g.calls[i].code == code :: !g.calls[i].stage.Applied?
                && !g.calls[i].stage.Lost?
  {
    hide Count;
    CountWeaker(g.calls, c => HasPaid(c, code), c => Spent(c, code));
  }

  // One use of a coupon.

  /** A call goes on exactly when the coupon is there, active, in date and for the plan; nothing else is changed. */
  lemma ReadExactly(g: Shop, p: nat)
    requires Enabled(g, Read(p))
    ensures var g', call := Step(g, Read(p)), g.calls[p];
            var usable := && call.code in g.coupons && g.coupons[call.code].isActive
                          && g.now <= g.coupons[call.code].expiresAt
                          && (|g.coupons[call.code].applicablePlans| == 0
                              || exists i :: 0 <= i < |g.coupons[call.code].applicablePlans|
                                   && g.coupons[call.code].applicablePlans[i] == call.plan);
            && g' == g.(calls := g.calls[p := call.(stage := g'.calls[p].stage)])
            && (usable ==> g'.calls[p].stage == Validated(g.coupons[call.code]))
            && (!usable ==> g'.calls[p].stage == Refused)
  {
  }

  /** A use is counted exactly when the coupon is still there, active and below its bound by then. */
  lemma IncrementExactly(g: Shop, p: nat)
    requires Enabled(g, Increment(p))
    ensures var g', call, code := Step(g, Increment(p)), g.calls[p], g.calls[p].code;
            var counts := code in g.coupons && g.coupons[code].isActive
                && g.coupons[code].usedCount < g.coupons[code].maxUsage;
            && g'.coupons.Keys == g.coupons.Keys && g'.payments == g.payments && g'.now == g.now
            && (forall other | other in g.coupons && other != code :: g'.coupons[other] == g.coupons[other])
            && (code in g.coupons ==>
                  g'.coupons[code] == g.coupons[code].(usedCount := g.coupons[code].usedCount
                      + (if counts then 1 else 0)))
            && (g'.calls[p].stage.Applied? <==> counts) && (g'.calls[p].stage.Refused? <==> !counts)
            && (forall q | 0 <= q < |g.calls| && q != p :: g'.calls[q] == g.calls[q])
  {
  }
}
