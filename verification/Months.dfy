/**
  Month arithmetic of subscription end dates: Date.prototype.setMonth and MakeDay (section 21.4 of ECMA-262), in UTC,
  for times from 1970 on. Day numbers count days since 1 January 1970.
*/
module Months {

  const MS_PER_DAY := 86400000

  predicate Leap(year: int) {
    year % 4 == 0 && (year % 100 != 0 || year % 400 == 0)
  }

  // The three leap-year terms of DayFromYear; Dafny's division by a positive number is the floor.

  function Fours(year: int): int {
    (year - 1969) / 4
  }

  function Hundreds(year: int): int {
    (year - 1901) / 100
  }

  function FourHundreds(year: int): int {
    (year - 1601) / 400
  }

  /** DayFromYear of ECMA-262. */
  function DayFromYear(year: int): int {
    365 * (year - 1970) + Fours(year) - Hundreds(year) + FourHundreds(year)
  }

  const MONTH_LENGTHS := [31, 28, 31, 30, 31, 30, 31, 31, 30, 31, 30, 31]
  const MONTH_OFFSETS := [0, 31, 59, 90, 120, 151, 181, 212, 243, 273, 304, 334]

  /** The length of month number month (0 to 11) of the year. */
  function MonthLength(year: int, month: int): (n: int)
    requires 0 <= month < 12
    ensures 28 <= n <= 31
  {
    MONTH_LENGTHS[month] + (if month == 1 && Leap(year) then 1 else 0)
  }

  /** MakeDay of ECMA-262: month may lie outside 0 to 11 and date outside the month. */
  function MakeDay(year: int, month: int, date: int): int {
    var ym, mn := year + month / 12, month % 12;
    DayFromYear(ym) + MONTH_OFFSETS[mn] + (if mn > 1 && Leap(ym) then 1 else 0) + date - 1
  }

  // A month of the calendar as one number: 12 * year + month.

  function MonthStart(k: int): int {
    MakeDay(k / 12, k % 12, 1)
  }

  function Length(k: int): (n: int)
    ensures 28 <= n <= 31
  {
    MonthLength(k / 12, k % 12)
  }

  lemma FoursStep(year: int)
    ensures Fours(year + 1) - Fours(year) == if year % 4 == 0 then 1 else 0
  {
  }

  lemma HundredsStep(year: int)
    ensures Hundreds(year + 1) - Hundreds(year) == if year % 100 == 0 then 1 else 0
  {
  }

  lemma FourHundredsStep(year: int)
    ensures FourHundreds(year + 1) - FourHundreds(year) == if year % 400 == 0 then 1 else 0
  {
  }

  lemma CenturiesAreFours(year: int)
    ensures year % 100 == 0 ==> year % 4 == 0
    ensures year % 400 == 0 ==> year % 100 == 0
  {
  }

  lemma YearLength(year: int)
    ensures DayFromYear(year + 1) - DayFromYear(year) == if Leap(year) then 366 else 365
  {
    FoursStep(year);
    HundredsStep(year);
    FourHundredsStep(year);
    CenturiesAreFours(year);
    hide Fours, Hundreds, FourHundreds;
  }

  lemma NextInYear(year: int, month: nat)
    requires month < 11
    ensures MakeDay(year, month + 1, 1) == MakeDay(year, month, 1) + MonthLength(year, month)
  {
    hide DayFromYear;
  }

  lemma NextYear(year: int)
    ensures MakeDay(year + 1, 0, 1) == MakeDay(year, 11, 1) + MonthLength(year, 11)
  {
    YearLength(year);
    hide DayFromYear, Leap;
  }

  lemma MonthDigits(k: int)
    ensures (k + 1) / 12 == (if k % 12 == 11 then k / 12 + 1 else k / 12)
    ensures (k + 1) % 12 == (if k % 12 == 11 then 0 else k % 12 + 1)
  {
  }

  lemma NextMonthStart(k: int)
    ensures MonthStart(k + 1) == MonthStart(k) + Length(k)
  {
    MonthDigits(k);
    hide MakeDay, MonthLength;
    if k % 12 == 11 {
      NextYear(k / 12);
    } else {
      NextInYear(k / 12, k % 12);
    }
  }

  lemma EpochMonths()
    ensures MonthStart(12 * 1970) == 0 && MonthStart(12 * 1970 + 1) == 31 && MonthStart(12 * 1970 + 2) == 59
    ensures MonthStart(12 * 1970 + 3) == 90
  {
    EpochYear();
    hide MakeDay, MonthLength, DayFromYear;
    NextMonthStart(12 * 1970);
    NextMonthStart(12 * 1970 + 1);
    NextMonthStart(12 * 1970 + 2);
  }

  lemma EpochYear()
    ensures MakeDay(1970, 0, 1) == 0 && MonthLength(1970, 0) == 31 && MonthLength(1970, 1) == 28
            && MonthLength(1970, 2) == 31
  {
    assert Fours(1970) == Hundreds(1970) == FourHundreds(1970) == 0;
    hide DayFromYear;
    assert DayFromYear(1970) == 0 by { EpochYearStart(); }
    hide Fours, Hundreds, FourHundreds;
  }

  lemma EpochYearStart()
    ensures DayFromYear(1970) == 0
  {
  }

  /** The month a day lies in: YearFromTime and MonthFromTime as one number. */
  function MonthOf(day: nat): (k: int)
    ensures MonthStart(k) <= day < MonthStart(k + 1)
  {
    EpochMonths();
    hide MonthStart, MonthFrom;
    MonthFrom(day, 12 * 1970)
  }

  function MonthFrom(day: nat, k: int): (r: int)
    requires MonthStart(k) <= day
    ensures MonthStart(r) <= day < MonthStart(r + 1)
    decreases day - MonthStart(k)
  {
    hide MonthStart, Length;
    NextMonthStart(k);
    if day < MonthStart(k + 1) then k else MonthFrom(day, k + 1)
  }

  /** endDate.setMonth(endDate.getMonth() + n) on the day number: same date, n months on, overflowing into the next. */
  function AddMonths(day: nat, n: nat): int {
    var k := MonthOf(day);
    var year, month, date := k / 12, k % 12, day - MonthStart(k) + 1;
    MakeDay(year, month + n, date)
  }

  lemma AddMonthsMovesStart(day: nat, n: nat)
    ensures AddMonths(day, n) == MonthStart(MonthOf(day) + n) + (day - MonthStart(MonthOf(day)))
  {
    hide MonthOf, DayFromYear, Leap;
    DigitsAdd(MonthOf(day), n);
  }

  lemma DigitsAdd(k: int, n: nat)
    ensures k / 12 + (k % 12 + n) / 12 == (k + n) / 12
    ensures (k % 12 + n) % 12 == (k + n) % 12
  {
    var x := k % 12 + n;
    assert k + n == 12 * (k / 12) + x;
  }

  /** The summed lengths of n months from month k on. */
  function Lengths(k: int, n: nat): nat {
    if n == 0 then 0 else Lengths(k, n - 1) + Length(k + n - 1)
  }

  lemma {:induction false} StartsApart(k: int, n: nat)
    ensures MonthStart(k + n) == MonthStart(k) + Lengths(k, n)
  {
    hide MonthStart, Length;
    if n > 0 {
      StartsApart(k, n - 1);
      NextMonthStart(k + n - 1);
    }
  }

  /** Adding n months moves the end by the lengths of the n months from its own month. */
  lemma AddMonthsIsSumOfLengths(day: nat, n: nat)
    ensures AddMonths(day, n) == day + Lengths(MonthOf(day), n)
  {
    AddMonthsMovesStart(day, n);
    StartsApart(MonthOf(day), n);
    hide AddMonths, MonthOf, MonthStart;
  }

  /** More months, a later end; no months, the same one. */
  lemma AddMonthsStrictlyIncreases(day: nat, m: nat, n: nat)
    requires m < n
    ensures day <= AddMonths(day, m) < AddMonths(day, n)
  {
    AddMonthsIsSumOfLengths(day, m);
    AddMonthsIsSumOfLengths(day, n);
    LengthsIncrease(MonthOf(day), m, n);
    hide AddMonths, MonthOf;
  }

  lemma {:induction false} LengthsIncrease(k: int, m: nat, n: nat)
    requires m < n
    ensures Lengths(k, m) + 28 * (n - m) <= Lengths(k, n) <= Lengths(k, m) + 31 * (n - m)
    decreases n - m
  {
    hide Length;
    if m + 1 < n {
      LengthsIncrease(k, m, n - 1);
    }
  }

  /** But a later start need not give a later end: a month on from 31 January is 3 March, from 1 February 1 March. */
  lemma LaterStartEarlierEnd()
    ensures AddMonths(30, 1) > AddMonths(31, 1)
  {
    hide AddMonths, MonthOf, MonthStart;
    EpochMonths();
    MonthIs(30, 12 * 1970);
    MonthIs(31, 12 * 1970 + 1);
    AddMonthsMovesStart(30, 1);
    AddMonthsMovesStart(31, 1);
  }

  /** A day lies in one month only. */
  lemma MonthIs(day: nat, k: int)
    requires MonthStart(k) <= day < MonthStart(k + 1)
    ensures MonthOf(day) == k
  {
    var r := MonthOf(day);
    hide MonthOf, MonthStart;
    if r < k {
      StartsIncrease(r + 1, k);
    } else if k < r {
      StartsIncrease(k + 1, r);
    }
  }

  /** How many days into its month the day is. */
  function DayInMonth(day: nat): nat {
    day - MonthStart(MonthOf(day))
  }

  /**
    A later start gives an earlier end exactly when it lies in the next month and earlier in it by more days than the
    month that the first end belongs to has.
  */
  lemma LaterStartEarlierEndExactly(a: nat, b: nat, n: nat)
    requires a < b
    ensures AddMonths(a, n) > AddMonths(b, n) <==>
            MonthOf(b) == MonthOf(a) + 1 && DayInMonth(a) - DayInMonth(b) > Length(MonthOf(a) + n)
  {
    hide AddMonths, MonthOf, MonthStart, Length, DayInMonth;
    AddMonthsFromStart(a, n);
    AddMonthsFromStart(b, n);
    var k, m := MonthOf(a), MonthOf(b);
    if m < k {
      StartsIncrease(m + 1, k);
    } else if m == k + 1 {
      NextMonthStart(k + n);
    } else if k + 1 < m {
      NextMonthStart(k + n);
      NextMonthStart(k + n + 1);
      StartsIncrease(k + n + 2, m + n);
    }
  }

  lemma AddMonthsFromStart(day: nat, n: nat)
    ensures var k, d := MonthOf(day), DayInMonth(day);
            && day == MonthStart(k) + d < MonthStart(k + 1) && d < 31
            && AddMonths(day, n) == MonthStart(k + n) + d
  {
    hide AddMonths, MonthOf, MonthStart, Length;
    AddMonthsMovesStart(day, n);
    NextMonthStart(MonthOf(day));
  }

  lemma StartsIncrease(a: int, b: int)
    requires a <= b
    ensures MonthStart(a) <= MonthStart(b)
  {
    hide MonthStart;
    StartsApart(a, b - a);
  }

  // Renewals.

  function Total(ns: seq<nat>): nat {
    if ns == [] then 0 else ns[0] + Total(ns[1..])
  }

  /** Renewals by ns[0], ns[1], ... months, each from the end date that the one before it left. */
  function Renew(day: nat, ns: seq<nat>): nat
    decreases |ns|
  {
    if ns == [] then day
    else
      AddMonthsIsSumOfLengths(day, ns[0]);
      Renew(AddMonths(day, ns[0]), ns[1..])
  }

  /** A day at most 28th of its month stays on its date. */
  lemma {:induction false} EarlyDatesNeverDrift(day: nat, ns: seq<nat>)
    requires day - MonthStart(MonthOf(day)) < 28
    ensures Renew(day, ns) == AddMonths(day, Total(ns))
    decreases |ns|
  {
    hide AddMonths, MonthOf, MonthStart, Length;
    var k := MonthOf(day);
    var d := day - MonthStart(k);
    AddMonthsMovesStart(day, Total(ns));
    if ns != [] {
      var n := ns[0];
      AddMonthsMovesStart(day, n);
      AddMonthsIsSumOfLengths(day, n);
      var next := AddMonths(day, n);
      NextMonthStart(k + n);
      MonthIs(next, k + n);
      EarlyDatesNeverDrift(next, ns[1..]);
      AddMonthsMovesStart(next, Total(ns[1..]));
    } else {
      AddMonthsIsSumOfLengths(day, 0);
    }
  }

  /**
    Split renewals end where one renewal of all the months ends, unless a renewal on the way lands past the end of a
    month j that is too short for the date; then they differ by the final month's length less that of month j.
  */
  lemma {:induction false} RenewalDrift(day: nat, ns: seq<nat>) returns (j: int)
    ensures var k, final := MonthOf(day), MonthOf(day) + Total(ns);
            && k <= j <= final
            && Renew(day, ns) - AddMonths(day, Total(ns)) == Length(final) - Length(j)
            && (j < final ==> Length(j) <= day - MonthStart(k) < Length(k))
    decreases |ns|
  {
    hide AddMonths, MonthOf, MonthStart, Length;
    var k := MonthOf(day);
    var d := day - MonthStart(k);
    AddMonthsMovesStart(day, Total(ns));
    NextMonthStart(k);
    if ns == [] {
      AddMonthsIsSumOfLengths(day, 0);
      j := k;
      return;
    }
    var n, rest := ns[0], Total(ns[1..]);
    AddMonthsMovesStart(day, n);
    AddMonthsIsSumOfLengths(day, n);
    var next := AddMonths(day, n);
    NextMonthStart(k + n);
    NextMonthStart(k + n + 1);
    if d < Length(k + n) {
      MonthIs(next, k + n);
      j := RenewalDrift(next, ns[1..]);
      AddMonthsMovesStart(next, rest);
    } else {
      MonthIs(next, k + n + 1);
      EarlyDatesNeverDrift(next, ns[1..]);
      AddMonthsMovesStart(next, rest);
      NextMonthStart(k + n + rest);
      j := k + n;
    }
  }

  /** Three days are reached: a month on from 31 January 1970 and a month on from there is 3 April, not 31 March. */
  lemma ThreeDaysReached()
    ensures Renew(30, [1, 1]) == AddMonths(30, 2) + 3
  {
    hide AddMonths, MonthOf, MonthStart;
    EpochMonths();
    MonthIs(30, 12 * 1970);
    AddMonthsMovesStart(30, 1);
    AddMonthsMovesStart(30, 2);
    var next := AddMonths(30, 1);
    MonthIs(next, 12 * 1970 + 2);
    AddMonthsMovesStart(next, 1);
    AddMonthsIsSumOfLengths(30, 1);
    AddMonthsIsSumOfLengths(next, 1);
    assert [1, 1][1..] == [1];
    assert Renew(next, [1]) == Renew(AddMonths(next, 1), []);
    assert Renew(30, [1, 1]) == Renew(next, [1]);
  }

  // Times in milliseconds.

  function ExtendBy(t: nat, months: nat): nat {
    AddMonthsIsSumOfLengths(t / MS_PER_DAY, months);
    AddMonths(t / MS_PER_DAY, months) * MS_PER_DAY + t % MS_PER_DAY
  }

  /** Renewals made before expiry, each of which extends the end date left by the one before. */
  function ExtendAll(t: nat, ns: seq<nat>): nat
    decreases |ns|
  {
    if ns == [] then t else ExtendAll(ExtendBy(t, ns[0]), ns[1..])
  }

  lemma {:induction false} ExtendAllIsRenew(t: nat, ns: seq<nat>)
    ensures ExtendAll(t, ns) == Renew(t / MS_PER_DAY, ns) * MS_PER_DAY + t % MS_PER_DAY
    decreases |ns|
  {
    hide AddMonths, MonthOf, Lengths;
    if ns != [] {
      var next := ExtendBy(t, ns[0]);
      AddMonthsIsSumOfLengths(t / MS_PER_DAY, ns[0]);
      Digits(AddMonths(t / MS_PER_DAY, ns[0]), t % MS_PER_DAY);
      ExtendAllIsRenew(next, ns[1..]);
    }
  }

  lemma Digits(day: nat, ms: nat)
    requires ms < MS_PER_DAY
    ensures (day * MS_PER_DAY + ms) / MS_PER_DAY == day && (day * MS_PER_DAY + ms) % MS_PER_DAY == ms
  {
  }

  /** However the months are split into renewals before expiry, the end moves at most 2 days back or 3 days on. */
  lemma SplitRenewalsStayWithinThreeDays(t: nat, ns: seq<nat>)
    ensures -2 * MS_PER_DAY <= ExtendAll(t, ns) - ExtendBy(t, Total(ns)) <= 3 * MS_PER_DAY
  {
    hide AddMonths, Renew, ExtendAll, Length, MonthOf, Total;
    ExtendAllIsRenew(t, ns);
    var _ := RenewalDrift(t / MS_PER_DAY, ns);
  }

  /** Extending by at least a month ends at least 28 days later, at the same time of day. */
  lemma ExtendByMovesForward(t: nat, months: nat)
    requires months > 0
    ensures ExtendBy(t, months) - t >= 28 * months * 86400000
    ensures ExtendBy(t, months) % 86400000 == t % 86400000
  {
    hide AddMonths, MonthOf;
    var day := t / MS_PER_DAY;
    AddMonthsIsSumOfLengths(day, months);
    LengthsIncrease(MonthOf(day), 0, months);
    assert Lengths(MonthOf(day), 0) == 0;
    hide Lengths;
    Digits(AddMonths(day, months), t % MS_PER_DAY);
    assert ExtendBy(t, months) - t == Lengths(MonthOf(day), months) * MS_PER_DAY;
  }

  /** The months of the Gregorian calendar. */
  lemma GregorianMonths(year: int, month: nat)
    requires month < 12
    ensures MonthLength(year, month) ==
            match month
            case 1 => if year % 400 == 0 || (year % 4 == 0 && year % 100 != 0) then 29 else 28
            case 3 => 30
            case 5 => 30
            case 8 => 30
            case 10 => 30
            case _ => 31
  {
  }
}
