/** Days and dates: the access log's loop from a day count to a date, and the certificate
    checker's loop from a date to a day count. */
module Calendar {

  predicate IsLeap(year: nat) {
    (year % 4 == 0 && year % 100 != 0) || year % 400 == 0
  }

  function YearDays(year: nat): nat {
    if IsLeap(year) then 366 else 365
  }

  const MONTHS: seq<nat> := [31, 28, 31, 30, 31, 30, 31, 31, 30, 31, 30, 31]

  function MonthDays(year: nat, month: nat): nat
    requires 1 <= month <= 12
  {
    if month == 2 && IsLeap(year) then 29 else MONTHS[month - 1]
  }

  function DaysBeforeYear(year: nat): nat {
    if year <= 1970 then 0 else DaysBeforeYear(year - 1) + YearDays(year - 1)
  }

  function DaysBeforeMonth(year: nat, month: nat): nat
    requires month <= 13
  {
    if month <= 1 then 0 else DaysBeforeMonth(year, month - 1) + MonthDays(year, month - 1)
  }

  datatype Date = Date(year: nat, month: nat, day: nat) {
    predicate Valid() {
      1970 <= year && 1 <= month <= 12 && 1 <= day <= MonthDays(year, month)
    }

    /** Earlier in the calendar. */
    predicate Before(d: Date) {
      year < d.year || (year == d.year && (month < d.month || (month == d.month && day < d.day)))
    }
  }

  /** Days from 1 January 1970 to the date. */
  function DaysOf(d: Date): nat
    requires d.month <= 13 && 1 <= d.day
  {
    DaysBeforeYear(d.year) + DaysBeforeMonth(d.year, d.month) + d.day - 1
  }

  /** From a day count to the one date with that count. */
  method UnixDaysToDate(days: nat) returns (d: Date)
    ensures d.Valid() && DaysOf(d) == days
    ensures forall e: Date :: e.Valid() && DaysOf(e) == days ==> e == d
    ensures d.year <= 1970 + days / 365
  {
    d := FindDate(days);
    forall e: Date | e.Valid() && DaysOf(e) == days
      ensures e == d
    {
      DaysOrderDates(e, d);
    }
  }

  method FindDate(days: nat) returns (d: Date)
    ensures d.Valid() && DaysOf(d) == days
    ensures d.year <= 1970 + days / 365
  {
    var remaining, year := days, 1970;
    while remaining >= YearDays(year)
      invariant 0 <= remaining && 1970 <= year && DaysBeforeYear(year) + remaining == days
      invariant 365 * (year - 1970) <= days - remaining
      decreases remaining
    {
      remaining := remaining - YearDays(year);
      year := year + 1;
    }
    YearBound(year - 1970, days);
    var month := 1;
    WholeYear(year);
    while month <= 12 && remaining >= MonthDays(year, month)
      invariant 1 <= month <= 13 && 0 <= remaining
      invariant DaysBeforeYear(year) + DaysBeforeMonth(year, month) + remaining == days
      invariant DaysBeforeMonth(year, month) + remaining < YearDays(year)
    {
      remaining := remaining - MonthDays(year, month);
      month := month + 1;
    }
    d := Date(year, month, remaining + 1);
  }

  /** From a date and a time of day to seconds. The source's month table has twelve entries,
      and its day count starts at one. */
  method SecondsOf(year: nat, month: nat, day: nat, hour: nat, minute: nat, second: nat) returns (epoch: nat)
    requires month <= 13 && 1 <= day
    ensures epoch == DaysOf(Date(year, month, day)) * 86400 + hour * 3600 + minute * 60 + second
  {
    var total := 0;
    var y := 1970;
    while y < year
      invariant y == 1970 || y <= year
      invariant total == DaysBeforeYear(y)
    {
      total := total + if IsLeap(y) then 366 else 365;
      y := y + 1;
    }
    assert DaysBeforeYear(y) == DaysBeforeYear(year);
    var m := 1;
    while m < month
      invariant 1 <= m && (m == 1 || m <= month)
      invariant total == DaysBeforeYear(year) + DaysBeforeMonth(year, m)
    {
      total := total + MONTHS[m - 1];
      if m == 2 && IsLeap(year) {
        total := total + 1;
      }
      m := m + 1;
    }
    total := total + (day - 1);
    epoch := total * 86400 + hour * 3600 + minute * 60 + second;
  }

  lemma YearBound(years: nat, days: nat)
    requires 365 * years <= days
    ensures years <= days / 365
  {
  }

  // ---------------------------------------------------------------- the calendar is in order

  lemma WholeYear(year: nat)
    ensures DaysBeforeMonth(year, 13) == YearDays(year)
  {
    assert DaysBeforeMonth(year, 2) == MonthDays(year, 1);
    assert DaysBeforeMonth(year, 3) == MonthDays(year, 1) + MonthDays(year, 2);
    assert DaysBeforeMonth(year, 5) == DaysBeforeMonth(year, 3) + MonthDays(year, 3) + MonthDays(year, 4);
    assert DaysBeforeMonth(year, 7) == DaysBeforeMonth(year, 5) + MonthDays(year, 5) + MonthDays(year, 6);
    assert DaysBeforeMonth(year, 9) == DaysBeforeMonth(year, 7) + MonthDays(year, 7) + MonthDays(year, 8);
    assert DaysBeforeMonth(year, 11) == DaysBeforeMonth(year, 9) + MonthDays(year, 9) + MonthDays(year, 10);
  }

  lemma {:induction false} LaterMonth(year: nat, m: nat, n: nat)
    requires 1 <= m < n <= 13
    ensures DaysBeforeMonth(year, m) + MonthDays(year, m) <= DaysBeforeMonth(year, n)
    decreases n
  {
    if m < n - 1 { LaterMonth(year, m, n - 1); }
  }

  lemma {:induction false} LaterYear(y: nat, z: nat)
    requires 1970 <= y < z
    ensures DaysBeforeYear(y) + YearDays(y) <= DaysBeforeYear(z)
    decreases z
  {
    if y < z - 1 { LaterYear(y, z - 1); }
  }

  lemma DateWithinYear(d: Date)
    requires d.Valid()
    ensures DaysOf(d) < DaysBeforeYear(d.year) + YearDays(d.year)
  {
    LaterMonth(d.year, d.month, 13);
    WholeYear(d.year);
  }

  lemma EarlierIsLess(a: Date, b: Date)
    requires a.Valid() && b.Valid() && a.Before(b)
    ensures DaysOf(a) < DaysOf(b)
  {
    if a.year < b.year {
      DateWithinYear(a);
      LaterYear(a.year, b.year);
    } else if a.month < b.month {
      LaterMonth(a.year, a.month, b.month);
    }
  }

  /** Day counts order dates as the calendar does, so a day count has only one date: the two
      loops are inverse to each other. */
  lemma DaysOrderDates(a: Date, b: Date)
    requires a.Valid() && b.Valid()
    ensures DaysOf(a) < DaysOf(b) <==> a.Before(b)
    ensures DaysOf(a) == DaysOf(b) <==> a == b
  {
    if a.Before(b) {
      EarlierIsLess(a, b);
    } else if b.Before(a) {
      EarlierIsLess(b, a);
    }
  }

  // ---------------------------------------------------------------- the leap-day formula

  function Leaps(year: nat): int {
    year / 4 - year / 100 + year / 400
  }

  lemma NextQuotient(n: nat, k: nat)
    requires k > 0
    ensures (n + 1) / k == n / k + if (n + 1) % k == 0 then 1 else 0
  {
    var q, r := n / k, n % k;
    assert n == k * q + r;
    if r + 1 == k {
      assert n + 1 == k * (q + 1);
      Quotient(n + 1, k, q + 1, 0);
    } else {
      Quotient(n + 1, k, q, r + 1);
    }
  }

  lemma Quotient(n: nat, k: nat, q: int, r: nat)
    requires k > 0 && n == k * q + r && r < k
    ensures n / k == q && n % k == r
  {
    var d := n / k - q;
    assert k * d == r - n % k;
    AtLeastOne(k, d);
  }

  lemma AtLeastOne(k: int, d: int)
    requires k >= 0
    ensures d >= 1 ==> k * d >= k
    ensures d <= -1 ==> k * d <= -k
  {
  }

  lemma Multiple(n: nat, k: nat)
    requires k == 4 || k == 100
    ensures k == 4 && n % 100 == 0 ==> n % 4 == 0
    ensures k == 100 && n % 400 == 0 ==> n % 100 == 0
  {
    if k == 4 && n % 100 == 0 {
      Quotient(n, 4, 25 * (n / 100), 0);
    } else if k == 100 && n % 400 == 0 {
      Quotient(n, 100, 4 * (n / 400), 0);
    }
  }

  lemma OneLeap(year: nat)
    requires year >= 1
    ensures Leaps(year) == Leaps(year - 1) + if IsLeap(year) then 1 else 0
  {
    NextQuotient(year - 1, 4);
    NextQuotient(year - 1, 100);
    NextQuotient(year - 1, 400);
    Multiple(year, 4);
    Multiple(year, 100);
  }

  /** The year loop adds up to the closed formula of the Gregorian calendar. */
  lemma {:induction false} YearLoopFormula(year: nat)
    requires 1970 <= year
    ensures DaysBeforeYear(year) == 365 * (year - 1970) + Leaps(year - 1) - Leaps(1969)
    decreases year
  {
    if year > 1970 {
      YearLoopFormula(year - 1);
      OneLeap(year - 1);
      assert 365 * (year - 1970) == 365 * (year - 1 - 1970) + 365;
    }
  }

  lemma {:induction false} MonthFormula(year: nat, month: nat)
    requires 3 <= month <= 12
    ensures DaysBeforeMonth(year, month) == 59 + (if IsLeap(year) then 1 else 0) + (153 * (month - 3) + 2) / 5
    decreases month
  {
    if month == 3 {
      assert DaysBeforeMonth(year, 2) == 31;
    } else {
      MonthFormula(year, month - 1);
      MonthLength(month - 1);
    }
  }

  /** The lengths of the months from March on follow one straight line. */
  lemma MonthLength(month: nat)
    requires 3 <= month <= 11
    ensures MONTHS[month - 1] == (153 * (month - 2) + 2) / 5 - (153 * (month - 3) + 2) / 5
  {
  }

  /** The day number of every date in closed form, counting years from March. */
  lemma DayNumberFormula(d: Date)
    requires d.Valid()
    ensures var y := if d.month <= 2 then d.year - 1 else d.year;
            var mp := (d.month + 9) % 12;
            DaysOf(d) == 365 * y + y / 4 - y / 100 + y / 400 + (153 * mp + 2) / 5 + d.day - 1 - 719468
  {
    if d.month <= 2 {
      DaysToJanuary(d.year);
      FirstMonths(d.year, d.month);
    } else {
      DaysToMarch(d.year);
      MonthFormula(d.year, d.month);
      assert (d.month + 9) % 12 == d.month - 3;
    }
  }

  lemma FirstMonths(year: nat, month: nat)
    requires 1 <= month <= 2
    ensures (month + 9) % 12 == month + 9
    ensures DaysBeforeMonth(year, month) == (153 * (month + 9) + 2) / 5 - 306
  {
    assert DaysBeforeMonth(year, 2) == 31;
  }

  lemma DaysToJanuary(year: nat)
    requires 1970 <= year
    ensures DaysBeforeYear(year) == 365 * (year - 1) + Leaps(year - 1) + 306 - 719468
  {
    YearLoopFormula(year);
    assert Leaps(1969) == 477;
  }

  lemma DaysToMarch(year: nat)
    requires 1970 <= year
    ensures DaysBeforeYear(year) + 59 + (if IsLeap(year) then 1 else 0) == 365 * year + Leaps(year) - 719468
  {
    DaysToJanuary(year);
    OneLeap(year);
  }

  // ---------------------------------------------------------------- the next day

  function NextDay(d: Date): Date
    requires d.Valid()
  {
    if d.day < MonthDays(d.year, d.month) then Date(d.year, d.month, d.day + 1)
    else if d.month < 12 then Date(d.year, d.month + 1, 1)
    else Date(d.year + 1, 1, 1)
  }

  /** The next day has the next number, over every end of a month or a year. */
  lemma NextDayIsNext(d: Date)
    requires d.Valid()
    ensures NextDay(d).Valid() && DaysOf(NextDay(d)) == DaysOf(d) + 1
  {
    if d.day == MonthDays(d.year, d.month) && d.month == 12 {
      WholeYear(d.year);
      assert DaysBeforeMonth(d.year, 13) == DaysBeforeMonth(d.year, 12) + MonthDays(d.year, 12);
    }
  }
}
