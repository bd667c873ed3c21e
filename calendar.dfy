/**
  Proleptic-Gregorian calendar dates and the day arithmetic that JavaScript's
  `Date` performs on them (section 21.4.1 of ECMA-262: DayFromYear, MakeDay),
  restricted to whole days in UTC.

  A date is a (year, month, day) triple with months numbered 1..12.  Every date
  has a day number, the count of days since 1970-01-01; comparing two `Date`
  objects with `<=` in JavaScript compares their time values, which for
  midnight-UTC dates is comparing their day numbers.
 */
module Calendar {

  datatype CivilDate = CivilDate(year: int, month: int, day: int)

  /** The 4/100/400 leap-year rule. */
  predicate IsLeapYear(y: int) {
    y % 4 == 0 && (y % 100 != 0 || y % 400 == 0)
  }

  function DaysInMonth(y: int, m: int): (n: int)
    requires 1 <= m <= 12
    ensures 28 <= n <= 31
    ensures n == 28 <==> m == 2 && !IsLeapYear(y)
    ensures n == 29 <==> m == 2 && IsLeapYear(y)
    ensures n == 30 <==> m in {4, 6, 9, 11}
    ensures n == 31 <==> m in {1, 3, 5, 7, 8, 10, 12}
  {
    var common := [31, 28, 31, 30, 31, 30, 31, 31, 30, 31, 30, 31];
    common[m - 1] + (if m == 2 && IsLeapYear(y) then 1 else 0)
  }

  predicate ValidDate(d: CivilDate) {
    1 <= d.month <= 12 && 1 <= d.day <= DaysInMonth(d.year, d.month)
  }

  /** A calendar date that exists. */
  type Date = d: CivilDate | ValidDate(d) witness CivilDate(1970, 1, 1)

  /** The month after (y, m), carrying into the next year after December. */
  function NextMonth(y: int, m: int): (r: (int, int))
    requires 1 <= m <= 12
    ensures 1 <= r.1 <= 12
    ensures 12 * r.0 + r.1 == 12 * y + m + 1
  {
    if m == 12 then (y + 1, 1) else (y, m + 1)
  }

  /**
    Day number of January 1st of year y (DayFromYear of ECMA-262).  Every
    division has a positive divisor, so Dafny's `/` is the floor the standard
    asks for.
   */
  function DayFromYear(y: int): int {
    365 * (y - 1970) + (y - 1969) / 4 - (y - 1901) / 100 + (y - 1601) / 400
  }

  /** Days in year y before the first of month m. */
  function DaysBeforeMonth(y: int, m: int): int
    requires 1 <= m <= 12
  {
    var common := [0, 31, 59, 90, 120, 151, 181, 212, 243, 273, 304, 334];
    common[m - 1] + (if m > 2 && IsLeapYear(y) then 1 else 0)
  }

  /** Day number of the first day of month m of year y. */
  function MonthStart(y: int, m: int): int
    requires 1 <= m <= 12
  {
    DayFromYear(y) + DaysBeforeMonth(y, m)
  }

  function DayNumber(d: Date): int {
    MonthStart(d.year, d.month) + d.day - 1
  }

  /** Lexicographic order on (year, month, day): the order of the calendar. */
  predicate CalendarBefore(a: CivilDate, b: CivilDate) {
    a.year < b.year
    || (a.year == b.year && a.month < b.month)
    || (a.year == b.year && a.month == b.month && a.day < b.day)
  }

  /**
    A number that grows with the calendar order (months have at most 31 days,
    years 12 months): the measure that loops over dates decrease.
   */
  function Rank(d: CivilDate): int {
    384 * d.year + 32 * d.month + d.day
  }

  lemma RankOrder(a: Date, b: Date)
    ensures CalendarBefore(a, b) ==> Rank(a) < Rank(b)
  {
  }

  /**
    The JavaScript comparison `a <= b` on two dates.  JavaScript compares time
    values; OnOrBeforeIsTimeOrder proves that, for dates that exist, this is
    the calendar order used here.
   */
  predicate OnOrBefore(a: CivilDate, b: CivilDate) {
    !CalendarBefore(b, a)
  }

  // ---------------------------------------------------------------------------
  // Lengths of years and months agree with the day numbers

  lemma DivStep(a: int, k: int)
    requires k > 0
    ensures (a + 1) / k == a / k + (if (a + 1) % k == 0 then 1 else 0)
  {
    var q, r := a / k, a % k;
    assert a == k * q + r && 0 <= r < k;
    if r == k - 1 {
      assert a + 1 == k * (q + 1);
      DivExact(a + 1, k, q + 1);
    } else {
      DivRemainder(a + 1, k, q, r + 1);
    }
  }

  lemma DivExact(n: int, k: int, q: int)
    requires k > 0 && n == k * q
    ensures n / k == q && n % k == 0
  {
    DivRemainder(n, k, q, 0);
  }

  /** Quotient and remainder are the only ones with `n == k * q + r` and `0 <= r < k`. */
  lemma DivRemainder(n: int, k: int, q: int, r: int)
    requires k > 0 && n == k * q + r && 0 <= r < k
    ensures n / k == q && n % k == r
  {
    var q', r' := n / k, n % k;
    assert k * (q - q') == r' - r;
    if q < q' {
      MulAtLeast(k, q' - q);
    } else if q' < q {
      MulAtLeast(k, q - q');
    }
  }

  lemma MulAtLeast(k: int, j: int)
    requires k > 0 && j >= 1
    ensures k * j >= k
  {
  }

  /** Stepping DayFromYear by one year adds the length of that year. */
  lemma YearLength(y: int)
    ensures DayFromYear(y + 1) - DayFromYear(y) == if IsLeapYear(y) then 366 else 365
  {
    DivStepAt(y, 4, 492);
    DivStepAt(y, 100, 19);
    DivStepAt(y, 400, 4);
    Divisibility(y);
  }

  /** A multiple of 400 is one of 100, and a multiple of 100 is one of 4. */
  lemma Divisibility(y: int)
    ensures y % 400 == 0 ==> y % 100 == 0
    ensures y % 100 == 0 ==> y % 4 == 0
  {
    if y % 400 == 0 {
      DivExact(y, 100, 4 * (y / 400));
    }
    if y % 100 == 0 {
      DivExact(y, 4, 25 * (y / 100));
    }
  }

  /** The count of multiples of k, shifted by k * c, grows by one exactly at the multiples of k. */
  lemma DivStepAt(y: int, k: int, c: int)
    requires k > 0
    ensures (y - k * c) / k == (y - k * c - 1) / k + (if y % k == 0 then 1 else 0)
  {
    DivStep(y - k * c - 1, k);
    ShiftedRemainder(y, k, c);
  }

  lemma ShiftedRemainder(y: int, k: int, c: int)
    requires k > 0
    ensures (y - k * c) % k == 0 <==> y % k == 0
  {
    var q, r := y / k, y % k;
    DivRemainder(y - k * c, k, q - c, r);
  }

  /** The month after (y, m) starts DaysInMonth(y, m) days after (y, m) does. */
  lemma NextMonthStart(y: int, m: int)
    requires 1 <= m <= 12
    ensures MonthStart(NextMonth(y, m).0, NextMonth(y, m).1) == MonthStart(y, m) + DaysInMonth(y, m)
  {
    if m == 12 {
      YearLength(y);
    }
  }

  /** A later month starts no earlier than the end of an earlier one. */
  lemma {:induction false} MonthStartMonotone(y1: int, m1: int, y2: int, m2: int)
    requires 1 <= m1 <= 12 && 1 <= m2 <= 12
    requires 12 * y1 + m1 < 12 * y2 + m2
    ensures MonthStart(y2, m2) >= MonthStart(y1, m1) + DaysInMonth(y1, m1)
    decreases 12 * y2 + m2 - 12 * y1 - m1
  {
    var (py, pm) := if m2 == 1 then (y2 - 1, 12) else (y2, m2 - 1);
    assert NextMonth(py, pm) == (y2, m2);
    NextMonthStart(py, pm);
    if 12 * py + pm != 12 * y1 + m1 {
      MonthStartMonotone(y1, m1, py, pm);
    } else {
      assert py == y1 && pm == m1;
    }
  }

  /** The day-number order of dates is the calendar order. */
  lemma DayNumberOrder(a: Date, b: Date)
    ensures DayNumber(a) < DayNumber(b) <==> CalendarBefore(a, b)
    ensures DayNumber(a) == DayNumber(b) <==> a == b
  {
    if 12 * a.year + a.month < 12 * b.year + b.month {
      MonthStartMonotone(a.year, a.month, b.year, b.month);
    } else if 12 * b.year + b.month < 12 * a.year + a.month {
      MonthStartMonotone(b.year, b.month, a.year, a.month);
    } else {
      assert a.year == b.year && a.month == b.month;
    }
  }

  /** Comparing two dates as JavaScript does, by their time values, is OnOrBefore. */
  lemma OnOrBeforeIsTimeOrder(a: Date, b: Date)
    ensures OnOrBefore(a, b) <==> DayNumber(a) <= DayNumber(b)
  {
    DayNumberOrder(b, a);
  }

  // ---------------------------------------------------------------------------
  // MakeDay: a year, a month and a day-of-month that may run past the month's end

  /**
    The date `d - 1` days after the first of month m of year y, found by moving
    an overflowing day-of-month into the following months.  This is what
    `setDate`, `setMonth` and `setFullYear` do with a day-of-month the target
    month does not have (MakeDay in ECMA-262).
   */
  function MakeDate(y: int, m: int, d: int): Date
    requires 1 <= m <= 12 && d >= 1
    decreases d
  {
    if d <= DaysInMonth(y, m) then CivilDate(y, m, d)
    else
      var next := NextMonth(y, m);
      MakeDate(next.0, next.1, d - DaysInMonth(y, m))
  }

  /** MakeDate lands on the day MakeDay of ECMA-262 computes: d - 1 days after the month's first. */
  lemma {:induction false} MakeDateDayNumber(y: int, m: int, d: int)
    requires 1 <= m <= 12 && d >= 1
    ensures DayNumber(MakeDate(y, m, d)) == MonthStart(y, m) + d - 1
    decreases d
  {
    if d > DaysInMonth(y, m) {
      var next := NextMonth(y, m);
      NextMonthStart(y, m);
      MakeDateDayNumber(next.0, next.1, d - DaysInMonth(y, m));
    }
  }

  /** `date.setDate(date.getDate() + n)`. */
  function AddDays(d: Date, n: int): Date
    requires d.day + n >= 1
  {
    MakeDate(d.year, d.month, d.day + n)
  }

  /** Adding n days adds n to the day number: the day arithmetic of the calendar. */
  lemma AddDaysDayNumber(d: Date, n: int)
    requires d.day + n >= 1
    ensures DayNumber(AddDays(d, n)) == DayNumber(d) + n
  {
    MakeDateDayNumber(d.year, d.month, d.day + n);
  }

  /**
    The month n months after (y, m): `setMonth(getMonth() + n)` works on
    0-based months and carries `floor(month / 12)` into the year.
   */
  function MonthsLater(y: int, m: int, n: int): (r: (int, int))
    requires 1 <= m <= 12
    ensures 1 <= r.1 <= 12
    ensures 12 * r.0 + r.1 == 12 * y + m + n
  {
    var total := m - 1 + n;
    (y + total / 12, total % 12 + 1)
  }

  /**
    Moving a day-of-month into a target month: the same day when the month has
    it, otherwise the overflow lands in the month after (never clamped to the
    month's last day, never skipped).
   */
  lemma MakeDateOverflow(y: int, m: int, day: int)
    requires 1 <= m <= 12 && 1 <= day <= 31
    ensures day <= DaysInMonth(y, m) ==> MakeDate(y, m, day) == CivilDate(y, m, day)
    ensures day > DaysInMonth(y, m) ==>
      MakeDate(y, m, day) == CivilDate(NextMonth(y, m).0, NextMonth(y, m).1, day - DaysInMonth(y, m))
  {
    if day > DaysInMonth(y, m) {
      var next := NextMonth(y, m);
      assert day - DaysInMonth(y, m) <= 3 <= DaysInMonth(next.0, next.1);
    }
  }

  /** `date.setMonth(date.getMonth() + n)`. */
  function AddMonths(d: Date, n: int): Date {
    var t := MonthsLater(d.year, d.month, n);
    MakeDate(t.0, t.1, d.day)
  }

  /**
    Adding months keeps the day-of-month when the target month has it;
    otherwise the surplus days run into the month after the target.
   */
  lemma AddMonthsOverflow(d: Date, n: int)
    ensures var t := MonthsLater(d.year, d.month, n);
      if d.day <= DaysInMonth(t.0, t.1) then AddMonths(d, n) == CivilDate(t.0, t.1, d.day)
      else AddMonths(d, n) == CivilDate(NextMonth(t.0, t.1).0, NextMonth(t.0, t.1).1, d.day - DaysInMonth(t.0, t.1))
  {
    var t := MonthsLater(d.year, d.month, n);
    MakeDateOverflow(t.0, t.1, d.day);
  }

  /** `date.setFullYear(date.getFullYear() + n)`. */
  function AddYears(d: Date, n: int): Date {
    MakeDate(d.year + n, d.month, d.day)
  }

  /**
    Adding years keeps month and day, except that February 29th becomes
    March 1st in a year that is not a leap year.
   */
  lemma AddYearsOverflow(d: Date, n: int)
    ensures if d.day <= DaysInMonth(d.year + n, d.month) then AddYears(d, n) == CivilDate(d.year + n, d.month, d.day)
      else AddYears(d, n) == CivilDate(d.year + n, 3, 1)
  {
    MakeDateOverflow(d.year + n, d.month, d.day);
  }

  /** Adding a positive number of days moves a date strictly forward. */
  lemma AddDaysAdvances(d: Date, n: int)
    requires n >= 1
    ensures CalendarBefore(d, AddDays(d, n))
  {
    AddDaysDayNumber(d, n);
    DayNumberOrder(d, AddDays(d, n));
  }

  /** Adding a positive number of months moves a date strictly forward. */
  lemma AddMonthsAdvances(d: Date, n: int)
    requires n >= 1
    ensures CalendarBefore(d, AddMonths(d, n))
  {
    AddMonthsOverflow(d, n);
  }

  /** Adding a positive number of years moves a date strictly forward. */
  lemma AddYearsAdvances(d: Date, n: int)
    requires n >= 1
    ensures CalendarBefore(d, AddYears(d, n))
  {
    AddYearsOverflow(d, n);
  }
}
