/** The proleptic Gregorian calendar that Python's `datetime` counts in, and the minute axis built on it. */
module Calendar {
  import opened Basics

  const MINUTES_PER_DAY := 1440

  predicate IsLeap(year: int) {
    year % 4 == 0 && (year % 100 != 0 || year % 400 == 0)
  }

  function DaysInMonth(year: int, month: int): (n: int)
    requires 1 <= month <= 12
    ensures 28 <= n <= 31
    ensures n == 29 ==> month == 2 && IsLeap(year)
  {
    if month == 2 then (if IsLeap(year) then 29 else 28)
    else if month == 4 || month == 6 || month == 9 || month == 11 then 30
    else 31
  }

  function YearLength(year: int): int {
    if IsLeap(year) then 366 else 365
  }

  /** Days of `year` before the first of `month`; `month == 13` is the end of the year. */
  function DaysBeforeMonth(year: int, month: int): int
    requires 1 <= month <= 13
  {
    if month == 1 then 0 else DaysBeforeMonth(year, month - 1) + DaysInMonth(year, month - 1)
  }

  function DaysBeforeYear(year: int): int
    requires 1 <= year
  {
    if year == 1 then 0 else DaysBeforeYear(year - 1) + YearLength(year - 1)
  }

  datatype CivilDate = CivilDate(year: int, month: int, day: int)

  predicate ValidDate(d: CivilDate) {
    1 <= d.year && 1 <= d.month <= 12 && 1 <= d.day <= DaysInMonth(d.year, d.month)
  }

  type Date = d: CivilDate | ValidDate(d) witness CivilDate(1, 1, 1)

  /** `date.toordinal()`: 1 January of year 1 is day 1. */
  function Ordinal(d: Date): int {
    DaysBeforeYear(d.year) + DaysBeforeMonth(d.year, d.month) + d.day
  }

  /** The day after `d`: the next day, else the next month, else the next year. */
  function NextDate(d: Date): Date {
    if d.day < DaysInMonth(d.year, d.month) then CivilDate(d.year, d.month, d.day + 1)
    else if d.month < 12 then CivilDate(d.year, d.month + 1, 1)
    else CivilDate(d.year + 1, 1, 1)
  }

  predicate Before(a: Date, b: Date) {
    a.year < b.year
    || (a.year == b.year && (a.month < b.month || (a.month == b.month && a.day < b.day)))
  }

  lemma YearEnd(year: int)
    ensures DaysBeforeMonth(year, 13) == YearLength(year)
  {
    assert DaysBeforeMonth(year, 3) == DaysBeforeMonth(year, 2) + DaysInMonth(year, 2);
    assert DaysBeforeMonth(year, 5) == DaysBeforeMonth(year, 4) + 30;
    assert DaysBeforeMonth(year, 7) == DaysBeforeMonth(year, 6) + 30;
    assert DaysBeforeMonth(year, 9) == DaysBeforeMonth(year, 8) + 31;
    assert DaysBeforeMonth(year, 11) == DaysBeforeMonth(year, 10) + 31;
    assert DaysBeforeMonth(year, 13) == DaysBeforeMonth(year, 12) + 31;
  }

  lemma {:induction false} MonthsAdvance(year: int, a: int, b: int)
    requires 1 <= a < b <= 13
    ensures DaysBeforeMonth(year, a) + DaysInMonth(year, a) <= DaysBeforeMonth(year, b)
    decreases b
  {
    if a + 1 < b {
      MonthsAdvance(year, a, b - 1);
    }
  }

  lemma {:induction false} YearsAdvance(a: int, b: int)
    requires 1 <= a < b
    ensures DaysBeforeYear(a) + YearLength(a) <= DaysBeforeYear(b)
    decreases b
  {
    if a + 1 < b {
      YearsAdvance(a, b - 1);
    }
  }

  /** A day lies inside its own year. */
  lemma OrdinalInYear(d: Date)
    ensures DaysBeforeYear(d.year) < Ordinal(d) <= DaysBeforeYear(d.year) + YearLength(d.year)
  {
    MonthsAdvance(d.year, d.month, 13);
    YearEnd(d.year);
    if d.month > 1 {
      MonthsAdvance(d.year, 1, d.month);
    }
  }

  lemma OrdinalGrows(a: Date, b: Date)
    requires Before(a, b)
    ensures Ordinal(a) < Ordinal(b)
  {
    if a.year < b.year {
      OrdinalInYear(a);
      OrdinalInYear(b);
      YearsAdvance(a.year, b.year);
    } else if a.month < b.month {
      MonthsAdvance(a.year, a.month, b.month);
    }
  }

  /** Counting days preserves and reflects calendar order, so `Ordinal` is injective. */
  lemma OrdinalOrder(a: Date, b: Date)
    ensures Before(a, b) <==> Ordinal(a) < Ordinal(b)
    ensures a == b <==> Ordinal(a) == Ordinal(b)
  {
    if Before(a, b) {
      OrdinalGrows(a, b);
    } else if Before(b, a) {
      OrdinalGrows(b, a);
    }
  }

  lemma NextDateSucceeds(d: Date)
    ensures Ordinal(NextDate(d)) == Ordinal(d) + 1
  {
    YearEnd(d.year);
  }

  /** The date with a given ordinal (`date.fromordinal`), reached by stepping from day 1. */
  function DateOf(n: int): (d: Date)
    requires 1 <= n
    ensures Ordinal(d) == n
  {
    if n == 1 then CivilDate(1, 1, 1)
    else
      var p := DateOf(n - 1);
      NextDateSucceeds(p);
      NextDate(p)
  }

  lemma DateOfOrdinal(d: Date)
    ensures 1 <= Ordinal(d) && DateOf(Ordinal(d)) == d
  {
    OrdinalInYear(d);
    if d.year > 1 {
      YearsAdvance(1, d.year);
    }
    OrdinalOrder(DateOf(Ordinal(d)), d);
  }

  /** Leap years among the first `y` years. */
  function LeapCount(y: int): int {
    y / 4 - y / 100 + y / 400
  }

  lemma LeapCountStep(y: int)
    ensures LeapCount(y) == LeapCount(y - 1) + (if IsLeap(y) then 1 else 0)
  {
    QuotientStep(y, 4);
    QuotientStep(y, 100);
    QuotientStep(y, 400);
    assert y % 100 == 0 ==> y % 4 == 0;
    assert y % 400 == 0 ==> y % 100 == 0;
  }

  /** The closed form Python uses for the days before a year equals the year-by-year count. */
  lemma {:induction false} DaysBeforeYearClosedForm(year: int)
    requires 1 <= year
    ensures DaysBeforeYear(year) == (year - 1) * 365 + LeapCount(year - 1)
  {
    if year > 1 {
      DaysBeforeYearClosedForm(year - 1);
      LeapCountStep(year - 1);
    }
  }

  lemma QuotientStep(y: int, k: int)
    requires 1 < k
    ensures y / k == (y - 1) / k + (if y % k == 0 then 1 else 0)
  {
    var q, r := (y - 1) / k, (y - 1) % k;
    if r + 1 < k {
      DivMod(y, k, q, r + 1);
    } else {
      assert y == q * k + k == (q + 1) * k;
      DivMod(y, k, q + 1, 0);
    }
  }

  /** A wall-clock reading to the minute. */
  datatype Moment = Moment(date: Date, hour: int, minute: int)

  predicate ValidMoment(t: Moment) {
    0 <= t.hour < 24 && 0 <= t.minute < 60
  }

  /** Whole minutes on one axis; comparing stamps is comparing datetimes of one zone. */
  function Stamp(t: Moment): int {
    Ordinal(t.date) * MINUTES_PER_DAY + t.hour * 60 + t.minute
  }

  /** The wall-clock reading at a minute of the axis. */
  function At(n: int): (t: Moment)
    requires MINUTES_PER_DAY <= n
    ensures ValidMoment(t) && Stamp(t) == n
  {
    Moment(DateOf(n / MINUTES_PER_DAY), n % MINUTES_PER_DAY / 60, n % 60)
  }

  lemma AtStamp(t: Moment)
    requires ValidMoment(t)
    ensures MINUTES_PER_DAY <= Stamp(t) && At(Stamp(t)) == t
  {
    DateOfOrdinal(t.date);
    assert Stamp(t) / MINUTES_PER_DAY == Ordinal(t.date);
  }

  /** `weekday()`: Monday is 0. */
  function Weekday(d: Date): int {
    (Ordinal(d) + 6) % 7
  }
}
