/** Which schedules can run dry when both the date and the weekday are restricted: one calendar cycle decides. */
module CronCycle {
  import opened Basics
  import opened Calendar
  import opened CronFields
  import opened CronSearch
  import opened CronCoverage

  /** The Gregorian calendar repeats, weekdays included, after 400 years. */
  const CYCLE_YEARS := 400
  const CYCLE_DAYS := 146097
  const CYCLE_MINUTES := CYCLE_DAYS * MINUTES_PER_DAY

  lemma LeapCountShift(y: int)
    ensures LeapCount(y + CYCLE_YEARS) == LeapCount(y) + 97
  {
    DivMod(y + 400, 4, y / 4 + 100, y % 4);
    DivMod(y + 400, 100, y / 100 + 4, y % 100);
    DivMod(y + 400, 400, y / 400 + 1, y % 400);
  }

  lemma LeapShift(year: int)
    ensures IsLeap(year + CYCLE_YEARS) <==> IsLeap(year)
  {
    DivMod(year + 400, 4, year / 4 + 100, year % 4);
    DivMod(year + 400, 100, year / 100 + 4, year % 100);
    DivMod(year + 400, 400, year / 400 + 1, year % 400);
  }

  lemma DaysShift(year: int)
    requires 1 <= year
    ensures DaysBeforeYear(year + CYCLE_YEARS) == DaysBeforeYear(year) + CYCLE_DAYS
  {
    DaysBeforeYearClosedForm(year);
    DaysBeforeYearClosedForm(year + CYCLE_YEARS);
    var leaps, later := LeapCount(year - 1), LeapCount(year - 1 + CYCLE_YEARS);
    assert later == leaps + 97 by {
      LeapCountShift(year - 1);
    }
    assert year + CYCLE_YEARS - 1 == year - 1 + CYCLE_YEARS;
  }

  lemma YearShift(year: int)
    requires 1 <= year
    ensures DaysBeforeYear(year + CYCLE_YEARS) == DaysBeforeYear(year) + CYCLE_DAYS
    ensures IsLeap(year + CYCLE_YEARS) <==> IsLeap(year)
  {
    LeapShift(year);
    DaysShift(year);
  }

  function ShiftedDate(d: Date): CivilDate {
    CivilDate(d.year + CYCLE_YEARS, d.month, d.day)
  }

  function Shifted(t: Moment): (r: Moment) {
    YearShift(t.date.year);
    Moment(ShiftedDate(t.date), t.hour, t.minute)
  }

  /** The same reading a cycle later falls on the same weekday. */
  lemma ShiftKeepsReading(f: Fields, t: Moment)
    requires ValidMoment(t)
    ensures ValidMoment(Shifted(t)) && Stamp(Shifted(t)) == Stamp(t) + CYCLE_MINUTES
    ensures FieldsMatch(Shifted(t), f) <==> FieldsMatch(t, f)
  {
    YearShift(t.date.year);
    MonthStartShift(t.date.year + CYCLE_YEARS, t.date.year, t.date.month);
    assert Ordinal(Shifted(t).date) == Ordinal(t.date) + CYCLE_DAYS;
    DivMod(Ordinal(t.date) + 6 + CYCLE_DAYS, 7, (Ordinal(t.date) + 6) / 7 + 20871, (Ordinal(t.date) + 6) % 7);
  }

  /** A schedule fires at a minute exactly when it fires a cycle later. */
  lemma FiringRepeats(f: Fields, n: int)
    requires MINUTES_PER_DAY <= n
    ensures FiresAt(f, n) <==> FiresAt(f, n + CYCLE_MINUTES)
  {
    var now := At(n);
    ShiftKeepsReading(f, now);
    SameStampSameReading(f, n, now);
    SameStampSameReading(f, n + CYCLE_MINUTES, Shifted(now));
  }

  /** Whether a minute fires is decided by any reading of it. */
  lemma SameStampSameReading(f: Fields, n: int, t: Moment)
    requires ValidMoment(t) && Stamp(t) == n
    ensures FiresAt(f, n) <==> FieldsMatch(t, f)
  {
    FiresAtReading(f, n);
    AtStamp(t);
  }

  lemma FiringSoonRepeats(f: Fields, start: int)
    requires MINUTES_PER_DAY <= start
    ensures FiresSoon(f, start) <==> FiresSoon(f, start + CYCLE_MINUTES)
  {
    if FiresSoon(f, start) {
      var n :| start <= n <= start + MAX_LOOKAHEAD && FiresAt(f, n);
      FiringRepeats(f, n);
      assert FiresAt(f, n + CYCLE_MINUTES);
    }
    if FiresSoon(f, start + CYCLE_MINUTES) {
      var n :| start + CYCLE_MINUTES <= n <= start + CYCLE_MINUTES + MAX_LOOKAHEAD && FiresAt(f, n);
      FiringRepeats(f, n - CYCLE_MINUTES);
      assert FiresAt(f, n - CYCLE_MINUTES);
    }
  }

  /** Every start in the first cycle has a firing in its window. */
  ghost predicate CoversCycle(f: Fields) {
    forall start :: MINUTES_PER_DAY <= start < MINUTES_PER_DAY + CYCLE_MINUTES ==> FiresSoon(f, start)
  }

  lemma {:induction false} CycleSuffices(f: Fields, start: int)
    requires CoversCycle(f) && MINUTES_PER_DAY <= start
    ensures FiresSoon(f, start)
    decreases start
  {
    if MINUTES_PER_DAY + CYCLE_MINUTES <= start {
      CycleSuffices(f, start - CYCLE_MINUTES);
      FiringSoonRepeats(f, start - CYCLE_MINUTES);
    }
  }

  lemma NeverRaisesMeansSoon(f: Fields, start: int)
    requires NeverRaises(f) && MINUTES_PER_DAY <= start
    ensures FiresSoon(f, start)
  {
    var after := (start - 1) * MICROS_PER_MINUTE;
    assert StartMinute(0, after) == start;
    var hit := FirstMatch(Schedule(f), start, start + MAX_LOOKAHEAD);
    assert hit.Some?;
    ScheduleAt(f, hit.value);
  }

  /** For any schedule, whatever it restricts: it never raises exactly when one 400-year cycle has no dry start. */
  lemma OneCycleDecides(f: Fields)
    ensures NeverRaises(f) <==> CoversCycle(f)
  {
    if NeverRaises(f) {
      forall start | MINUTES_PER_DAY <= start < MINUTES_PER_DAY + CYCLE_MINUTES ensures FiresSoon(f, start) {
        NeverRaisesMeansSoon(f, start);
      }
    } else if CoversCycle(f) {
      forall start | MINUTES_PER_DAY <= start ensures FiresSoon(f, start) {
        CycleSuffices(f, start);
      }
      NeverRaisesWhen(f);
    }
  }

  // --- Friday the 13th ---

  /** Days before each month of a common year. */
  function MonthStart(month: int): int
    requires 1 <= month <= 12
  {
    [0, 31, 59, 90, 120, 151, 181, 212, 243, 273, 304, 334][month - 1]
  }

  lemma MonthStarts(year: int, month: int)
    requires 1 <= month <= 12
    ensures DaysBeforeMonth(year, month) == MonthStart(month) + if 3 <= month && IsLeap(year) then 1 else 0
    decreases month
  {
    if month > 1 {
      MonthStarts(year, month - 1);
    }
  }

  /** A common year that begins on a Friday, before a leap year, as 1999 was. */
  predicate DryYear(year: int) {
    1 <= year && !IsLeap(year) && IsLeap(year + 1) && DaysBeforeYear(year) % 7 == 4
  }

  lemma WeekdayOfThirteenth(before: int, start: int, r: int)
    requires before % 7 == r
    ensures (before + start + 13 + 6) % 7 == (r + start + 19) % 7
  {
    DivMod(before + start + 19, 7, before / 7 + (r + start + 19) / 7, (r + start + 19) % 7);
  }

  /** From September of such a year to August of the next, no 13th is a Friday. */
  lemma NoFridayThirteenth(year: int, d: Date)
    requires DryYear(year) && d.day == 13
    requires (d.year == year && 9 <= d.month) || (d.year == year + 1 && d.month <= 8)
    ensures Weekday(d) != 4
  {
    var before := DaysBeforeYear(year);
    MonthStarts(d.year, d.month);
    var start := DaysBeforeMonth(d.year, d.month);
    if d.year == year {
      WeekdayOfThirteenth(before, start, 4);
    } else {
      assert DaysBeforeYear(year + 1) == before + 365;
      DivMod(before + 365, 7, before / 7 + 52, 5);
      WeekdayOfThirteenth(before + 365, start, 5);
    }
  }

  /** The window of 366 days from 14 August of a year before a leap year ends on 14 August. */
  lemma AugustToAugust(year: int)
    requires 1 <= year && !IsLeap(year) && IsLeap(year + 1)
    ensures Ordinal(CivilDate(year + 1, 8, 14)) == Ordinal(CivilDate(year, 8, 14)) + 366
  {
    MonthStarts(year, 8);
    MonthStarts(year + 1, 8);
    assert DaysBeforeYear(year + 1) == DaysBeforeYear(year) + 365;
  }

  lemma DayOfStamp(u: Moment, day: int, span: int)
    requires ValidMoment(u) && day * MINUTES_PER_DAY <= Stamp(u) <= (day + span) * MINUTES_PER_DAY
    ensures day <= Ordinal(u.date) <= day + span
  {
  }

  lemma BetweenAugusts(year: int, d: Date)
    requires 1 <= year && !IsLeap(year) && IsLeap(year + 1) && d.day == 13
    requires Ordinal(CivilDate(year, 8, 14)) <= Ordinal(d) <= Ordinal(CivilDate(year, 8, 14)) + 366
    ensures (d.year == year && 9 <= d.month) || (d.year == year + 1 && d.month <= 8)
  {
    AugustToAugust(year);
    OrdinalOrder(d, CivilDate(year, 8, 14));
    OrdinalOrder(CivilDate(year + 1, 8, 14), d);
  }

  lemma InAugustWindow(year: int, start: int, u: Moment)
    requires DryYear(year) && start == Ordinal(CivilDate(year, 8, 14)) * MINUTES_PER_DAY
    requires ValidMoment(u) && u.date.day == 13 && start <= Stamp(u) <= start + MAX_LOOKAHEAD
    ensures (Weekday(u.date) + 1) % 7 != 5
  {
    DayOfStamp(u, Ordinal(CivilDate(year, 8, 14)), 366);
    BetweenAugusts(year, u.date);
    NoFridayThirteenth(year, u.date);
  }

  /** The search from 14 August of such a year finds no Friday the 13th. */
  lemma FridayThirteenthRunsDry(f: Fields, year: int, start: int)
    requires DryYear(year) && start == Ordinal(CivilDate(year, 8, 14)) * MINUTES_PER_DAY
    requires f.day == {13} && f.weekday == {5}
    ensures !FiresSoon(f, start)
  {
    if n :| start <= n <= start + MAX_LOOKAHEAD && FiresAt(f, n) {
      var u: Moment :| ValidMoment(u) && Stamp(u) == n && FieldsMatch(u, f);
      InAugustWindow(year, start, u);
    }
  }

  /** Where the weekday cycle is anchored: 1 January 2000 is a Saturday. */
  lemma YearTwoThousand(year: int)
    requires year == 2000
    ensures Weekday(CivilDate(year, 1, 1)) == 5
  {
    DaysBeforeYearClosedForm(year);
  }

  lemma YearNineteenNinetyNine(year: int)
    requires year == 1999
    ensures DryYear(year)
  {
    DaysBeforeYearClosedForm(year);
  }

  /** So a schedule for Friday the 13th raises from some starts. */
  lemma FridayThirteenthRaises(f: Fields, year: int)
    requires f.day == {13} && f.weekday == {5} && year == 1999
    ensures DryYear(year) && !NeverRaises(f)
  {
    YearNineteenNinetyNine(year);
    var start := Ordinal(CivilDate(year, 8, 14)) * MINUTES_PER_DAY;
    FridayThirteenthRunsDry(f, year, start);
    DateOfOrdinal(CivilDate(year, 8, 14));
    if NeverRaises(f) {
      NeverRaisesMeansSoon(f, start);
    }
  }
}
