/** What the answers of `next_cron_run` add up to: every firing once, and which schedules can run dry. */
module CronCoverage {
  import opened Basics
  import opened Calendar
  import opened CronFields
  import opened CronSearch

  /** The schedule fires at instant `t`: a whole minute whose wall-clock reading matches. */
  ghost predicate FiresAtInstant(f: Fields, offset: int, t: int) {
    t % MICROS_PER_MINUTE == 0 && FiresAt(f, t / MICROS_PER_MINUTE + offset)
  }

  /** The answer is the least firing instant strictly after `after`; no answer means none within the window. */
  lemma NextFiringIsLeast(f: Fields, offset: int, after: int)
    ensures var r := NextFiring(Schedule(f), offset, after);
      && (r.Some? ==> after < r.value && FiresAtInstant(f, offset, r.value)
                      && r.value / MICROS_PER_MINUTE + offset <= StartMinute(offset, after) + MAX_LOOKAHEAD)
      && (forall t :: after < t && FiresAtInstant(f, offset, t) && (r.Some? ==> t < r.value)
            ==> r.None? && StartMinute(offset, after) + MAX_LOOKAHEAD < t / MICROS_PER_MINUTE + offset)
  {
    var r := NextFiring(Schedule(f), offset, after);
    var start := StartMinute(offset, after);
    var hit := FirstMatch(Schedule(f), start, start + MAX_LOOKAHEAD);
    if hit.Some? {
      ScheduleAt(f, hit.value);
      assert r.value / MICROS_PER_MINUTE == hit.value - offset;
    }
    forall t | after < t && FiresAtInstant(f, offset, t) && (r.Some? ==> t < r.value)
      ensures r.None? && start + MAX_LOOKAHEAD < t / MICROS_PER_MINUTE + offset
    {
      ScheduleAt(f, t / MICROS_PER_MINUTE + offset);
    }
  }

  /** `times` is what a caller gets by passing each answer back as the next `after`. */
  ghost predicate Chain(f: Fields, offset: int, after: int, times: seq<int>)
    decreases |times|
  {
    times == []
    || (NextFiring(Schedule(f), offset, after) == Some(times[0]) && Chain(f, offset, times[0], times[1..]))
  }

  /** Chained answers list, in order and without repetition, exactly the firings up to the last answer. */
  lemma {:induction false} ChainEnumerates(f: Fields, offset: int, after: int, times: seq<int>)
    requires Chain(f, offset, after, times)
    ensures forall i :: 0 <= i < |times| ==> after < times[i]
    ensures forall i, j :: 0 <= i < j < |times| ==> times[i] < times[j]
    ensures times != [] ==>
      forall t :: after < t <= times[|times| - 1] ==> (FiresAtInstant(f, offset, t) <==> t in times)
    decreases |times|
  {
    if times != [] {
      NextFiringIsLeast(f, offset, after);
      ChainEnumerates(f, offset, times[0], times[1..]);
      PrependFirst(t => FiresAtInstant(f, offset, t), after, times[0], times[1..]);
      assert times == [times[0]] + times[1..];
    }
  }

  lemma PrependFirst(fires: int -> bool, after: int, first: int, rest: seq<int>)
    requires after < first && fires(first) && forall t :: after < t < first ==> !fires(t)
    requires forall i :: 0 <= i < |rest| ==> first < rest[i]
    requires rest != [] ==> forall t :: first < t <= rest[|rest| - 1] ==> (fires(t) <==> t in rest)
    ensures var all := [first] + rest; forall t :: after < t <= all[|rest|] ==> (fires(t) <==> t in all)
  {
  }

  // --- schedules that never raise ---

  /** No start instant makes `next_cron_run` raise. */
  ghost predicate NeverRaises(f: Fields) {
    forall offset, after {:trigger StartMinute(offset, after)} ::
      MINUTES_PER_DAY <= StartMinute(offset, after) ==> NextFiring(Schedule(f), offset, after).Some?
  }

  /** Some firing lies within the look-ahead window of every start. */
  lemma NeverRaisesWhen(f: Fields)
    requires forall start :: MINUTES_PER_DAY <= start ==> FiresSoon(f, start)
    ensures NeverRaises(f)
  {
    forall offset, after | MINUTES_PER_DAY <= StartMinute(offset, after)
      ensures NextFiring(Schedule(f), offset, after).Some?
    {
      var start := StartMinute(offset, after);
      assert FiresSoon(f, start);
      var n :| start <= n <= start + MAX_LOOKAHEAD && FiresAt(f, n);
      ScheduleAt(f, n);
    }
  }

  ghost predicate FiresSoon(f: Fields, start: int) {
    exists n :: start <= n <= start + MAX_LOOKAHEAD && FiresAt(f, n)
  }

  /** A year before which only leap years differ: February's extra day, after February. */
  lemma {:induction false} MonthStartShift(a: int, b: int, month: int)
    requires 1 <= month <= 13
    ensures DaysBeforeMonth(a, month) - DaysBeforeMonth(b, month)
         == if month <= 2 then 0 else (if IsLeap(a) then 1 else 0) - (if IsLeap(b) then 1 else 0)
    decreases month
  {
    if month > 1 {
      MonthStartShift(a, b, month - 1);
    }
  }

  const ALL_WEEKDAYS: set<int> := {0, 1, 2, 3, 4, 5, 6}

  /** Some allowed day and month exist together in every year. */
  ghost predicate HasYearlyDate(f: Fields) {
    exists m, d :: m in f.month && d in f.day && 1 <= m <= 12 && 1 <= d <= DaysInMonth(2001, m)
  }

  lemma CommonYearsShortest(year: int, m: int)
    requires 1 <= m <= 12
    ensures DaysInMonth(2001, m) <= DaysInMonth(year, m)
    ensures !IsLeap(year) ==> DaysInMonth(2001, m) == DaysInMonth(year, m)
  {
  }

  lemma YearlyDateComes(f: Fields, start: int)
    requires WellFormed(f) && f.weekday == ALL_WEEKDAYS && HasYearlyDate(f) && MINUTES_PER_DAY <= start
    ensures FiresSoon(f, start)
  {
    var m, d :| m in f.month && d in f.day && 1 <= m <= 12 && 1 <= d <= DaysInMonth(2001, m);
    var hour := Pick(f.hour);
    var minute := Pick(f.minute);
    YearlyDateFrom(f, At(start), m, d, hour, minute);
  }

  lemma YearlyDateFrom(f: Fields, now: Moment, m: int, d: int, hour: int, minute: int)
    requires WellFormed(f) && f.weekday == ALL_WEEKDAYS && ValidMoment(now)
    requires m in f.month && d in f.day && hour in f.hour && minute in f.minute && d <= DaysInMonth(2001, m)
    ensures FiresSoon(f, Stamp(now))
  {
    CommonYearsShortest(now.date.year, m);
    CommonYearsShortest(now.date.year + 1, m);
    var here := Moment(CivilDate(now.date.year, m, d), hour, minute);
    var there := Moment(CivilDate(now.date.year + 1, m, d), hour, minute);
    WithinAYear(now, here, there);
    AnyWeekdayMatches(f, here);
    AnyWeekdayMatches(f, there);
    if Stamp(now) <= Stamp(here) {
      FiresSoonAt(f, Stamp(now), here);
    } else {
      FiresSoonAt(f, Stamp(now), there);
    }
  }

  lemma AnyWeekdayMatches(f: Fields, t: Moment)
    requires f.weekday == ALL_WEEKDAYS
    requires t.minute in f.minute && t.hour in f.hour && t.date.month in f.month && t.date.day in f.day
    ensures FieldsMatch(t, f)
  {
    var w := (Weekday(t.date) + 1) % 7;
    assert 0 <= w < 7;
  }

  lemma FiresSoonAt(f: Fields, start: int, t: Moment)
    requires ValidMoment(t) && FieldsMatch(t, f) && start <= Stamp(t) <= start + MAX_LOOKAHEAD
    ensures FiresSoon(f, start)
  {
    assert FiresAt(f, Stamp(t));
  }

  /** A date that exists this year and next comes round within 366 days of any moment of this year. */
  lemma WithinAYear(now: Moment, here: Moment, there: Moment)
    requires ValidMoment(now) && ValidMoment(here)
    requires here.date.year == now.date.year && there.hour == here.hour && there.minute == here.minute
    requires there.date == CivilDate(here.date.year + 1, here.date.month, here.date.day)
    ensures Stamp(here) <= Stamp(now) + MAX_LOOKAHEAD
    ensures Stamp(now) < Stamp(there) <= Stamp(here) + MAX_LOOKAHEAD
  {
    OrdinalInYear(now.date);
    OrdinalInYear(here.date);
    OrdinalInYear(there.date);
    MonthStartShift(here.date.year + 1, here.date.year, here.date.month);
  }

  lemma StaysInTwoYears(y: int, u: Moment)
    requires ValidMoment(u) && 1 <= y && !IsLeap(y) && !IsLeap(y + 1)
    requires var start := (DaysBeforeYear(y) + 1) * MINUTES_PER_DAY; start <= Stamp(u) <= start + MAX_LOOKAHEAD
    ensures y <= u.date.year <= y + 1
  {
    OrdinalInYear(u.date);
    if u.date.year < y {
      YearsAdvance(u.date.year, y);
    } else if y + 1 < u.date.year {
      YearsAdvance(y, y + 1);
      YearsAdvance(y + 1, u.date.year);
    }
  }

  lemma NoMatchInCommonYears(f: Fields, y: int, u: Moment)
    requires !HasYearlyDate(f) && 1 <= y && !IsLeap(y) && !IsLeap(y + 1)
    requires ValidMoment(u) && y <= u.date.year <= y + 1
    ensures !FieldsMatch(u, f)
  {
    CommonYearsShortest(u.date.year, u.date.month);
  }

  lemma NoYearlyDateRaises(f: Fields, y: int)
    requires !HasYearlyDate(f) && 1 <= y && !IsLeap(y) && !IsLeap(y + 1)
    ensures exists start :: MINUTES_PER_DAY <= start && !FiresSoon(f, start)
  {
    var start := (DaysBeforeYear(y) + 1) * MINUTES_PER_DAY;
    if y > 1 {
      YearsAdvance(1, y);
    }
    if FiresSoon(f, start) {
      var n :| start <= n <= start + MAX_LOOKAHEAD && FiresAt(f, n);
      var u: Moment :| ValidMoment(u) && Stamp(u) == n && FieldsMatch(u, f);
      StaysInTwoYears(y, u);
      NoMatchInCommonYears(f, y, u);
      assert false;
    }
  }

  /** With the weekday unrestricted, a schedule never raises exactly when it allows a date that every year has. */
  lemma UnrestrictedWeekdayNeverRaises(f: Fields)
    requires WellFormed(f) && f.weekday == ALL_WEEKDAYS
    ensures NeverRaises(f) <==> HasYearlyDate(f)
  {
    if HasYearlyDate(f) {
      forall start | MINUTES_PER_DAY <= start ensures FiresSoon(f, start) {
        YearlyDateComes(f, start);
      }
      NeverRaisesWhen(f);
    } else {
      NoYearlyDateRaises(f, 2001);
      var start :| MINUTES_PER_DAY <= start && !FiresSoon(f, start);
      var after := (start - 1) * MICROS_PER_MINUTE;
      assert StartMinute(0, after) == start;
      var r := FirstMatch(Schedule(f), start, start + MAX_LOOKAHEAD);
      if r.Some? {
        ScheduleAt(f, r.value);
      }
    }
  }

  /** With day and month unrestricted, any weekday set comes round within a week. */
  lemma UnrestrictedDateNeverRaises(f: Fields)
    requires WellFormed(f)
    requires forall d :: 1 <= d <= 31 ==> d in f.day
    requires forall m :: 1 <= m <= 12 ==> m in f.month
    ensures NeverRaises(f)
  {
    forall start | MINUTES_PER_DAY <= start ensures FiresSoon(f, start) {
      WeekdayComes(f, start);
    }
    NeverRaisesWhen(f);
  }

  lemma WeekdayOfDate(d: Date)
    ensures (Weekday(d) + 1) % 7 == Ordinal(d) % 7
  {
    SundayShift(Ordinal(d));
  }

  lemma SundayShift(n: int)
    ensures ((n + 6) % 7 + 1) % 7 == n % 7
  {
  }

  lemma DayAndTime(f: Fields, start: int, n: int, hour: int, minute: int)
    requires 1 <= n && 0 <= hour < 24 && 0 <= minute < 60
    requires start / MINUTES_PER_DAY < n <= start / MINUTES_PER_DAY + 7
    requires FieldsMatch(Moment(DateOf(n), hour, minute), f)
    ensures FiresSoon(f, start)
  {
    FiresSoonAt(f, start, Moment(DateOf(n), hour, minute));
  }

  lemma WeekdayComes(f: Fields, start: int)
    requires WellFormed(f) && MINUTES_PER_DAY <= start
    requires forall d :: 1 <= d <= 31 ==> d in f.day
    requires forall m :: 1 <= m <= 12 ==> m in f.month
    ensures FiresSoon(f, start)
  {
    var w := Pick(f.weekday);
    var hour := Pick(f.hour);
    var minute := Pick(f.minute);
    var today := start / MINUTES_PER_DAY;
    var day := today + 1 + (w - today - 1) % 7;
    assert day % 7 == w;
    var t := Moment(DateOf(day), hour, minute);
    WeekdayOfDate(DateOf(day));
    DayAndTime(f, start, day, hour, minute);
  }

  // --- the built-in aliases ---

  datatype Alias = Yearly | Monthly | Weekly | Daily | Hourly

  const ANY: Field := [Part(Star, None)]

  function Only(v: int): Field {
    [Part(Single(v), None)]
  }

  /** `CRON_ALIASES`; `@annually` and `@midnight` repeat `@yearly` and `@daily`. */
  function AliasExpression(a: Alias): Expression {
    match a
    case Yearly => Expression(Only(0), Only(0), Only(1), Only(1), ANY)
    case Monthly => Expression(Only(0), Only(0), Only(1), ANY, ANY)
    case Weekly => Expression(Only(0), Only(0), ANY, ANY, Only(0))
    case Daily => Expression(Only(0), Only(0), ANY, ANY, ANY)
    case Hourly => Expression(Only(0), ANY, ANY, ANY, ANY)
  }

  lemma AnyCovers(minimum: int, maximum: int, v: int)
    ensures Covers(ANY, minimum, maximum, v) <==> minimum <= v <= maximum
  {
    assert StandsFor(ANY[0], minimum, maximum, v) <==> minimum <= v <= maximum;
  }

  lemma OnlyCovers(u: int, minimum: int, maximum: int, v: int)
    ensures Covers(Only(u), minimum, maximum, v) <==> v == u
  {
    assert StandsFor(Only(u)[0], minimum, maximum, v) <==> v == u;
  }

  lemma AnyDenotes(s: set<int>, minimum: int, maximum: int)
    requires forall v :: v in s <==> Covers(ANY, minimum, maximum, v)
    ensures forall v :: v in s <==> minimum <= v <= maximum
  {
    forall v ensures v in s <==> minimum <= v <= maximum {
      AnyCovers(minimum, maximum, v);
    }
  }

  lemma AnyWeekdayDenotes(s: set<int>)
    requires forall v :: v in s <==> 0 <= v <= 6 && (Covers(ANY, 0, 7, v) || (v == 0 && Covers(ANY, 0, 7, 7)))
    ensures s == ALL_WEEKDAYS
  {
    forall v ensures v in s <==> v in ALL_WEEKDAYS {
      AnyCovers(0, 7, v);
    }
  }

  lemma OnlyDenotes(s: set<int>, u: int, minimum: int, maximum: int)
    requires forall v :: v in s <==> Covers(Only(u), minimum, maximum, v)
    ensures s == {u}
  {
    forall v ensures v in s <==> v == u {
      OnlyCovers(u, minimum, maximum, v);
    }
  }

  lemma SundayDenotes(s: set<int>)
    requires forall v :: v in s <==> 0 <= v <= 6 && (Covers(Only(0), 0, 7, v) || (v == 0 && Covers(Only(0), 0, 7, 7)))
    ensures s == {0}
  {
    forall v ensures v in s <==> v == 0 {
      OnlyCovers(0, 0, 7, v);
    }
  }

  lemma AliasSets(a: Alias, f: Fields)
    requires WellFormed(f) && Denotes(AliasExpression(a), f)
    ensures f.minute == {0} && (a.Hourly? || f.hour == {0})
    ensures a.Yearly? || a.Monthly? ==> f.day == {1}
    ensures a.Yearly? ==> f.month == {1}
    ensures f.weekday == if a.Weekly? then {0} else ALL_WEEKDAYS
  {
    OnlyDenotes(f.minute, 0, 0, 59);
    if !a.Hourly? {
      OnlyDenotes(f.hour, 0, 0, 23);
    }
    if a.Yearly? || a.Monthly? {
      OnlyDenotes(f.day, 1, 1, 31);
    }
    if a.Yearly? {
      OnlyDenotes(f.month, 1, 1, 12);
    }
    if a.Weekly? {
      SundayDenotes(f.weekday);
    } else {
      AnyWeekdayDenotes(f.weekday);
    }
  }

  lemma AliasRanges(a: Alias, f: Fields)
    requires WellFormed(f) && Denotes(AliasExpression(a), f)
    ensures a.Hourly? ==> forall h :: 0 <= h <= 23 ==> h in f.hour
    ensures a.Yearly? || a.Monthly? || forall d :: 1 <= d <= 31 ==> d in f.day
    ensures a.Yearly? || forall m :: 1 <= m <= 12 ==> m in f.month
  {
    if a.Hourly? {
      AnyDenotes(f.hour, 0, 23);
    }
    if !a.Yearly? && !a.Monthly? {
      AnyDenotes(f.day, 1, 31);
    }
    if !a.Yearly? {
      AnyDenotes(f.month, 1, 12);
    }
  }

  lemma SetsFire(a: Alias, f: Fields, t: Moment)
    requires ValidMoment(t)
    requires f.minute == {0} && (if a.Hourly? then forall h :: 0 <= h <= 23 ==> h in f.hour else f.hour == {0})
    requires if a.Yearly? || a.Monthly? then f.day == {1} else forall d :: 1 <= d <= 31 ==> d in f.day
    requires if a.Yearly? then f.month == {1} else forall m :: 1 <= m <= 12 ==> m in f.month
    requires f.weekday == if a.Weekly? then {0} else ALL_WEEKDAYS
    ensures FieldsMatch(t, f) <==>
      && t.minute == 0 && (a.Hourly? || t.hour == 0)
      && (a.Weekly? ==> Weekday(t.date) == 6)
      && (a.Monthly? || a.Yearly? ==> t.date.day == 1)
      && (a.Yearly? ==> t.date.month == 1)
  {
  }

  /** When each alias fires: on the hour, at midnight, on Sunday at midnight, or on the first of a month or a year. */
  lemma AliasFires(a: Alias, f: Fields, t: Moment)
    requires WellFormed(f) && Denotes(AliasExpression(a), f) && ValidMoment(t)
    ensures FieldsMatch(t, f) <==>
      && t.minute == 0 && (a.Hourly? || t.hour == 0)
      && (a.Weekly? ==> Weekday(t.date) == 6)
      && (a.Monthly? || a.Yearly? ==> t.date.day == 1)
      && (a.Yearly? ==> t.date.month == 1)
  {
    AliasSets(a, f);
    AliasRanges(a, f);
    SetsFire(a, f, t);
  }

  lemma YearlyAndMonthly(a: Alias, f: Fields)
    requires WellFormed(f) && Denotes(AliasExpression(a), f) && (a.Yearly? || a.Monthly?)
    ensures NeverRaises(f)
  {
    AnyWeekdayDenotes(f.weekday);
    OnlyCovers(1, 1, 31, 1);
    if a.Yearly? {
      OnlyCovers(1, 1, 12, 1);
    } else {
      AnyDenotes(f.month, 1, 12);
    }
    assert 1 in f.month && 1 in f.day && 1 <= DaysInMonth(2001, 1);
    UnrestrictedWeekdayNeverRaises(f);
  }

  /** No alias ever raises, whatever the start instant. */
  lemma AliasesNeverRaise(a: Alias, f: Fields)
    requires WellFormed(f) && Denotes(AliasExpression(a), f)
    ensures NeverRaises(f)
  {
    if a.Yearly? || a.Monthly? {
      YearlyAndMonthly(a, f);
    } else {
      AnyDenotes(f.day, 1, 31);
      AnyDenotes(f.month, 1, 12);
      UnrestrictedDateNeverRaises(f);
    }
  }

  // --- a schedule that runs dry ---

  /** Only at midnight of 29 February. */
  ghost predicate LeapDayOnly(f: Fields) {
    f.minute == {0} && f.hour == {0} && f.day == {29} && f.month == {2}
  }

  lemma YearAfterLeap(year: int)
    requires IsLeap(year)
    ensures !IsLeap(year + 1)
  {
    assert (year + 1) % 4 == 1;
  }

  lemma DaysBeforeMarch(year: int)
    ensures DaysBeforeMonth(year, 2) == 31
    ensures DaysBeforeMonth(year, 3) == if IsLeap(year) then 60 else 59
  {
    assert DaysBeforeMonth(year, 1) == 0 && DaysInMonth(year, 1) == 31;
  }

  lemma DaysToNextMarch(year: int)
    requires 1 <= year && IsLeap(year)
    ensures Ordinal(CivilDate(year + 1, 3, 2)) == Ordinal(CivilDate(year, 2, 29)) + 367
  {
    YearAfterLeap(year);
    DaysBeforeMarch(year);
    DaysBeforeMarch(year + 1);
    assert DaysBeforeYear(year + 1) == DaysBeforeYear(year) + 366;
  }

  lemma MidnightsApart(u: Moment, day: int)
    requires ValidMoment(u) && u.hour == 0 && u.minute == 0
    requires day * MINUTES_PER_DAY < Stamp(u) <= (day + 1) * MINUTES_PER_DAY + MAX_LOOKAHEAD
    ensures day < Ordinal(u.date) <= day + 367
  {
  }

  /** After midnight of a 29 February there is no other midnight of one within a year and a day. */
  lemma NoLeapDayWithinAYear(year: int, u: Moment)
    requires 1 <= year && IsLeap(year) && ValidMoment(u) && u.hour == 0 && u.minute == 0
    requires var day := Ordinal(CivilDate(year, 2, 29));
      day * MINUTES_PER_DAY < Stamp(u) <= (day + 1) * MINUTES_PER_DAY + MAX_LOOKAHEAD
    ensures !(u.date.month == 2 && u.date.day == 29)
  {
    MidnightsApart(u, Ordinal(CivilDate(year, 2, 29)));
    DaysToNextMarch(year);
    YearAfterLeap(year);
    OrdinalOrder(CivilDate(year, 2, 29), u.date);
    OrdinalOrder(CivilDate(year + 1, 3, 2), u.date);
  }

  /** The search from any time of a 29 February after midnight raises. */
  lemma LeapDayRunsDry(f: Fields, offset: int, after: int, year: int)
    requires LeapDayOnly(f) && 1 <= year && IsLeap(year)
    requires var day := Ordinal(CivilDate(year, 2, 29));
      day * MINUTES_PER_DAY < StartMinute(offset, after) <= (day + 1) * MINUTES_PER_DAY
    ensures NextFiring(Schedule(f), offset, after) == None
  {
    var start := StartMinute(offset, after);
    var hit := FirstMatch(Schedule(f), start, start + MAX_LOOKAHEAD);
    if hit.Some? {
      ScheduleAt(f, hit.value);
      var u: Moment :| ValidMoment(u) && Stamp(u) == hit.value && FieldsMatch(u, f);
      NoLeapDayWithinAYear(year, u);
    }
  }
}
