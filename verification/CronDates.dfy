/** A test on dates alone for whether a schedule can run dry: how far apart its allowed dates lie. */
module CronDates {
  import opened Basics
  import opened Calendar
  import opened CronFields
  import opened CronSearch
  import opened CronCoverage
  import opened CronCycle

  /** The date with this ordinal is allowed by month, day and weekday. */
  predicate AllowedDate(f: Fields, d: int) {
    1 <= d && DateOf(d).month in f.month && DayMatches(DateOf(d), f)
  }

  /** The minute of the day is allowed. */
  predicate AllowedTime(f: Fields, m: int) {
    0 <= m < MINUTES_PER_DAY && m / 60 in f.hour && m % 60 in f.minute
  }

  lemma FiresOn(f: Fields, d: int, m: int)
    requires 1 <= d && 0 <= m < MINUTES_PER_DAY
    ensures FiresAt(f, d * MINUTES_PER_DAY + m) <==> AllowedDate(f, d) && AllowedTime(f, m)
  {
    var t := Moment(DateOf(d), m / 60, m % 60);
    assert Stamp(t) == d * MINUTES_PER_DAY + m;
    SameStampSameReading(f, d * MINUTES_PER_DAY + m, t);
  }

  lemma DateRepeats(f: Fields, d: int)
    requires 1 <= d && WellFormed(f)
    ensures AllowedDate(f, d) <==> AllowedDate(f, d + CYCLE_DAYS)
  {
    var h := Pick(f.hour);
    var m := Pick(f.minute);
    var time := h * 60 + m;
    DivMod(time, 60, h, m);
    FiresOn(f, d, time);
    FiresOn(f, d + CYCLE_DAYS, time);
    FiringRepeats(f, d * MINUTES_PER_DAY + time);
    assert (d + CYCLE_DAYS) * MINUTES_PER_DAY + time == d * MINUTES_PER_DAY + time + CYCLE_MINUTES;
  }

  // --- the times of a day ---

  /** The first and the last allowed minute of a day. */
  ghost predicate Bounds(f: Fields, first: int, last: int) {
    AllowedTime(f, first) && AllowedTime(f, last) && forall m :: AllowedTime(f, m) ==> first <= m <= last
  }

  lemma HourAndMinute(h: int, m: int)
    requires 0 <= h <= 23 && 0 <= m <= 59
    ensures (h * 60 + m) / 60 == h && (h * 60 + m) % 60 == m && 0 <= h * 60 + m < MINUTES_PER_DAY
  {
    DivMod(h * 60 + m, 60, h, m);
  }

  /** The least and the greatest element. */
  lemma Ends(s: set<int>, lo: int, hi: int) returns (least: int, greatest: int)
    requires s != {} && forall v :: v in s ==> lo <= v <= hi
    ensures least in s && greatest in s && forall v :: v in s ==> least <= v <= greatest
  {
    var values := Sorted(s, lo, hi);
    var v := Pick(s);
    assert v in values;
    least, greatest := values[0], values[|values| - 1];
    assert least in values && greatest in values;
    forall v | v in s ensures least <= v <= greatest {
      assert v in values;
    }
  }

  lemma TimesOfDay(f: Fields) returns (first: int, last: int)
    requires WellFormed(f)
    ensures Bounds(f, first, last)
  {
    var h0, h1 := Ends(f.hour, 0, 23);
    var m0, m1 := Ends(f.minute, 0, 59);
    HourAndMinute(h0, m0);
    HourAndMinute(h1, m1);
    first, last := h0 * 60 + m0, h1 * 60 + m1;
    forall t | AllowedTime(f, t) ensures first <= t <= last {
      TimeBetween(t, h0, m0, h1, m1);
    }
  }

  lemma TimeBetween(t: int, h0: int, m0: int, h1: int, m1: int)
    requires h0 <= t / 60 <= h1 && m0 <= t % 60 <= m1
    ensures h0 * 60 + m0 <= t <= h1 * 60 + m1
  {
  }

  /** The allowed times run from 0:00 to 23:59. */
  predicate WholeDay(f: Fields) {
    0 in f.hour && 23 in f.hour && 0 in f.minute && 59 in f.minute
  }

  lemma WholeDayBounds(f: Fields, first: int, last: int)
    requires WellFormed(f) && Bounds(f, first, last)
    ensures WholeDay(f) <==> first == 0 && last == MINUTES_PER_DAY - 1
  {
    if WholeDay(f) {
      assert AllowedTime(f, 0) && AllowedTime(f, MINUTES_PER_DAY - 1);
    }
  }

  // --- the test ---

  function Dates(f: Fields): int -> bool {
    d => AllowedDate(f, d)
  }

  /** How many days may lie from one allowed date to the next. */
  function MaxGap(f: Fields): int {
    if WholeDay(f) then 367 else 366
  }

  ghost predicate Followed(allowed: int -> bool, gap: int, d: int) {
    exists e :: d < e <= d + gap && allowed(e)
  }

  /** In one 400-year cycle some date is allowed, and after each allowed date the next one comes within the gap. */
  ghost predicate Recur(allowed: int -> bool, gap: int) {
    && (exists d :: 1 <= d <= CYCLE_DAYS && allowed(d))
    && (forall d :: 1 <= d <= CYCLE_DAYS && allowed(d) ==> Followed(allowed, gap, d))
  }

  ghost predicate DatesRecur(f: Fields) {
    Recur(Dates(f), MaxGap(f))
  }

  // --- one cycle stands for all ---

  predicate SameLater(allowed: int -> bool, d: int) {
    allowed(d) <==> allowed(d + CYCLE_DAYS)
  }

  ghost predicate Periodic(allowed: int -> bool) {
    forall d :: 1 <= d ==> SameLater(allowed, d)
  }

  lemma DateSameLater(f: Fields, d: int)
    requires WellFormed(f) && 1 <= d
    ensures SameLater(Dates(f), d)
  {
    DateRepeats(f, d);
  }

  lemma DatesArePeriodic(f: Fields)
    requires WellFormed(f)
    ensures Periodic(Dates(f))
  {
    forall d | 1 <= d ensures SameLater(Dates(f), d) {
      DateSameLater(f, d);
    }
  }

  lemma FollowedRepeats(allowed: int -> bool, gap: int, d: int)
    requires Periodic(allowed) && 0 <= d
    ensures Followed(allowed, gap, d) <==> Followed(allowed, gap, d + CYCLE_DAYS)
  {
    if e :| d < e <= d + gap && allowed(e) {
      assert SameLater(allowed, e);
      assert allowed(e + CYCLE_DAYS);
    }
    if e :| d + CYCLE_DAYS < e <= d + CYCLE_DAYS + gap && allowed(e) {
      assert SameLater(allowed, e - CYCLE_DAYS);
      assert allowed(e - CYCLE_DAYS);
    }
  }

  lemma {:induction false} AllowedIsFollowed(allowed: int -> bool, gap: int, d: int)
    requires Periodic(allowed) && Recur(allowed, gap) && 1 <= d && allowed(d)
    ensures Followed(allowed, gap, d)
    decreases d
  {
    if CYCLE_DAYS < d {
      assert SameLater(allowed, d - CYCLE_DAYS);
      AllowedIsFollowed(allowed, gap, d - CYCLE_DAYS);
      FollowedRepeats(allowed, gap, d - CYCLE_DAYS);
    }
  }

  /** From an allowed date on, every date is soon followed by an allowed one. */
  lemma {:induction false} LaterIsFollowed(allowed: int -> bool, gap: int, m: int, d: int)
    requires Periodic(allowed) && Recur(allowed, gap) && allowed(m) && 1 <= m <= d
    ensures Followed(allowed, gap, d)
    decreases d
  {
    if allowed(d) {
      AllowedIsFollowed(allowed, gap, d);
    } else {
      LaterIsFollowed(allowed, gap, m, d - 1);
      var e :| d - 1 < e <= d - 1 + gap && allowed(e);
      assert d < e;
    }
  }

  lemma AnyDateIsFollowed(allowed: int -> bool, gap: int, d: int)
    requires Periodic(allowed) && Recur(allowed, gap) && 0 <= d
    ensures Followed(allowed, gap, d)
  {
    var m :| 1 <= m <= CYCLE_DAYS && allowed(m);
    LaterIsFollowed(allowed, gap, m, d + CYCLE_DAYS);
    FollowedRepeats(allowed, gap, d);
  }

  // --- from dates to starts and back ---

  lemma FiresOnDate(f: Fields, start: int, e: int, m: int)
    requires AllowedDate(f, e) && AllowedTime(f, m)
    requires start <= e * MINUTES_PER_DAY + m <= start + MAX_LOOKAHEAD
    ensures FiresSoon(f, start)
  {
    FiresOn(f, e, m);
  }

  lemma FollowedDate(f: Fields, d: int) returns (e: int)
    requires WellFormed(f) && DatesRecur(f) && 0 <= d
    ensures d < e <= d + MaxGap(f) && AllowedDate(f, e)
  {
    DatesArePeriodic(f);
    AnyDateIsFollowed(Dates(f), MaxGap(f), d);
    e :| d < e <= d + MaxGap(f) && Dates(f)(e);
  }

  /** The first time of a date within the gap is within the window, counted from the last time of the day before. */
  lemma WithinWindow(day: int, time: int, e: int, first: int, last: int, gap: int)
    requires 0 <= first <= last < MINUTES_PER_DAY && 0 <= time < MINUTES_PER_DAY
    requires gap == if first == 0 && last == MINUTES_PER_DAY - 1 then 367 else 366
    requires (day < e <= day + gap && last < time) || day < e < day + gap
    ensures day * MINUTES_PER_DAY + time <= e * MINUTES_PER_DAY + first
    ensures e * MINUTES_PER_DAY + first <= day * MINUTES_PER_DAY + time + MAX_LOOKAHEAD
  {
  }

  lemma SoonOn(f: Fields, day: int, time: int, e: int, first: int, last: int)
    requires AllowedDate(f, e) && AllowedTime(f, first)
    requires first <= last < MINUTES_PER_DAY && 0 <= time < MINUTES_PER_DAY
    requires MaxGap(f) == if first == 0 && last == MINUTES_PER_DAY - 1 then 367 else 366
    requires (day < e <= day + MaxGap(f) && last < time) || day < e < day + MaxGap(f)
    ensures FiresSoon(f, day * MINUTES_PER_DAY + time)
  {
    WithinWindow(day, time, e, first, last, MaxGap(f));
    FiresOnDate(f, day * MINUTES_PER_DAY + time, e, first);
  }

  lemma GapOfBounds(f: Fields, first: int, last: int)
    requires WellFormed(f) && Bounds(f, first, last)
    ensures MaxGap(f) == if first == 0 && last == MINUTES_PER_DAY - 1 then 367 else 366
    ensures AllowedTime(f, first) && 0 <= first <= last < MINUTES_PER_DAY
  {
    WholeDayBounds(f, first, last);
  }

  lemma WaitIsShort(f: Fields, day: int, time: int, first: int, last: int)
    requires WellFormed(f) && DatesRecur(f) && Bounds(f, first, last) && 1 <= day && 0 <= time < MINUTES_PER_DAY
    requires last < time || !AllowedDate(f, day)
    ensures FiresSoon(f, day * MINUTES_PER_DAY + time)
  {
    GapOfBounds(f, first, last);
    if last < time {
      var e := FollowedDate(f, day);
      SoonOn(f, day, time, e, first, last);
    } else {
      var e := FollowedDate(f, day - 1);
      assert e != day;
      SoonOn(f, day, time, e, first, last);
    }
  }

  /** A start after the last time of its day waits for the next allowed date; an earlier one may use its own. */
  lemma StartIsCovered(f: Fields, day: int, time: int, first: int, last: int)
    requires WellFormed(f) && DatesRecur(f) && Bounds(f, first, last) && 1 <= day && 0 <= time < MINUTES_PER_DAY
    ensures FiresSoon(f, day * MINUTES_PER_DAY + time)
  {
    if time <= last && AllowedDate(f, day) {
      FiresOnDate(f, day * MINUTES_PER_DAY + time, day, last);
    } else {
      WaitIsShort(f, day, time, first, last);
    }
  }

  lemma RecurringNeverRaises(f: Fields)
    requires WellFormed(f) && DatesRecur(f)
    ensures NeverRaises(f)
  {
    var first, last := TimesOfDay(f);
    forall start | MINUTES_PER_DAY <= start ensures FiresSoon(f, start) {
      StartIsCovered(f, start / MINUTES_PER_DAY, start % MINUTES_PER_DAY, first, last);
    }
    NeverRaisesWhen(f);
  }

  /** A firing in the window lies on an allowed date at an allowed time. */
  lemma FiringInWindow(f: Fields, start: int) returns (e: int, m: int)
    requires MINUTES_PER_DAY <= start && FiresSoon(f, start)
    ensures AllowedDate(f, e) && AllowedTime(f, m) && start <= e * MINUTES_PER_DAY + m <= start + MAX_LOOKAHEAD
  {
    var n :| start <= n <= start + MAX_LOOKAHEAD && FiresAt(f, n);
    e, m := n / MINUTES_PER_DAY, n % MINUTES_PER_DAY;
    FiresOn(f, e, m);
  }

  lemma CoveredIsFollowed(f: Fields, d: int, first: int, last: int)
    requires WellFormed(f) && NeverRaises(f) && Bounds(f, first, last) && AllowedDate(f, d)
    ensures Followed(Dates(f), MaxGap(f), d)
  {
    var start := d * MINUTES_PER_DAY + last + 1;
    NeverRaisesMeansSoon(f, start);
    WholeDayBounds(f, first, last);
    var e, m := FiringInWindow(f, start);
    assert first <= m <= last;
    assert d < e <= d + MaxGap(f) && Dates(f)(e);
  }

  lemma NeverRaisingRecurs(f: Fields)
    requires WellFormed(f) && NeverRaises(f)
    ensures DatesRecur(f)
  {
    var first, last := TimesOfDay(f);
    NeverRaisesMeansSoon(f, MINUTES_PER_DAY);
    var e, m := FiringInWindow(f, MINUTES_PER_DAY);
    assert 1 <= e <= CYCLE_DAYS && Dates(f)(e);
    forall d | 1 <= d <= CYCLE_DAYS && Dates(f)(d) ensures Followed(Dates(f), MaxGap(f), d) {
      CoveredIsFollowed(f, d, first, last);
    }
  }

  /**
   A test on dates alone: a schedule never raises exactly when its allowed dates lie at most 366 days apart, or 367 when
   its times run from 0:00 to 23:59.
   */
  lemma DatesDecide(f: Fields)
    requires WellFormed(f)
    ensures NeverRaises(f) <==> DatesRecur(f)
  {
    if NeverRaises(f) {
      NeverRaisingRecurs(f);
    } else if DatesRecur(f) {
      RecurringNeverRaises(f);
    }
  }
}
