/** `next_cron_run`: a search that skips months, days, hours and minutes, against a minute-by-minute scan. */
module CronSearch {
  import opened Basics
  import opened Calendar
  import opened CronFields

  const MAX_LOOKAHEAD := 366 * MINUTES_PER_DAY
  const MICROS_PER_MINUTE := 60_000_000

  /** `_cron_day_matches`: day of month and weekday must both be allowed. */
  predicate DayMatches(d: Date, f: Fields) {
    d.day in f.day && (Weekday(d) + 1) % 7 in f.weekday
  }

  /** `_cron_fields_match` */
  predicate FieldsMatch(t: Moment, f: Fields) {
    t.minute in f.minute && t.hour in f.hour && t.date.month in f.month && DayMatches(t.date, f)
  }

  /** The schedule fires at a minute of the axis: the wall-clock reading of that minute matches. */
  ghost predicate FiresAt(f: Fields, n: int) {
    exists t: Moment :: ValidMoment(t) && Stamp(t) == n && FieldsMatch(t, f)
  }

  /** There is one such reading, and it is the one the calendar computes. */
  lemma FiresAtReading(f: Fields, n: int)
    ensures FiresAt(f, n) <==> MINUTES_PER_DAY <= n && FieldsMatch(At(n), f)
  {
    if FiresAt(f, n) {
      var t: Moment :| ValidMoment(t) && Stamp(t) == n && FieldsMatch(t, f);
      AtStamp(t);
    }
  }

  /** The reference: try every minute from `lo` to `hi` in turn. */
  ghost function FirstMatch(fires: int -> bool, lo: int, hi: int): (r: Option<int>)
    ensures r.Some? ==> lo <= r.value <= hi && fires(r.value)
    ensures forall n :: lo <= n <= hi && (r.Some? ==> n < r.value) ==> !fires(n)
    decreases hi - lo
  {
    if hi < lo then None
    else if fires(lo) then Some(lo)
    else FirstMatch(fires, lo + 1, hi)
  }

  ghost predicate Quiet(fires: int -> bool, lo: int, hi: int) {
    forall n :: lo <= n < hi ==> !fires(n)
  }

  /** The scan's answer is decided by the first firing minute alone. */
  lemma FirstMatchIs(fires: int -> bool, lo: int, hi: int, n: int)
    requires lo <= n && Quiet(fires, lo, n)
    ensures hi < n ==> FirstMatch(fires, lo, hi) == None
    ensures n <= hi && fires(n) ==> FirstMatch(fires, lo, hi) == Some(n)
  {
  }

  ghost function Schedule(f: Fields): int -> bool {
    n => FiresAt(f, n)
  }

  // --- the skip helpers ---

  /** The values of a set between two bounds in increasing order, as `sorted` lists them. */
  function Sorted(s: set<int>, lo: int, hi: int): (values: seq<int>)
    ensures forall v :: v in values <==> v in s && lo <= v <= hi
    ensures forall i, j :: 0 <= i < j < |values| ==> values[i] < values[j]
    decreases hi - lo
  {
    if hi < lo then []
    else if lo in s then
      var rest := Sorted(s, lo + 1, hi);
      assert forall i :: 0 <= i < |rest| ==> rest[i] in rest;
      [lo] + rest
    else Sorted(s, lo + 1, hi)
  }

  predicate Increasing(values: seq<int>) {
    forall i, j :: 0 <= i < j < |values| ==> values[i] < values[j]
  }

  /** `_next_value_at_or_after`: the least allowed value not below `current`. */
  function NextAtOrAfter(current: int, values: seq<int>): (r: Option<int>)
    requires Increasing(values)
    ensures r.Some? ==> r.value in values && current <= r.value
    ensures forall v :: v in values && current <= v ==> r.Some? && r.value <= v
  {
    if values == [] then None
    else if current <= values[0] then
      assert forall v :: v in values ==> values[0] <= v;
      Some(values[0])
    else
      assert values == [values[0]] + values[1..];
      NextAtOrAfter(current, values[1..])
  }

  /** `_next_value_after` */
  function NextAfter(current: int, values: seq<int>): (r: Option<int>)
    requires Increasing(values)
    ensures r.Some? ==> r.value in values && current < r.value
    ensures forall v :: v in values && current < v ==> r.Some? && r.value <= v
  {
    NextAtOrAfter(current + 1, values)
  }

  /** `_next_day_start` */
  function NextDayStart(t: Moment, hour: int, minute: int): Moment {
    Moment(NextDate(t.date), hour, minute)
  }

  /** Months on one axis. */
  function MonthNumber(year: int, month: int): int {
    year * 12 + month
  }

  /** `_next_allowed_month`: the first of the next allowed month, this year or else the next. */
  function NextAllowedMonth(t: Moment, months: seq<int>, hour: int, minute: int): (r: Moment)
    requires months != [] && Increasing(months) && forall m :: m in months ==> 1 <= m <= 12
    ensures r.hour == hour && r.minute == minute && r.date.day == 1 && r.date.month in months
    ensures MonthNumber(t.date.year, t.date.month) <= MonthNumber(r.date.year, r.date.month)
    ensures forall year, month :: month in months
              && MonthNumber(t.date.year, t.date.month) <= MonthNumber(year, month)
              ==> MonthNumber(r.date.year, r.date.month) <= MonthNumber(year, month)
  {
    var next := NextAtOrAfter(t.date.month, months);
    assert months[0] in months;
    if next.None? then Moment(CivilDate(t.date.year + 1, months[0], 1), hour, minute)
    else Moment(CivilDate(t.date.year, next.value, 1), hour, minute)
  }

  // --- each skip passes over non-matching minutes only ---

  /** Nothing fires from `a` up to, but not including, `b`, and `b` is later. */
  ghost predicate Skips(f: Fields, a: Moment, b: Moment)
    requires ValidMoment(a)
  {
    ValidMoment(b) && Stamp(a) < Stamp(b) && Quiet(Schedule(f), Stamp(a), Stamp(b))
  }

  /** Axis order is calendar order, then time of day. */
  lemma StampOrder(a: Moment, b: Moment)
    requires ValidMoment(a) && ValidMoment(b)
    ensures Before(a.date, b.date) ==> Stamp(a) < Stamp(b)
    ensures a.date == b.date ==>
      (Stamp(a) <= Stamp(b) <==> a.hour < b.hour || (a.hour == b.hour && a.minute <= b.minute))
    ensures Stamp(a) <= Stamp(b) ==> !Before(b.date, a.date)
  {
    OrdinalOrder(a.date, b.date);
    OrdinalOrder(b.date, a.date);
  }

  lemma MonthSkip(f: Fields, t: Moment, months: seq<int>, hour: int, minute: int)
    requires ValidMoment(t) && t.date.month !in f.month
    requires months != [] && Increasing(months) && (forall m :: m in months <==> m in f.month)
    requires forall m :: m in months ==> 1 <= m <= 12
    requires FirstTime(f, hour, minute)
    ensures Skips(f, t, NextAllowedMonth(t, months, hour, minute))
  {
    var next := NextAllowedMonth(t, months, hour, minute);
    StampOrder(t, next);
    forall u: Moment | ValidMoment(u) && Stamp(t) <= Stamp(u) < Stamp(next) ensures !FieldsMatch(u, f) {
      StampOrder(t, u);
      StampOrder(u, next);
      StampOrder(next, u);
      if u.date == next.date {
        BeforeFirstTime(f, u, hour, minute);
      }
    }
  }

  /** `hour:minute` is the earliest time of day the schedule allows. */
  ghost predicate FirstTime(f: Fields, hour: int, minute: int) {
    && 0 <= hour < 24 && 0 <= minute < 60
    && (forall h :: h in f.hour ==> hour <= h)
    && (forall m :: m in f.minute ==> minute <= m)
  }

  lemma BeforeFirstTime(f: Fields, u: Moment, hour: int, minute: int)
    requires FirstTime(f, hour, minute)
    requires u.hour < hour || (u.hour == hour && u.minute < minute)
    ensures !FieldsMatch(u, f)
  {
  }

  /** Moving to the next day is sound once the rest of today cannot match. */
  lemma DaySkip(f: Fields, t: Moment, hour: int, minute: int)
    requires ValidMoment(t) && FirstTime(f, hour, minute)
    requires forall u: Moment :: ValidMoment(u) && u.date == t.date && Stamp(t) <= Stamp(u) ==> !FieldsMatch(u, f)
    ensures Skips(f, t, NextDayStart(t, hour, minute))
  {
    var next := NextDayStart(t, hour, minute);
    NextDateSucceeds(t.date);
    forall u: Moment | ValidMoment(u) && Stamp(t) <= Stamp(u) < Stamp(next) ensures !FieldsMatch(u, f) {
      StampOrder(t, u);
      StampOrder(u, next);
      OrdinalOrder(u.date, t.date);
      OrdinalOrder(u.date, next.date);
      if u.date == next.date {
        BeforeFirstTime(f, u, hour, minute);
      }
    }
  }

  /** Moving later within a day is sound once the times passed over cannot match. */
  lemma TimeSkip(f: Fields, t: Moment, next: Moment)
    requires ValidMoment(t) && ValidMoment(next) && next.date == t.date && Stamp(t) < Stamp(next)
    requires forall u: Moment :: ValidMoment(u) && u.date == t.date && Stamp(t) <= Stamp(u) < Stamp(next)
               ==> !FieldsMatch(u, f)
    ensures Skips(f, t, next)
  {
    forall u: Moment | ValidMoment(u) && Stamp(t) <= Stamp(u) < Stamp(next) ensures !FieldsMatch(u, f) {
      StampOrder(t, u);
      StampOrder(u, next);
      OrdinalOrder(u.date, t.date);
    }
  }

  // --- the search ---

  /** Whole minute strictly after an instant, read on the wall clock of a zone `offset` minutes ahead of UTC. */
  function StartMinute(offset: int, after: int): int {
    after / MICROS_PER_MINUTE + offset + 1
  }

  /** The instant of the next run: the least firing minute after `after`, searched within the look-ahead window. */
  ghost function NextFiring(fires: int -> bool, offset: int, after: int): Option<int> {
    var start := StartMinute(offset, after);
    var hit := FirstMatch(fires, start, start + MAX_LOOKAHEAD);
    if hit.Some? then Some((hit.value - offset) * MICROS_PER_MINUTE) else None
  }

  /** The sorted value lists the loop works with. */
  datatype Lists = Lists(minutes: seq<int>, hours: seq<int>, months: seq<int>)

  ghost predicate ListsOf(l: Lists, f: Fields) {
    && WellFormed(f)
    && l.minutes != [] && Increasing(l.minutes) && (forall m :: m in l.minutes <==> m in f.minute)
    && l.hours != [] && Increasing(l.hours) && (forall h :: h in l.hours <==> h in f.hour)
    && l.months != [] && Increasing(l.months) && (forall m :: m in l.months <==> m in f.month)
  }

  lemma FirstOfLists(l: Lists, f: Fields)
    requires ListsOf(l, f)
    ensures FirstTime(f, l.hours[0], l.minutes[0])
  {
    assert l.hours[0] in l.hours && l.minutes[0] in l.minutes;
  }

  /** One pass of the search loop: `None` is a hit, otherwise the position to continue from. */
  method Advance(current: Moment, f: Fields, l: Lists) returns (next: Option<Moment>)
    requires ValidMoment(current) && ListsOf(l, f)
    ensures next.None? <==> FieldsMatch(current, f)
    ensures next.Some? ==> Skips(f, current, next.value)
  {
    FirstOfLists(l, f);
    if current.date.month !in f.month {
      MonthSkip(f, current, l.months, l.hours[0], l.minutes[0]);
      return Some(NextAllowedMonth(current, l.months, l.hours[0], l.minutes[0]));
    }
    if !DayMatches(current.date, f) {
      DaySkip(f, current, l.hours[0], l.minutes[0]);
      return Some(NextDayStart(current, l.hours[0], l.minutes[0]));
    }
    if current.hour !in f.hour {
      var nextHour := NextAtOrAfter(current.hour, l.hours);
      if nextHour.Some? {
        HourSkip(f, current, nextHour.value, l.minutes[0]);
        return Some(current.(hour := nextHour.value, minute := l.minutes[0]));
      }
      RestOfDay(f, current, l.hours[0], l.minutes[0]);
      return Some(NextDayStart(current, l.hours[0], l.minutes[0]));
    }
    if current.minute !in f.minute {
      var nextMinute := NextAtOrAfter(current.minute, l.minutes);
      if nextMinute.Some? {
        MinuteSkip(f, current, nextMinute.value);
        return Some(current.(minute := nextMinute.value));
      }
      var nextHour := NextAfter(current.hour, l.hours);
      if nextHour.Some? {
        HourSkip(f, current, nextHour.value, l.minutes[0]);
        return Some(current.(hour := nextHour.value, minute := l.minutes[0]));
      }
      RestOfDay(f, current, l.hours[0], l.minutes[0]);
      return Some(NextDayStart(current, l.hours[0], l.minutes[0]));
    }
    return None;
  }

  /** `next_cron_run` on parsed fields in a fixed-offset zone; `None` is the raised "no matching run time". */
  method NextCronRun(f: Fields, offset: int, after: int) returns (r: Option<int>)
    requires WellFormed(f)
    requires MINUTES_PER_DAY <= StartMinute(offset, after)  // the wall clock reads year 1 or later
    ensures r == NextFiring(Schedule(f), offset, after)
  {
    ghost var fires := Schedule(f);
    var start := StartMinute(offset, after);
    var current := At(start);
    var deadline := start + MAX_LOOKAHEAD;
    var lists := SortedLists(f);
    while Stamp(current) <= deadline
      invariant ValidMoment(current) && start <= Stamp(current)
      invariant Quiet(fires, start, Stamp(current)) && fires == Schedule(f)
      decreases deadline - Stamp(current)
    {
      var next := Advance(current, f, lists);
      if next.None? {
        FoundIs(f, offset, after, current);
        return Some((Stamp(current) - offset) * MICROS_PER_MINUTE);
      }
      current := next.value;
    }
    NextRunIs(fires, offset, after, Stamp(current));
    return None;
  }

  lemma NextRunIs(fires: int -> bool, offset: int, after: int, n: int)
    requires StartMinute(offset, after) <= n && Quiet(fires, StartMinute(offset, after), n)
    ensures StartMinute(offset, after) + MAX_LOOKAHEAD < n ==> NextFiring(fires, offset, after) == None
    ensures n <= StartMinute(offset, after) + MAX_LOOKAHEAD && fires(n)
            ==> NextFiring(fires, offset, after) == Some((n - offset) * MICROS_PER_MINUTE)
  {
    FirstMatchIs(fires, StartMinute(offset, after), StartMinute(offset, after) + MAX_LOOKAHEAD, n);
  }

  lemma ScheduleAt(f: Fields, n: int)
    ensures Schedule(f)(n) == FiresAt(f, n)
  {
  }

  lemma MatchFires(f: Fields, t: Moment)
    requires ValidMoment(t) && FieldsMatch(t, f)
    ensures Schedule(f)(Stamp(t))
  {
    ScheduleAt(f, Stamp(t));
  }

  lemma FoundIs(f: Fields, offset: int, after: int, t: Moment)
    requires ValidMoment(t) && FieldsMatch(t, f)
    requires StartMinute(offset, after) <= Stamp(t) <= StartMinute(offset, after) + MAX_LOOKAHEAD
    requires Quiet(Schedule(f), StartMinute(offset, after), Stamp(t))
    ensures NextFiring(Schedule(f), offset, after) == Some((Stamp(t) - offset) * MICROS_PER_MINUTE)
  {
    var n := Stamp(t);
    assert Schedule(f)(n) by {
      MatchFires(f, t);
    }
    NextRunIs(Schedule(f), offset, after, n);
  }

  function SortedLists(f: Fields): (l: Lists)
    requires WellFormed(f)
    ensures ListsOf(l, f)
  {
    var l := Lists(Sorted(f.minute, 0, 59), Sorted(f.hour, 0, 23), Sorted(f.month, 1, 12));
    assert l.minutes != [] && l.hours != [] && l.months != [] by {
      var m, h, mo :| m in f.minute && h in f.hour && mo in f.month;
      assert m in l.minutes && h in l.hours && mo in l.months;
    }
    l
  }

  /** No allowed time of day lies from `t` up to `hour:minute`. */
  lemma HourSkip(f: Fields, t: Moment, hour: int, minute: int)
    requires ValidMoment(t) && t.hour < hour < 24 && 0 <= minute < 60
    requires t.hour in f.hour ==> forall m :: m in f.minute ==> m < t.minute
    requires forall h :: h in f.hour && t.hour < h ==> hour <= h
    requires forall m :: m in f.minute ==> minute <= m
    ensures Skips(f, t, t.(hour := hour, minute := minute))
  {
    TimeSkip(f, t, t.(hour := hour, minute := minute));
  }

  lemma MinuteSkip(f: Fields, t: Moment, minute: int)
    requires ValidMoment(t) && t.minute < minute < 60
    requires forall m :: m in f.minute && t.minute <= m ==> minute <= m
    ensures Skips(f, t, t.(minute := minute))
  {
    TimeSkip(f, t, t.(minute := minute));
  }

  lemma RestOfDay(f: Fields, t: Moment, hour: int, minute: int)
    requires ValidMoment(t) && FirstTime(f, hour, minute)
    requires t.hour in f.hour ==> forall m :: m in f.minute ==> m < t.minute
    requires forall h :: h in f.hour ==> h <= t.hour
    ensures Skips(f, t, NextDayStart(t, hour, minute))
  {
    DaySkip(f, t, hour, minute);
  }
}
