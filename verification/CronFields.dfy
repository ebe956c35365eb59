/** Five-field cron expressions, split into tokens, and the value sets they denote. */
module CronFields {
  import opened Basics

  /** The text before a slash: `*`, `lo-hi`, or a single number. */
  datatype Base = Star | Span(lo: int, hi: int) | Single(v: int)

  /** One comma-separated entry; `step` is the number after a slash. */
  datatype Part = Part(base: Base, step: Option<int>)

  type Field = seq<Part>

  datatype Expression = Expression(minute: Field, hour: Field, day: Field, month: Field, weekday: Field)

  /** The parsed value sets. */
  datatype Fields = Fields(minute: set<int>, hour: set<int>, day: set<int>, month: set<int>, weekday: set<int>)

  predicate Within(s: set<int>, minimum: int, maximum: int) {
    s != {} && forall v :: v in s ==> minimum <= v <= maximum
  }

  /** What every accepted expression parses to: non-empty sets inside the calendar's ranges. */
  predicate WellFormed(f: Fields) {
    && Within(f.minute, 0, 59)
    && Within(f.hour, 0, 23)
    && Within(f.day, 1, 31)
    && Within(f.month, 1, 12)
    && Within(f.weekday, 0, 6)
  }

  function First(base: Base, minimum: int): int {
    match base case Star => minimum case Span(lo, _) => lo case Single(v) => v
  }

  function Last(base: Base, maximum: int): int {
    match base case Star => maximum case Span(_, hi) => hi case Single(v) => v
  }

  function StepOf(part: Part): int {
    if part.step.Some? then part.step.value else 1
  }

  /** The checks on one entry, as computed. */
  predicate Accepted(part: Part, minimum: int, maximum: int) {
    && 0 < StepOf(part)
    && minimum <= First(part.base, minimum) <= Last(part.base, maximum) <= maximum
  }

  // --- what an entry means ---

  /** A step, when there is one, is positive, and the values named lie in order inside the field's range. */
  predicate Sensible(part: Part, minimum: int, maximum: int) {
    && (part.step.Some? ==> 0 < part.step.value)
    && match part.base
       case Star => minimum <= maximum
       case Span(lo, hi) => minimum <= lo <= hi <= maximum
       case Single(v) => minimum <= v <= maximum
  }

  /** The values an entry stands for: a range is counted from its own start, `*` from the field's least value. */
  predicate StandsFor(part: Part, minimum: int, maximum: int, v: int) {
    match part
    case Part(Star, None) => minimum <= v <= maximum
    case Part(Star, Some(n)) => minimum <= v <= maximum && 0 < n && (v - minimum) % n == 0
    case Part(Span(lo, hi), None) => lo <= v <= hi
    case Part(Span(lo, hi), Some(n)) => lo <= v <= hi && 0 < n && (v - lo) % n == 0
    case Part(Single(u), _) => v == u
  }

  lemma AcceptedIsSensible(part: Part, minimum: int, maximum: int)
    ensures Accepted(part, minimum, maximum) <==> Sensible(part, minimum, maximum)
  {
  }

  /** `v` is a whole number of steps from `start`. */
  predicate OnStep(start: int, step: int, v: int)
    requires 0 < step
  {
    (v - start) % step == 0
  }

  /** Python's `set(range(start, end + 1, step))`. */
  function Range(start: int, end: int, step: int): set<int>
    requires 0 < step
    decreases end - start
  {
    if end < start then {} else {start} + Range(start + step, end, step)
  }

  lemma {:induction false} RangeMember(start: int, end: int, step: int, v: int)
    requires 0 < step
    ensures v in Range(start, end, step) <==> start <= v <= end && OnStep(start, step, v)
    decreases end - start
  {
    if start <= end {
      RangeMember(start + step, end, step, v);
      if start + step <= v {
        DivMod(v - start - step, step, (v - start) / step - 1, (v - start) % step);
      } else if start <= v {
        DivMod(v - start, step, 0, v - start);
      }
    }
  }

  function PartValues(part: Part, minimum: int, maximum: int): set<int>
    requires Accepted(part, minimum, maximum)
  {
    Range(First(part.base, minimum), Last(part.base, maximum), StepOf(part))
  }

  /** An accepted entry yields exactly the values it stands for. */
  lemma PartValuesMeaning(part: Part, minimum: int, maximum: int, v: int)
    requires Accepted(part, minimum, maximum)
    ensures v in PartValues(part, minimum, maximum) <==> StandsFor(part, minimum, maximum, v)
  {
    RangeMember(First(part.base, minimum), Last(part.base, maximum), StepOf(part), v);
  }

  /** `*` over `n`: every `n`-th value, counted from the least one. */
  lemma StarOverStep(n: int, minimum: int, maximum: int, v: int)
    requires Accepted(Part(Star, Some(n)), minimum, maximum)
    ensures 0 < n && (v in PartValues(Part(Star, Some(n)), minimum, maximum)
                      <==> minimum <= v <= maximum && (v - minimum) % n == 0)
  {
    PartValuesMeaning(Part(Star, Some(n)), minimum, maximum, v);
  }

  /** A range over `n`: every `n`-th value, counted from the start of the range. */
  lemma SpanOverStep(lo: int, hi: int, n: int, minimum: int, maximum: int, v: int)
    requires Accepted(Part(Span(lo, hi), Some(n)), minimum, maximum)
    ensures 0 < n && minimum <= lo <= hi <= maximum
    ensures v in PartValues(Part(Span(lo, hi), Some(n)), minimum, maximum) <==> lo <= v <= hi && (v - lo) % n == 0
  {
    PartValuesMeaning(Part(Span(lo, hi), Some(n)), minimum, maximum, v);
  }

  /** Some entry of the field stands for the value. */
  ghost predicate Covers(field: Field, minimum: int, maximum: int, v: int) {
    exists i :: 0 <= i < |field| && StandsFor(field[i], minimum, maximum, v)
  }

  /** A number over a bare step, such as `5/15`, is that number alone: the range it steps through is one value. */
  lemma SingleIgnoresStep(v: int, step: int, minimum: int, maximum: int)
    requires Accepted(Part(Single(v), Some(step)), minimum, maximum)
    ensures PartValues(Part(Single(v), Some(step)), minimum, maximum) == {v}
  {
    forall u ensures u in PartValues(Part(Single(v), Some(step)), minimum, maximum) <==> u == v {
      RangeMember(v, v, step, u);
    }
  }

  /** `_parse_cron_field`: the union of the entries, or an error when any entry is out of range. */
  method ParseField(field: Field, minimum: int, maximum: int) returns (r: Result<set<int>>)
    ensures r.Ok? <==> field != [] && forall i :: 0 <= i < |field| ==> Sensible(field[i], minimum, maximum)
    ensures r.Ok? ==> forall v :: v in r.value <==> Covers(field, minimum, maximum, v)
    ensures r.Ok? ==> Within(r.value, minimum, maximum)
  {
    var values: set<int> := {};
    for i := 0 to |field|
      invariant forall j :: 0 <= j < i ==> Sensible(field[j], minimum, maximum)
      invariant forall v :: v in values <==> Covers(field[..i], minimum, maximum, v)
      invariant i == 0 ==> values == {}
      invariant i > 0 ==> First(field[0].base, minimum) in values
    {
      AcceptedIsSensible(field[i], minimum, maximum);
      if !Accepted(field[i], minimum, maximum) {
        return Raised;
      }
      var more := PartValues(field[i], minimum, maximum);
      CoversSnoc(field, i, minimum, maximum);
      FirstIsCovered(field[i], minimum, maximum);
      values := values + more;
    }
    assert field[..|field|] == field;
    assert field != [] ==> First(field[0].base, minimum) in values;
    if values == {} {
      return Raised;
    }
    return Ok(values);
  }

  lemma FirstIsCovered(part: Part, minimum: int, maximum: int)
    requires Accepted(part, minimum, maximum)
    ensures First(part.base, minimum) in PartValues(part, minimum, maximum)
  {
    RangeMember(First(part.base, minimum), Last(part.base, maximum), StepOf(part), First(part.base, minimum));
  }

  lemma CoversSnoc(field: Field, i: nat, minimum: int, maximum: int)
    requires i < |field| && Accepted(field[i], minimum, maximum)
    ensures forall v :: Covers(field[..i + 1], minimum, maximum, v)
                   <==> Covers(field[..i], minimum, maximum, v) || v in PartValues(field[i], minimum, maximum)
  {
    var longer, shorter := field[..i + 1], field[..i];
    assert longer == shorter + [field[i]];
    forall v
      ensures Covers(longer, minimum, maximum, v)
         <==> Covers(shorter, minimum, maximum, v) || v in PartValues(field[i], minimum, maximum)
    {
      PartValuesMeaning(field[i], minimum, maximum, v);
      if Covers(shorter, minimum, maximum, v) {
        var k :| 0 <= k < i && StandsFor(shorter[k], minimum, maximum, v);
        assert longer[k] == shorter[k];
      }
      if StandsFor(field[i], minimum, maximum, v) {
        assert longer[i] == field[i];
      }
    }
  }

  /** The set parsed from the one-entry field `*` over `n`. */
  lemma StarOverStepField(values: set<int>, n: int, minimum: int, maximum: int)
    requires forall v :: v in values <==> Covers([Part(Star, Some(n))], minimum, maximum, v)
    ensures forall v :: v in values <==> 0 < n && minimum <= v <= maximum && (v - minimum) % n == 0
  {
    var field := [Part(Star, Some(n))];
    forall v ensures v in values <==> 0 < n && minimum <= v <= maximum && (v - minimum) % n == 0 {
      assert Covers(field, minimum, maximum, v) <==> StandsFor(field[0], minimum, maximum, v);
    }
  }

  /** The field `*` over 15 in minutes: the four quarters, for whatever set the parser returns. */
  lemma QuarterHours(values: set<int>)
    requires forall v :: v in values <==> Covers([Part(Star, Some(15))], 0, 59, v)
    ensures values == {0, 15, 30, 45}
  {
    StarOverStepField(values, 15, 0, 59);
    assert forall v :: v in values <==> v in {0, 15, 30, 45};
  }

  /** Sunday may be written 0 or 7. */
  function FoldSunday(s: set<int>): (t: set<int>)
    requires Within(s, 0, 7)
    ensures Within(t, 0, 6)
    ensures forall d :: 0 <= d <= 6 ==> (d in t <==> d in s || (d == 0 && 7 in s))
  {
    if 7 in s then
      assert 0 in s - {7} + {0};
      s - {7} + {0}
    else s
  }

  /** `_parse_cron` after the text is split: an expression is accepted exactly when each of its fields is. */
  method ParseCron(e: Expression) returns (r: Result<Fields>)
    ensures r.Ok? ==> WellFormed(r.value)
    ensures r.Ok? ==> Denotes(e, r.value)
    ensures r.Ok? <==> FieldAccepted(e.minute, 0, 59) && FieldAccepted(e.hour, 0, 23) && FieldAccepted(e.day, 1, 31)
                       && FieldAccepted(e.month, 1, 12) && FieldAccepted(e.weekday, 0, 7)
  {
    var minute := ParseField(e.minute, 0, 59);
    var hour := ParseField(e.hour, 0, 23);
    var day := ParseField(e.day, 1, 31);
    var month := ParseField(e.month, 1, 12);
    var weekday := ParseField(e.weekday, 0, 7);
    if minute.Raised? || hour.Raised? || day.Raised? || month.Raised? || weekday.Raised? {
      return Raised;
    }
    return Ok(Fields(minute.value, hour.value, day.value, month.value, FoldSunday(weekday.value)));
  }

  predicate FieldAccepted(field: Field, minimum: int, maximum: int) {
    field != [] && forall i :: 0 <= i < |field| ==> Sensible(field[i], minimum, maximum)
  }

  /** `f` holds exactly the values the expression's entries cover, with Sunday folded to 0. */
  ghost predicate Denotes(e: Expression, f: Fields) {
    && (forall v :: v in f.minute <==> Covers(e.minute, 0, 59, v))
    && (forall v :: v in f.hour <==> Covers(e.hour, 0, 23, v))
    && (forall v :: v in f.day <==> Covers(e.day, 1, 31, v))
    && (forall v :: v in f.month <==> Covers(e.month, 1, 12, v))
    && (forall v :: v in f.weekday <==>
          0 <= v <= 6 && (Covers(e.weekday, 0, 7, v) || (v == 0 && Covers(e.weekday, 0, 7, 7))))
  }
}
