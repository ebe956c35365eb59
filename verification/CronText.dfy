/** Cron expressions as text: splitting, the aliases, and a print-parse round trip. */
module CronText {
  import opened Basics
  import opened Calendar
  import opened CronFields
  import opened CronSearch
  import opened CronCoverage

  // --- Python's string splitting ---

  predicate IsSpace(c: char) {
    c == ' ' || '\t' <= c <= '\r' || '\U{1C}' <= c <= '\U{1F}'
  }

  predicate Spaceless(text: string) {
    forall c :: c in text ==> !IsSpace(c)
  }

  predicate IsWord(text: string) {
    text != "" && Spaceless(text)
  }

  /** The text up to the first white space. */
  function Word(text: string): (w: string)
    ensures w <= text && (text != "" && !IsSpace(text[0]) ==> w != "")
  {
    if text == "" || IsSpace(text[0]) then "" else [text[0]] + Word(text[1..])
  }

  /** `split()` */
  function Words(text: string): seq<string>
    decreases |text|
  {
    if text == "" then []
    else if IsSpace(text[0]) then Words(text[1..])
    else [Word(text)] + Words(text[|Word(text)|..])
  }

  /** `split(sep)` */
  function Split(text: string, sep: char): (parts: seq<string>)
    ensures parts != []
  {
    if text == "" then [""]
    else
      var rest := Split(text[1..], sep);
      if text[0] == sep then [""] + rest else [[text[0]] + rest[0]] + rest[1..]
  }

  /** `split(sep, 1)` when the separator occurs. */
  function Cut(text: string, sep: char): Option<(string, string)> {
    if text == "" then None
    else if text[0] == sep then Some(("", text[1..]))
    else
      var rest := Cut(text[1..], sep);
      if rest.None? then None else Some(([text[0]] + rest.value.0, rest.value.1))
  }

  /** `strip()` */
  function Strip(text: string): string {
    if text != "" && IsSpace(text[0]) then Strip(text[1..])
    else if text != "" && IsSpace(text[|text| - 1]) then Strip(text[..|text| - 1])
    else text
  }

  function Lower(text: string): string {
    seq(|text|, i requires 0 <= i < |text| =>
      if 'A' <= text[i] <= 'Z' then text[i] + ('a' - 'A') else text[i])
  }

  // --- the parser; `read` is Python's `int`, none when it raises ---

  function ParseBase(text: string, read: string -> Option<int>): Option<Base> {
    if text == "*" then Some(Star)
    else if Cut(text, '-').Some? then
      var (lo, hi) := Cut(text, '-').value;
      if read(lo).Some? && read(hi).Some? then Some(Span(read(lo).value, read(hi).value)) else None
    else if read(text).Some? then Some(Single(read(text).value)) else None
  }

  /** The text side of `_parse_cron_part`. */
  function ParsePart(text: string, read: string -> Option<int>): Option<Part> {
    if text == "" then None
    else if Cut(text, '/').Some? then
      var (before, after) := Cut(text, '/').value;
      var base, step := ParseBase(before, read), read(after);
      if base.Some? && step.Some? then Some(Part(base.value, step)) else None
    else
      var base := ParseBase(text, read);
      if base.Some? then Some(Part(base.value, None)) else None
  }

  function ParseParts(texts: seq<string>, read: string -> Option<int>): (field: Option<Field>)
    ensures field.Some? ==> |field.value| == |texts|
  {
    if texts == [] then Some([])
    else
      var first, rest := ParsePart(Strip(texts[0]), read), ParseParts(texts[1..], read);
      if first.Some? && rest.Some? then Some([first.value] + rest.value) else None
  }

  /** The text side of `_parse_cron_field`. */
  function ParseFieldText(text: string, read: string -> Option<int>): Option<Field> {
    ParseParts(Split(text, ','), read)
  }

  function ParseWords(words: seq<string>, read: string -> Option<int>): Option<Expression> {
    if |words| != 5 then None
    else
      var minute, hour := ParseFieldText(words[0], read), ParseFieldText(words[1], read);
      var day, month := ParseFieldText(words[2], read), ParseFieldText(words[3], read);
      var weekday := ParseFieldText(words[4], read);
      if minute.Some? && hour.Some? && day.Some? && month.Some? && weekday.Some?
      then Some(Expression(minute.value, hour.value, day.value, month.value, weekday.value))
      else None
  }

  /** The five fields of an expression without aliases. */
  function ParseText(text: string, read: string -> Option<int>): Option<Expression> {
    ParseWords(Words(text), read)
  }

  /** The names in `CRON_ALIASES`. */
  function AliasOf(name: string): Option<Alias> {
    if name == "@annually" || name == "@yearly" then Some(Yearly)
    else if name == "@monthly" then Some(Monthly)
    else if name == "@weekly" then Some(Weekly)
    else if name == "@daily" || name == "@midnight" then Some(Daily)
    else if name == "@hourly" then Some(Hourly)
    else None
  }

  /** Their texts. */
  function AliasText(a: Alias): string {
    match a
    case Yearly => "0 0 1 1 *"
    case Monthly => "0 0 1 * *"
    case Weekly => "0 0 * * 0"
    case Daily => "0 0 * * *"
    case Hourly => "0 * * * *"
  }

  function Unaliased(text: string): string {
    var a := AliasOf(Lower(Strip(text)));
    if a.Some? then AliasText(a.value) else text
  }

  /** `_parse_cron` on text. */
  method ParseCronText(text: string, read: string -> Option<int>) returns (r: Result<Fields>)
    ensures r.Ok? ==> WellFormed(r.value)
    ensures r.Ok? ==> ParseText(Unaliased(text), read).Some? && Denotes(ParseText(Unaliased(text), read).value, r.value)
    ensures r.Ok? <==> ParseText(Unaliased(text), read).Some? && Acceptable(ParseText(Unaliased(text), read).value)
  {
    var e := ParseText(Unaliased(text), read);
    if e.None? {
      return Raised;
    }
    r := ParseCron(e.value);
  }

  predicate Acceptable(e: Expression) {
    && FieldAccepted(e.minute, 0, 59) && FieldAccepted(e.hour, 0, 23) && FieldAccepted(e.day, 1, 31)
    && FieldAccepted(e.month, 1, 12) && FieldAccepted(e.weekday, 0, 7)
  }

  // --- printing ---

  predicate Digits(text: string) {
    text != "" && forall c :: c in text ==> '0' <= c <= '9'
  }

  function Decimal(n: nat): (text: string)
    ensures Digits(text)
  {
    var digit := [('0' as int + n % 10) as char];
    if n < 10 then digit else Decimal(n / 10) + digit
  }

  /** What is assumed of `int`: it reads decimal numerals. */
  ghost predicate ReadsDecimals(read: string -> Option<int>) {
    forall n: nat {:trigger Decimal(n)} :: read(Decimal(n)) == Some(n)
  }

  predicate Printable(part: Part) {
    && (part.step.Some? ==> 0 <= part.step.value)
    && match part.base case Star => true case Span(lo, hi) => 0 <= lo && 0 <= hi case Single(v) => 0 <= v
  }

  predicate PrintableField(field: Field) {
    field != [] && forall i :: 0 <= i < |field| ==> Printable(field[i])
  }

  predicate PrintableExpression(e: Expression) {
    && PrintableField(e.minute) && PrintableField(e.hour) && PrintableField(e.day)
    && PrintableField(e.month) && PrintableField(e.weekday)
  }

  function ShowBase(part: Part): string
    requires Printable(part)
  {
    match part.base
    case Star => "*"
    case Span(lo, hi) => Decimal(lo) + "-" + Decimal(hi)
    case Single(v) => Decimal(v)
  }

  function ShowPart(part: Part): string
    requires Printable(part)
  {
    ShowBase(part) + if part.step.Some? then "/" + Decimal(part.step.value) else ""
  }

  function ShowParts(field: Field): (texts: seq<string>)
    requires forall i :: 0 <= i < |field| ==> Printable(field[i])
    ensures |texts| == |field|
  {
    if field == [] then [] else [ShowPart(field[0])] + ShowParts(field[1..])
  }

  function Join(texts: seq<string>, sep: char): string {
    if texts == [] then ""
    else if |texts| == 1 then texts[0]
    else texts[0] + [sep] + Join(texts[1..], sep)
  }

  function ShowField(field: Field): string
    requires PrintableField(field)
  {
    Join(ShowParts(field), ',')
  }

  function Show(e: Expression): string
    requires PrintableExpression(e)
  {
    Join([ShowField(e.minute), ShowField(e.hour), ShowField(e.day), ShowField(e.month), ShowField(e.weekday)], ' ')
  }

  // --- splitting undoes joining ---

  lemma {:induction false} CutAt(a: string, sep: char, b: string)
    requires sep !in a
    ensures Cut(a + [sep] + b, sep) == Some((a, b))
  {
    if a == "" {
      assert a + [sep] + b == [sep] + b;
    } else {
      assert (a + [sep] + b)[1..] == a[1..] + [sep] + b;
      CutAt(a[1..], sep, b);
      assert a == [a[0]] + a[1..];
    }
  }

  lemma {:induction false} NothingToCut(a: string, sep: char)
    requires sep !in a
    ensures Cut(a, sep) == None
  {
    if a != "" {
      NothingToCut(a[1..], sep);
    }
  }

  lemma {:induction false} SplitFirst(a: string, sep: char, b: string)
    requires sep !in a
    ensures Split(a + [sep] + b, sep) == [a] + Split(b, sep)
  {
    var all := a + [sep] + b;
    if a == "" {
      assert all[1..] == b;
    } else {
      assert all[1..] == a[1..] + [sep] + b;
      SplitFirst(a[1..], sep, b);
      assert a == [a[0]] + a[1..];
    }
  }

  lemma {:induction false} NothingToSplit(a: string, sep: char)
    requires sep !in a
    ensures Split(a, sep) == [a]
  {
    if a != "" {
      NothingToSplit(a[1..], sep);
      assert a == [a[0]] + a[1..];
    }
  }

  lemma {:induction false} SplitJoined(texts: seq<string>, sep: char)
    requires texts != [] && forall t :: t in texts ==> sep !in t
    ensures Split(Join(texts, sep), sep) == texts
  {
    assert texts[0] in texts;
    if |texts| == 1 {
      NothingToSplit(texts[0], sep);
    } else {
      SplitFirst(texts[0], sep, Join(texts[1..], sep));
      SplitJoined(texts[1..], sep);
      assert texts == [texts[0]] + texts[1..];
    }
  }

  lemma {:induction false} WordThenSpace(a: string, b: string)
    requires Spaceless(a) && (b == "" || IsSpace(b[0]))
    ensures Word(a + b) == a
  {
    if a == "" {
      assert a + b == b;
    } else {
      assert (a + b)[1..] == a[1..] + b;
      WordThenSpace(a[1..], b);
      assert a == [a[0]] + a[1..];
    }
  }

  lemma {:induction false} WordsOfJoined(texts: seq<string>)
    requires forall t :: t in texts ==> IsWord(t)
    ensures Words(Join(texts, ' ')) == texts
  {
    if texts != [] {
      var first, rest := texts[0], texts[1..];
      assert first in texts && texts == [first] + rest && forall t :: t in rest ==> t in texts;
      if rest == [] {
        WordThenSpace(first, "");
        assert first + "" == first;
      } else {
        var later := [' '] + Join(rest, ' ');
        WordThenSpace(first, later);
        WordsOfJoined(rest);
        assert Join(texts, ' ') == first + later && later[1..] == Join(rest, ' ');
        assert (first + later)[|first|..] == later;
      }
    }
  }

  lemma {:induction false} SpacelessJoin(texts: seq<string>)
    requires forall t :: t in texts ==> Spaceless(t)
    ensures Spaceless(Join(texts, ','))
  {
    if texts != [] {
      var first, rest := texts[0], Join(texts[1..], ',');
      assert first in texts && forall t :: t in texts[1..] ==> t in texts;
      SpacelessJoin(texts[1..]);
      forall c | c in Join(texts, ',') ensures !IsSpace(c) {
        assert c in first || c == ',' || c in rest;
      }
    }
  }

  // --- the round trip ---

  lemma BaseRoundTrip(part: Part, read: string -> Option<int>)
    requires Printable(part) && ReadsDecimals(read)
    ensures ParseBase(ShowBase(part), read) == Some(part.base)
    ensures ShowBase(part) != "" && forall c :: c in ShowBase(part) ==> c == '*' || c == '-' || '0' <= c <= '9'
  {
    match part.base
    case Star =>
    case Span(lo, hi) =>
      CutAt(Decimal(lo), '-', Decimal(hi));
      assert ShowBase(part)[|Decimal(lo)|] == '-';
    case Single(v) =>
      NothingToCut(Decimal(v), '-');
  }

  /** The characters an entry is printed with. */
  predicate EntryText(text: string) {
    text != "" && forall c :: c in text ==> c == '*' || c == '-' || c == '/' || '0' <= c <= '9'
  }

  lemma PartRoundTrip(part: Part, read: string -> Option<int>)
    requires Printable(part) && ReadsDecimals(read)
    ensures ParsePart(ShowPart(part), read) == Some(part) && EntryText(ShowPart(part))
  {
    BaseRoundTrip(part, read);
    var base := ShowBase(part);
    if part.step.Some? {
      var step := Decimal(part.step.value);
      CutAt(base, '/', step);
      assert base + ['/'] + step == base + ("/" + step);
    } else {
      NothingToCut(base, '/');
      assert base + "" == base;
    }
  }

  lemma NothingToStrip(text: string)
    requires EntryText(text)
    ensures Strip(text) == text && Spaceless(text) && ',' !in text
  {
    assert text[0] in text && text[|text| - 1] in text;
  }

  lemma ParseOneMore(text: string, rest: seq<string>, part: Part, field: Field, read: string -> Option<int>)
    requires Strip(text) == text && ParsePart(text, read) == Some(part) && ParseParts(rest, read) == Some(field)
    ensures ParseParts([text] + rest, read) == Some([part] + field)
  {
    assert ([text] + rest)[1..] == rest;
  }

  lemma {:induction false} PartsRoundTrip(field: Field, read: string -> Option<int>)
    requires (forall i :: 0 <= i < |field| ==> Printable(field[i])) && ReadsDecimals(read)
    ensures ParseParts(ShowParts(field), read) == Some(field)
    ensures forall t :: t in ShowParts(field) ==> EntryText(t)
  {
    if field != [] {
      var first, rest := field[0], field[1..];
      assert field == [first] + rest;
      PartRoundTrip(first, read);
      PartsRoundTrip(rest, read);
      NothingToStrip(ShowPart(first));
      ParseOneMore(ShowPart(first), ShowParts(rest), first, rest, read);
    }
  }

  lemma FieldRoundTrip(field: Field, read: string -> Option<int>)
    requires PrintableField(field) && ReadsDecimals(read)
    ensures ParseFieldText(ShowField(field), read) == Some(field)
    ensures IsWord(ShowField(field))
  {
    var texts := ShowParts(field);
    PartsRoundTrip(field, read);
    forall t | t in texts ensures Spaceless(t) && ',' !in t {
      NothingToStrip(t);
    }
    SplitJoined(texts, ',');
    SpacelessJoin(texts);
    assert texts[0] in texts;
  }

  lemma ParseFive(v: string, w: string, x: string, y: string, z: string, e: Expression, read: string -> Option<int>)
    requires IsWord(v) && IsWord(w) && IsWord(x) && IsWord(y) && IsWord(z)
    requires ParseFieldText(v, read) == Some(e.minute) && ParseFieldText(w, read) == Some(e.hour)
    requires ParseFieldText(x, read) == Some(e.day) && ParseFieldText(y, read) == Some(e.month)
    requires ParseFieldText(z, read) == Some(e.weekday)
    ensures ParseText(Join([v, w, x, y, z], ' '), read) == Some(e)
  {
    WordsOfJoined([v, w, x, y, z]);
  }

  /** Reading back a printed expression gives the expression. */
  lemma RoundTrip(e: Expression, read: string -> Option<int>)
    requires PrintableExpression(e) && ReadsDecimals(read)
    ensures ParseText(Show(e), read) == Some(e)
  {
    FieldRoundTrip(e.minute, read);
    FieldRoundTrip(e.hour, read);
    FieldRoundTrip(e.day, read);
    FieldRoundTrip(e.month, read);
    FieldRoundTrip(e.weekday, read);
    ParseFive(ShowField(e.minute), ShowField(e.hour), ShowField(e.day), ShowField(e.month), ShowField(e.weekday),
              e, read);
  }

  // --- the aliases ---

  lemma JoinLetters(a: char, b: char, c: char, d: char, e: char)
    ensures Join([[a], [b], [c], [d], [e]], ' ') == [a, ' ', b, ' ', c, ' ', d, ' ', e]
  {
    assert [[a], [b], [c], [d], [e]][1..] == [[b], [c], [d], [e]] && [[b], [c], [d], [e]][1..] == [[c], [d], [e]];
    assert [[c], [d], [e]][1..] == [[d], [e]] && [[d], [e]][1..] == [[e]];
    assert Join([[d], [e]], ' ') == [d, ' ', e];
    assert Join([[c], [d], [e]], ' ') == [c, ' ', d, ' ', e];
    assert Join([[b], [c], [d], [e]], ' ') == [b, ' ', c, ' ', d, ' ', e];
  }

  lemma ShowOne(part: Part)
    requires Printable(part)
    ensures PrintableField([part]) && ShowField([part]) == ShowPart(part)
  {
    assert [part][1..] == [] && ShowParts([]) == [];
    assert ShowParts([part]) == [ShowPart(part)] + [];
  }

  lemma ShowAny()
    ensures PrintableField(ANY) && ShowField(ANY) == ['*']
  {
    ShowOne(Part(Star, None));
    assert ShowPart(Part(Star, None)) == "*" + "";
  }

  lemma ShowOnly(v: nat)
    requires v < 10
    ensures PrintableField(Only(v)) && ShowField(Only(v)) == [('0' as int + v) as char]
  {
    ShowOne(Part(Single(v), None));
    assert ShowPart(Part(Single(v), None)) == Decimal(v) + "";
  }

  /** The table's text of an alias is its printed expression. */
  lemma AliasIsPrinted(a: Alias)
    ensures PrintableExpression(AliasExpression(a)) && Show(AliasExpression(a)) == AliasText(a)
  {
    ShowAny();
    ShowOnly(0);
    ShowOnly(1);
    match a
    case Yearly => JoinLetters('0', '0', '1', '1', '*');
    case Monthly => JoinLetters('0', '0', '1', '*', '*');
    case Weekly => JoinLetters('0', '0', '*', '*', '0');
    case Daily => JoinLetters('0', '0', '*', '*', '*');
    case Hourly => JoinLetters('0', '*', '*', '*', '*');
  }

  /** An alias, in any case and with space around it, parses to its expression, and so never raises. */
  lemma AliasTextsParse(text: string, a: Alias, read: string -> Option<int>)
    requires AliasOf(Lower(Strip(text))) == Some(a) && ReadsDecimals(read)
    ensures ParseText(Unaliased(text), read) == Some(AliasExpression(a))
    ensures forall f :: WellFormed(f) && Denotes(AliasExpression(a), f) ==> NeverRaises(f)
  {
    AliasIsPrinted(a);
    RoundTrip(AliasExpression(a), read);
    forall f | WellFormed(f) && Denotes(AliasExpression(a), f) ensures NeverRaises(f) {
      AliasesNeverRaise(a, f);
    }
  }

  /** What each name of the table schedules, whatever the case and the space around it. */
  lemma NamedSchedules(text: string, read: string -> Option<int>, f: Fields, t: Moment)
    requires ReadsDecimals(read) && AliasOf(Lower(Strip(text))).Some? && ValidMoment(t)
    requires var e := ParseText(Unaliased(text), read); WellFormed(f) && e.Some? && Denotes(e.value, f)
    ensures var name, midnight := Lower(Strip(text)), t.hour == 0 && t.minute == 0;
      && (name == "@hourly" ==> (FieldsMatch(t, f) <==> t.minute == 0))
      && (name == "@daily" || name == "@midnight" ==> (FieldsMatch(t, f) <==> midnight))
      && (name == "@weekly" ==> (FieldsMatch(t, f) <==> midnight && Weekday(t.date) == 6))
      && (name == "@monthly" ==> (FieldsMatch(t, f) <==> midnight && t.date.day == 1))
      && (name == "@yearly" || name == "@annually" ==>
            (FieldsMatch(t, f) <==> midnight && t.date.day == 1 && t.date.month == 1))
  {
    var a := AliasOf(Lower(Strip(text))).value;
    AliasTextsParse(text, a, read);
    AliasFires(a, f, t);
  }

  // --- what is read ---

  /** White space only separates: any of these characters splits the words on its two sides. */
  lemma {:induction false} SpaceSeparates(a: string, c: char, b: string)
    requires c == ' ' || c == '\t' || c == '\n' || c == '\r'
    ensures Words(a + [c] + b) == Words(a) + Words(b)
    decreases |a|
  {
    var all := a + [c] + b;
    if a == "" {
      assert all[1..] == b;
    } else if IsSpace(a[0]) {
      assert all[1..] == a[1..] + [c] + b;
      SpaceSeparates(a[1..], c, b);
    } else {
      WordEnds(a, c, b);
      var n := |Word(a)|;
      assert all[n..] == a[n..] + [c] + b;
      SpaceSeparates(a[n..], c, b);
      assert [Word(a)] + (Words(a[n..]) + Words(b)) == ([Word(a)] + Words(a[n..])) + Words(b);
    }
  }

  lemma {:induction false} WordEnds(a: string, c: char, b: string)
    requires IsSpace(c)
    ensures Word(a + [c] + b) == Word(a)
  {
    if a != "" {
      assert (a + [c] + b)[1..] == a[1..] + [c] + b;
      WordEnds(a[1..], c, b);
    }
  }

  /** Space around a text is ignored. */
  lemma {:induction false} PaddingIsIgnored(text: string, c: char)
    requires c == ' ' || c == '\t' || c == '\n' || c == '\r'
    ensures Strip([c] + text) == Strip(text) && Strip(text + [c]) == Strip(text)
    decreases |text|
  {
    assert ([c] + text)[1..] == text;
    if text == "" {
      assert "" + [c] == [c] && [c][1..] == "";
    } else if IsSpace(text[0]) {
      assert (text + [c])[1..] == text[1..] + [c];
      PaddingIsIgnored(text[1..], c);
    } else {
      assert (text + [c])[..|text|] == text;
    }
  }

  /** So is the case of letters: a letter and its capital, 32 places before it, are the same. */
  lemma CaseIsIgnored(text: string, other: string)
    requires |text| == |other|
    requires forall i :: 0 <= i < |text| ==>
      text[i] == other[i] || ('a' <= text[i] <= 'z' && text[i] as int == other[i] as int + 32)
    ensures Lower(text) == Lower(other)
  {
  }

  /** The text of an entry's base says exactly that base. */
  predicate SaysBase(text: string, base: Base, read: string -> Option<int>) {
    match base
    case Star => text == "*"
    case Span(lo, hi) =>
      exists n :: 0 <= n < |text| && text[n] == '-' && '-' !in text[..n]
                  && read(text[..n]) == Some(lo) && read(text[n + 1..]) == Some(hi)
    case Single(v) => text != "*" && '-' !in text && read(text) == Some(v)
  }

  lemma {:induction false} CutMeaning(text: string, sep: char)
    ensures Cut(text, sep).None? <==> sep !in text
    ensures Cut(text, sep).Some? ==>
      var (before, after) := Cut(text, sep).value;
      text == before + [sep] + after && sep !in before
  {
    if text != "" && text[0] != sep {
      CutMeaning(text[1..], sep);
      assert text == [text[0]] + text[1..];
    }
  }

  lemma CutPosition(text: string, sep: char, n: nat)
    requires n < |text| && text[n] == sep && sep !in text[..n]
    ensures Cut(text, sep) == Some((text[..n], text[n + 1..]))
  {
    CutAt(text[..n], sep, text[n + 1..]);
    assert text == text[..n] + [sep] + text[n + 1..];
  }

  /** A base is read exactly as it is written, and nothing else is accepted. */
  lemma BaseIsRead(text: string, base: Base, read: string -> Option<int>)
    ensures ParseBase(text, read) == Some(base) <==> SaysBase(text, base, read)
  {
    CutMeaning(text, '-');
    if Cut(text, '-').Some? {
      var (lo, hi) := Cut(text, '-').value;
      var n := |lo|;
      assert text[n] == '-' && text[..n] == lo && text[n + 1..] == hi;
      if base.Span? && SaysBase(text, base, read) {
        var k :| 0 <= k < |text| && text[k] == '-' && '-' !in text[..k]
                 && read(text[..k]) == Some(base.lo) && read(text[k + 1..]) == Some(base.hi);
        CutPosition(text, '-', k);
      }
    }
  }

  /** An entry is a base, or a base, a slash and a step. */
  predicate SaysPart(text: string, part: Part, read: string -> Option<int>) {
    if part.step.None? then text != "" && '/' !in text && SaysBase(text, part.base, read)
    else exists n :: 0 <= n < |text| && text[n] == '/' && '/' !in text[..n]
                     && SaysBase(text[..n], part.base, read) && read(text[n + 1..]) == part.step
  }

  /** An entry is read exactly as it is written, and nothing else is accepted. */
  lemma PartIsRead(text: string, part: Part, read: string -> Option<int>)
    ensures ParsePart(text, read) == Some(part) <==> SaysPart(text, part, read)
  {
    CutMeaning(text, '/');
    if Cut(text, '/').Some? {
      var (before, after) := Cut(text, '/').value;
      var n := |before|;
      assert text[n] == '/' && text[..n] == before && text[n + 1..] == after;
      BaseIsRead(before, part.base, read);
      if part.step.Some? && SaysPart(text, part, read) {
        var k :| 0 <= k < |text| && text[k] == '/' && '/' !in text[..k]
                 && SaysBase(text[..k], part.base, read) && read(text[k + 1..]) == part.step;
        CutPosition(text, '/', k);
      }
    } else {
      BaseIsRead(text, part.base, read);
    }
  }
}
