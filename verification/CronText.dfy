/** The text of a schedule: printing one and parsing it gives what it denotes. */
module CronText {
  import opened Wrappers
  import opened Text
  import opened Calendar
  import opened Cron

  datatype Span = Every | Any | At(n: nat) | FromTo(a: nat, b: nat)

  /** One piece of a field, with its optional step. */
  datatype Item = Item(span: Span, step: Option<nat>) {
    function Denotes(low: int, high: int): Range {
      var k := if step.Some? then step.value else 1;
      match span
      case Every | Any => Range(low, high, k)
      case At(n) => Range(n, n, k)
      case FromTo(a, b) => Range(a, b, k)
    }

    predicate Allowed(low: int, high: int) {
      var r := Denotes(low, high);
      r.step > 0 && low <= r.low <= r.high <= high
    }

    function Print(): string {
      PrintSpan(span) + if step.Some? then "/" + Decimal(step.value) else ""
    }
  }

  function PrintSpan(s: Span): string {
    match s
    case Every => "*"
    case Any => "?"
    case At(n) => Decimal(n)
    case FromTo(a, b) => Decimal(a) + "-" + Decimal(b)
  }

  /** The characters a field is printed with, apart from the comma. */
  predicate Plain(c: char) {
    IsDigit(c) || c == '*' || c == '?' || c == '-' || c == '/'
  }

  lemma PrintPlain(it: Item)
    ensures it.Print() != "" && forall c :: c in it.Print() ==> Plain(c)
  {
    hide Decimal;
    var s := it.Print();
    forall c | c in s ensures Plain(c) {
      if c !in PrintSpan(it.span) { assert it.step.Some? && c in "/" + Decimal(it.step.value); }
    }
  }

  lemma SpanParses(it: Item, low: int, high: int)
    ensures ParseSpan(PrintSpan(it.span), low, high) == Ok((it.Denotes(low, high).low, it.Denotes(low, high).high))
    ensures '/' !in PrintSpan(it.span)
  {
    hide Decimal, PyInt, IndexOf;
    match it.span
    case Every =>
    case Any =>
    case At(n) =>
      PyIntDecimal(n);
      assert Decimal(n)[0] in Decimal(n);
      assert '-' !in Decimal(n) && '*' !in Decimal(n) && '?' !in Decimal(n);
    case FromTo(a, b) =>
      PyIntDecimal(a);
      PyIntDecimal(b);
      var s := Decimal(a) + "-" + Decimal(b);
      assert '-' !in Decimal(a);
      IndexOfIs(Decimal(a), '-', Decimal(b));
      assert s[..|Decimal(a)|] == Decimal(a) && s[|Decimal(a)| + 1..] == Decimal(b);
      assert Decimal(a)[0] in Decimal(a) && s[0] == Decimal(a)[0];
  }

  /** A piece is read as what it denotes if its step is positive and its bounds are ordered
      and in range, and is refused otherwise. */
  lemma ItemIff(it: Item, low: int, high: int)
    ensures ParseChunk(it.Print(), low, high) ==
            if it.Allowed(low, high) then Ok(it.Denotes(low, high))
            else Err(if it.step == Some(0) then BadStep else OutOfRange)
  {
    hide Decimal, PyInt, IndexOf, ParseSpan, PrintSpan, Strip;
    var s, body := it.Print(), PrintSpan(it.span);
    PrintPlain(it);
    assert s[0] in s && s[|s| - 1] in s;
    StripTight(s);
    SpanParses(it, low, high);
    if it.step.Some? {
      var k := Decimal(it.step.value);
      PyIntDecimal(it.step.value);
      assert s == body + ['/'] + k;
      IndexOfIs(body, '/', k);
      assert s[|body| + 1..] == k && s[..|body|] == body;
    } else {
      assert s == body;
    }
  }

  function PrintItems(its: seq<Item>): seq<string> {
    if its == [] then [] else [its[0].Print()] + PrintItems(its[1..])
  }

  function DenoteItems(its: seq<Item>, low: int, high: int): set<int>
    requires forall it :: it in its ==> it.Allowed(low, high)
  {
    if its == [] then {}
    else
      var it := its[0];
      assert it.Allowed(low, high);
      it.Denotes(low, high).Values() + DenoteItems(its[1..], low, high)
  }

  function PrintField(its: seq<Item>): string
    requires its != []
  {
    JoinWith(PrintItems(its), ',')
  }

  lemma {:induction false} ItemsParse(its: seq<Item>, low: int, high: int)
    requires forall it :: it in its ==> it.Allowed(low, high)
    ensures ParseChunks(PrintItems(its), low, high) == Ok(DenoteItems(its, low, high))
    ensures forall p :: p in PrintItems(its) ==> p != "" && forall c :: c in p ==> Plain(c)
  {
    hide ParseChunk, Plain;
    if its != [] {
      ItemIff(its[0], low, high);
      PrintPlain(its[0]);
      ItemsParse(its[1..], low, high);
      assert PrintItems(its)[1..] == PrintItems(its[1..]);
    }
  }

  function DenoteField(its: seq<Item>, low: int, high: int, weekday: bool): set<int>
    requires forall it :: it in its ==> it.Allowed(low, high)
  {
    if weekday then FoldSunday(DenoteItems(its, low, high)) else DenoteItems(its, low, high)
  }

  lemma FieldParses(its: seq<Item>, low: int, high: int, weekday: bool)
    requires its != [] && forall it :: it in its ==> it.Allowed(low, high)
    ensures Field(PrintField(its), low, high, weekday) == Ok(DenoteField(its, low, high, weekday))
    ensures Word(PrintField(its))
  {
    hide ParseChunk;
    var parts := PrintItems(its);
    ItemsParse(its, low, high);
    assert !Plain(',');
    SplitJoin(parts, ',');
    JoinWords(parts);
  }

  lemma {:induction false} ItemsPlain(its: seq<Item>)
    ensures |PrintItems(its)| == |its|
    ensures forall p :: p in PrintItems(its) ==> ',' !in p
  {
    if its != [] {
      PrintPlain(its[0]);
      ItemsPlain(its[1..]);
    }
  }

  lemma {:induction false} ItemsRefused(its: seq<Item>, low: int, high: int, i: nat)
    requires i < |its| && !its[i].Allowed(low, high)
    ensures ParseChunks(PrintItems(its), low, high).Err?
  {
    hide ParseChunk;
    ItemIff(its[0], low, high);
    assert PrintItems(its)[1..] == PrintItems(its[1..]);
    if i > 0 { ItemsRefused(its[1..], low, high, i - 1); }
  }

  /** A printed field is accepted exactly if all its pieces are. */
  lemma FieldIff(its: seq<Item>, low: int, high: int, weekday: bool)
    requires its != []
    ensures Field(PrintField(its), low, high, weekday).Ok? <==> forall it :: it in its ==> it.Allowed(low, high)
  {
    if forall it :: it in its ==> it.Allowed(low, high) {
      FieldParses(its, low, high, weekday);
    } else {
      var it :| it in its && !it.Allowed(low, high);
      var i :| 0 <= i < |its| && its[i] == it;
      ItemsPlain(its);
      SplitJoin(PrintItems(its), ',');
      ItemsRefused(its, low, high, i);
    }
  }

  /** A nonempty text without white space. */
  predicate Word(s: string) {
    s != "" && forall c :: c in s ==> !IsSpace(c)
  }

  lemma {:induction false} JoinWords(parts: seq<string>)
    requires parts != [] && forall p :: p in parts ==> Word(p)
    ensures Word(JoinWith(parts, ','))
  {
    assert parts[0] in parts && !IsSpace(',');
    if |parts| > 1 {
      var rest := JoinWith(parts[1..], ',');
      JoinWords(parts[1..]);
      forall c | c in parts[0] + [','] + rest ensures !IsSpace(c) {
        assert c in parts[0] || c == ',' || c in rest;
      }
    }
  }

  /** White space between two words. */
  predicate Gap(s: string) {
    s != "" && Blank(s)
  }

  lemma {:induction false} WordsSkip(gap: string, rest: string)
    requires Blank(gap)
    ensures Words(gap + rest) == Words(rest)
  {
    if gap == "" {
      assert gap + rest == rest;
    } else {
      assert gap[0] in gap && (gap + rest)[1..] == gap[1..] + rest;
      WordsSkip(gap[1..], rest);
    }
  }

  lemma {:induction false} WordsCons(w: string, gap: string, rest: string)
    requires Word(w) && Gap(gap)
    ensures Words(w) == [w]
    ensures Words(w + gap + rest) == [w] + Words(rest)
  {
    hide Blank;
    assert w[0] in w;
    var s := w + gap + rest;
    if |w| == 1 {
      GapStarts(gap);
      WordsSkip(gap, rest);
      assert s[1..] == gap + rest && s[1] == gap[0] && s[..1] == w;
      assert w[1..] == "" && Words("") == [] && w[..1] == w;
    } else {
      assert w[1] in w && w[1..] + gap + rest == s[1..];
      assert Word(w[1..]) by { forall c | c in w[1..] ensures c in w {} }
      WordsCons(w[1..], gap, rest);
      assert w[..1] + w[1..] == w && s[..1] == w[..1];
    }
  }

  lemma GapStarts(gap: string)
    requires Gap(gap)
    ensures IsSpace(gap[0])
  {}

  datatype Schedule = Schedule(minutes: seq<Item>, hours: seq<Item>, days: seq<Item>, months: seq<Item>, weekdays: seq<Item>) {
    predicate Allowed() {
      && FieldAllowed(minutes, 0, 59) && FieldAllowed(hours, 0, 23) && FieldAllowed(days, 1, 31)
      && FieldAllowed(months, 1, 12) && FieldAllowed(weekdays, 0, 7)
    }

    /** The five fields, with this white space between each and the next. */
    function Print(gaps: seq<string>): string
      requires Allowed() && |gaps| == 4
    {
      PrintField(minutes) + gaps[0] + (PrintField(hours) + gaps[1] + (PrintField(days) + gaps[2]
        + (PrintField(months) + gaps[3] + PrintField(weekdays))))
    }

    function Denotes(): Fields
      requires Allowed()
    {
      Fields(DenoteField(minutes, 0, 59, false), DenoteField(hours, 0, 23, false), DenoteField(days, 1, 31, false),
             DenoteField(months, 1, 12, false), DenoteField(weekdays, 0, 7, true))
    }
  }

  predicate FieldAllowed(its: seq<Item>, low: int, high: int) {
    its != [] && forall it :: it in its ==> it.Allowed(low, high)
  }

  /** Every schedule parses to what it denotes, whatever white space parts its fields. */
  lemma ScheduleParses(s: Schedule, gaps: seq<string>)
    requires s.Allowed() && |gaps| == 4 && forall g :: g in gaps ==> Gap(g)
    ensures Parse(s.Print(gaps)) == Ok(s.Denotes())
  {
    hide Field, Words, Strip, PrintField, DenoteField, Word, IsSpace, Gap;
    FieldParses(s.minutes, 0, 59, false);
    FieldParses(s.hours, 0, 23, false);
    FieldParses(s.days, 1, 31, false);
    FieldParses(s.months, 1, 12, false);
    FieldParses(s.weekdays, 0, 7, true);
    var w0, w1, w2, w3, w4 := PrintField(s.minutes), PrintField(s.hours), PrintField(s.days),
      PrintField(s.months), PrintField(s.weekdays);
    FiveWords(w0, w1, w2, w3, w4, gaps[0], gaps[1], gaps[2], gaps[3]);
  }

  lemma FiveWords(w0: string, w1: string, w2: string, w3: string, w4: string,
                  g0: string, g1: string, g2: string, g3: string)
    requires Word(w0) && Word(w1) && Word(w2) && Word(w3) && Word(w4) && Gap(g0) && Gap(g1) && Gap(g2) && Gap(g3)
    ensures var s := w0 + g0 + (w1 + g1 + (w2 + g2 + (w3 + g3 + w4)));
            Words(Strip(s)) == [w0, w1, w2, w3, w4]
  {
    hide Words, Strip, Word, Gap;
    WordsCons(w4, g3, "");
    WordsCons(w3, g3, w4);
    WordsCons(w2, g2, w3 + g3 + w4);
    WordsCons(w1, g1, w2 + g2 + (w3 + g3 + w4));
    WordsCons(w0, g0, w1 + g1 + (w2 + g2 + (w3 + g3 + w4)));
    var t := g0 + (w1 + g1 + (w2 + g2 + (w3 + g3)));
    assert w0 + g0 + (w1 + g1 + (w2 + g2 + (w3 + g3 + w4))) == w0 + t + w4;
    TightEnds(w0, t, w4);
  }

  lemma TightEnds(a: string, b: string, c: string)
    requires Word(a) && Word(c)
    ensures Strip(a + b + c) == a + b + c
  {
    assert a[0] in a && c[|c| - 1] in c;
    StripTight(a + b + c);
  }

  // ---------------------------------------------------------------------------
  // A schedule that does not fire within the year it is asked about

  const LEAP_DAYS := Schedule([Item(At(0), None)], [Item(At(0), None)], [Item(At(29), None)], [Item(At(2), None)], [Item(Every, None)])

  const BLANKS := [" ", " ", " ", " "]

  const ZERO_TO_SEVEN: set<int> := set d | 0 <= d < 8

  lemma LeapDaysMean()
    ensures LEAP_DAYS.Allowed()
    ensures LEAP_DAYS.Denotes() == LEAP_DAY_FIELDS
  {
    forall n: nat, low, high | low <= n <= high
      ensures DenoteItems([Item(At(n), None)], low, high) == {n}
    {
      var it := Item(At(n), None);
      assert it.Denotes(low, high).Values() == {n};
      assert DenoteItems([it], low, high) == {n};
    }
    var every := Item(Every, None);
    assert every.Denotes(0, 7).Values() == ZERO_TO_SEVEN;
    assert DenoteItems([every], 0, 7) == ZERO_TO_SEVEN;
    assert FoldSunday(ZERO_TO_SEVEN) == EVERY_WEEKDAY;
  }

  const LEAP_DAY_FIELDS := Fields({0}, {0}, {29}, {2}, EVERY_WEEKDAY)

  lemma NoLeapDayAhead(f: Fields, after: Civil, c: Civil)
    requires after == Civil(2025, 3, 1, 0, 0)
    ensures !LeapDayAhead(f, after, c)
  {
    hide MinuteNo, Ordinal, Matches;
    TwoYearsOn();
    if c.Valid() && c.month == 2 && c.day == 29 {
      assert c.year != 2025 && c.year != 2026;
      if c.year < 2025 { BeforeGrows(c, after); } else { BeforeGrows(Civil(2027, 1, 1, 0, 0), c); }
    }
  }

  lemma LeapDayNumerals()
    ensures Decimal(0) == "0" && Decimal(2) == "2" && Decimal(29) == "29"
  {
    assert Decimal(29) == Decimal(2) + [DigitChar(9)];
  }

  /** The text of the leap-day schedule. */
  lemma LeapDayText()
    ensures LEAP_DAYS.Allowed() && LEAP_DAYS.Print(BLANKS) == "0 0 29 2 *"
  {
    hide Decimal, PrintField, Schedule.Allowed;
    LeapDaysMean();
    LeapDayNumerals();
    OneItem(At(0));
    OneItem(At(29));
    OneItem(At(2));
    OneItem(Every);
    assert "0" + " " + ("0" + " " + ("29" + " " + ("2" + " " + "*"))) == "0 0 29 2 *";
  }

  lemma OneItem(span: Span)
    ensures PrintField([Item(span, None)]) == PrintSpan(span)
  {
    var it := Item(span, None);
    assert [it][1..] == [] && it.Print() == PrintSpan(span) + "";
    assert PrintItems([it]) == [it.Print()];
  }

  /** The text is a schedule that this minute matches. */
  predicate Matched(expr: string, c: Civil) {
    c.Valid() && Parse(expr).Ok? && Matches(c, Parse(expr).value)
  }

  /** "0 0 29 2 *" asked on the first of March 2025 is refused, though it is a schedule that
      the 29th of February 2028 matches. */
  lemma LeapDayMissed(expr: string, after: Civil, r: Result<Civil>)
    requires expr == "0 0 29 2 *" && after == Civil(2025, 3, 1, 0, 0) && NextRun(expr, after, r)
    ensures r == Err(NoRunWithinAYear) && Matched(expr, Civil(2028, 2, 29, 0, 0))
  {
    hide LeastMatch, Parse, Matches;
    LeapDayParses(expr);
    LeapDayFires();
    LeapDayFails(r);
  }

  lemma LeapDayParses(expr: string)
    requires expr == "0 0 29 2 *"
    ensures Parse(expr) == Ok(LEAP_DAY_FIELDS)
  {
    hide Parse, Schedule.Print, Schedule.Denotes, Schedule.Allowed;
    LeapDaysMean();
    LeapDayText();
    ScheduleParses(LEAP_DAYS, BLANKS);
  }

  lemma LeapDayFails(r: Result<Civil>)
    requires LeastMatch(LEAP_DAY_FIELDS, Civil(2025, 3, 1, 0, 0), r)
    ensures r == Err(NoRunWithinAYear)
  {
    var after := Civil(2025, 3, 1, 0, 0);
    hide MinuteNo, Matches, LeapDayAhead, Candidate;
    LeapDayFires();
    FailsIff(LEAP_DAY_FIELDS, after);
    forall c ensures !LeapDayAhead(LEAP_DAY_FIELDS, after, c) {
      NoLeapDayAhead(LEAP_DAY_FIELDS, after, c);
    }
  }

  lemma TwoYearsOn()
    ensures MinuteNo(Civil(2027, 1, 1, 0, 0)) > MinuteNo(Civil(2025, 3, 1, 0, 0)) + HORIZON
  {
    MonthTable(2025, 3);
  }

  lemma LeapDayFires()
    ensures Matches(Civil(2028, 2, 29, 0, 0), LEAP_DAY_FIELDS)
    ensures Sane(LEAP_DAY_FIELDS) && !EveryYear(LEAP_DAY_FIELDS)
  {
    assert 0 in LEAP_DAY_FIELDS.minutes && 0 in LEAP_DAY_FIELDS.hours && 29 in LEAP_DAY_FIELDS.days
      && 2 in LEAP_DAY_FIELDS.months && 0 in LEAP_DAY_FIELDS.weekdays;
    assert 1 in EVERY_DAY;
  }
}
