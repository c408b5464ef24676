/** Cron schedules: src/artek_buddy/cron.py. */
module Cron {
  import opened Wrappers
  import opened Text
  import opened Calendar

  datatype Error = FieldCount | EmptyField | BadStep | BadNumber | OutOfRange | NoRunWithinAYear

  datatype Result<+T> = Ok(value: T) | Err(error: Error)

  // ---------------------------------------------------------------------------
  // The field parser

  /** One comma-separated piece: low, low + step, ... up to high. */
  datatype Range = Range(low: int, high: int, step: int) {
    predicate Has(v: int)
      requires step > 0
    {
      low <= v <= high && (v - low) % step == 0
    }

    function Values(): set<int>
      requires step > 0
    {
      set v | low <= v <= high && Has(v)
    }
  }

  function ParseSpan(piece: string, low: int, high: int): Result<(int, int)> {
    var dash := IndexOf(piece, '-');
    if piece == "*" || piece == "?" then Ok((low, high))
    else if dash >= 0 then
      match (PyInt(piece[..dash]), PyInt(piece[dash + 1..]))
      case (Some(a), Some(b)) => Ok((a, b))
      case _ => Err(BadNumber)
    else
      match PyInt(piece)
      case Some(a) => Ok((a, a))
      case None => Err(BadNumber)
  }

  function ParseChunk(chunk: string, low: int, high: int): (r: Result<Range>)
    ensures r.Ok? ==> r.value.step > 0 && low <= r.value.low <= r.value.high <= high
  {
    var piece := Strip(chunk);
    if piece == "" then Err(EmptyField)
    else
      var slash := IndexOf(piece, '/');
      var step := if slash < 0 then Some(1) else PyInt(piece[slash + 1..]);
      if step.None? || step.value < 1 then Err(BadStep)
      else
        match ParseSpan(if slash < 0 then piece else piece[..slash], low, high)
        case Err(e) => Err(e)
        case Ok((a, b)) => if a > b || a < low || b > high then Err(OutOfRange) else Ok(Range(a, b, step.value))
  }

  function ParseChunks(chunks: seq<string>, low: int, high: int): Result<set<int>> {
    if chunks == [] then Ok({})
    else
      match ParseChunk(chunks[0], low, high)
      case Err(e) => Err(e)
      case Ok(r) =>
        match ParseChunks(chunks[1..], low, high)
        case Err(e) => Err(e)
        case Ok(values) => Ok(r.Values() + values)
  }

  /** Sunday may be written 7. */
  function FoldSunday(values: set<int>): set<int> {
    if 7 in values then values + {0} - {7} else values
  }

  function Field(raw: string, low: int, high: int, weekday: bool): Result<set<int>> {
    match ParseChunks(SplitOn(raw, ','), low, high)
    case Err(e) => Err(e)
    case Ok(values) => Ok(if weekday then FoldSunday(values) else values)
  }

  function Prepend(values: set<int>, r: Result<set<int>>): Result<set<int>> {
    match r case Err(e) => Err(e) case Ok(more) => Ok(values + more)
  }

  lemma PrependAdds(a: set<int>, b: set<int>, r: Result<set<int>>)
    ensures Prepend(a + b, r) == Prepend(a, Prepend(b, r)) && Prepend({}, r) == r
  {
    if r.Ok? { assert a + b + r.value == a + (b + r.value) && {} + r.value == r.value; }
  }

  lemma PrependError(a: set<int>, e: Error)
    ensures Prepend(a, Err(e)) == Err(e)
  {}

  lemma ParseChunksEnd(a: set<int>, low: int, high: int)
    ensures Prepend(a, ParseChunks([], low, high)) == Ok(a)
  {
    assert a + {} == a;
  }

  lemma ParseChunksStep(chunks: seq<string>, i: nat, low: int, high: int)
    requires i < |chunks|
    ensures ParseChunks(chunks[i..], low, high) ==
            match ParseChunk(chunks[i], low, high)
            case Err(e) => Err(e)
            case Ok(r) => Prepend(r.Values(), ParseChunks(chunks[i + 1..], low, high))
  {
    assert chunks[i..][1..] == chunks[i + 1..];
  }

  method ParseField(raw: string, low: int, high: int, weekday: bool) returns (r: Result<set<int>>)
    ensures r == Field(raw, low, high, weekday)
  {
    hide ParseChunk, ParseChunks, SplitOn, Prepend;
    var values: set<int> := {};
    var chunks := SplitOn(raw, ',');
    ghost var all := ParseChunks(chunks, low, high);
    assert chunks[0..] == chunks;
    PrependAdds({}, {}, all);
    for i := 0 to |chunks|
      invariant all == Prepend(values, ParseChunks(chunks[i..], low, high))
    {
      ParseChunksStep(chunks, i, low, high);
      var chunk := ParseChunk(chunks[i], low, high);
      if chunk.Err? {
        PrependError(values, chunk.error);
        return Err(chunk.error);
      }
      PrependAdds(values, chunk.value.Values(), ParseChunks(chunks[i + 1..], low, high));
      values := values + chunk.value.Values();
    }
    assert chunks[|chunks|..] == [];
    ParseChunksEnd(values, low, high);
    if weekday && 7 in values {
      values := values + {0};
      values := values - {7};
    }
    return Ok(values);
  }

  predicate AllParse(chunks: seq<string>, low: int, high: int) {
    forall i :: 0 <= i < |chunks| ==> ParseChunk(chunks[i], low, high).Ok?
  }

  /** Some piece denotes the value. */
  predicate SomeHas(chunks: seq<string>, low: int, high: int, v: int)
    requires AllParse(chunks, low, high)
  {
    exists i :: 0 <= i < |chunks| && ParseChunk(chunks[i], low, high).value.Has(v)
  }

  /** A parsed field holds exactly the values its pieces denote, with 7 read as 0 in the
      weekday field; it is never empty and never leaves its range. */
  lemma FieldMeans(raw: string, low: int, high: int, weekday: bool)
    requires Field(raw, low, high, weekday).Ok?
    requires weekday ==> low == 0 && high == 7
    ensures var values, chunks := Field(raw, low, high, weekday).value, SplitOn(raw, ',');
            && (exists v :: v in values)
            && AllParse(chunks, low, high)
            && (forall v :: v in values ==> low <= v <= (if weekday then 6 else high))
            && (forall v :: v in values <==>
                  !(weekday && v == 7) &&
                  (SomeHas(chunks, low, high, v) || (weekday && v == 0 && SomeHas(chunks, low, high, 7))))
  {
    hide ParseChunk, SplitOn, SomeHas, AllParse, ParseChunks;
    var chunks := SplitOn(raw, ',');
    ChunksMean(chunks, low, high);
    var least := SomeValue(chunks, low, high);
    assert least in ParseChunks(chunks, low, high).value;
    assert (if weekday && least == 7 then 0 else least) in Field(raw, low, high, weekday).value;
    forall v | SomeHas(chunks, low, high, v) ensures low <= v <= high { HasInRange(chunks, low, high, v); }
  }

  lemma SomeValue(chunks: seq<string>, low: int, high: int) returns (v: int)
    requires chunks != [] && AllParse(chunks, low, high)
    ensures SomeHas(chunks, low, high, v)
  {
    hide ParseChunk;
    v := ParseChunk(chunks[0], low, high).value.low;
    assert ParseChunk(chunks[0], low, high).value.Has(v);
  }

  lemma HasInRange(chunks: seq<string>, low: int, high: int, v: int)
    requires AllParse(chunks, low, high) && SomeHas(chunks, low, high, v)
    ensures low <= v <= high
  {
    hide ParseChunk;
  }

  lemma {:induction false} ChunksMean(chunks: seq<string>, low: int, high: int)
    requires ParseChunks(chunks, low, high).Ok?
    ensures AllParse(chunks, low, high)
    ensures forall v :: v in ParseChunks(chunks, low, high).value <==> SomeHas(chunks, low, high, v)
  {
    hide ParseChunk;
    if chunks != [] {
      var rest := chunks[1..];
      ChunksMean(rest, low, high);
      assert forall i :: 0 < i < |chunks| ==> chunks[i] == rest[i - 1];
      var all := ParseChunks(chunks, low, high).value;
      forall v
        ensures v in all <==> SomeHas(chunks, low, high, v)
      {
        if v in ParseChunks(rest, low, high).value {
          var i :| 0 <= i < |rest| && ParseChunk(rest[i], low, high).value.Has(v);
          assert ParseChunk(chunks[i + 1], low, high).value.Has(v);
        }
        if v in ParseChunk(chunks[0], low, high).value.Values() {
          assert ParseChunk(chunks[0], low, high).value.Has(v);
        }
      }
    }
  }

  /** Python's str.split(): the maximal runs of characters that are not white space. */
  function Words(s: string): seq<string> {
    if s == "" then []
    else if IsSpace(s[0]) then Words(s[1..])
    else if |s| == 1 || IsSpace(s[1]) then [s[..1]] + Words(s[1..])
    else
      var rest := Words(s[1..]);
      assert rest != [];
      [s[..1] + rest[0]] + rest[1..]
  }

  datatype Fields = Fields(minutes: set<int>, hours: set<int>, days: set<int>, months: set<int>, weekdays: set<int>)

  function Parse(expr: string): Result<Fields> {
    var parts := Words(Strip(expr));
    if |parts| != 5 then Err(FieldCount)
    else
      match Field(parts[0], 0, 59, false) case Err(e) => Err(e) case Ok(minutes) =>
      match Field(parts[1], 0, 23, false) case Err(e) => Err(e) case Ok(hours) =>
      match Field(parts[2], 1, 31, false) case Err(e) => Err(e) case Ok(days) =>
      match Field(parts[3], 1, 12, false) case Err(e) => Err(e) case Ok(months) =>
      match Field(parts[4], 0, 7, true) case Err(e) => Err(e) case Ok(weekdays) =>
      Ok(Fields(minutes, hours, days, months, weekdays))
  }

  const FIELD_RANGES: seq<(int, int)> := [(0, 59), (0, 23), (1, 31), (1, 12), (0, 7)]

  method ParseCron(expr: string) returns (r: Result<Fields>)
    ensures r == Parse(expr)
  {
    hide Field, Words, Strip;
    var parts := Words(Strip(expr));
    if |parts| != 5 { return Err(FieldCount); }
    var parsed: seq<set<int>> := [];
    for index := 0 to 5
      invariant |parsed| == index
      invariant forall k :: 0 <= k < index ==>
                  Field(parts[k], FIELD_RANGES[k].0, FIELD_RANGES[k].1, k == 4) == Ok(parsed[k])
    {
      var (low, high) := FIELD_RANGES[index];
      var field := ParseField(parts[index], low, high, index == 4);
      match field
      case Err(e) => return Err(e);
      case Ok(values) => parsed := parsed + [values];
    }
    return Ok(Fields(parsed[0], parsed[1], parsed[2], parsed[3], parsed[4]));
  }

  /** What every parsed schedule satisfies. */
  predicate Sane(f: Fields) {
    && (exists v :: v in f.minutes) && (exists v :: v in f.hours) && (exists v :: v in f.days)
    && (exists v :: v in f.months) && (exists v :: v in f.weekdays)
    && (forall v :: v in f.minutes ==> 0 <= v <= 59)
    && (forall v :: v in f.hours ==> 0 <= v <= 23)
    && (forall v :: v in f.days ==> 1 <= v <= 31)
    && (forall v :: v in f.months ==> 1 <= v <= 12)
    && (forall v :: v in f.weekdays ==> 0 <= v <= 6)
  }

  lemma ParseSane(expr: string)
    requires Parse(expr).Ok?
    ensures Sane(Parse(expr).value)
  {
    hide Field, Words, Strip;
    var parts := Words(Strip(expr));
    FieldMeans(parts[0], 0, 59, false);
    FieldMeans(parts[1], 0, 23, false);
    FieldMeans(parts[2], 1, 31, false);
    FieldMeans(parts[3], 1, 12, false);
    FieldMeans(parts[4], 0, 7, true);
  }

  // ---------------------------------------------------------------------------
  // Matching and searching

  function CronDow(c: Civil): int
    requires c.Valid()
  {
    (Weekday(c) + 1) % 7
  }

  const EVERY_DAY: set<int> := set d | 1 <= d < 32
  const EVERY_WEEKDAY: set<int> := set d | 0 <= d < 7

  predicate Matches(c: Civil, f: Fields)
    requires c.Valid()
  {
    if c.minute !in f.minutes || c.hour !in f.hours || c.month !in f.months then false
    else
      var domStar, dowStar := f.days == EVERY_DAY, f.weekdays == EVERY_WEEKDAY;
      if domStar && dowStar then true
      else if !domStar && !dowStar then c.day in f.days || CronDow(c) in f.weekdays
      else if !domStar then c.day in f.days
      else CronDow(c) in f.weekdays
  }

  /** Where one of the two day fields is free both must allow the day; where both are
      restricted either may. */
  lemma MatchesIff(c: Civil, f: Fields)
    requires c.Valid()
    ensures Matches(c, f) <==>
            && c.minute in f.minutes && c.hour in f.hours && c.month in f.months
            && if f.days == EVERY_DAY || f.weekdays == EVERY_WEEKDAY then c.day in f.days && CronDow(c) in f.weekdays
               else c.day in f.days || CronDow(c) in f.weekdays
  {
    hide Weekday;
    assert c.day in EVERY_DAY && CronDow(c) in EVERY_WEEKDAY;
  }

  /** The first of January 2000 was a Saturday. */
  lemma SaturdayIsSix()
    ensures CronDow(Civil(2000, 1, 1, 0, 0)) == 6
  {
    assert DaysBeforeYear(2000) == 730119;
  }

  /** The weekday advances by one from a day to the next, and stays the same within a day. */
  lemma WeekdayAdvances(c: Civil)
    requires c.Valid()
    ensures var next := Tick(c);
            CronDow(next) == if next.day == c.day then CronDow(c) else (CronDow(c) + 1) % 7
  {
    hide Ordinal;
    DayAfter(c.year, c.month, c.day);
    var next := Tick(c);
    assert Ordinal(next.year, next.month, next.day) ==
           Ordinal(c.year, c.month, c.day) + if next.day == c.day then 0 else 1;
  }

  const HORIZON := 366 * 24 * 60 + 2

  /** A matching minute after `start`, among the minutes the search visits. */
  ghost predicate Candidate(f: Fields, start: Civil, c: Civil)
    requires start.Valid()
  {
    c.Valid() && MinuteNo(start) < MinuteNo(c) <= MinuteNo(start) + HORIZON && Matches(c, f)
  }

  /** The result is the least matching minute after `after`; an error means that there is
      none among the minutes visited. */
  ghost predicate LeastMatch(f: Fields, after: Civil, r: Result<Civil>)
    requires after.Valid()
  {
    match r
    case Ok(c) =>
      && Candidate(f, after, c)
      && forall d: Civil :: d.Valid() && MinuteNo(after) < MinuteNo(d) < MinuteNo(c) ==> !Matches(d, f)
    case Err(e) => e == NoRunWithinAYear && forall d :: !Candidate(f, after, d)
  }

  /** What is asked of a text: its parse error, or the least match of what it parses to. */
  ghost predicate NextRun(expr: string, after: Civil, r: Result<Civil>)
    requires after.Valid()
  {
    match Parse(expr) case Err(e) => r == Err(e) case Ok(f) => LeastMatch(f, after, r)
  }

  method NextRunAt(expr: string, after: Civil) returns (r: Result<Civil>)
    requires after.Valid()
    ensures NextRun(expr, after, r)
  {
    hide Parse, MinuteNo, Matches, Tick;
    var parsed := ParseCron(expr);
    if parsed.Err? { return Err(parsed.error); }
    var f := parsed.value;
    TickAdds(after);
    var local := Tick(after);
    for k := 0 to HORIZON
      invariant local.Valid() && MinuteNo(local) == MinuteNo(after) + k + 1
      invariant forall d: Civil :: d.Valid() && MinuteNo(after) < MinuteNo(d) < MinuteNo(local) ==> !Matches(d, f)
    {
      if Matches(local, f) { return Ok(local); }
      forall d: Civil | d.Valid() && MinuteNo(d) == MinuteNo(local) ensures !Matches(d, f) {
        OrderIff(d, local);
      }
      TickAdds(local);
      local := Tick(local);
    }
    return Err(NoRunWithinAYear);
  }

  predicate NoLater(a: Result<Civil>, b: Result<Civil>) {
    a.Ok? && a.value.Valid() && (b.Ok? && b.value.Valid() ==> MinuteNo(a.value) <= MinuteNo(b.value))
  }

  /** With both day fields restricted, the next run is the earlier of the next runs of the two
      schedules that each free one of them. */
  lemma EarlierOfTwo(f: Fields, after: Civil, r: Result<Civil>, byDay: Result<Civil>, byWeekday: Result<Civil>)
    requires after.Valid() && f.days != EVERY_DAY && f.weekdays != EVERY_WEEKDAY
    requires LeastMatch(f, after, r)
    requires LeastMatch(f.(weekdays := EVERY_WEEKDAY), after, byDay)
    requires LeastMatch(f.(days := EVERY_DAY), after, byWeekday)
    ensures r == if NoLater(byDay, byWeekday) then byDay else byWeekday
  {
    hide MinuteNo, Matches, CronDow;
    var f1, f2 := f.(weekdays := EVERY_WEEKDAY), f.(days := EVERY_DAY);
    forall c: Civil | c.Valid() ensures Matches(c, f) <==> Matches(c, f1) || Matches(c, f2) { EitherDay(c, f); }
    if r.Ok? {
      if byDay.Ok? { OrderIff(byDay.value, r.value); }
      if byWeekday.Ok? { OrderIff(byWeekday.value, r.value); }
      assert Matches(r.value, f1) || Matches(r.value, f2);
      assert Candidate(f1, after, r.value) || Candidate(f2, after, r.value);
    } else {
      assert byDay.Ok? ==> Candidate(f, after, byDay.value);
      assert byWeekday.Ok? ==> Candidate(f, after, byWeekday.value);
    }
  }

  lemma EitherDay(c: Civil, f: Fields)
    requires c.Valid() && f.days != EVERY_DAY && f.weekdays != EVERY_WEEKDAY
    ensures Matches(c, f) <==> Matches(c, f.(weekdays := EVERY_WEEKDAY)) || Matches(c, f.(days := EVERY_DAY))
  {
    hide Weekday, Matches;
    MatchesIff(c, f);
    MatchesIff(c, f.(weekdays := EVERY_WEEKDAY));
    MatchesIff(c, f.(days := EVERY_DAY));
    assert c.day in EVERY_DAY && CronDow(c) in EVERY_WEEKDAY;
  }

  // ---------------------------------------------------------------------------
  // When the search fails

  /** The days a month has in every year. */
  function MinDays(month: int): int {
    if month == 2 then 28 else if month in {4, 6, 9, 11} then 30 else 31
  }

  /** Some allowed month and day exist in every year. */
  predicate EveryYear(f: Fields) {
    exists m, d :: m in f.months && d in f.days && d <= MinDays(m)
  }

  /** Any date that every year has recurs within 366 days, at any time of day. */
  lemma DateRecurs(after: Civil, month: int, day: int, hour: int, minute: int) returns (c: Civil)
    requires after.Valid() && 1 <= month <= 12 && 1 <= day <= MinDays(month) && 0 <= hour < 24 && 0 <= minute < 60
    ensures c.Valid() && c.month == month && c.day == day && c.hour == hour && c.minute == minute
    ensures MinuteNo(after) < MinuteNo(c) <= MinuteNo(after) + 366 * MINUTES_A_DAY
  {
    c := Civil(after.year, month, day, hour, minute);
    DayOfYear(c);
    DayOfYear(after);
    if MinuteNo(c) <= MinuteNo(after) {
      c := Civil(after.year + 1, month, day, hour, minute);
      NextYear(after.year, month, day);
      assert Before(after, c);
      BeforeGrows(after, c);
    }
  }

  /** The first day from `day` on, within a week, that falls on the given weekday. */
  function OnWeekday(year: int, month: int, day: int, dow: int): (d: int)
    requires 1 <= month <= 12
    ensures day <= d <= day + 6
  {
    day + (dow - Ordinal(year, month, day)) % 7
  }

  lemma OnWeekdayIs(c: Civil, day: int, dow: int)
    requires c.Valid() && 0 <= dow < 7 && c.day == OnWeekday(c.year, c.month, day, dow)
    ensures CronDow(c) == dow
  {
    var o := Ordinal(c.year, c.month, day);
    assert Ordinal(c.year, c.month, c.day) == o + (dow - o) % 7;
    ModSeven(dow, o);
  }

  lemma ModSeven(dow: int, o: int)
    requires 0 <= dow < 7
    ensures ((o + (dow - o) % 7 + 6) % 7 + 1) % 7 == dow
  {
    var k := (dow - o) / 7;
    assert o + (dow - o) % 7 == dow - 7 * k;
  }

  /** Every weekday falls in every month, so within any 366 days. */
  lemma WeekdayRecurs(after: Civil, month: int, dow: int, hour: int, minute: int) returns (c: Civil)
    requires after.Valid() && 1 <= month <= 12 && 0 <= dow < 7 && 0 <= hour < 24 && 0 <= minute < 60
    ensures c.Valid() && c.month == month && CronDow(c) == dow && c.hour == hour && c.minute == minute
    ensures MinuteNo(after) < MinuteNo(c) <= MinuteNo(after) + 366 * MINUTES_A_DAY
  {
    hide Leap, DaysBeforeYear, DaysBeforeMonth;
    var last := OnWeekday(after.year, month, 22, dow);
    c := Civil(after.year, month, last, hour, minute);
    OnWeekdayIs(c, 22, dow);
    DayOfYear(c);
    DayOfYear(after);
    if MinuteNo(c) <= MinuteNo(after) {
      var first := OnWeekday(after.year + 1, month, 1, dow);
      c := Civil(after.year + 1, month, first, hour, minute);
      OnWeekdayIs(c, 1, dow);
      NextYear(after.year, month, 1);
      assert Before(after, c);
      BeforeGrows(after, c);
    }
  }

  /** A 29th of February that the schedule allows, among the minutes the search visits. */
  ghost predicate LeapDayAhead(f: Fields, after: Civil, c: Civil)
    requires after.Valid()
  {
    && c.Valid() && c.month == 2 && c.day == 29
    && c.month in f.months && c.day in f.days && c.hour in f.hours && c.minute in f.minutes
    && MinuteNo(after) < MinuteNo(c) <= MinuteNo(after) + HORIZON
  }

  /** The calendar theorem behind the bound: the search fails exactly when weekdays are
      unrestricted, no allowed month and day exist in every year, and no allowed 29th of
      February lies ahead. */
  lemma FailsIff(f: Fields, after: Civil)
    requires Sane(f) && after.Valid()
    ensures (forall c :: !Candidate(f, after, c)) <==>
            f.weekdays == EVERY_WEEKDAY && !EveryYear(f) && forall c :: !LeapDayAhead(f, after, c)
  {
    hide MinuteNo, CronDow;
    var m :| m in f.months;
    var h :| h in f.hours;
    var mi :| mi in f.minutes;
    var w :| w in f.weekdays;
    if f.weekdays != EVERY_WEEKDAY {
      var c := WeekdayRecurs(after, m, w, h, mi);
      if f.days == EVERY_DAY || f.weekdays != EVERY_WEEKDAY { assert Candidate(f, after, c); }
    } else if EveryYear(f) {
      var m', d' :| m' in f.months && d' in f.days && d' <= MinDays(m');
      var c := DateRecurs(after, m', d', h, mi);
      assert Candidate(f, after, c);
    } else {
      assert m in f.months && 1 in EVERY_DAY && 1 <= MinDays(m);
      assert f.days != EVERY_DAY;
      forall c ensures Candidate(f, after, c) <==> LeapDayAhead(f, after, c) {
        if c.Valid() && c.month in f.months && c.day in f.days {
          assert c.day > MinDays(c.month);
          assert c.month == 2 && c.day == 29;
        }
      }
    }
  }

  /** next_run_at raises only for the schedules of FailsIff. */
  lemma NextRunFailsIff(expr: string, after: Civil, r: Result<Civil>)
    requires after.Valid() && Parse(expr).Ok? && NextRun(expr, after, r)
    ensures var f := Parse(expr).value;
            r.Err? <==> f.weekdays == EVERY_WEEKDAY && !EveryYear(f) && forall c :: !LeapDayAhead(f, after, c)
  {
    hide Parse, Sane, Matches;
    ParseSane(expr);
    FailsIff(Parse(expr).value, after);
  }
}
