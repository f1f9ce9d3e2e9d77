/**
 * The dates a dashboard request works with (dashboard-range.ts, dashboardPeriod and periodStart of
 * dashboard-scope.ts, chartDays of dashboard-view.ts): the accepted ranges, the period before, and that
 * every day the figures read lies in the window that is fetched.
 *
 * Dates are texts, compared as texts and moved by days through instants, as in the code.
 */
module DashboardWindows {
  import opened Results
  import opened Gregorian
  import opened DateTimeText

  const MAX_RANGE_DAYS := 92
  const TREND_DAYS := 9

  /** The day number of 0000-01-01, the first day a text of ten characters can name. */
  const FIRST_DAY := -EPOCH

  datatype Range = Range(from: string, to: string)

  // ----- texts and days

  predicate IsDate(text: string) {
    ReadDate(text).Some?
  }

  function Day(text: string): int
    requires IsDate(text)
  {
    DayNumber(ReadDate(text).value)
  }

  /** Years outside 0..9999 are written with a sign and six digits; ten characters of that leave the day off. */
  function ExpandedText(date: Date): string
    requires Valid(date)
  {
    (if date.year < 0 then "-" + Pad(-date.year, 6) else "+" + Pad(date.year, 6)) + "-" + Pad(date.month, 2)
  }

  /** `new Date(...).toISOString().slice(0, 10)` */
  function IsoDay(n: int): string {
    var date := CivilDate(n);
    if 0 <= date.year <= 9999 then DateText(date) else ExpandedText(date)
  }

  predicate ExpandedShape(text: string) {
    && |text| == 10 && (text[0] == '-' || text[0] == '+')
    && AllDigits(text[1..7]) && text[7] == '-' && AllDigits(text[8..10])
    && 1 <= Number(text[8..10]) <= 12
    && (text[0] == '-' ==> Number(text[1..7]) > 0)
  }

  /** The day `Date.parse` finds in a text with midnight appended: an expanded year and month mean their first day. */
  function ParseDay(text: string): Option<int> {
    if IsDate(text) then Some(Day(text))
    else if ExpandedShape(text) then
      Some(DayNumber(Date((if text[0] == '-' then -1 else 1) * Number(text[1..7]), Number(text[8..10]), 1)))
    else None
  }

  /** None where the text names no day and the code throws. */
  function ShiftDate(text: string, days: int): Option<string> {
    var day := ParseDay(text);
    if day.None? then None else Some(IsoDay(day.value + days))
  }

  /** Two dates compare as texts the way their days do. */
  lemma TextOrder(a: string, b: string)
    requires IsDate(a) && IsDate(b)
    ensures LexLess(a, b) <==> Day(a) < Day(b)
    ensures a == b <==> Day(a) == Day(b)
  {
    hide DateText, DayNumber, LexLess;
    var (x, y) := (ReadDate(a).value, ReadDate(b).value);
    DateTextOfReadDate(a);
    DateTextOfReadDate(b);
    DateTextOrder(x, y);
    DateOrder(x, y);
  }

  /** From year 0 on, and up to a day that has a text, every day has its own text. */
  lemma IsoDayNames(n: int, bound: string)
    requires IsDate(bound) && n <= Day(bound)
    ensures IsDate(IsoDay(n)) <==> n >= FIRST_DAY
    ensures n >= FIRST_DAY ==> Day(IsoDay(n)) == n
  {
    hide DateText, CivilDate, ReadDate, ExpandedText, Before;
    var date := CivilDate(n);
    DateOrder(ReadDate(bound).value, date);
    NotBeforeHasSmallerYear(ReadDate(bound).value, date);
    YearZero(date);
    if date.year >= 0 {
      ReadDateText(date);
    } else {
      ExpandedIsNoDate(date);
    }
  }

  lemma NotBeforeHasSmallerYear(a: Date, b: Date)
    requires !Before(a, b)
    ensures b.year <= a.year
  {
  }

  lemma YearZero(date: Date)
    requires Valid(date)
    ensures date.year >= 0 <==> DayNumber(date) >= FIRST_DAY
  {
    MonthsFillYear(date.year);
    MonthsMonotone(date.year, 1, date.month);
    MonthsMonotone(date.year, date.month + 1, 13);
    YearStep(date.year);
    if date.year >= 0 { YearsMonotone(0, date.year); } else { YearsMonotone(date.year + 1, 0); }
  }

  lemma ExpandedIsNoDate(date: Date)
    requires Valid(date) && date.year < 0
    ensures ReadDate(ExpandedText(date)) == None
  {
    hide Pad, Number;
    assert ExpandedText(date)[0] == '-';
    assert ExpandedText(date)[..4][0] == '-';
  }

  // ----- ranges

  /** Both ends included. */
  function RangeDays(range: Range): int
    requires IsDate(range.from) && IsDate(range.to)
  {
    Day(range.to) - Day(range.from) + 1
  }

  ghost predicate Proper(range: Range) {
    IsDate(range.from) && IsDate(range.to) && Day(range.from) <= Day(range.to)
  }

  datatype Query = Query(baseDate: Option<string>, dateFrom: Option<string>, dateTo: Option<string>)

  datatype Refusal =
    BaseDateToo | Missing(from: bool, to: bool) | Malformed(from: bool, to: bool) | Reversed | Future | TooLong

  /** A base date has been checked to be a date by the request contract; it may lie in the future. */
  function DashboardRange(query: Query, today: string): (r: Result<Range, Refusal>)
    requires IsDate(today) && (query.baseDate.Some? ==> IsDate(query.baseDate.value))
  {
    if query.dateFrom == None && query.dateTo == None then
      var day := if query.baseDate.Some? then query.baseDate.value else today;
      Ok(Range(day, day))
    else if query.baseDate.Some? then Err(BaseDateToo)
    else if query.dateFrom == None || query.dateTo == None then
      Err(Missing(query.dateFrom == None, query.dateTo == None))
    else
      var (from, to) := (query.dateFrom.value, query.dateTo.value);
      if !IsDate(from) || !IsDate(to) then Err(Malformed(!IsDate(from), !IsDate(to)))
      else if LexLess(to, from) then Err(Reversed)
      else if LexLess(today, to) then Err(Future)
      else if RangeDays(Range(from, to)) > MAX_RANGE_DAYS then Err(TooLong)
      else Ok(Range(from, to))
  }

  /**
   * A period asked for is accepted exactly when it is 1 to 92 days that exist, none after today; without a
   * period the range is the base date alone, or today; and each refusal has its own condition.
   */
  lemma AcceptedRanges(query: Query, today: string)
    requires IsDate(today) && (query.baseDate.Some? ==> IsDate(query.baseDate.value))
    ensures var r := DashboardRange(query, today);
            r.Ok? ==> Proper(r.value) && Day(r.value.to) - Day(r.value.from) < 92
    ensures query.dateFrom == None && query.dateTo == None ==>
              var r := DashboardRange(query, today);
              && r.Ok? && r.value.from == r.value.to
              && (query.baseDate.Some? ==> r.value.to == query.baseDate.value)
              && (query.baseDate == None ==> r.value.to == today)
    ensures query.dateFrom.Some? && query.dateTo.Some? && query.baseDate == None ==>
              var (from, to) := (query.dateFrom.value, query.dateTo.value);
              (DashboardRange(query, today) == Ok(Range(from, to))
               <==> IsDate(from) && IsDate(to) && Day(from) <= Day(to) <= Day(today) && Day(to) - Day(from) < 92)
    ensures DashboardRange(query, today) == Err(BaseDateToo) <==>
              query.baseDate.Some? && (query.dateFrom.Some? || query.dateTo.Some?)
    ensures forall from, to :: DashboardRange(query, today) == Err(Missing(from, to)) <==>
              && query.baseDate == None
              && from == query.dateFrom.None? && to == query.dateTo.None? && from != to
    ensures forall from, to :: DashboardRange(query, today) == Err(Malformed(from, to)) <==>
              && query.baseDate == None && query.dateFrom.Some? && query.dateTo.Some?
              && from == !IsDate(query.dateFrom.value) && to == !IsDate(query.dateTo.value) && (from || to)
    ensures DashboardRange(query, today) == Err(Reversed) <==> Asked(query) && From(query) > To(query)
    ensures DashboardRange(query, today) == Err(Future) <==>
              Asked(query) && From(query) <= To(query) && To(query) > Day(today)
    ensures DashboardRange(query, today) == Err(TooLong) <==>
              Asked(query) && From(query) <= To(query) <= Day(today) && To(query) - From(query) >= 92
  {
    hide ReadDate, DayNumber, LexLess;
    if query.dateFrom.Some? && query.dateTo.Some? {
      var (from, to) := (query.dateFrom.value, query.dateTo.value);
      if IsDate(from) && IsDate(to) {
        TextOrder(to, from);
        TextOrder(today, to);
      }
    }
  }

  /** A period of two dates is asked for, and nothing else. */
  predicate Asked(query: Query) {
    && query.baseDate == None && query.dateFrom.Some? && query.dateTo.Some?
    && IsDate(query.dateFrom.value) && IsDate(query.dateTo.value)
  }

  function From(query: Query): int
    requires Asked(query)
  {
    Day(query.dateFrom.value)
  }

  function To(query: Query): int
    requires Asked(query)
  {
    Day(query.dateTo.value)
  }

  function PreviousRange(range: Range): Option<Range>
    requires IsDate(range.from) && IsDate(range.to)
  {
    var length := RangeDays(range);
    var to := ShiftDate(range.from, -1);
    if to.None? then None
    else
      var from := ShiftDate(to.value, -(length - 1));
      if from.None? then None else Some(Range(from.value, to.value))
  }

  /**
   * The period before is adjacent and equally long exactly when it does not reach back beyond year 0;
   * there the texts lose their day.
   */
  lemma PreviousIsAdjacent(range: Range)
    requires Proper(range)
    ensures var p := PreviousRange(range);
            (p.Some? && Proper(p.value)
             && Day(p.value.to) == Day(range.from) - 1 && RangeDays(p.value) == RangeDays(range))
            <==> Day(range.from) - RangeDays(range) >= FIRST_DAY
    ensures Day(range.from) - RangeDays(range) >= FIRST_DAY ==>
              var length := RangeDays(range);
              PreviousRange(range) == Some(Range(IsoDay(Day(range.from) - length), IsoDay(Day(range.from) - 1)))
  {
    hide IsoDay, ReadDate, DayNumber, ExpandedShape;
    IsoDayNames(Day(range.from) - 1, range.from);
    IsoDayNames(Day(range.from) - RangeDays(range), range.from);
  }

  function DatesBetween(range: Range): seq<string>
    requires IsDate(range.from) && IsDate(range.to)
  {
    seq(Max(RangeDays(range), 0), i => IsoDay(Day(range.from) + i))
  }

  function TrailingDays(baseDate: string, count: nat): seq<string>
    requires IsDate(baseDate)
  {
    seq(count, i => IsoDay(Day(baseDate) - (count - 1 - i)))
  }

  function ChartDays(range: Range): seq<string>
    requires IsDate(range.from) && IsDate(range.to)
  {
    if range.from == range.to then TrailingDays(range.to, TREND_DAYS) else DatesBetween(range)
  }

  /** The days of a range are its dates in order, each once. */
  lemma DatesBetweenIsRange(range: Range)
    requires Proper(range)
    ensures |DatesBetween(range)| == RangeDays(range)
    ensures forall i :: 0 <= i < RangeDays(range) ==>
              IsDate(DatesBetween(range)[i]) && Day(DatesBetween(range)[i]) == Day(range.from) + i
  {
    hide IsoDay, ReadDate, DayNumber;
    forall i | 0 <= i < RangeDays(range)
      ensures IsDate(DatesBetween(range)[i]) && Day(DatesBetween(range)[i]) == Day(range.from) + i
    {
      IsoDayNames(Day(range.from) + i, range.to);
      DateIsNotBeforeFirst(range.from);
    }
  }

  lemma DateIsNotBeforeFirst(text: string)
    requires IsDate(text)
    ensures Day(text) >= FIRST_DAY
  {
    hide DayNumber, DateShape;
    YearZero(ReadDate(text).value);
  }

  // ----- the period of the quality figures

  datatype Period =
    Period(from: string, to: string, previousFrom: string, previousTo: string, range: Range, chartDays: seq<string>)

  function MonthStart(text: string): string
    requires |text| >= 8
  {
    text[..8] + "01"
  }

  function DashboardPeriod(range: Range): Option<Period>
    requires IsDate(range.from) && IsDate(range.to)
  {
    var chart := ChartDays(range);
    if range.from != range.to then
      var previous := PreviousRange(range);
      if previous.None? then None
      else Some(Period(range.from, range.to, previous.value.from, previous.value.to, range, chart))
    else
      var monthStart := MonthStart(range.to);
      var previousTo := ShiftDate(monthStart, -1);
      if previousTo.None? || |previousTo.value| < 8 then None
      else Some(Period(monthStart, range.to, MonthStart(previousTo.value), previousTo.value, range, chart))
  }

  function Earlier(a: string, b: string): string {
    if LexLess(b, a) then b else a
  }

  /** The first of the three texts in sorted order. */
  function PeriodStart(period: Period): string
    requires period.chartDays != []
  {
    Earlier(Earlier(period.previousFrom, period.chartDays[0]), period.range.from)
  }

  /** `first` is the first day of the month `text` lies in. */
  ghost predicate FirstOfMonth(first: string, text: string) {
    && IsDate(first) && IsDate(text)
    && ReadDate(first).value == Date(ReadDate(text).value.year, ReadDate(text).value.month, 1)
  }

  lemma MonthStartDay(text: string)
    requires IsDate(text)
    ensures FirstOfMonth(MonthStart(text), text)
    ensures Day(text) - 30 <= Day(MonthStart(text)) <= Day(text)
  {
    hide DaysBeforeYear, DaysBeforeMonth, Pad;
    var s := MonthStart(text);
    assert s[..4] == text[..4] && s[5..7] == text[5..7] && s[8..10] == "01";
    assert Number("01") == 1 by { assert "01"[..1] == "0"; }
  }

  predicate Within(text: string, low: string, high: string) {
    !LexLess(text, low) && !LexLess(high, text)
  }

  ghost predicate AllWithin(texts: seq<string>, low: string, high: string) {
    forall i :: 0 <= i < |texts| ==> Within(texts[i], low, high)
  }

  ghost predicate AllDates(texts: seq<string>) {
    forall i :: 0 <= i < |texts| ==> IsDate(texts[i])
  }

  lemma {:induction false} NotLessIsTransitive(a: string, b: string, c: string)
    requires !LexLess(b, a) && !LexLess(c, b)
    ensures !LexLess(c, a)
  {
    if a != "" && b != "" && c != "" && a[0] == c[0] {
      NotLessIsTransitive(a[1..], b[1..], c[1..]);
    }
  }

  /** A date whose day lies between those of two dates lies between them as text. */
  lemma DayWithin(text: string, low: string, high: string)
    requires IsDate(text) && IsDate(low) && IsDate(high) && Day(low) <= Day(text) <= Day(high)
    ensures Within(text, low, high)
  {
    hide ReadDate, DayNumber, LexLess;
    TextOrder(text, low);
    TextOrder(high, text);
  }

  lemma DatesWithin(range: Range, low: string, high: string)
    requires Proper(range) && IsDate(low) && IsDate(high) && Day(low) <= Day(range.from) && Day(range.to) <= Day(high)
    ensures AllDates(DatesBetween(range)) && AllWithin(DatesBetween(range), low, high)
  {
    hide ReadDate, DayNumber, Within;
    DatesBetweenIsRange(range);
    hide DatesBetween;
    forall i | 0 <= i < |DatesBetween(range)| ensures Within(DatesBetween(range)[i], low, high) {
      DayWithin(DatesBetween(range)[i], low, high);
    }
  }

  // ----- the window of the production figures

  /** The first day any production figure reads. */
  function EarliestProductionDay(range: Range): int
    requires IsDate(range.from) && IsDate(range.to)
  {
    if range.from == range.to then Day(range.to) - (TREND_DAYS - 1) else Day(range.from) - RangeDays(range)
  }

  /** The chart of a range: nine days up to a single day, or the range itself. */
  lemma ChartDaysAre(range: Range)
    requires Proper(range)
    ensures |ChartDays(range)| == if range.from == range.to then 9 else Day(range.to) - Day(range.from) + 1
    ensures AllDates(ChartDays(range)) <==> (range.from == range.to ==> EarliestProductionDay(range) >= FIRST_DAY)
    ensures AllDates(ChartDays(range)) ==> forall i :: 0 <= i < |ChartDays(range)| ==>
              Day(ChartDays(range)[i]) == Day(range.to) - (|ChartDays(range)| - 1 - i)
  {
    hide IsoDay, ReadDate, DayNumber;
    if range.from == range.to {
      forall i | 0 <= i < TREND_DAYS
        ensures IsDate(ChartDays(range)[i]) <==> Day(range.to) - (TREND_DAYS - 1 - i) >= FIRST_DAY
        ensures IsDate(ChartDays(range)[i]) ==> Day(ChartDays(range)[i]) == Day(range.to) - (TREND_DAYS - 1 - i)
      {
        IsoDayNames(Day(range.to) - (TREND_DAYS - 1 - i), range.to);
      }
      assert IsDate(ChartDays(range)[0]) <==> EarliestProductionDay(range) >= FIRST_DAY;
    } else {
      DatesBetweenIsRange(range);
    }
  }

  /** What the summary fetches production results for. */
  function ProductionWindow(range: Range, previous: Range): Range
    requires IsDate(range.from) && IsDate(range.to) && ChartDays(range) != []
  {
    Range(Earlier(previous.from, ChartDays(range)[0]), range.to)
  }

  ghost predicate ProductionDaysExist(range: Range)
    requires IsDate(range.from) && IsDate(range.to)
  {
    && AllDates(ChartDays(range))
    && PreviousRange(range).Some? && Proper(PreviousRange(range).value)
    && Day(PreviousRange(range).value.to) == Day(range.from) - 1
    && RangeDays(PreviousRange(range).value) == RangeDays(range)
  }

  /** All days the production figures read have a text exactly when none lies before year 0. */
  lemma ProductionDaysExistIff(range: Range)
    requires Proper(range)
    ensures ProductionDaysExist(range) <==> EarliestProductionDay(range) >= FIRST_DAY
  {
    hide ReadDate, DayNumber, ChartDays, PreviousRange;
    ChartDaysAre(range);
    PreviousIsAdjacent(range);
    SameDaySameText(range);
  }

  lemma SameDaySameText(range: Range)
    requires Proper(range)
    ensures range.from == range.to <==> RangeDays(range) == 1
  {
    hide ReadDate, DayNumber, LexLess;
    TextOrder(range.from, range.to);
  }

  /**
   * Every day read by the production cards (the range and the one before), the trend (the chart days)
   * and the section (the range) lies in the window that was fetched.
   */
  lemma ProductionReadsInWindow(range: Range)
    requires Proper(range) && EarliestProductionDay(range) >= FIRST_DAY
    ensures PreviousRange(range).Some? && ChartDays(range) != [] && Proper(PreviousRange(range).value)
    ensures var previous := PreviousRange(range).value;
            var window := ProductionWindow(range, previous);
            && Proper(window) && Day(window.from) == EarliestProductionDay(range)
            && AllWithin(DatesBetween(range), window.from, window.to)
            && AllWithin(DatesBetween(previous), window.from, window.to)
            && AllWithin(ChartDays(range), window.from, window.to)
  {
    hide ReadDate, DayNumber, ChartDays, PreviousRange, DatesBetween, LexLess, Within;
    ProductionDaysExistIff(range);
    ChartDaysAre(range);
    SameDaySameText(range);
    var previous := PreviousRange(range).value;
    TextOrder(ChartDays(range)[0], previous.from);
    var window := ProductionWindow(range, previous);
    DatesWithin(range, window.from, window.to);
    DatesWithin(previous, window.from, window.to);
    forall i | 0 <= i < |ChartDays(range)| ensures Within(ChartDays(range)[i], window.from, window.to) {
      DayWithin(ChartDays(range)[i], window.from, window.to);
    }
  }

  // ----- the window of the quality figures

  /** The period before and the chart stay within the years that have texts. */
  predicate PeriodReaches(range: Range)
    requires IsDate(range.from) && IsDate(range.to)
  {
    if range.from == range.to then
      IsDate(MonthStart(range.to)) && Day(MonthStart(range.to)) > FIRST_DAY && EarliestProductionDay(range) >= FIRST_DAY
    else EarliestProductionDay(range) >= FIRST_DAY
  }

  /**
   * All texts of a period are dates. For a single day they are its month so far against the whole month
   * before; for a longer range, the range against the adjacent one of the same length.
   */
  ghost predicate PeriodOk(period: Period) {
    && Proper(Range(period.from, period.to)) && Proper(Range(period.previousFrom, period.previousTo))
    && Proper(period.range) && period.to == period.range.to
    && Day(period.previousTo) == Day(period.from) - 1
    && (if period.range.from == period.range.to then
          FirstOfMonth(period.from, period.to) && FirstOfMonth(period.previousFrom, period.previousTo)
        else
          && period.from == period.range.from
          && RangeDays(Range(period.previousFrom, period.previousTo)) == RangeDays(period.range))
    && Day(period.from) <= Day(period.range.from)
    && period.chartDays != [] && AllDates(period.chartDays)
    && (forall i :: 0 <= i < |period.chartDays| ==>
          Day(period.chartDays[0]) <= Day(period.chartDays[i]) <= Day(period.to))
  }

  ghost predicate HasPeriod(range: Range)
    requires IsDate(range.from) && IsDate(range.to)
  {
    var period := DashboardPeriod(range);
    && period.Some? && PeriodOk(period.value) && period.value.range == range && period.value.to == range.to
    && period.value.chartDays == ChartDays(range)
  }

  lemma PeriodOfOneDay(range: Range)
    requires Proper(range) && range.from == range.to
    ensures HasPeriod(range) <==> PeriodReaches(range)
  {
    hide ReadDate, DayNumber, ChartDays, IsoDay, MonthStart, FirstOfMonth;
    ChartDaysAre(range);
    TextLength(range.to);
    MonthStartDay(range.to);
    assert IsDate(MonthStart(range.to)) by { FirstIsDate(MonthStart(range.to), range.to); }
    var before := Day(MonthStart(range.to)) - 1;
    IsoDayNames(before, range.to);
    if before >= FIRST_DAY {
      TextLength(IsoDay(before));
      MonthStartDay(IsoDay(before));
      FirstIsDate(MonthStart(IsoDay(before)), IsoDay(before));
    }
  }

  lemma FirstIsDate(first: string, text: string)
    requires FirstOfMonth(first, text)
    ensures IsDate(first) && IsDate(text)
  {
  }

  lemma TextLength(text: string)
    requires IsDate(text)
    ensures |text| == 10
  {
  }

  lemma PeriodOfRange(range: Range)
    requires Proper(range) && range.from != range.to
    ensures HasPeriod(range) <==> PeriodReaches(range)
  {
    hide ReadDate, DayNumber, ChartDays, PreviousRange;
    ChartDaysAre(range);
    ProductionDaysExistIff(range);
    SameDaySameText(range);
  }

  /**
   * The quality period exists, with all it promises, exactly when neither the period before nor the
   * chart reaches beyond year 0.
   */
  lemma PeriodIsOk(range: Range)
    requires Proper(range)
    ensures HasPeriod(range) <==> PeriodReaches(range)
  {
    if range.from == range.to { PeriodOfOneDay(range); } else { PeriodOfRange(range); }
  }

  /** The first day a text can name, asked for alone: accepted on any day, and without a period before it. */
  lemma FirstDayHasNothingBefore(today: string) returns (range: Range)
    requires IsDate(today)
    ensures DashboardRange(Query(None, Some(range.from), Some(range.to)), today) == Ok(range)
    ensures Proper(range) && Day(range.from) == FIRST_DAY
    ensures PreviousRange(range).None? || !Proper(PreviousRange(range).value)
    ensures !ProductionDaysExist(range) && !HasPeriod(range)
  {
    var first := CivilDate(FIRST_DAY);
    YearZero(first);
    hide DateText, CivilDate, ReadDate, DayNumber, LexLess, ChartDays, PreviousRange, DashboardPeriod;
    YearOfFirstDay(first);
    ReadDateText(first);
    var text := DateText(first);
    range := Range(text, text);
    DateIsNotBeforeFirst(today);
    AcceptedRanges(Query(None, Some(text), Some(text)), today);
    NothingBefore(range);
    ProductionDaysExistIff(range);
    PeriodIsOk(range);
  }

  lemma YearOfFirstDay(date: Date)
    requires Valid(date) && DayNumber(date) == FIRST_DAY
    ensures date.year == 0
  {
    YearZero(date);
    MonthsMonotone(date.year, 1, date.month);
    if date.year > 0 { YearsMonotone(1, date.year); }
  }

  lemma NothingBefore(range: Range)
    requires Proper(range) && range.from == range.to && Day(range.from) == FIRST_DAY
    ensures PreviousRange(range).None? || !Proper(PreviousRange(range).value)
  {
    hide IsoDay, ReadDate, DayNumber, ExpandedShape;
    IsoDayNames(FIRST_DAY - 1, range.from);
  }

  lemma EarlierIs(a: string, b: string)
    requires IsDate(a) && IsDate(b)
    ensures IsDate(Earlier(a, b)) && Day(Earlier(a, b)) == Min(Day(a), Day(b))
  {
    hide ReadDate, DayNumber, LexLess;
    TextOrder(b, a);
  }

  ghost predicate Contains(low: string, high: string, from: string, to: string) {
    !LexLess(from, low) && !LexLess(high, to)
  }

  lemma DaysContain(low: string, high: string, from: string, to: string)
    requires IsDate(low) && IsDate(high) && IsDate(from) && IsDate(to) && Day(low) <= Day(from) && Day(to) <= Day(high)
    ensures Contains(low, high, from, to)
  {
    hide ReadDate, DayNumber, LexLess;
    TextOrder(from, low);
    TextOrder(high, to);
  }

  /** Every stretch of days the quality figures count lies between the period's start and its end. */
  lemma QualityReadsInWindow(period: Period)
    requires PeriodOk(period)
    ensures var start := PeriodStart(period);
            && Contains(start, period.to, period.from, period.to)
            && Contains(start, period.to, period.previousFrom, period.previousTo)
            && Contains(start, period.to, period.range.from, period.range.to)
            && AllWithin(period.chartDays, start, period.to)
  {
    hide ReadDate, DayNumber, LexLess, Contains, Within;
    var start := PeriodStart(period);
    EarlierIs(period.previousFrom, period.chartDays[0]);
    EarlierIs(Earlier(period.previousFrom, period.chartDays[0]), period.range.from);
    DaysContain(start, period.to, period.from, period.to);
    DaysContain(start, period.to, period.previousFrom, period.previousTo);
    DaysContain(start, period.to, period.range.from, period.range.to);
    forall i | 0 <= i < |period.chartDays| ensures Within(period.chartDays[i], start, period.to) {
      DayWithin(period.chartDays[i], start, period.to);
    }
  }
}
