/**
 * The figures read from the fetched days (qualityTypeBlock of dashboard-inspection.ts, dailyProduction of
 * dashboard-summary.service.ts, the production part of dashboard-view.ts): fetching only the window
 * changes none of them, and production adds up.
 */
module DashboardFigures {
  import opened Results
  import opened Gregorian
  import opened DateTimeText
  import opened DashboardWindows
  import opened Rates

  // ----- quality by day

  datatype Judgment = ACCEPTED | REJECTED | HELD

  datatype JudgmentRow = JudgmentRow(localDate: string, judgment: Judgment, lots: nat, rejected: real)

  datatype LotCounts = LotCounts(accepted: nat, rejected: nat, held: nat)

  function AddLots(counts: LotCounts, row: JudgmentRow): LotCounts {
    match row.judgment
    case ACCEPTED => counts.(accepted := counts.accepted + row.lots)
    case REJECTED => counts.(rejected := counts.rejected + row.lots)
    case HELD => counts.(held := counts.held + row.lots)
  }

  /** The rows whose date lies between the two texts. */
  function RowsBetween(rows: seq<JudgmentRow>, low: string, high: string): seq<JudgmentRow> {
    if rows == [] then []
    else
      var last := rows[|rows| - 1];
      RowsBetween(rows[..|rows| - 1], low, high) + (if Within(last.localDate, low, high) then [last] else [])
  }

  function CountLots(rows: seq<JudgmentRow>): LotCounts {
    if rows == [] then LotCounts(0, 0, 0) else AddLots(CountLots(rows[..|rows| - 1]), rows[|rows| - 1])
  }

  function CountBetween(rows: seq<JudgmentRow>, from: string, to: string): LotCounts {
    CountLots(RowsBetween(rows, from, to))
  }

  function RejectedQty(rows: seq<JudgmentRow>): real {
    if rows == [] then 0.0 else RejectedQty(rows[..|rows| - 1]) + rows[|rows| - 1].rejected
  }

  datatype QualityBlock =
    QualityBlock(month: LotCounts, previous: LotCounts, daily: seq<LotCounts>, range: LotCounts, defectQty: real)

  function QualityTypeBlock(rows: seq<JudgmentRow>, period: Period): QualityBlock {
    QualityBlock(
      CountBetween(rows, period.from, period.to),
      CountBetween(rows, period.previousFrom, period.previousTo),
      seq(|period.chartDays|, i requires 0 <= i < |period.chartDays| =>
        CountBetween(rows, period.chartDays[i], period.chartDays[i])),
      CountBetween(rows, period.range.from, period.range.to),
      RejectedQty(RowsBetween(rows, period.from, period.to)))
  }

  lemma WithinWider(text: string, low: string, high: string, from: string, to: string)
    requires Contains(low, high, from, to)
    ensures Within(text, from, to) ==> Within(text, low, high)
  {
    hide LexLess;
    if Within(text, from, to) {
      NotLessIsTransitive(low, from, text);
      NotLessIsTransitive(text, to, high);
    }
  }

  lemma RowsBetweenPush(rows: seq<JudgmentRow>, row: JudgmentRow, low: string, high: string)
    ensures RowsBetween(rows + [row], low, high)
         == if Within(row.localDate, low, high) then RowsBetween(rows, low, high) + [row]
            else RowsBetween(rows, low, high)
  {
    assert (rows + [row])[..|rows + [row]| - 1] == rows;
  }

  lemma {:induction false} RowsBetweenTwice(rows: seq<JudgmentRow>, low: string, high: string, from: string, to: string)
    requires Contains(low, high, from, to)
    ensures RowsBetween(RowsBetween(rows, low, high), from, to) == RowsBetween(rows, from, to)
  {
    if rows != [] {
      var front, last := rows[..|rows| - 1], rows[|rows| - 1];
      RowsBetweenTwice(front, low, high, from, to);
      hide RowsBetween, Within, Contains;
      assert rows == front + [last];
      RowsBetweenPush(front, last, low, high);
      RowsBetweenPush(front, last, from, to);
      RowsBetweenPush(RowsBetween(front, low, high), last, from, to);
      WithinWider(last.localDate, low, high, from, to);
    }
  }

  /** Nothing outside the fetched window changes the quality figures: fetching it alone loses nothing. */
  lemma QualityNeedsOnlyWindow(range: Range, rows: seq<JudgmentRow>)
    requires Proper(range) && PeriodReaches(range)
    ensures DashboardPeriod(range).Some? && DashboardPeriod(range).value.chartDays != []
    ensures var period := DashboardPeriod(range).value;
            QualityTypeBlock(RowsBetween(rows, PeriodStart(period), period.to), period)
                == QualityTypeBlock(rows, period)
  {
    PeriodIsOk(range);
    hide ReadDate, DayNumber, DashboardPeriod, PeriodReaches, RowsBetween, CountLots, RejectedQty, LexLess;
    var period := DashboardPeriod(range).value;
    BlockNeedsOnlyWindow(rows, period);
  }

  lemma BlockNeedsOnlyWindow(rows: seq<JudgmentRow>, period: Period)
    requires PeriodOk(period)
    ensures QualityTypeBlock(RowsBetween(rows, PeriodStart(period), period.to), period)
              == QualityTypeBlock(rows, period)
  {
    hide ReadDate, DayNumber, RowsBetween, CountLots, RejectedQty, LexLess, PeriodStart, AllDates;
    var start := PeriodStart(period);
    QualityReadsInWindow(period);
    RowsBetweenTwice(rows, start, period.to, period.from, period.to);
    RowsBetweenTwice(rows, start, period.to, period.previousFrom, period.previousTo);
    RowsBetweenTwice(rows, start, period.to, period.range.from, period.range.to);
    forall i | 0 <= i < |period.chartDays|
      ensures CountBetween(RowsBetween(rows, start, period.to), period.chartDays[i], period.chartDays[i])
           == CountBetween(rows, period.chartDays[i], period.chartDays[i])
    {
      RowsBetweenTwice(rows, start, period.to, period.chartDays[i], period.chartDays[i]);
    }
  }

  // ----- production by day

  /** Quantities of a day; rework orders only bring in `reworkGood`. */
  datatype Tally = Tally(total: real, good: real, ng: real, hold: real, reworkGood: real)

  const NOTHING := Tally(0.0, 0.0, 0.0, 0.0, 0.0)

  function Plus(a: Tally, b: Tally): Tally {
    Tally(a.total + b.total, a.good + b.good, a.ng + b.ng, a.hold + b.hold, a.reworkGood + b.reworkGood)
  }

  datatype ProductionResult =
    ProductionResult(day: string, rework: bool, good: real, defect: real, hold: real, scrap: real, reworked: real)

  /** What the query's sums take from one result. */
  function TallyOf(p: ProductionResult): Tally {
    if p.rework then Tally(0.0, 0.0, 0.0, 0.0, p.good)
    else Tally(p.good + p.defect + p.hold + p.scrap + p.reworked, p.good, p.defect + p.scrap + p.reworked, p.hold, 0.0)
  }

  function ResultsOn(results: seq<ProductionResult>, day: string): Tally {
    if results == [] then NOTHING
    else
      var last := results[|results| - 1];
      var before := ResultsOn(results[..|results| - 1], day);
      if last.day == day then Plus(before, TallyOf(last)) else before
  }

  datatype DayRow = DayRow(day: string, tally: Tally)

  /** The rows of one plant's query: one row for each day with results, in any order. */
  ghost predicate Grouped(rows: seq<DayRow>, results: seq<ProductionResult>) {
    && (forall i, j :: 0 <= i < j < |rows| ==> rows[i].day != rows[j].day)
    && (forall i :: 0 <= i < |rows| ==>
          rows[i].tally == ResultsOn(results, rows[i].day) && HasDay(results, rows[i].day))
    && (forall k :: 0 <= k < |results| ==> HasRow(rows, results[k].day))
  }

  ghost predicate HasDay(results: seq<ProductionResult>, day: string) {
    exists k :: 0 <= k < |results| && results[k].day == day
  }

  ghost predicate HasRow(rows: seq<DayRow>, day: string) {
    exists i :: 0 <= i < |rows| && rows[i].day == day
  }

  type ByDay = map<string, Tally>

  function At(byDay: ByDay, day: string): Tally {
    if day in byDay then byDay[day] else NOTHING
  }

  function RowsOn(rows: seq<DayRow>, day: string): Tally {
    if rows == [] then NOTHING
    else
      var last := rows[|rows| - 1];
      var before := RowsOn(rows[..|rows| - 1], day);
      if last.day == day then Plus(before, last.tally) else before
  }

  /** Sums over all plants. */
  function PlantsOn(plants: seq<seq<DayRow>>, day: string): Tally {
    if plants == [] then NOTHING else Plus(PlantsOn(plants[..|plants| - 1], day), RowsOn(plants[|plants| - 1], day))
  }

  ghost predicate SomeRow(plants: seq<seq<DayRow>>, day: string) {
    exists p :: 0 <= p < |plants| && HasRow(plants[p], day)
  }

  /** Adds the rows of all plants up by day. */
  method DailyProduction(plants: seq<seq<DayRow>>) returns (byDay: ByDay)
    ensures ByDayOf(byDay, plants)
  {
    byDay := map[];
    for p := 0 to |plants|
      invariant ByDayOf(byDay, plants[..p])
    {
      ghost var before := byDay;
      byDay := AddRows(byDay, plants[p]);
      NextPlantAdds(before, byDay, plants, p);
    }
    assert plants[..|plants|] == plants;
  }

  /** A day is there exactly when some plant has a row for it, with the sum over all plants. */
  ghost predicate ByDayOf(byDay: ByDay, plants: seq<seq<DayRow>>) {
    && (forall day :: day in byDay <==> SomeRow(plants, day))
    && (forall day :: At(byDay, day) == PlantsOn(plants, day))
  }

  lemma NextPlantAdds(before: ByDay, byDay: ByDay, plants: seq<seq<DayRow>>, p: nat)
    requires p < |plants| && ByDayOf(before, plants[..p]) && Adds(byDay, before, plants[p])
    ensures ByDayOf(byDay, plants[..p + 1])
  {
    NextPlant(plants, p);
    hide Plus, PlantsOn, RowsOn, SomeRow, HasRow, At;
    forall day ensures At(byDay, day) == PlantsOn(plants[..p + 1], day) {
      assert AddsOn(byDay, before, plants[p], day);
      assert At(before, day) == PlantsOn(plants[..p], day);
    }
  }

  lemma NextPlant(plants: seq<seq<DayRow>>, p: nat)
    requires p < |plants|
    ensures forall day :: PlantsOn(plants[..p + 1], day) == Plus(PlantsOn(plants[..p], day), RowsOn(plants[p], day))
    ensures forall day :: SomeRow(plants[..p + 1], day) <==> SomeRow(plants[..p], day) || HasRow(plants[p], day)
  {
    var next := plants[..p + 1];
    assert next[..p] == plants[..p] && next[p] == plants[p];
    forall day ensures SomeRow(next, day) <==> SomeRow(plants[..p], day) || HasRow(plants[p], day) {
      if SomeRow(next, day) {
        var q :| 0 <= q < |next| && HasRow(next[q], day);
        if q < p { assert HasRow(plants[..p][q], day); }
      }
      if SomeRow(plants[..p], day) {
        var q :| 0 <= q < p && HasRow(plants[..p][q], day);
        assert HasRow(next[q], day);
      }
      if HasRow(plants[p], day) { assert HasRow(next[p], day); }
    }
  }

  /** `byDay` is `given` with these rows added. */
  ghost predicate Adds(byDay: ByDay, given: ByDay, rows: seq<DayRow>) {
    && (forall day :: day in byDay <==> day in given || HasRow(rows, day))
    && (forall day :: AddsOn(byDay, given, rows, day))
  }

  ghost predicate AddsOn(byDay: ByDay, given: ByDay, rows: seq<DayRow>, day: string) {
    At(byDay, day) == Plus(At(given, day), RowsOn(rows, day))
  }

  method AddRows(given: ByDay, rows: seq<DayRow>) returns (byDay: ByDay)
    ensures Adds(byDay, given, rows)
  {
    byDay := given;
    for i := 0 to |rows|
      invariant Adds(byDay, given, rows[..i])
    {
      var row := rows[i];
      NextAdds(byDay, given, rows, i);
      byDay := byDay[row.day := Plus(At(byDay, row.day), row.tally)];
    }
    assert rows[..|rows|] == rows;
  }

  lemma PlusAssociates(a: Tally, b: Tally, c: Tally)
    ensures Plus(Plus(a, b), c) == Plus(a, Plus(b, c))
  {
  }

  lemma NextAdds(byDay: ByDay, given: ByDay, rows: seq<DayRow>, i: nat)
    requires i < |rows| && Adds(byDay, given, rows[..i])
    ensures Adds(byDay[rows[i].day := Plus(At(byDay, rows[i].day), rows[i].tally)], given, rows[..i + 1])
  {
    NextRow(rows, i);
    hide RowsOn, HasRow, Plus, At, AddsOn;
    var next := byDay[rows[i].day := Plus(At(byDay, rows[i].day), rows[i].tally)];
    var after := rows[..i + 1];
    forall day ensures AddsOn(next, given, after, day) {
      NextAddsOn(byDay, given, rows, i, day);
    }
  }

  lemma NextAddsOn(byDay: ByDay, given: ByDay, rows: seq<DayRow>, i: nat, day: string)
    requires i < |rows| && AddsOn(byDay, given, rows[..i], day)
    ensures AddsOn(byDay[rows[i].day := Plus(At(byDay, rows[i].day), rows[i].tally)], given, rows[..i + 1], day)
  {
    NextRow(rows, i);
    hide RowsOn, HasRow, Plus;
    PlusAssociates(At(given, day), RowsOn(rows[..i], day), rows[i].tally);
  }

  lemma NextRow(rows: seq<DayRow>, i: nat)
    requires i < |rows|
    ensures forall day :: RowsOn(rows[..i + 1], day)
                == if rows[i].day == day then Plus(RowsOn(rows[..i], day), rows[i].tally) else RowsOn(rows[..i], day)
    ensures forall day :: HasRow(rows[..i + 1], day) <==> HasRow(rows[..i], day) || rows[i].day == day
  {
    var next := rows[..i + 1];
    assert next[..i] == rows[..i] && next[i] == rows[i];
    forall day ensures HasRow(next, day) <==> HasRow(rows[..i], day) || rows[i].day == day {
      assert forall k :: 0 <= k < i ==> next[k] == rows[..i][k];
    }
  }

  // ----- from results to the figures shown

  lemma {:induction false} ResultsBalance(results: seq<ProductionResult>, day: string)
    ensures Balanced(ResultsOn(results, day))
  {
    if results != [] { ResultsBalance(results[..|results| - 1], day); }
  }

  /** total = good (before the rework transfer) + NG + hold */
  predicate Balanced(t: Tally) {
    t.total == t.good + t.ng + t.hold
  }

  function AllResultsOn(results: seq<seq<ProductionResult>>, day: string): Tally {
    if results == [] then NOTHING
    else Plus(AllResultsOn(results[..|results| - 1], day), ResultsOn(results[|results| - 1], day))
  }

  lemma {:induction false} NoResults(results: seq<ProductionResult>, day: string)
    requires !HasDay(results, day)
    ensures ResultsOn(results, day) == NOTHING
  {
    if results != [] {
      var front := results[..|results| - 1];
      assert forall k :: 0 <= k < |front| ==> front[k] == results[k];
      NoResults(front, day);
    }
  }

  lemma {:induction false} OneRowOn(rows: seq<DayRow>, day: string, tally: Tally)
    requires forall i, j :: 0 <= i < j < |rows| ==> rows[i].day != rows[j].day
    requires forall i :: 0 <= i < |rows| && rows[i].day == day ==> rows[i].tally == tally
    ensures RowsOn(rows, day) == if HasRow(rows, day) then tally else NOTHING
  {
    if rows != [] {
      var front, last := rows[..|rows| - 1], rows[|rows| - 1];
      OneRowOn(front, day, tally);
      NextRow(rows, |rows| - 1);
      assert rows[..|rows|] == rows;
    }
  }

  lemma GroupedRowsOn(rows: seq<DayRow>, results: seq<ProductionResult>, day: string)
    requires Grouped(rows, results)
    ensures RowsOn(rows, day) == ResultsOn(results, day)
  {
    OneRowOn(rows, day, ResultsOn(results, day));
    if !HasRow(rows, day) {
      forall k | 0 <= k < |results| ensures results[k].day != day {
        assert HasRow(rows, results[k].day);
      }
      NoResults(results, day);
    }
  }

  /** The map holds the sums over the results of all plants, and each of its days is balanced. */
  lemma {:induction false} ByDaySumsResults(plants: seq<seq<DayRow>>, results: seq<seq<ProductionResult>>, day: string)
    requires |plants| == |results| && forall p :: 0 <= p < |plants| ==> Grouped(plants[p], results[p])
    ensures PlantsOn(plants, day) == AllResultsOn(results, day)
    ensures Balanced(PlantsOn(plants, day))
  {
    if plants != [] {
      var last := |plants| - 1;
      ByDaySumsResults(plants[..last], results[..last], day);
      GroupedRowsOn(plants[last], results[last], day);
      ResultsBalance(results[last], day);
    }
  }

  /** Adds the days up that have results; None if none has. */
  function SumOver(byDay: ByDay, days: seq<string>): Option<Tally> {
    if days == [] then None
    else
      var before, last := SumOver(byDay, days[..|days| - 1]), days[|days| - 1];
      if last !in byDay then before
      else Some(if before.None? then byDay[last] else Plus(before.value, byDay[last]))
  }

  function SumDays(byDay: ByDay, range: Range): Option<Tally>
    requires IsDate(range.from) && IsDate(range.to)
  {
    SumOver(byDay, DatesBetween(range))
  }

  datatype Cards = Cards(value: real, delta: Option<real>, yieldRate: Option<real>)

  function ProductionCards(byDay: ByDay, range: Range, previous: Range): Cards
    requires IsDate(range.from) && IsDate(range.to) && IsDate(previous.from) && IsDate(previous.to)
  {
    var today := SumDays(byDay, range);
    var total := if today.Some? then today.value.total else 0.0;
    var before := SumDays(byDay, previous);
    var beforeTotal := if before.Some? then before.value.total else 0.0;
    Cards(total, if beforeTotal > 0.0 then Some((total - beforeTotal) / beforeTotal) else None,
          if today.None? || total <= 0.0 then None
          else Some(CapRate((today.value.good + today.value.reworkGood) / total * 100.0)))
  }

  /** No value on a day without results; zero on a day with rework only. */
  function Trend(byDay: ByDay, days: seq<string>): seq<(string, Option<real>)> {
    seq(|days|, i requires 0 <= i < |days| => (days[i], if days[i] in byDay then Some(byDay[days[i]].total) else None))
  }

  datatype Section = Section(total: real, good: real, ng: real, hold: real, defectRate: Option<real>)

  function ProductionSection(byDay: ByDay, range: Range): Section
    requires IsDate(range.from) && IsDate(range.to)
  {
    var sum := SumDays(byDay, range);
    var t := if sum.Some? then sum.value else NOTHING;
    Section(t.total, t.good + t.reworkGood, t.ng, t.hold,
            if t.total > 0.0 then Some(CapRate(t.ng / t.total * 100.0)) else None)
  }

  lemma {:induction false} SumBalanced(byDay: ByDay, days: seq<string>)
    requires forall day :: day in byDay ==> Balanced(byDay[day])
    ensures SumOver(byDay, days).Some? ==> Balanced(SumOver(byDay, days).value)
  {
    if days != [] { SumBalanced(byDay, days[..|days| - 1]); }
  }

  /**
   * Over any range and any plants the production section adds up: its total is its good quantity
   * without the rework transferred into it, its NG and its hold.
   */
  lemma SectionAddsUp(byDay: ByDay, plants: seq<seq<DayRow>>, results: seq<seq<ProductionResult>>, range: Range)
    returns (rework: real)
    requires |plants| == |results| && forall p :: 0 <= p < |plants| ==> Grouped(plants[p], results[p])
    requires ByDayOf(byDay, plants) && Proper(range)
    ensures rework == (if SumDays(byDay, range).Some? then SumDays(byDay, range).value.reworkGood else 0.0)
    ensures var s := ProductionSection(byDay, range); s.total == (s.good - rework) + s.ng + s.hold
  {
    hide ReadDate, DayNumber, SumOver, PlantsOn, Grouped;
    forall day | day in byDay ensures Balanced(byDay[day]) {
      ByDaySumsResults(plants, results, day);
      assert At(byDay, day) == byDay[day];
    }
    SumBalanced(byDay, DatesBetween(range));
    rework := if SumDays(byDay, range).Some? then SumDays(byDay, range).value.reworkGood else 0.0;
  }

  /** What is fetched of the days' figures. */
  function Fetched(byDay: ByDay, low: string, high: string): ByDay {
    map day | day in byDay && Within(day, low, high) :: byDay[day]
  }

  lemma {:induction false} SumOfFetched(byDay: ByDay, days: seq<string>, low: string, high: string)
    requires AllWithin(days, low, high)
    ensures SumOver(Fetched(byDay, low, high), days) == SumOver(byDay, days)
  {
    if days != [] {
      var front := days[..|days| - 1];
      assert forall i :: 0 <= i < |front| ==> front[i] == days[i];
      SumOfFetched(byDay, front, low, high);
      assert Within(days[|days| - 1], low, high);
    }
  }

  /** Cards, trend and section read from the fetched window are those read from all days. */
  lemma ProductionNeedsOnlyWindow(byDay: ByDay, range: Range)
    requires Proper(range) && EarliestProductionDay(range) >= FIRST_DAY
    ensures PreviousRange(range).Some? && ChartDays(range) != [] && Proper(PreviousRange(range).value)
    ensures var previous := PreviousRange(range).value;
            var window := ProductionWindow(range, previous);
            var fetched := Fetched(byDay, window.from, window.to);
            && ProductionCards(fetched, range, previous) == ProductionCards(byDay, range, previous)
            && Trend(fetched, ChartDays(range)) == Trend(byDay, ChartDays(range))
            && ProductionSection(fetched, range) == ProductionSection(byDay, range)
  {
    ProductionReadsInWindow(range);
    hide ReadDate, DayNumber, ChartDays, PreviousRange, LexLess, Within, EarliestProductionDay, ProductionWindow;
    var window := ProductionWindow(range, PreviousRange(range).value);
    CardsOfFetched(byDay, range, PreviousRange(range).value, window.from, window.to);
    TrendOfFetched(byDay, ChartDays(range), window.from, window.to);
    hide ProductionCards, Trend, ProductionSection;
  }

  lemma CardsOfFetched(byDay: ByDay, range: Range, previous: Range, low: string, high: string)
    requires IsDate(range.from) && IsDate(range.to) && IsDate(previous.from) && IsDate(previous.to)
    requires AllWithin(DatesBetween(range), low, high) && AllWithin(DatesBetween(previous), low, high)
    ensures ProductionCards(Fetched(byDay, low, high), range, previous) == ProductionCards(byDay, range, previous)
    ensures ProductionSection(Fetched(byDay, low, high), range) == ProductionSection(byDay, range)
  {
    hide ReadDate, DatesBetween, Within, CapRate, SumOver, Fetched;
    SumOfFetched(byDay, DatesBetween(range), low, high);
    SumOfFetched(byDay, DatesBetween(previous), low, high);
  }

  lemma TrendOfFetched(byDay: ByDay, days: seq<string>, low: string, high: string)
    requires AllWithin(days, low, high)
    ensures Trend(Fetched(byDay, low, high), days) == Trend(byDay, days)
  {
    hide Within;
    assert forall i :: 0 <= i < |days| ==> Within(days[i], low, high);
  }
}
