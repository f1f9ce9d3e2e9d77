/**
 * The numbers on the dashboard, each as a sum or quotient over the rows behind it (productionCards,
 * productionTrend and the production section of dashboard-view.ts, qualityTypeBlock of
 * dashboard-inspection.ts).
 */
module ShownFigures {
  import opened Results
  import opened Gregorian
  import opened DateTimeText
  import opened DashboardWindows
  import opened DashboardFigures
  import opened Rates

  // ----- sums over results

  type Part = ProductionResult -> real

  ghost function Sum(results: seq<ProductionResult>, part: Part): real {
    if results == [] then 0.0 else Sum(results[..|results| - 1], part) + part(results[|results| - 1])
  }

  /** Over the results of all plants. */
  ghost function SumAll(plants: seq<seq<ProductionResult>>, part: Part): real {
    if plants == [] then 0.0 else SumAll(plants[..|plants| - 1], part) + Sum(plants[|plants| - 1], part)
  }

  /** Everything an ordinary order produced on these days, whatever became of it. */
  ghost function Made(days: seq<string>): Part {
    (p: ProductionResult) =>
      if p.day in days && !p.rework then p.good + p.defect + p.hold + p.scrap + p.reworked else 0.0
  }

  ghost function Good(days: seq<string>): Part {
    (p: ProductionResult) => if p.day in days && !p.rework then p.good else 0.0
  }

  ghost function Ng(days: seq<string>): Part {
    (p: ProductionResult) => if p.day in days && !p.rework then p.defect + p.scrap + p.reworked else 0.0
  }

  ghost function Held(days: seq<string>): Part {
    (p: ProductionResult) => if p.day in days && !p.rework then p.hold else 0.0
  }

  /** What rework orders turned good on these days. */
  ghost function Reworked(days: seq<string>): Part {
    (p: ProductionResult) => if p.day in days && p.rework then p.good else 0.0
  }

  ghost function Whole(plants: seq<seq<ProductionResult>>, days: seq<string>): Tally {
    Tally(SumAll(plants, Made(days)), SumAll(plants, Good(days)), SumAll(plants, Ng(days)), SumAll(plants, Held(days)),
          SumAll(plants, Reworked(days)))
  }

  ghost function WholeOf(results: seq<ProductionResult>, days: seq<string>): Tally {
    Tally(Sum(results, Made(days)), Sum(results, Good(days)), Sum(results, Ng(days)), Sum(results, Held(days)),
          Sum(results, Reworked(days)))
  }

  lemma {:induction false} SumSplits(results: seq<ProductionResult>, whole: Part, one: Part, other: Part)
    requires forall p :: whole(p) == one(p) + other(p)
    ensures Sum(results, whole) == Sum(results, one) + Sum(results, other)
  {
    if results != [] { SumSplits(results[..|results| - 1], whole, one, other); }
  }

  lemma {:induction false} SumAllSplits(plants: seq<seq<ProductionResult>>, whole: Part, one: Part, other: Part)
    requires forall p :: whole(p) == one(p) + other(p)
    ensures SumAll(plants, whole) == SumAll(plants, one) + SumAll(plants, other)
  {
    if plants != [] {
      SumAllSplits(plants[..|plants| - 1], whole, one, other);
      SumSplits(plants[|plants| - 1], whole, one, other);
    }
  }

  /** A further day brings in its own results. */
  lemma WholePush(plants: seq<seq<ProductionResult>>, days: seq<string>, day: string)
    requires day !in days
    ensures Whole(plants, days + [day]) == Plus(Whole(plants, days), Whole(plants, [day]))
  {
    SumAllSplits(plants, Made(days + [day]), Made(days), Made([day]));
    SumAllSplits(plants, Good(days + [day]), Good(days), Good([day]));
    SumAllSplits(plants, Ng(days + [day]), Ng(days), Ng([day]));
    SumAllSplits(plants, Held(days + [day]), Held(days), Held([day]));
    SumAllSplits(plants, Reworked(days + [day]), Reworked(days), Reworked([day]));
  }

  lemma NoDays(plants: seq<seq<ProductionResult>>)
    ensures Whole(plants, []) == NOTHING
  {
    SumAllSplits(plants, Made([]), Made([]), Made([]));
    SumAllSplits(plants, Good([]), Good([]), Good([]));
    SumAllSplits(plants, Ng([]), Ng([]), Ng([]));
    SumAllSplits(plants, Held([]), Held([]), Held([]));
    SumAllSplits(plants, Reworked([]), Reworked([]), Reworked([]));
  }

  // ----- the day's tallies are these sums

  lemma {:induction false} ResultsOnIs(results: seq<ProductionResult>, day: string)
    ensures ResultsOn(results, day) == WholeOf(results, [day])
  {
    if results != [] { ResultsOnIs(results[..|results| - 1], day); }
  }

  lemma {:induction false} AllResultsOnIs(plants: seq<seq<ProductionResult>>, day: string)
    ensures AllResultsOn(plants, day) == Whole(plants, [day])
  {
    hide ResultsOn;
    if plants != [] {
      AllResultsOnIs(plants[..|plants| - 1], day);
      ResultsOnIs(plants[|plants| - 1], day);
    }
  }

  /** The rows are the grouped results of each plant, and the map adds them up. */
  ghost predicate FromResults(byDay: ByDay, rows: seq<seq<DayRow>>, results: seq<seq<ProductionResult>>) {
    && |rows| == |results| && (forall p :: 0 <= p < |rows| ==> Grouped(rows[p], results[p]))
    && ByDayOf(byDay, rows)
  }

  lemma DayIs(byDay: ByDay, rows: seq<seq<DayRow>>, results: seq<seq<ProductionResult>>, day: string)
    requires FromResults(byDay, rows, results)
    ensures At(byDay, day) == Whole(results, [day])
    ensures day in byDay <==> exists p :: 0 <= p < |results| && HasDay(results[p], day)
  {
    hide Plus, RowsOn, PlantsOn, AllResultsOn, ResultsOn, Whole;
    ByDaySumsResults(rows, results, day);
    AllResultsOnIs(results, day);
    if day in byDay {
      var p :| 0 <= p < |rows| && HasRow(rows[p], day);
      assert HasDay(results[p], day);
    }
    if p :| 0 <= p < |results| && HasDay(results[p], day) {
      assert HasRow(rows[p], day);
    }
  }

  ghost predicate Distinct(days: seq<string>) {
    forall i, j :: 0 <= i < j < |days| ==> days[i] != days[j]
  }

  function OrNothing(sum: Option<Tally>): Tally {
    if sum.Some? then sum.value else NOTHING
  }

  lemma SumOverPush(byDay: ByDay, days: seq<string>, day: string)
    ensures OrNothing(SumOver(byDay, days + [day])) == Plus(OrNothing(SumOver(byDay, days)), At(byDay, day))
  {
    assert (days + [day])[..|days + [day]| - 1] == days;
  }

  lemma {:induction false} SumOverIs(byDay: ByDay, rows: seq<seq<DayRow>>, results: seq<seq<ProductionResult>>,
                                     days: seq<string>)
    requires FromResults(byDay, rows, results) && Distinct(days)
    ensures OrNothing(SumOver(byDay, days)) == Whole(results, days)
  {
    hide FromResults, Whole, At, Plus;
    if days == [] {
      NoDays(results);
    } else {
      var front, last := days[..|days| - 1], days[|days| - 1];
      SumOverIs(byDay, rows, results, front);
      DayIs(byDay, rows, results, last);
      WholePush(results, front, last);
      SumOverPush(byDay, front, last);
      assert days == front + [last];
    }
  }

  lemma RangeIsDistinct(range: Range)
    requires Proper(range)
    ensures Distinct(DatesBetween(range))
  {
    hide ReadDate, DayNumber;
    DatesBetweenIsRange(range);
    hide DatesBetween;
  }

  /** What a range sums to; `SumDays` has no value where there is nothing to add. */
  lemma SumDaysIs(byDay: ByDay, rows: seq<seq<DayRow>>, results: seq<seq<ProductionResult>>, range: Range)
    requires FromResults(byDay, rows, results) && Proper(range)
    ensures OrNothing(SumDays(byDay, range)) == Whole(results, DatesBetween(range))
  {
    hide ReadDate, DayNumber, DatesBetween, SumOver, Whole, FromResults;
    RangeIsDistinct(range);
    SumOverIs(byDay, rows, results, DatesBetween(range));
  }

  // ----- the production figures shown

  /** `rate` is 100 times part over whole, kept within 0 and 100. */
  ghost predicate IsRate(rate: real, part: real, whole: real) {
    && (part < 0.0 ==> rate == 0.0)
    && (part > whole ==> rate == 100.0)
    && (0.0 <= part <= whole ==> rate * whole == 100.0 * part)
  }

  lemma RateIs(part: real, whole: real)
    requires whole > 0.0
    ensures IsRate(CapRate(part / whole * 100.0), part, whole)
  {
    var q := part / whole;
    assert q * whole == part;
    assert (q * 100.0) * whole == 100.0 * part;
    if part < 0.0 {
      assert q < 0.0;
    } else if part > whole {
      assert q > 1.0;
    } else {
      assert 0.0 <= q <= 1.0;
    }
  }

  /**
   * The cards: the quantity is everything made in the range; the change is told against the range before
   * when something was made there; the yield rate is the share of good pieces, rework included.
   */
  lemma ProductionCardsAre(byDay: ByDay, rows: seq<seq<DayRow>>, results: seq<seq<ProductionResult>>, range: Range,
                           previous: Range)
    requires FromResults(byDay, rows, results) && Proper(range) && Proper(previous)
    ensures var cards := ProductionCards(byDay, range, previous);
            var made := SumAll(results, Made(DatesBetween(range)));
            var before := SumAll(results, Made(DatesBetween(previous)));
            var good := SumAll(results, Good(DatesBetween(range))) + SumAll(results, Reworked(DatesBetween(range)));
            && cards.value == made
            && (cards.delta.Some? <==> before > 0.0)
            && (cards.delta.Some? ==> before * cards.delta.value == made - before)
            && (cards.yieldRate.Some? <==> made > 0.0)
            && (cards.yieldRate.Some? ==> IsRate(cards.yieldRate.value, good, made))
  {
    hide ReadDate, DayNumber, DatesBetween, SumAll, FromResults, CapRate, IsRate, SumDays;
    SumDaysIs(byDay, rows, results, range);
    SumDaysIs(byDay, rows, results, previous);
    var whole := Whole(results, DatesBetween(range));
    var before := Whole(results, DatesBetween(previous)).total;
    if whole.total > 0.0 { RateIs(whole.good + whole.reworkGood, whole.total); }
    if before > 0.0 { QuotientIs(whole.total - before, before); }
  }

  lemma QuotientIs(part: real, whole: real)
    requires whole > 0.0
    ensures whole * (part / whole) == part
  {
  }

  /** The section: made, good with rework, NG, hold, and NG over made. */
  lemma ProductionSectionIs(byDay: ByDay, rows: seq<seq<DayRow>>, results: seq<seq<ProductionResult>>, range: Range)
    requires FromResults(byDay, rows, results) && Proper(range)
    ensures var s := ProductionSection(byDay, range);
            var days := DatesBetween(range);
            && s.total == SumAll(results, Made(days))
            && s.good == SumAll(results, Good(days)) + SumAll(results, Reworked(days))
            && s.ng == SumAll(results, Ng(days)) && s.hold == SumAll(results, Held(days))
            && (s.defectRate.Some? <==> s.total > 0.0)
            && (s.defectRate.Some? ==> IsRate(s.defectRate.value, s.ng, s.total))
  {
    hide ReadDate, DayNumber, DatesBetween, SumAll, FromResults, CapRate, IsRate, SumDays;
    SumDaysIs(byDay, rows, results, range);
    var whole := Whole(results, DatesBetween(range));
    if whole.total > 0.0 { RateIs(whole.ng, whole.total); }
  }

  /** A point of the trend: what was made that day, and no value exactly on a day no plant has a result for. */
  lemma TrendIs(byDay: ByDay, rows: seq<seq<DayRow>>, results: seq<seq<ProductionResult>>, days: seq<string>, i: nat)
    requires FromResults(byDay, rows, results) && i < |days|
    ensures |Trend(byDay, days)| == |days| && Trend(byDay, days)[i].0 == days[i]
    ensures Trend(byDay, days)[i].1.Some? <==> exists p :: 0 <= p < |results| && HasDay(results[p], days[i])
    ensures Trend(byDay, days)[i].1.Some? ==> Trend(byDay, days)[i].1.value == SumAll(results, Made([days[i]]))
  {
    DayIs(byDay, rows, results, days[i]);
    hide FromResults, SumAll, HasDay;
  }

  // ----- the quality figures shown

  ghost function LotSum(rows: seq<JudgmentRow>, judgment: Judgment, low: string, high: string): nat {
    if rows == [] then 0
    else
      var last := rows[|rows| - 1];
      LotSum(rows[..|rows| - 1], judgment, low, high)
      + if last.judgment == judgment && Within(last.localDate, low, high) then last.lots else 0
  }

  ghost function RejectedSum(rows: seq<JudgmentRow>, low: string, high: string): real {
    if rows == [] then 0.0
    else
      var last := rows[|rows| - 1];
      RejectedSum(rows[..|rows| - 1], low, high) + if Within(last.localDate, low, high) then last.rejected else 0.0
  }

  ghost predicate CountsAre(counts: LotCounts, rows: seq<JudgmentRow>, low: string, high: string) {
    && counts.accepted == LotSum(rows, ACCEPTED, low, high)
    && counts.rejected == LotSum(rows, REJECTED, low, high)
    && counts.held == LotSum(rows, HELD, low, high)
  }

  lemma CountPush(rows: seq<JudgmentRow>, row: JudgmentRow)
    ensures CountLots(rows + [row]) == AddLots(CountLots(rows), row)
    ensures RejectedQty(rows + [row]) == RejectedQty(rows) + row.rejected
  {
    assert (rows + [row])[..|rows + [row]| - 1] == rows;
  }

  lemma CountsPush(counts: LotCounts, rows: seq<JudgmentRow>, row: JudgmentRow, low: string, high: string)
    requires CountsAre(counts, rows, low, high)
    ensures CountsAre(if Within(row.localDate, low, high) then AddLots(counts, row) else counts, rows + [row],
                      low, high)
    ensures RejectedSum(rows + [row], low, high) ==
            RejectedSum(rows, low, high) + if Within(row.localDate, low, high) then row.rejected else 0.0
  {
    hide Within;
    assert (rows + [row])[..|rows + [row]| - 1] == rows;
  }

  lemma NothingCounted(low: string, high: string)
    ensures CountsAre(CountBetween([], low, high), [], low, high)
    ensures RejectedQty(RowsBetween([], low, high)) == RejectedSum([], low, high)
  {
  }

  lemma {:induction false} CountBetweenIs(rows: seq<JudgmentRow>, low: string, high: string)
    ensures CountsAre(CountBetween(rows, low, high), rows, low, high)
    ensures RejectedQty(RowsBetween(rows, low, high)) == RejectedSum(rows, low, high)
  {
    hide Within, CountLots, RejectedQty, RowsBetween, CountsAre, RejectedSum, AddLots;
    if rows == [] {
      NothingCounted(low, high);
    } else {
      var front, last := rows[..|rows| - 1], rows[|rows| - 1];
      CountBetweenIs(front, low, high);
      RowsBetweenPush(front, last, low, high);
      assert rows == front + [last];
      CountPush(RowsBetween(front, low, high), last);
      CountsPush(CountBetween(front, low, high), front, last, low, high);
    }
  }

  lemma {:induction false} LexAntisymmetric(a: string, b: string)
    ensures !LexLess(a, b) && !LexLess(b, a) <==> a == b
  {
    if a != "" && b != "" && a[0] == b[0] {
      LexAntisymmetric(a[1..], b[1..]);
      assert a == [a[0]] + a[1..] && b == [b[0]] + b[1..];
    }
  }

  /** A day's own stretch holds that day only. */
  lemma WithinItself(text: string, day: string)
    ensures Within(text, day, day) <==> text == day
  {
    LexAntisymmetric(text, day);
  }

  /**
   * The quality block: lots by judgment in the month, the month before, on each day of the chart and in the
   * range, and the rejected quantity of the month.
   */
  lemma QualityBlockIs(rows: seq<JudgmentRow>, period: Period)
    ensures var block := QualityTypeBlock(rows, period);
            && CountsAre(block.month, rows, period.from, period.to)
            && CountsAre(block.previous, rows, period.previousFrom, period.previousTo)
            && CountsAre(block.range, rows, period.range.from, period.range.to)
            && block.defectQty == RejectedSum(rows, period.from, period.to)
            && |block.daily| == |period.chartDays|
    ensures forall i :: 0 <= i < |period.chartDays| ==>
              CountsAre(QualityTypeBlock(rows, period).daily[i], rows, period.chartDays[i], period.chartDays[i])
  {
    CountBetweenIs(rows, period.from, period.to);
    CountBetweenIs(rows, period.previousFrom, period.previousTo);
    CountBetweenIs(rows, period.range.from, period.range.to);
    hide CountsAre, CountBetween, RowsBetween, RejectedQty, RejectedSum;
    forall i | 0 <= i < |period.chartDays|
      ensures CountsAre(CountBetween(rows, period.chartDays[i], period.chartDays[i]), rows, period.chartDays[i],
                        period.chartDays[i])
    {
      CountBetweenIs(rows, period.chartDays[i], period.chartDays[i]);
    }
  }
}
