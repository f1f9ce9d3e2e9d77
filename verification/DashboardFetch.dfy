/**
 * From logged instants to the figures shown (read and dailyProduction of dashboard-summary.service.ts,
 * coarseRange of dashboard-scope.ts, confirmedResultCte of dashboard-inspection.ts): each plant's rows are
 * fetched by instants on that plant's own clock, and the figures are those of everything ever logged.
 *
 * Instants are counted in whole seconds. The bounds compared with are whole seconds and offsets only
 * change at them, so a fraction of a second decides nothing.
 */
module DashboardFetch {
  import opened Results
  import Gregorian
  import opened DateTimeText
  import opened DashboardWindows
  import opened DashboardFigures
  import CalendarSolver

  type Zones = string -> CalendarSolver.Clock

  // ----- the local day of a logged instant, as the queries write it

  /** A day in a year written with four digits, common era. */
  predicate Named(n: int) {
    1 <= Gregorian.CivilDate(n).year <= 9999
  }

  lemma NamedText(n: int)
    requires Named(n)
    ensures IsDate(IsoDay(n)) && Day(IsoDay(n)) == n
  {
    hide DateText, Gregorian.CivilDate, ReadDate, Gregorian.DayNumber;
    ReadDateText(Gregorian.CivilDate(n));
  }

  lemma NamedDay(n: int, low: string, high: string)
    requires Named(n) && IsDate(low) && IsDate(high)
    ensures IsDate(IsoDay(n)) && Day(IsoDay(n)) == n
    ensures Within(IsoDay(n), low, high) <==> Day(low) <= n <= Day(high)
  {
    NamedText(n);
    hide IsoDay, Named, ReadDate, LexLess, Gregorian.DayNumber;
    TextOrder(IsoDay(n), low);
    TextOrder(high, IsoDay(n));
  }

  // ----- production

  datatype LoggedResult =
    LoggedResult(at: int, rework: bool, good: real, defect: real, hold: real, scrap: real, reworked: real)

  datatype PlantLog = PlantLog(timezone: string, results: seq<LoggedResult>)

  function OnLocalDay(logged: LoggedResult, wall: CalendarSolver.Clock): ProductionResult {
    ProductionResult(IsoDay(CalendarSolver.LocalDay(wall, logged.at)), logged.rework, logged.good, logged.defect,
                     logged.hold, logged.scrap, logged.reworked)
  }

  function OnLocalDays(logs: seq<LoggedResult>, wall: CalendarSolver.Clock): seq<ProductionResult> {
    if logs == [] then [] else OnLocalDays(logs[..|logs| - 1], wall) + [OnLocalDay(logs[|logs| - 1], wall)]
  }

  /** Every logged result becomes one row of its local day, with its quantities as they are. */
  lemma {:induction false} OnLocalDaysAre(logs: seq<LoggedResult>, wall: CalendarSolver.Clock, i: nat)
    requires i < |logs| && Named(CalendarSolver.LocalDay(wall, logs[i].at))
    ensures |OnLocalDays(logs, wall)| == |logs|
    ensures var row := OnLocalDays(logs, wall)[i];
            && IsDate(row.day) && Day(row.day) * 86400 <= wall(logs[i].at) < Day(row.day) * 86400 + 86400
            && row.rework == logs[i].rework && row.good == logs[i].good && row.defect == logs[i].defect
            && row.hold == logs[i].hold && row.scrap == logs[i].scrap && row.reworked == logs[i].reworked
  {
    hide IsoDay, ReadDate, Named, Gregorian.DayNumber;
    OnLocalDaysSize(logs, wall);
    var front := logs[..|logs| - 1];
    OnLocalDaysSize(front, wall);
    if i < |front| {
      OnLocalDaysAre(front, wall, i);
      assert OnLocalDays(logs, wall)[i] == OnLocalDays(front, wall)[i];
    } else {
      NamedText(CalendarSolver.LocalDay(wall, logs[i].at));
    }
  }

  lemma {:induction false} OnLocalDaysSize(logs: seq<LoggedResult>, wall: CalendarSolver.Clock)
    ensures |OnLocalDays(logs, wall)| == |logs|
  {
    if logs != [] { OnLocalDaysSize(logs[..|logs| - 1], wall); }
  }

  predicate InDateRange(at: int, range: CalendarSolver.DateRange) {
    (range.gte.Some? ==> at >= range.gte.value) && (range.lt.Some? ==> at < range.lt.value)
  }

  /** The WHERE clause on the time of occurrence. */
  function Chosen(logs: seq<LoggedResult>, range: CalendarSolver.DateRange): seq<LoggedResult> {
    if logs == [] then []
    else
      var before, last := Chosen(logs[..|logs| - 1], range), logs[|logs| - 1];
      if InDateRange(last.at, range) then before + [last] else before
  }

  // ----- GROUP BY day

  function DaysOf(results: seq<ProductionResult>): seq<string> {
    if results == [] then []
    else
      var days, last := DaysOf(results[..|results| - 1]), results[|results| - 1].day;
      if last in days then days else days + [last]
  }

  function GroupByDay(results: seq<ProductionResult>): seq<DayRow> {
    var days := DaysOf(results);
    seq(|days|, i requires 0 <= i < |days| => DayRow(days[i], ResultsOn(results, days[i])))
  }

  lemma {:induction false} DaysOfAre(results: seq<ProductionResult>)
    ensures forall i, j :: 0 <= i < j < |DaysOf(results)| ==> DaysOf(results)[i] != DaysOf(results)[j]
    ensures forall day :: day in DaysOf(results) <==> HasDay(results, day)
  {
    if results != [] {
      var front, last := results[..|results| - 1], results[|results| - 1];
      DaysOfAre(front);
      forall day ensures HasDay(results, day) <==> HasDay(front, day) || day == last.day {
        assert forall k :: 0 <= k < |front| ==> front[k] == results[k];
      }
    }
  }

  lemma GroupByDayGroups(results: seq<ProductionResult>)
    ensures Grouped(GroupByDay(results), results)
    ensures forall day :: HasRow(GroupByDay(results), day) <==> HasDay(results, day)
  {
    DaysOfAre(results);
    hide DaysOf, ResultsOn, HasDay;
    var rows := GroupByDay(results);
    forall day ensures HasRow(rows, day) <==> day in DaysOf(results) {
      if day in DaysOf(results) {
        var i :| 0 <= i < |DaysOf(results)| && DaysOf(results)[i] == day;
        assert rows[i].day == day;
      }
    }
    forall i | 0 <= i < |rows| ensures HasDay(results, rows[i].day) {
      assert DaysOf(results)[i] in DaysOf(results);
    }
    forall k | 0 <= k < |results| ensures HasRow(rows, results[k].day) {
      DayIsThere(results, k);
    }
  }

  lemma DayIsThere(results: seq<ProductionResult>, k: nat)
    requires k < |results|
    ensures HasDay(results, results[k].day)
  {
  }

  // ----- the fetched part of one plant's log

  ghost predicate AllNamed(logs: seq<LoggedResult>, wall: CalendarSolver.Clock) {
    forall i :: 0 <= i < |logs| ==> Named(CalendarSolver.LocalDay(wall, logs[i].at))
  }

  /** An instant is fetched exactly when the local date written for it lies in the window. */
  lemma FetchedIsWithin(at: int, wall: CalendarSolver.Clock, range: CalendarSolver.DateRange, window: Range)
    requires Proper(window) && Named(CalendarSolver.LocalDay(wall, at))
    requires CalendarSolver.Selects(wall, range, Some(Day(window.from)), Some(Day(window.to)))
    ensures InDateRange(at, range) <==> Within(IsoDay(CalendarSolver.LocalDay(wall, at)), window.from, window.to)
  {
    hide Named, IsoDay, ReadDate, Gregorian.DayNumber, Within, CalendarSolver.LocalDay;
    CalendarSolver.SelectsDays(wall, range, Day(window.from), Day(window.to), at);
    NamedDay(CalendarSolver.LocalDay(wall, at), window.from, window.to);
  }

  /** On this day the fetched results are all results, if the day lies in the window, and none otherwise. */
  ghost predicate FetchedOn(fetched: seq<ProductionResult>, all: seq<ProductionResult>, window: Range, day: string) {
    && ResultsOn(fetched, day) == (if Within(day, window.from, window.to) then ResultsOn(all, day) else NOTHING)
    && (HasDay(fetched, day) <==> HasDay(all, day) && Within(day, window.from, window.to))
  }

  lemma FetchedPush(fetched: seq<ProductionResult>, all: seq<ProductionResult>, last: ProductionResult,
                    window: Range, day: string)
    requires FetchedOn(fetched, all, window, day)
    ensures FetchedOn(if Within(last.day, window.from, window.to) then fetched + [last] else fetched,
                      all + [last], window, day)
  {
    ResultsPush(all, last, day);
    ResultsPush(fetched, last, day);
    hide Within, ResultsOn, HasDay, Plus, TallyOf;
  }

  /** What is fetched of a plant's log are its results on the days of the window, whole. */
  lemma {:induction false} FetchedResults(logs: seq<LoggedResult>, wall: CalendarSolver.Clock,
                                          range: CalendarSolver.DateRange, window: Range, day: string)
    requires Proper(window) && AllNamed(logs, wall)
    requires CalendarSolver.Selects(wall, range, Some(Day(window.from)), Some(Day(window.to)))
    ensures FetchedOn(OnLocalDays(Chosen(logs, range), wall), OnLocalDays(logs, wall), window, day)
  {
    hide FetchedOn, CalendarSolver.Selects, CalendarSolver.LocalDay, ReadDate, Gregorian.DayNumber;
    hide IsoDay, Within, InDateRange, Named;
    if logs != [] {
      var front, last := logs[..|logs| - 1], logs[|logs| - 1];
      FetchedResults(front, wall, range, window, day);
      FetchedIsWithin(last.at, wall, range, window);
      FetchedPush(OnLocalDays(Chosen(front, range), wall), OnLocalDays(front, wall), OnLocalDay(last, wall),
                  window, day);
      OnLocalDaysPush(Chosen(front, range), last, wall);
    } else {
      NothingFetched(window, day);
    }
  }

  lemma NothingFetched(window: Range, day: string)
    ensures FetchedOn([], [], window, day)
  {
  }

  lemma OnLocalDaysPush(logs: seq<LoggedResult>, last: LoggedResult, wall: CalendarSolver.Clock)
    ensures OnLocalDays(logs + [last], wall) == OnLocalDays(logs, wall) + [OnLocalDay(last, wall)]
  {
    assert (logs + [last])[..|logs + [last]| - 1] == logs;
  }

  lemma ResultsPush(results: seq<ProductionResult>, last: ProductionResult, day: string)
    ensures ResultsOn(results + [last], day)
         == if last.day == day then Plus(ResultsOn(results, day), TallyOf(last)) else ResultsOn(results, day)
    ensures HasDay(results + [last], day) <==> HasDay(results, day) || last.day == day
  {
    var all := results + [last];
    assert all[..|all| - 1] == results && all[|all| - 1] == last;
    assert forall k :: 0 <= k < |results| ==> all[k] == results[k];
  }

  // ----- the fetch of all plants

  /** Within the stated premises, and never leaping back over an end of the window. */
  ghost predicate GoodClock(wall: CalendarSolver.Clock, window: Range)
    requires IsDate(window.from) && IsDate(window.to)
  {
    CalendarSolver.Premises(wall) && CalendarSolver.EndsNeverLeapt(wall, Some(Day(window.from)), Some(Day(window.to)))
  }

  function RowsOfAll(plants: seq<PlantLog>, zones: Zones): seq<seq<DayRow>> {
    if plants == [] then []
    else
      var last := plants[|plants| - 1];
      RowsOfAll(plants[..|plants| - 1], zones) + [GroupByDay(OnLocalDays(last.results, zones(last.timezone)))]
  }

  ghost predicate PlantsNamed(plants: seq<PlantLog>, zones: Zones) {
    forall p :: 0 <= p < |plants| ==> AllNamed(plants[p].results, zones(plants[p].timezone))
  }

  ghost predicate GoodClocks(plants: seq<PlantLog>, zones: Zones, window: Range)
    requires IsDate(window.from) && IsDate(window.to)
  {
    forall p :: 0 <= p < |plants| ==> GoodClock(zones(plants[p].timezone), window)
  }

  /** The fetched rows of all plants on a day: all of them in the window, none outside. */
  ghost predicate RowsFetchedOn(fetched: seq<seq<DayRow>>, all: seq<seq<DayRow>>, window: Range, day: string) {
    && PlantsOn(fetched, day) == (if Within(day, window.from, window.to) then PlantsOn(all, day) else NOTHING)
    && (SomeRow(fetched, day) <==> SomeRow(all, day) && Within(day, window.from, window.to))
  }

  lemma RowsFetchedPush(fetched: seq<seq<DayRow>>, all: seq<seq<DayRow>>, plant: PlantLog, wall: CalendarSolver.Clock,
                        range: CalendarSolver.DateRange, window: Range, day: string)
    requires RowsFetchedOn(fetched, all, window, day)
    requires Proper(window) && AllNamed(plant.results, wall)
    requires CalendarSolver.Selects(wall, range, Some(Day(window.from)), Some(Day(window.to)))
    ensures RowsFetchedOn(fetched + [GroupByDay(OnLocalDays(Chosen(plant.results, range), wall))],
                          all + [GroupByDay(OnLocalDays(plant.results, wall))], window, day)
  {
    hide AllNamed, CalendarSolver.Selects, ReadDate, Gregorian.DayNumber, Within, GroupByDay, ResultsOn, HasDay;
    hide Grouped, OnLocalDays, Chosen, Plus, RowsOn, HasRow;
    FetchedResults(plant.results, wall, range, window, day);
    var some, every := OnLocalDays(Chosen(plant.results, range), wall), OnLocalDays(plant.results, wall);
    GroupByDayGroups(some);
    GroupByDayGroups(every);
    GroupedRowsOn(GroupByDay(some), some, day);
    GroupedRowsOn(GroupByDay(every), every, day);
    RowsPush(fetched, GroupByDay(some), day);
    RowsPush(all, GroupByDay(every), day);
    hide PlantsOn, SomeRow;
    PlusNothing();
  }

  lemma PlusNothing()
    ensures Plus(NOTHING, NOTHING) == NOTHING
  {
  }

  lemma RowsPush(plants: seq<seq<DayRow>>, rows: seq<DayRow>, day: string)
    ensures PlantsOn(plants + [rows], day) == Plus(PlantsOn(plants, day), RowsOn(rows, day))
    ensures SomeRow(plants + [rows], day) <==> SomeRow(plants, day) || HasRow(rows, day)
  {
    NextPlant(plants + [rows], |plants|);
    assert (plants + [rows])[..|plants|] == plants && (plants + [rows])[..|plants| + 1] == plants + [rows];
  }

  ghost predicate WindowFetched(fetched: seq<seq<DayRow>>, all: seq<seq<DayRow>>, window: Range) {
    forall day :: RowsFetchedOn(fetched, all, window, day)
  }

  lemma NextPlantFetched(fetched: seq<seq<DayRow>>, plants: seq<PlantLog>, p: nat, zones: Zones,
                         range: CalendarSolver.DateRange, window: Range)
    requires p < |plants| && WindowFetched(fetched, RowsOfAll(plants[..p], zones), window)
    requires Proper(window) && AllNamed(plants[p].results, zones(plants[p].timezone))
    requires CalendarSolver.Selects(zones(plants[p].timezone), range, Some(Day(window.from)), Some(Day(window.to)))
    ensures var rows := GroupByDay(OnLocalDays(Chosen(plants[p].results, range), zones(plants[p].timezone)));
            WindowFetched(fetched + [rows], RowsOfAll(plants[..p + 1], zones), window)
  {
    hide AllNamed, CalendarSolver.Selects, ReadDate, Gregorian.DayNumber, GroupByDay, OnLocalDays, Chosen;
    hide RowsFetchedOn;
    assert plants[..p + 1][..p] == plants[..p];
    var wall := zones(plants[p].timezone);
    var some := fetched + [GroupByDay(OnLocalDays(Chosen(plants[p].results, range), wall))];
    var all := RowsOfAll(plants[..p], zones);
    var every := all + [GroupByDay(OnLocalDays(plants[p].results, wall))];
    forall day ensures RowsFetchedOn(some, every, window, day) {
      assert RowsFetchedOn(fetched, all, window, day);
      RowsFetchedPush(fetched, all, plants[p], wall, range, window, day);
    }
  }

  /** One query per plant, between the instants its own clock gives the window. */
  method FetchRows(plants: seq<PlantLog>, window: Range, zones: Zones)
    returns (r: Result<seq<seq<DayRow>>, CalendarSolver.RangeError>)
    requires Proper(window) && PlantsNamed(plants, zones)
    ensures r.Ok? && GoodClocks(plants, zones, window) ==> WindowFetched(r.value, RowsOfAll(plants, zones), window)
    ensures (forall p :: 0 <= p < |plants| ==> InZone(plants[p], zones)) ==>
              (r.Ok? <==> forall p :: 0 <= p < |plants| ==> EndsFound(plants[p], zones, window))
  {
    hide ReadDate, Gregorian.DayNumber, WindowFetched, AllNamed, CalendarSolver.Premises, CalendarSolver.EndsResolve;
    hide CalendarSolver.EndsNeverLeapt, CalendarSolver.Selects, GroupByDay, OnLocalDays, Chosen;
    var rows: seq<seq<DayRow>> := [];
    NothingIsFetched(window, zones);
    for p := 0 to |plants|
      invariant GoodClocks(plants, zones, window) ==> WindowFetched(rows, RowsOfAll(plants[..p], zones), window)
      invariant (forall q :: 0 <= q < |plants| ==> InZone(plants[q], zones)) ==>
                  forall q :: 0 <= q < p ==> EndsFound(plants[q], zones, window)
    {
      var plant := plants[p];
      var range :- CalendarSolver.MaintenanceDateRange(Some(window.from), Some(window.to), plant.timezone, zones);
      if GoodClocks(plants, zones, window) {
        assert GoodClock(zones(plants[p].timezone), window);
        NextPlantFetched(rows, plants, p, zones, range, window);
      }
      rows := rows + [GroupByDay(OnLocalDays(Chosen(plant.results, range), zones(plant.timezone)))];
    }
    assert plants[..|plants|] == plants;
    r := Ok(rows);
  }

  lemma NothingIsFetched(window: Range, zones: Zones)
    ensures WindowFetched([], RowsOfAll([], zones), window)
  {
    forall day ensures RowsFetchedOn([], RowsOfAll([], zones), window, day) {
    }
  }

  /** A zone is named and its data is within the stated premises. */
  ghost predicate InZone(plant: PlantLog, zones: Zones) {
    plant.timezone != "" && CalendarSolver.Premises(zones(plant.timezone))
  }

  /** The ends of the window can be found on the plant's clock. */
  ghost predicate EndsFound(plant: PlantLog, zones: Zones, window: Range)
    requires IsDate(window.from) && IsDate(window.to)
  {
    CalendarSolver.EndsResolve(zones(plant.timezone), Some(Day(window.from)), Some(Day(window.to)))
  }

  lemma FetchedByDay(byDay: ByDay, fetched: seq<seq<DayRow>>, everything: ByDay, all: seq<seq<DayRow>>, window: Range)
    requires ByDayOf(byDay, fetched) && ByDayOf(everything, all) && WindowFetched(fetched, all, window)
    ensures byDay == Fetched(everything, window.from, window.to)
  {
    hide PlantsOn, SomeRow, Within;
    forall day ensures day in byDay <==> day in Fetched(everything, window.from, window.to) {
      assert RowsFetchedOn(fetched, all, window, day);
    }
    forall day | day in byDay ensures byDay[day] == everything[day] {
      assert RowsFetchedOn(fetched, all, window, day);
      assert At(byDay, day) == PlantsOn(fetched, day) && At(everything, day) == PlantsOn(all, day);
    }
  }

  // ----- the production figures

  datatype Production = Production(cards: Cards, trend: seq<(string, Option<real>)>, section: Section)

  function ProductionOf(byDay: ByDay, range: Range, previous: Range): Production
    requires IsDate(range.from) && IsDate(range.to) && IsDate(previous.from) && IsDate(previous.to)
  {
    Production(ProductionCards(byDay, range, previous), Trend(byDay, ChartDays(range)), ProductionSection(byDay, range))
  }

  /**
   * The production figures of a summary. Read from each plant's rows between two instants, they are the
   * figures of everything ever logged by local day, whenever the plants' clocks keep to the premises and
   * never leap back over an end of the window.
   */
  method ReadProduction(plants: seq<PlantLog>, range: Range, zones: Zones)
    returns (r: Result<Production, CalendarSolver.RangeError>)
    requires Proper(range) && EarliestProductionDay(range) >= FIRST_DAY && PlantsNamed(plants, zones)
    ensures PreviousRange(range).Some? && ChartDays(range) != [] && Proper(PreviousRange(range).value)
    ensures Proper(ProductionWindow(range, PreviousRange(range).value))
    ensures (forall p :: 0 <= p < |plants| ==> InZone(plants[p], zones)) ==>
              (r.Ok? <==> forall p :: 0 <= p < |plants| ==>
                 EndsFound(plants[p], zones, ProductionWindow(range, PreviousRange(range).value)))
    ensures r.Ok? && GoodClocks(plants, zones, ProductionWindow(range, PreviousRange(range).value)) ==>
              forall everything :: ByDayOf(everything, RowsOfAll(plants, zones)) ==>
                r.value == ProductionOf(everything, range, PreviousRange(range).value)
  {
    ProductionReadsInWindow(range);
    hide ReadDate, Gregorian.DayNumber, PreviousRange, ChartDays, EarliestProductionDay, ProductionWindow, DatesBetween;
    hide AllWithin, WindowFetched, ByDayOf, GoodClocks, PlantsNamed, ProductionCards, Trend, ProductionSection;
    hide InZone, EndsFound;
    var previous := PreviousRange(range).value;
    var window := ProductionWindow(range, previous);
    var rows :- FetchRows(plants, window, zones);
    var byDay := DailyProduction(rows);
    if GoodClocks(plants, zones, window) {
      forall everything | ByDayOf(everything, RowsOfAll(plants, zones))
        ensures ProductionOf(byDay, range, previous) == ProductionOf(everything, range, previous)
      {
        FetchedByDay(byDay, rows, everything, RowsOfAll(plants, zones), window);
        ProductionNeedsOnlyWindow(everything, range);
      }
    }
    r := Ok(ProductionOf(byDay, range, previous));
  }

  // ----- the quality figures

  datatype LoggedJudgment = LoggedJudgment(at: int, timezone: string, judgment: Judgment, lots: nat, rejected: real)

  function JudgmentOn(logged: LoggedJudgment, zones: Zones): JudgmentRow {
    var localDate := IsoDay(CalendarSolver.LocalDay(zones(logged.timezone), logged.at));
    JudgmentRow(localDate, logged.judgment, logged.lots, logged.rejected)
  }

  function JudgmentsOn(logs: seq<LoggedJudgment>, zones: Zones): seq<JudgmentRow> {
    if logs == [] then [] else JudgmentsOn(logs[..|logs| - 1], zones) + [JudgmentOn(logs[|logs| - 1], zones)]
  }

  /** Every judgment counts on the day its own plant's clock shows. */
  lemma {:induction false} JudgmentsOnAre(logs: seq<LoggedJudgment>, zones: Zones, i: nat)
    requires i < |logs| && Named(CalendarSolver.LocalDay(zones(logs[i].timezone), logs[i].at))
    ensures |JudgmentsOn(logs, zones)| == |logs|
    ensures var (row, wall) := (JudgmentsOn(logs, zones)[i], zones(logs[i].timezone));
            && IsDate(row.localDate)
            && Day(row.localDate) * 86400 <= wall(logs[i].at) < Day(row.localDate) * 86400 + 86400
            && row.judgment == logs[i].judgment && row.lots == logs[i].lots && row.rejected == logs[i].rejected
  {
    hide IsoDay, ReadDate, Named, Gregorian.DayNumber;
    var front := logs[..|logs| - 1];
    JudgmentsOnSize(logs, zones);
    JudgmentsOnSize(front, zones);
    if i < |front| {
      JudgmentsOnAre(front, zones, i);
      assert JudgmentsOn(logs, zones)[i] == JudgmentsOn(front, zones)[i];
    } else {
      NamedText(CalendarSolver.LocalDay(zones(logs[i].timezone), logs[i].at));
    }
  }

  lemma {:induction false} JudgmentsOnSize(logs: seq<LoggedJudgment>, zones: Zones)
    ensures |JudgmentsOn(logs, zones)| == |logs|
  {
    if logs != [] { JudgmentsOnSize(logs[..|logs| - 1], zones); }
  }

  /** From a day before the first date to a day after the last one, in UTC. */
  predicate InCoarseRange(at: int, from: string, to: string)
    requires IsDate(from) && IsDate(to)
  {
    (Day(from) - 1) * CalendarSolver.DAY <= at < (Day(to) + 2) * CalendarSolver.DAY
  }

  function Coarse(logs: seq<LoggedJudgment>, from: string, to: string): seq<LoggedJudgment>
    requires IsDate(from) && IsDate(to)
  {
    if logs == [] then []
    else
      var before, last := Coarse(logs[..|logs| - 1], from, to), logs[|logs| - 1];
      if InCoarseRange(last.at, from, to) then before + [last] else before
  }

  ghost predicate JudgmentsNamed(logs: seq<LoggedJudgment>, zones: Zones) {
    forall i :: 0 <= i < |logs| ==>
      && CalendarSolver.Bounded(zones(logs[i].timezone))
      && Named(CalendarSolver.LocalDay(zones(logs[i].timezone), logs[i].at))
  }

  lemma DayOfWallTime(at: int, wallTime: int, low: int, high: int)
    requires -CalendarSolver.DAY <= wallTime - at <= CalendarSolver.DAY
    requires low <= wallTime / CalendarSolver.DAY <= high
    ensures (low - 1) * CalendarSolver.DAY <= at < (high + 2) * CalendarSolver.DAY
  {
  }

  /** A day's margin covers every clock whose offset stays within a day. */
  lemma CoarseCoversWindow(at: int, wall: CalendarSolver.Clock, from: string, to: string)
    requires IsDate(from) && IsDate(to) && CalendarSolver.Bounded(wall) && Named(CalendarSolver.LocalDay(wall, at))
    ensures Within(IsoDay(CalendarSolver.LocalDay(wall, at)), from, to) ==> InCoarseRange(at, from, to)
  {
    hide Named, IsoDay, ReadDate, Gregorian.DayNumber, Within;
    NamedDay(CalendarSolver.LocalDay(wall, at), from, to);
    assert -CalendarSolver.DAY <= CalendarSolver.Offset(wall, at) <= CalendarSolver.DAY;
    if Day(from) <= CalendarSolver.LocalDay(wall, at) <= Day(to) {
      DayOfWallTime(at, wall(at), Day(from), Day(to));
    }
  }

  lemma {:induction false} CoarseRowsBetween(logs: seq<LoggedJudgment>, zones: Zones, from: string, to: string)
    requires IsDate(from) && IsDate(to) && JudgmentsNamed(logs, zones)
    ensures RowsBetween(JudgmentsOn(Coarse(logs, from, to), zones), from, to)
              == RowsBetween(JudgmentsOn(logs, zones), from, to)
  {
    hide ReadDate, Gregorian.DayNumber, IsoDay, Within, InCoarseRange, Named, CalendarSolver.LocalDay;
    hide CalendarSolver.Bounded;
    hide RowsBetween;
    if logs != [] {
      var front, last := logs[..|logs| - 1], logs[|logs| - 1];
      CoarseRowsBetween(front, zones, from, to);
      CoarseCoversWindow(last.at, zones(last.timezone), from, to);
      var row := JudgmentOn(last, zones);
      JudgmentsPush(Coarse(front, from, to), last, zones);
      RowsBetweenPush(JudgmentsOn(front, zones), row, from, to);
      RowsBetweenPush(JudgmentsOn(Coarse(front, from, to), zones), row, from, to);
    }
  }

  lemma JudgmentsPush(logs: seq<LoggedJudgment>, last: LoggedJudgment, zones: Zones)
    ensures JudgmentsOn(logs + [last], zones) == JudgmentsOn(logs, zones) + [JudgmentOn(last, zones)]
  {
    assert (logs + [last])[..|logs + [last]| - 1] == logs;
  }

  /**
   * The quality figures read through the coarse UTC bounds are those of everything ever judged, on any
   * clocks whose offset stays within a day.
   */
  lemma QualityNeedsOnlyCoarseRange(range: Range, logs: seq<LoggedJudgment>, zones: Zones)
    requires Proper(range) && PeriodReaches(range) && JudgmentsNamed(logs, zones)
    ensures DashboardPeriod(range).Some? && DashboardPeriod(range).value.chartDays != []
    ensures var period := DashboardPeriod(range).value;
            && IsDate(PeriodStart(period)) && IsDate(period.to)
            && QualityTypeBlock(JudgmentsOn(Coarse(logs, PeriodStart(period), period.to), zones), period)
               == QualityTypeBlock(JudgmentsOn(logs, zones), period)
  {
    PeriodIsOk(range);
    hide ReadDate, Gregorian.DayNumber, DashboardPeriod, PeriodReaches, QualityTypeBlock, LexLess, JudgmentsNamed;
    hide Coarse;
    var period := DashboardPeriod(range).value;
    EarlierIs(period.previousFrom, period.chartDays[0]);
    EarlierIs(Earlier(period.previousFrom, period.chartDays[0]), period.range.from);
    var start := PeriodStart(period);
    CoarseRowsBetween(logs, zones, start, period.to);
    BlockNeedsOnlyWindow(JudgmentsOn(Coarse(logs, start, period.to), zones), period);
    BlockNeedsOnlyWindow(JudgmentsOn(logs, zones), period);
  }
}
