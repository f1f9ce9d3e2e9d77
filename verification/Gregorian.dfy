/**
 * The proleptic Gregorian calendar as the JavaScript Date object counts it: days from 1970-01-01,
 * year 0 a leap year, no end in either direction.
 */
module Gregorian {
  import opened Results

  datatype Date = Date(year: int, month: int, day: int)

  /** Days from 0000-01-01 to 1970-01-01. */
  const EPOCH := 719528

  predicate Leap(year: int) {
    year % 4 == 0 && (year % 100 != 0 || year % 400 == 0)
  }

  function MonthDays(year: int, month: int): (n: int)
    requires 1 <= month <= 12
    ensures 28 <= n <= 31
  {
    [31, if Leap(year) then 29 else 28, 31, 30, 31, 30, 31, 31, 30, 31, 30, 31][month - 1]
  }

  predicate Valid(date: Date) {
    1 <= date.month <= 12 && 1 <= date.day <= MonthDays(date.year, date.month)
  }

  function DaysBeforeYear(year: int): int {
    365 * year + (year + 3) / 4 - (year + 99) / 100 + (year + 399) / 400
  }

  function DaysBeforeMonth(year: int, month: int): int
    requires 1 <= month <= 13
  {
    if month == 1 then 0 else DaysBeforeMonth(year, month - 1) + MonthDays(year, month - 1)
  }

  function YearDays(year: int): int {
    if Leap(year) then 366 else 365
  }

  /** Days from 1970-01-01. */
  function DayNumber(date: Date): int
    requires 1 <= date.month <= 12
  {
    DaysBeforeYear(date.year) + DaysBeforeMonth(date.year, date.month) + date.day - 1 - EPOCH
  }

  function NextDate(date: Date): Date
    requires Valid(date)
  {
    if date.day < MonthDays(date.year, date.month) then Date(date.year, date.month, date.day + 1)
    else if date.month < 12 then Date(date.year, date.month + 1, 1)
    else Date(date.year + 1, 1, 1)
  }

  lemma FourthStep(y: int)
    ensures (y + 4) / 4 == (y + 3) / 4 + if y % 4 == 0 then 1 else 0
  {
  }

  lemma CenturyStep(y: int)
    ensures (y + 100) / 100 == (y + 99) / 100 + if y % 100 == 0 then 1 else 0
  {
  }

  lemma FourCenturyStep(y: int)
    ensures (y + 400) / 400 == (y + 399) / 400 + if y % 400 == 0 then 1 else 0
  {
  }

  lemma LeapNesting(y: int)
    ensures y % 100 == 0 ==> y % 4 == 0
    ensures y % 400 == 0 ==> y % 100 == 0
  {
  }

  lemma YearStep(year: int)
    ensures DaysBeforeYear(year + 1) == DaysBeforeYear(year) + YearDays(year)
  {
    FourthStep(year);
    CenturyStep(year);
    FourCenturyStep(year);
    LeapNesting(year);
  }

  lemma MonthsFillYear(year: int)
    ensures DaysBeforeMonth(year, 13) == YearDays(year)
  {
    MonthTable(year);
  }

  lemma MonthTable(year: int)
    ensures var l := if Leap(year) then 1 else 0;
            && DaysBeforeMonth(year, 1) == 0 && DaysBeforeMonth(year, 2) == 31
            && DaysBeforeMonth(year, 3) == 59 + l && DaysBeforeMonth(year, 4) == 90 + l
            && DaysBeforeMonth(year, 5) == 120 + l && DaysBeforeMonth(year, 6) == 151 + l
            && DaysBeforeMonth(year, 7) == 181 + l && DaysBeforeMonth(year, 8) == 212 + l
            && DaysBeforeMonth(year, 9) == 243 + l && DaysBeforeMonth(year, 10) == 273 + l
            && DaysBeforeMonth(year, 11) == 304 + l && DaysBeforeMonth(year, 12) == 334 + l
            && DaysBeforeMonth(year, 13) == 365 + l
  {
    assert DaysBeforeMonth(year, 3) == DaysBeforeMonth(year, 2) + MonthDays(year, 2);
    assert DaysBeforeMonth(year, 4) == DaysBeforeMonth(year, 3) + MonthDays(year, 3);
    assert DaysBeforeMonth(year, 5) == DaysBeforeMonth(year, 4) + MonthDays(year, 4);
    assert DaysBeforeMonth(year, 6) == DaysBeforeMonth(year, 5) + MonthDays(year, 5);
    assert DaysBeforeMonth(year, 7) == DaysBeforeMonth(year, 6) + MonthDays(year, 6);
    assert DaysBeforeMonth(year, 8) == DaysBeforeMonth(year, 7) + MonthDays(year, 7);
    assert DaysBeforeMonth(year, 9) == DaysBeforeMonth(year, 8) + MonthDays(year, 8);
    assert DaysBeforeMonth(year, 10) == DaysBeforeMonth(year, 9) + MonthDays(year, 9);
    assert DaysBeforeMonth(year, 11) == DaysBeforeMonth(year, 10) + MonthDays(year, 10);
    assert DaysBeforeMonth(year, 12) == DaysBeforeMonth(year, 11) + MonthDays(year, 11);
    assert DaysBeforeMonth(year, 13) == DaysBeforeMonth(year, 12) + MonthDays(year, 12);
  }

  /** The count grows by one with the calendar's own successor. */
  lemma DayNumberCountsDays(date: Date)
    requires Valid(date)
    ensures Valid(NextDate(date)) && DayNumber(NextDate(date)) == DayNumber(date) + 1
  {
    MonthTable(date.year);
    YearStep(date.year);
  }

  // ----- the inverse

  /** The last year that starts on or before the given day of the count from 0000-01-01. */
  function YearOf(days: int): (year: int)
    ensures DaysBeforeYear(year) <= days < DaysBeforeYear(year + 1)
  {
    var guess := 400 * days / 146097;
    YearStep(guess - 1); YearStep(guess); YearStep(guess + 1);
    if DaysBeforeYear(guess + 1) <= days then guess + 1
    else if DaysBeforeYear(guess) <= days then guess
    else guess - 1
  }

  function MonthOf(year: int, dayOfYear: int, month: int): (r: int)
    requires 1 <= month <= 12
    requires DaysBeforeMonth(year, month) <= dayOfYear < DaysBeforeMonth(year, 13)
    ensures 1 <= r <= 12
    ensures DaysBeforeMonth(year, r) <= dayOfYear < DaysBeforeMonth(year, r + 1)
    decreases 12 - month
  {
    if dayOfYear < DaysBeforeMonth(year, month + 1) then month
    else
      assert month < 12;
      MonthOf(year, dayOfYear, month + 1)
  }

  /** The calendar date of a day number. */
  function CivilDate(n: int): (date: Date)
    ensures Valid(date) && DayNumber(date) == n
  {
    var days := n + EPOCH;
    var year := YearOf(days);
    var dayOfYear := days - DaysBeforeYear(year);
    YearStep(year);
    MonthsFillYear(year);
    var month := MonthOf(year, dayOfYear, 1);
    Date(year, month, dayOfYear - DaysBeforeMonth(year, month) + 1)
  }

  // ----- calendar order and day count agree

  predicate Before(a: Date, b: Date) {
    a.year < b.year || (a.year == b.year && (a.month < b.month || (a.month == b.month && a.day < b.day)))
  }

  lemma {:induction false} YearsMonotone(a: int, b: int)
    requires a <= b
    ensures DaysBeforeYear(a) + 365 * (b - a) <= DaysBeforeYear(b)
    decreases b - a
  {
    if a < b {
      YearsMonotone(a, b - 1);
      YearStep(b - 1);
    }
  }

  lemma {:induction false} MonthsMonotone(year: int, a: int, b: int)
    requires 1 <= a <= b <= 13
    ensures DaysBeforeMonth(year, a) + 28 * (b - a) <= DaysBeforeMonth(year, b)
    decreases b - a
  {
    if a < b { MonthsMonotone(year, a, b - 1); }
  }

  lemma EarlierDateEarlierDay(a: Date, b: Date)
    requires Valid(a) && Valid(b) && Before(a, b)
    ensures DayNumber(a) < DayNumber(b)
  {
    MonthsFillYear(a.year);
    if a.year < b.year {
      YearStep(a.year);
      YearsMonotone(a.year + 1, b.year);
      MonthsMonotone(a.year, a.month + 1, 13);
      MonthsMonotone(b.year, 1, b.month);
    } else if a.month < b.month {
      MonthsMonotone(a.year, a.month + 1, b.month);
    }
  }

  lemma DateOrder(a: Date, b: Date)
    requires Valid(a) && Valid(b)
    ensures Before(a, b) <==> DayNumber(a) < DayNumber(b)
    ensures a == b <==> DayNumber(a) == DayNumber(b)
  {
    if Before(a, b) {
      EarlierDateEarlierDay(a, b);
    } else if Before(b, a) {
      EarlierDateEarlierDay(b, a);
    }
  }

  /** Day zero is 1970-01-01 and no other date. */
  lemma EpochIsDayZero(date: Date)
    requires Valid(date)
    ensures DayNumber(date) == 0 <==> date.year == 1970 && date.month == 1 && date.day == 1
  {
    var epoch := Date(1970, 1, 1);
    assert DayNumber(epoch) == 0;
    hide DayNumber;
    DateOrder(date, epoch);
  }

  lemma CivilDateInverts(date: Date)
    requires Valid(date)
    ensures CivilDate(DayNumber(date)) == date
  {
    DateOrder(date, CivilDate(DayNumber(date)));
  }

  // ----- the Date object's setters and getters on whole seconds

  /** Date.UTC's day: a month out of range carries into the year, a day out of range just counts on. */
  function MakeDay(year: int, month: int, day: int): int {
    var y := year + (month - 1) / 12;
    var m := (month - 1) % 12 + 1;
    DayNumber(Date(y, m, 1)) + day - 1
  }

  const DAY_SECONDS := 86400

  datatype Clock = Clock(hour: int, minute: int, second: int)

  function SecondOfDay(clock: Clock): int {
    clock.hour * 3600 + clock.minute * 60 + clock.second
  }

  predicate ValidClock(clock: Clock) {
    0 <= clock.hour <= 23 && 0 <= clock.minute <= 59 && 0 <= clock.second <= 59
  }

  function ClockOf(secondOfDay: int): (clock: Clock)
    requires 0 <= secondOfDay < DAY_SECONDS
    ensures ValidClock(clock) && SecondOfDay(clock) == secondOfDay
  {
    Clock(secondOfDay / 3600, secondOfDay % 3600 / 60, secondOfDay % 60)
  }

  /** The six UTC fields of an epoch second. */
  function Fields(at: int): (Date, Clock) {
    (CivilDate(at / DAY_SECONDS), ClockOf(at % DAY_SECONDS))
  }

  lemma FieldsRestore(at: int)
    ensures Valid(Fields(at).0) && ValidClock(Fields(at).1)
    ensures DayNumber(Fields(at).0) * DAY_SECONDS + SecondOfDay(Fields(at).1) == at
  {
    hide CivilDate, DayNumber, ClockOf;
    assert DayNumber(CivilDate(at / DAY_SECONDS)) == at / DAY_SECONDS;
    assert SecondOfDay(ClockOf(at % DAY_SECONDS)) == at % DAY_SECONDS;
  }

  /**
   * Sets the six UTC fields and reads them back; any field that comes back changed means the
   * written date or time does not exist. Otherwise the epoch second.
   */
  function CalendarSecond(date: Date, clock: Clock): Option<int> {
    ReadBack(MakeDay(date.year, date.month, date.day), date, clock)
  }

  function ReadBack(day: int, date: Date, clock: Clock): Option<int> {
    var at := day * DAY_SECONDS + SecondOfDay(clock);
    if Fields(at) != (date, clock) then None else Some(at)
  }

  lemma MakeDayOfDate(date: Date)
    requires Valid(date)
    ensures MakeDay(date.year, date.month, date.day) == DayNumber(date)
  {
    var carry, month := (date.month - 1) / 12, (date.month - 1) % 12;
    assert carry == 0 && month + 1 == date.month;
    assert Date(date.year + carry, month + 1, 1) == Date(date.year, date.month, 1);
  }

  lemma ReadBackAccepts(day: int, date: Date, clock: Clock)
    requires 0 <= SecondOfDay(clock) < DAY_SECONDS
    ensures ReadBack(day, date, clock) ==
            if CivilDate(day) == date && ValidClock(clock) then Some(day * DAY_SECONDS + SecondOfDay(clock)) else None
  {
    hide CivilDate, YearOf, MonthOf, SecondOfDay, ClockOf, Fields;
    FieldsOfSecond(day, SecondOfDay(clock));
    ClockInverts(clock);
  }

  lemma SplitSecond(days: int, seconds: int)
    requires 0 <= seconds < DAY_SECONDS
    ensures (days * DAY_SECONDS + seconds) / DAY_SECONDS == days
    ensures (days * DAY_SECONDS + seconds) % DAY_SECONDS == seconds
  {
  }

  lemma ClockInverts(clock: Clock)
    requires 0 <= SecondOfDay(clock) < DAY_SECONDS
    ensures ClockOf(SecondOfDay(clock)) == clock <==> ValidClock(clock)
  {
    if ValidClock(clock) {
      var s := SecondOfDay(clock);
      assert s / 3600 == clock.hour && s % 3600 == clock.minute * 60 + clock.second;
      assert s % 3600 / 60 == clock.minute && s % 60 == clock.second;
    }
  }

  lemma FieldsOfSecond(days: int, seconds: int)
    requires 0 <= seconds < DAY_SECONDS
    ensures Fields(days * DAY_SECONDS + seconds) == (CivilDate(days), ClockOf(seconds))
  {
    SplitSecond(days, seconds);
  }

  /** Reading back the fields accepts exactly the dates and times that exist, at their own second. */
  lemma CalendarSecondExists(date: Date, clock: Clock)
    requires 0 <= SecondOfDay(clock) < DAY_SECONDS
    ensures Valid(date) && ValidClock(clock) ==>
              CalendarSecond(date, clock) == Some(DayNumber(date) * DAY_SECONDS + SecondOfDay(clock))
    ensures !(Valid(date) && ValidClock(clock)) ==> CalendarSecond(date, clock) == None
  {
    hide CivilDate, DaysBeforeYear, DaysBeforeMonth;
    ReadBackAccepts(MakeDay(date.year, date.month, date.day), date, clock);
    if Valid(date) {
      MakeDayOfDate(date);
      CivilDateInverts(date);
    }
  }
}
