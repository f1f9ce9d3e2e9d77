/**
 * Plant-local calendar days as UTC intervals (maintenance-calendar.ts).
 *
 * Intl is a parameter: `wall(t)` is the local wall time at instant t. Every instant the code
 * handles is a whole second, so instants, wall times and days are counted in seconds here.
 */
module CalendarSolver {
  import opened Results
  import opened DateTimeText
  import Gregorian

  const HOUR := 3600
  const DAY := 24 * HOUR

  type Clock = int -> int

  datatype Bounds = Bounds(start: int, end: int)

  datatype CalendarError =
    | UnsupportedOffset
    | NotContinuous
    | UnresolvedTransition
    | NoSuchDay
    | UnverifiedBoundary

  // ----- the premises the code states about zone data

  ghost function Offset(wall: Clock, t: int): int {
    wall(t) - t
  }

  /** The offset changes on reaching second t. */
  ghost predicate Transition(wall: Clock, t: int) {
    Offset(wall, t) != Offset(wall, t - 1)
  }

  ghost predicate Bounded(wall: Clock) {
    forall t :: -86400 <= Offset(wall, t) <= 86400
  }

  ghost predicate Spaced(wall: Clock) {
    forall t, u :: Transition(wall, t) && Transition(wall, u) && t < u ==> u - t >= 3600
  }

  ghost predicate Premises(wall: Clock) {
    Bounded(wall) && Spaced(wall)
  }

  // ----- what a day is, and what it means to have resolved it

  ghost predicate InDay(wall: Clock, day: int, t: int) {
    day <= wall(t) < day + 86400
  }

  /** [start, end) is exactly the day, entered from an earlier day and left for a later one. */
  ghost predicate Resolves(wall: Clock, day: int, b: Bounds) {
    && b.start < b.end
    && (forall t :: b.start <= t < b.end <==> InDay(wall, day, t))
    && wall(b.start - 1) < day
    && wall(b.end) >= day + 86400
  }

  /** The day stops and comes back: an instant outside it lies between two inside. */
  ghost predicate HasGap(wall: Clock, day: int) {
    exists t, u, v :: t < u < v && InDay(wall, day, t) && !InDay(wall, day, u) && InDay(wall, day, v)
  }

  // ----- transitions and samples

  lemma {:induction false} ChangeNeedsTransition(wall: Clock, a: int, b: int) returns (u: int)
    requires a < b && Offset(wall, a) != Offset(wall, b)
    ensures a < u <= b && Transition(wall, u)
    decreases b - a
  {
    if Transition(wall, b) {
      u := b;
    } else {
      u := ChangeNeedsTransition(wall, a, b - 1);
    }
  }

  ghost predicate Steady(wall: Clock, lo: int, hi: int, offset: int) {
    forall t :: lo <= t < hi ==> Offset(wall, t) == offset
  }

  /** The hourly scan misses nothing: equal samples an hour apart have no transition between them. */
  lemma EqualSamplesAreSteady(wall: Clock, a: int, b: int)
    requires Spaced(wall) && a <= b <= a + HOUR
    requires Offset(wall, a) == Offset(wall, b)
    ensures Steady(wall, a, b + 1, Offset(wall, a))
  {
    forall t | a <= t < b + 1 ensures Offset(wall, t) == Offset(wall, a) {
      if Offset(wall, t) != Offset(wall, a) {
        var u := ChangeNeedsTransition(wall, a, t);
        var v := ChangeNeedsTransition(wall, t, b);
        assert false;
      }
    }
  }

  /** Where bisection ends is the only transition of its hour. */
  lemma TransitionSplitsHour(wall: Clock, a: int, b: int, high: int)
    requires Spaced(wall) && a < high <= b <= a + HOUR
    requires Offset(wall, high - 1) == Offset(wall, a) && Offset(wall, high) != Offset(wall, a)
    ensures Steady(wall, a, high, Offset(wall, a))
    ensures Steady(wall, high, b + 1, Offset(wall, b))
  {
    assert Transition(wall, high);
    forall t | a <= t < high ensures Offset(wall, t) == Offset(wall, a) {
      if Offset(wall, t) != Offset(wall, a) {
        var u := ChangeNeedsTransition(wall, a, t);
        assert false;
      }
    }
    forall t | high <= t < b + 1 ensures Offset(wall, t) == Offset(wall, high) {
      if Offset(wall, t) != Offset(wall, high) {
        var u := ChangeNeedsTransition(wall, high, t);
        assert false;
      }
    }
  }

  // ----- the solver

  function OffsetAt(wall: Clock, at: int): (r: Result<int, CalendarError>)
    ensures r.Ok? ==> r.value == Offset(wall, at)
    ensures r.Err? ==> r.error == UnsupportedOffset && !Bounded(wall)
  {
    var offset := wall(at) - at;
    if offset > DAY || offset < -DAY then
      assert Offset(wall, at) == offset;
      Err(UnsupportedOffset)
    else Ok(offset)
  }

  /** `bounds` is the part of the day seen in [lo, hi). */
  ghost predicate Found(wall: Clock, day: int, lo: int, hi: int, bounds: Option<Bounds>) {
    && lo <= hi
    && (bounds.Some? ==> lo <= bounds.value.start < bounds.value.end <= hi)
    && (forall t :: lo <= t < hi ==>
          (InDay(wall, day, t) <==> bounds.Some? && bounds.value.start <= t < bounds.value.end))
  }

  /** Clips one steady segment to the day and joins it to what was found before. */
  method Include(ghost wall: Clock, day: int, ghost lo: int, bounds: Option<Bounds>, start: int, end: int, offset: int)
    returns (r: Result<Option<Bounds>, CalendarError>)
    ensures r.Err? ==> r.error == NotContinuous
    ensures r.Ok? && bounds.Some? ==> r.value.Some?
    ensures start <= end && Found(wall, day, lo, start, bounds) && Steady(wall, start, end, offset) ==>
              match r
              case Ok(found) => Found(wall, day, lo, end, found)
              case Err(_) => HasGap(wall, day)
  {
    var next := day + DAY;
    var first := Max(start, day - offset);
    var last := Min(end, next - offset);
    ghost var usable := start <= end && Found(wall, day, lo, start, bounds) && Steady(wall, start, end, offset);
    if usable {
      forall t | start <= t < end ensures InDay(wall, day, t) <==> first <= t < last {
        assert Offset(wall, t) == offset;
      }
    }
    if first >= last {
      return Ok(bounds);
    }
    if bounds.Some? && first != bounds.value.end {
      if usable {
        assert InDay(wall, day, bounds.value.end - 1) && !InDay(wall, day, bounds.value.end) && InDay(wall, day, first);
      }
      return Err(NotContinuous);
    }
    r := Ok(Some(Bounds(if bounds.Some? then bounds.value.start else first, last)));
  }

  method Bisect(wall: Clock, from: int, to: int, offset: int) returns (r: Result<int, CalendarError>)
    requires from < to
    requires Offset(wall, from) == offset && Offset(wall, to) != offset
    ensures r.Ok? ==> from < r.value <= to
    ensures r.Ok? ==> Offset(wall, r.value - 1) == offset && Offset(wall, r.value) != offset
    ensures r.Err? ==> r.error == UnsupportedOffset && !Bounded(wall)
  {
    var low, high := from, to;
    while high - low > 1
      invariant from <= low < high <= to
      invariant Offset(wall, low) == offset && Offset(wall, high) != offset
    {
      var middle := (low + high) / 2;
      var there :- OffsetAt(wall, middle);
      if there == offset {
        low := middle;
      } else {
        high := middle;
      }
    }
    r := Ok(high);
  }

  /** What the scan over the window finds of the day. */
  method ScanWindow(wall: Clock, day: int, windowStart: int, windowEnd: int)
    returns (r: Result<Option<Bounds>, CalendarError>)
    requires windowStart <= windowEnd && (windowEnd - windowStart) % HOUR == 0
    ensures r.Ok? && Premises(wall) ==> Found(wall, day, windowStart, windowEnd, r.value)
    ensures r.Err? ==> r.error in {UnsupportedOffset, UnresolvedTransition, NotContinuous}
    ensures r.Err? && r.error == UnsupportedOffset ==> !Bounded(wall)
    ensures r.Err? && r.error == UnresolvedTransition ==> !Spaced(wall)
    ensures r.Err? && r.error == NotContinuous && Premises(wall) ==> HasGap(wall, day)
  {
    hide Transition, Spaced, Bounded, HasGap, InDay;
    var bounds: Option<Bounds> := None;
    var segmentStart := windowStart;
    var offset :- OffsetAt(wall, windowStart);
    var at := windowStart + HOUR;
    while at <= windowEnd
      invariant windowStart + HOUR <= at <= windowEnd + HOUR && (windowEnd - at) % HOUR == 0
      invariant windowStart <= segmentStart <= at - HOUR
      invariant offset == Offset(wall, at - HOUR)
      invariant Spaced(wall) ==> Steady(wall, segmentStart, at - HOUR + 1, offset)
      invariant Spaced(wall) ==> Found(wall, day, windowStart, segmentStart, bounds)
    {
      var nextOffset :- OffsetAt(wall, at);
      if nextOffset == offset {
        if Spaced(wall) { EqualSamplesAreSteady(wall, at - HOUR, at); }
      } else {
        var high :- Bisect(wall, at - HOUR, at, offset);
        var there :- OffsetAt(wall, high);
        if Spaced(wall) { TransitionSplitsHour(wall, at - HOUR, at, high); }
        if there != nextOffset {
          return Err(UnresolvedTransition);
        }
        bounds :- Include(wall, day, windowStart, bounds, segmentStart, high, offset);
        segmentStart := high;
        offset := nextOffset;
      }
      at := at + HOUR;
    }
    r := Include(wall, day, windowStart, bounds, segmentStart, windowEnd, offset);
  }

  lemma DayInsideWindow(wall: Clock, day: int, t: int)
    requires Bounded(wall) && InDay(wall, day, t)
    ensures day - 2 * DAY <= t < day + 3 * DAY
  {
    assert -DAY <= Offset(wall, t) <= DAY;
  }

  lemma IntervalHasNoGap(wall: Clock, day: int, b: Bounds)
    requires forall t :: b.start <= t < b.end <==> InDay(wall, day, t)
    ensures !HasGap(wall, day)
  {
  }

  lemma AnswersHaveNoGap(wall: Clock, day: int)
    ensures forall b :: Resolves(wall, day, b) ==> !HasGap(wall, day)
    ensures HasGap(wall, day) ==> exists t :: InDay(wall, day, t)
  {
    forall b | Resolves(wall, day, b) ensures !HasGap(wall, day) {
      IntervalHasNoGap(wall, day, b);
    }
  }

  lemma PremisesAre(wall: Clock)
    ensures Premises(wall) <==> Bounded(wall) && Spaced(wall)
  {
  }

  /** Within the premises the scan's bounds are the instants of the day and nothing else. */
  ghost predicate IsTheDay(wall: Clock, day: int, found: Option<Bounds>) {
    forall t :: InDay(wall, day, t) <==> found.Some? && found.value.start <= t < found.value.end
  }

  lemma FoundDecides(wall: Clock, day: int, windowStart: int, windowEnd: int, found: Option<Bounds>)
    requires Premises(wall) && Found(wall, day, windowStart, windowEnd, found)
    requires windowStart == day - 2 * DAY && windowEnd == day + 3 * DAY
    ensures IsTheDay(wall, day, found) && !HasGap(wall, day)
    ensures found.Some? ==> found.value.start < found.value.end
    ensures found == None <==> forall t :: !InDay(wall, day, t)
    ensures forall b :: Resolves(wall, day, b) ==> found == Some(b)
  {
    forall t ensures InDay(wall, day, t) <==> found.Some? && found.value.start <= t < found.value.end {
      if InDay(wall, day, t) { DayInsideWindow(wall, day, t); }
    }
    hide Premises, Found;
    forall b | Resolves(wall, day, b) ensures found == Some(b) {
      assert InDay(wall, day, b.start) && InDay(wall, day, b.end - 1);
      assert !InDay(wall, day, b.start - 1) && !InDay(wall, day, b.end);
    }
    if found.Some? {
      assert found.value.start < found.value.end ==> InDay(wall, day, found.value.start);
    }
  }

  lemma UnverifiedIsUnresolved(wall: Clock, day: int, bounds: Bounds)
    requires !(day <= wall(bounds.start) < day + DAY) || !(day <= wall(bounds.end - 1) < day + DAY)
             || wall(bounds.start - 1) >= day || wall(bounds.end) < day + DAY
    ensures !Resolves(wall, day, bounds)
  {
    assert Resolves(wall, day, bounds) ==> InDay(wall, day, bounds.start) && InDay(wall, day, bounds.end - 1);
  }

  lemma EndsAreInDay(wall: Clock, day: int, bounds: Bounds)
    requires day <= wall(bounds.start) < day + DAY && day <= wall(bounds.end - 1) < day + DAY
    ensures InDay(wall, day, bounds.start) && InDay(wall, day, bounds.end - 1)
  {
  }

  lemma VerifiedResolves(wall: Clock, day: int, bounds: Bounds)
    requires IsTheDay(wall, day, Some(bounds)) && bounds.start < bounds.end
    requires wall(bounds.start - 1) < day && wall(bounds.end) >= day + DAY
    ensures Resolves(wall, day, bounds)
  {
  }

  /**
   * One local day as a UTC interval. On zone data within the premises an answer is right, there is one
   * exactly when the day is a single interval entered and left forwards, and each refusal names what is
   * wrong with the day. On any zone data the ends of an answer have been checked against the clock.
   */
  method DayBounds(day: int, wall: Clock) returns (r: Result<Bounds, CalendarError>)
    ensures r.Ok? ==> InDay(wall, day, r.value.start) && InDay(wall, day, r.value.end - 1)
    ensures r.Ok? ==> wall(r.value.start - 1) < day && wall(r.value.end) >= day + DAY
    ensures Premises(wall) ==> (r.Ok? <==> exists b :: Resolves(wall, day, b))
    ensures Premises(wall) && r.Ok? ==> Resolves(wall, day, r.value)
    ensures Premises(wall) ==> (r == Err(NoSuchDay) <==> forall t :: !InDay(wall, day, t))
    ensures Premises(wall) ==> (r == Err(NotContinuous) <==> HasGap(wall, day))
    ensures r == Err(UnsupportedOffset) ==> !Bounded(wall)
    ensures r == Err(UnresolvedTransition) ==> !Spaced(wall)
  {
    hide Found, HasGap, Resolves, Premises, InDay;
    var next := day + DAY;
    var windowStart := day - 2 * DAY;
    var windowEnd := next + 2 * DAY;
    AnswersHaveNoGap(wall, day);
    var scan := ScanWindow(wall, day, windowStart, windowEnd);
    if scan.Err? {
      PremisesAre(wall);
      return Err(scan.error);
    }
    var found := scan.value;
    if Premises(wall) { FoundDecides(wall, day, windowStart, windowEnd, found); }
    if found == None {
      return Err(NoSuchDay);
    }
    var bounds := found.value;
    var localStart := wall(bounds.start);
    var localLast := wall(bounds.end - 1);
    if localStart < day || localStart >= next || localLast < day || localLast >= next ||
       wall(bounds.start - 1) >= day || wall(bounds.end) < next {
      if Premises(wall) { UnverifiedIsUnresolved(wall, day, bounds); }
      return Err(UnverifiedBoundary);
    }
    EndsAreInDay(wall, day, bounds);
    if Premises(wall) { VerifiedResolves(wall, day, bounds); }
    r := Ok(bounds);
  }

  // ----- ranges of days

  /** In one second the clock falls from past the day to before it. */
  ghost predicate LeapsBack(wall: Clock, day: int, t: int) {
    wall(t) >= day + DAY && wall(t + 1) < day
  }

  ghost predicate NeverLeapsBack(wall: Clock, day: int) {
    forall t :: !LeapsBack(wall, day, t)
  }

  lemma {:induction false} StaysAfter(wall: Clock, day: int, t: int, u: int)
    requires t <= u && wall(t) >= day + DAY
    requires forall x :: t <= x <= u ==> !InDay(wall, day, x)
    requires forall x :: t <= x < u ==> !LeapsBack(wall, day, x)
    ensures wall(u) >= day + DAY
    decreases u - t
  {
    if t < u {
      StaysAfter(wall, day, t, u - 1);
      assert !LeapsBack(wall, day, u - 1) && !InDay(wall, day, u);
    }
  }

  /** The start of a resolved day parts all time into before and after, unless the clock leaps back over that day. */
  lemma StartPartsTime(wall: Clock, day: int, b: Bounds)
    requires Resolves(wall, day, b)
    ensures (forall t :: t >= b.start <==> wall(t) >= day) <==> NeverLeapsBack(wall, day)
  {
    if NeverLeapsBack(wall, day) {
      forall t ensures t >= b.start <==> wall(t) >= day {
        if t >= b.end {
          StaysAfter(wall, day, b.end, t);
        } else if t >= b.start {
          assert InDay(wall, day, t);
        } else if wall(t) >= day {
          assert !InDay(wall, day, t);
          StaysAfter(wall, day, t, b.start - 1);
        }
      }
    } else {
      var t :| LeapsBack(wall, day, t);
      assert !(t >= b.start <==> wall(t) >= day) || !(t + 1 >= b.start <==> wall(t + 1) >= day);
    }
  }

  /** Neighbouring resolved days meet: no instant between them and none in both. */
  lemma DaysTile(wall: Clock, day: int, b: Bounds, c: Bounds)
    requires Resolves(wall, day, b) && Resolves(wall, day + DAY, c)
    requires NeverLeapsBack(wall, day + DAY)
    ensures b.end == c.start
  {
    StartPartsTime(wall, day + DAY, c);
    assert InDay(wall, day, b.end - 1);
    assert b.end >= c.start <==> wall(b.end) >= day + DAY;
    assert b.end - 1 >= c.start <==> wall(b.end - 1) >= day + DAY;
  }

  /** Clocks whose single steps back are shorter than a day never leap back over one. */
  lemma ShortStepsBack(wall: Clock, day: int)
    requires forall t :: Offset(wall, t) - Offset(wall, t + 1) < DAY
    ensures NeverLeapsBack(wall, day)
  {
    forall t ensures !LeapsBack(wall, day, t) {
      assert Offset(wall, t) - Offset(wall, t + 1) < DAY;
    }
  }

  /** The local calendar day of an instant, counted from 1970-01-01. */
  function LocalDay(wall: Clock, t: int): int {
    wall(t) / 86400
  }

  /** Every instant from `start` on is on that local day or later, every earlier one on an earlier day. */
  ghost predicate StartsAt(wall: Clock, day: int, start: int) {
    forall t :: t >= start <==> LocalDay(wall, t) >= day
  }

  datatype DateRange = DateRange(gte: Option<int>, lt: Option<int>)

  datatype RangeError = NoTimezone | BadDate | Unresolved(cause: CalendarError)

  /** What a range of calendar days selects: an instant is in exactly when its local day is. */
  ghost predicate Selects(wall: Clock, range: DateRange, from: Option<int>, to: Option<int>) {
    && (range.gte.Some? <==> from.Some?)
    && (range.lt.Some? <==> to.Some?)
    && (from.Some? ==> StartsAt(wall, from.value, range.gte.value))
    && (to.Some? ==> StartsAt(wall, to.value + 1, range.lt.value))
  }

  /** A date range selects exactly the local days from..to. */
  lemma SelectsDays(wall: Clock, range: DateRange, from: int, to: int, t: int)
    requires Selects(wall, range, Some(from), Some(to))
    ensures range.gte.value <= t < range.lt.value <==> from <= LocalDay(wall, t) <= to
  {
  }

  ghost predicate Resolvable(wall: Clock, day: int) {
    exists b :: Resolves(wall, day * DAY, b)
  }

  lemma StartOfDay(wall: Clock, day: int, b: Bounds)
    requires Resolves(wall, day * DAY, b)
    ensures Resolvable(wall, day)
    ensures NeverLeapsBack(wall, day * DAY) <==> StartsAt(wall, day, b.start)
  {
    StartPartsTime(wall, day * DAY, b);
    forall t ensures LocalDay(wall, t) >= day <==> wall(t) >= day * DAY {
    }
  }

  /** The range a text pair asks for, as day numbers; None for a bound that was not given. */
  ghost function DayOf(date: Option<string>): Option<int>
    requires date.Some? ==> ReadDate(date.value).Some?
  {
    if date == None then None else Some(Gregorian.DayNumber(ReadDate(date.value).value))
  }

  ghost predicate Readable(date: Option<string>) {
    date.Some? ==> ReadDate(date.value).Some?
  }

  /** calendarDay: the UTC midnight of a written date. */
  function CalendarDay(value: string): Result<int, RangeError> {
    var date := ReadDate(value);
    if date == None then Err(BadDate) else Ok(Gregorian.DayNumber(date.value))
  }

  ghost predicate Memo(wall: Clock, resolved: map<int, Bounds>) {
    forall day :: day in resolved && Premises(wall) ==> Resolves(wall, day * DAY, resolved[day])
  }

  method Resolve(wall: Clock, day: int, resolved: map<int, Bounds>)
    returns (r: Result<Bounds, RangeError>, memo: map<int, Bounds>)
    requires Memo(wall, resolved)
    ensures Memo(wall, memo)
    ensures r.Ok? && Premises(wall) ==> Resolves(wall, day * DAY, r.value)
    ensures r.Err? ==> r.error.Unresolved? && (Premises(wall) ==> !Resolvable(wall, day))
  {
    memo := resolved;
    if day in resolved {
      return Ok(resolved[day]), memo;
    }
    var found := DayBounds(day * DAY, wall);
    if found.Err? {
      return Err(Unresolved(found.error)), memo;
    }
    memo := resolved[day := found.value];
    r := Ok(found.value);
  }

  ghost predicate EndsResolve(wall: Clock, from: Option<int>, to: Option<int>) {
    && (from.Some? ==> Resolvable(wall, from.value))
    && (to.Some? ==> Resolvable(wall, to.value) && Resolvable(wall, to.value + 1))
  }

  ghost predicate EndsNeverLeapt(wall: Clock, from: Option<int>, to: Option<int>) {
    && (from.Some? ==> NeverLeapsBack(wall, from.value * DAY))
    && (to.Some? ==> NeverLeapsBack(wall, (to.value + 1) * DAY))
  }

  /**
   * Instants of a range of local days, both ends included, resolved from the end days alone. On zone
   * data within the premises it succeeds exactly when the texts are dates, a zone is named, and the
   * end days (and the day after the last) resolve; and it then selects exactly the days asked for if
   * and only if the clock never leaps back over an end day.
   */
  method MaintenanceDateRange(dateFrom: Option<string>, dateTo: Option<string>, timezone: string,
                              zones: string -> Clock)
    returns (r: Result<DateRange, RangeError>)
    ensures dateFrom == None && dateTo == None ==> r == Ok(DateRange(None, None))
    ensures !(dateFrom == None && dateTo == None) && timezone == "" ==> r == Err(NoTimezone)
    ensures !(dateFrom == None && dateTo == None) && timezone != "" && Premises(zones(timezone)) ==>
              (r.Ok? <==> Readable(dateFrom) && Readable(dateTo) &&
                          EndsResolve(zones(timezone), DayOf(dateFrom), DayOf(dateTo)))
    ensures r.Ok? ==> Readable(dateFrom) && Readable(dateTo)
    ensures r.Ok? && Premises(zones(timezone)) ==>
              (Selects(zones(timezone), r.value, DayOf(dateFrom), DayOf(dateTo)) <==>
               EndsNeverLeapt(zones(timezone), DayOf(dateFrom), DayOf(dateTo)))
  {
    hide Gregorian.DayNumber, ReadDate, Resolves, NeverLeapsBack, StartsAt;
    if dateFrom == None && dateTo == None {
      return Ok(DateRange(None, None));
    }
    if timezone == "" {
      return Err(NoTimezone);
    }
    var wall := zones(timezone);
    var resolved: map<int, Bounds> := map[];
    var gte: Option<int>, lt: Option<int> := None, None;
    if dateFrom.Some? {
      var from :- CalendarDay(dateFrom.value);
      var b, memo :- Resolve(wall, from, resolved);
      resolved := memo;
      gte := Some(b.start);
      if Premises(wall) { StartOfDay(wall, from, b); }
    }
    if dateTo.Some? {
      var to :- CalendarDay(dateTo.value);
      var last, memo :- Resolve(wall, to, resolved);
      var b, _ :- Resolve(wall, to + 1, memo);
      lt := Some(b.start);
      if Premises(wall) {
        StartOfDay(wall, to, last);
        StartOfDay(wall, to + 1, b);
      }
    }
    r := Ok(DateRange(gte, lt));
  }

  // ----- why single steps back must be shorter than a day

  /** Offset +24h for one hour, -24h before and after: within the premises, but it falls back 48 hours. */
  function FallingClock(t: int): int {
    if 0 <= t < HOUR then t + DAY else t - DAY
  }

  /** On such a clock the first and last day resolve, yet an instant of a day between is left out. */
  lemma LeapBackBreaksRanges()
    ensures Premises(FallingClock)
    ensures Resolves(FallingClock, 0, Bounds(DAY, 2 * DAY))
    ensures Resolves(FallingClock, 5 * DAY, Bounds(6 * DAY, 7 * DAY))
    ensures Resolves(FallingClock, 6 * DAY, Bounds(7 * DAY, 8 * DAY))
    ensures !Selects(FallingClock, DateRange(Some(DAY), Some(7 * DAY)), Some(0), Some(5))
  {
    forall t | Transition(FallingClock, t) ensures t == 0 || t == HOUR {
    }
    assert LocalDay(FallingClock, 0) == 1;
  }
}
