/**
 * Search boundaries on PostgreSQL's microsecond grid (document-issue-time-boundary.ts): a date-time
 * text with any number of fraction digits is rounded up to six, carrying through the calendar.
 */
module TimeBoundary {
  import opened Results
  import opened Gregorian
  import opened DateTimeText
  import opened Instants

  // ----- the four replacements that normalise the text

  function UpperSeparator(s: string): string {
    if s == "" then "" else if IsSeparator(s[0]) then "T" + s[1..] else [s[0]] + UpperSeparator(s[1..])
  }

  function UpperZ(s: string): string {
    if s != "" && s[|s| - 1] == 'z' then s[..|s| - 1] + "Z" else s
  }

  predicate IsSign(c: char) {
    c == '+' || c == '-'
  }

  function ColonBeforeMinutes(s: string): string {
    if |s| >= 5 && IsSign(s[|s| - 5]) && IsDigit(s[|s| - 4]) && IsDigit(s[|s| - 3]) &&
       IsDigit(s[|s| - 2]) && IsDigit(s[|s| - 1])
    then s[..|s| - 2] + ":" + s[|s| - 2..] else s
  }

  function MinutesAfterHour(s: string): string {
    if |s| >= 3 && IsSign(s[|s| - 3]) && IsDigit(s[|s| - 2]) && IsDigit(s[|s| - 1]) then s + ":00" else s
  }

  function Normalize(s: string): string {
    MinutesAfterHour(ColonBeforeMinutes(UpperZ(UpperSeparator(s))))
  }

  // ----- splitting off the fraction: everything to the last dot, digits, zone

  predicate ZoneShape(s: string) {
    s == "Z" || (|s| == 6 && IsSign(s[0]) && AllDigits(s[1..3]) && s[3] == ':' && AllDigits(s[4..6]))
  }

  function DotsFrom(s: string): int
    ensures -1 <= DotsFrom(s) < |s|
    ensures DotsFrom(s) >= 0 ==> s[DotsFrom(s)] == '.'
  {
    if s == "" then -1 else if s[|s| - 1] == '.' then |s| - 1 else DotsFrom(s[..|s| - 1])
  }

  /** Seconds text, fraction digits and zone of a normalised text, when it has a fraction. */
  function SplitFraction(s: string): Option<(string, string, string)> {
    var dot := DotsFrom(s);
    if dot < 1 then None else
      var n := LeadingDigits(s[dot + 1..]);
      if n == 0 || !ZoneShape(s[dot + 1..][n..]) then None
      else Some((s[..dot], s[dot + 1..][..n], s[dot + 1..][n..]))
  }

  // ----- what the pieces of a valid text are

  /** A date-time text taken apart at its fixed places. */
  ghost predicate Parts(s: string, head: string, fraction: string, zoneText: string, stamp: Stamp) {
    && |head| == 19 && HeadShape(head)
    && AllDigits(fraction)
    && s == head + (if fraction == "" then "" else "." + fraction) + zoneText
    && ReadZone(zoneText) == Some(stamp.zone)
    && stamp.fraction == fraction
    && stamp.date == HeadDate(head) && stamp.clock == HeadClock(head)
  }

  lemma LongEnough(s: string)
    requires ReadStamp(s).Some?
    ensures |s| >= 19
  {
  }

  lemma TailParts(tail: string) returns (fraction: string, zoneText: string)
    requires ReadTail(tail).Some?
    ensures AllDigits(fraction) && tail == (if fraction == "" then "" else "." + fraction) + zoneText
    ensures ReadZone(zoneText) == Some(ReadTail(tail).value.1) && fraction == ReadTail(tail).value.0
  {
    hide ReadZone;
    if tail != "" && tail[0] == '.' {
      var n := LeadingDigits(tail[1..]);
      fraction, zoneText := tail[1..][..n], tail[1..][n..];
      assert tail == "." + fraction + zoneText;
    } else {
      fraction, zoneText := "", tail;
      assert tail == "" + zoneText;
    }
  }

  lemma StampParts(s: string) returns (head: string, fraction: string, zoneText: string)
    requires ReadStamp(s).Some?
    ensures Parts(s, head, fraction, zoneText, ReadStamp(s).value)
  {
    LongEnough(s);
    hide Number, ReadZone, ReadTail, HeadShape, HeadDate, HeadClock, AllDigits;
    head := s[..19];
    HeadOfParts(head, s);
    fraction, zoneText := TailParts(s[19..]);
    var dot := if fraction == "" then "" else "." + fraction;
    assert s == head + s[19..] == head + (dot + zoneText) == head + dot + zoneText;
  }

  lemma TailOfParts(tail: string, fraction: string, zoneText: string, zone: Zone)
    requires AllDigits(fraction) && ReadZone(zoneText) == Some(zone)
    requires tail == (if fraction == "" then "" else "." + fraction) + zoneText
    ensures ReadTail(tail) == Some((fraction, zone))
  {
    hide ReadZone;
    ZoneStart(zoneText);
    if fraction != "" {
      assert tail[1..] == fraction + zoneText;
      LeadingDigitsJoin(fraction, zoneText);
      assert (fraction + zoneText)[..|fraction|] == fraction && (fraction + zoneText)[|fraction|..] == zoneText;
    } else {
      assert tail == zoneText;
    }
  }

  /** The head of a text is read from its first 19 characters alone. */
  lemma HeadOfParts(s: string, t: string)
    requires |s| >= 19 && |t| >= 19 && s[..19] == t[..19]
    ensures HeadShape(s) <==> HeadShape(t)
    ensures HeadShape(s) ==> HeadDate(s) == HeadDate(t) && HeadClock(s) == HeadClock(t)
  {
    hide Number;
    assert s[10] == t[10] && s[13] == t[13] && s[16] == t[16];
    assert s[..10] == s[..19][..10] && t[..10] == t[..19][..10];
    SameSlice(s, t, 0, 4);
    SameSlice(s, t, 5, 7);
    SameSlice(s, t, 8, 10);
    SameSlice(s, t, 11, 13);
    SameSlice(s, t, 14, 16);
    SameSlice(s, t, 17, 19);
  }

  lemma SameSlice(s: string, t: string, lo: nat, hi: nat)
    requires |s| >= 19 && |t| >= 19 && s[..19] == t[..19] && lo <= hi <= 19
    ensures s[lo..hi] == t[lo..hi]
  {
    SliceOfHead(s, lo, hi);
    SliceOfHead(t, lo, hi);
  }

  lemma SliceOfHead(s: string, lo: nat, hi: nat)
    requires |s| >= 19 && lo <= hi <= 19
    ensures s[lo..hi] == s[..19][lo..hi]
  {
  }

  lemma PartsRead(s: string, head: string, fraction: string, zoneText: string, stamp: Stamp)
    requires Parts(s, head, fraction, zoneText, stamp)
    ensures ReadStamp(s) == Some(stamp)
  {
    hide ReadZone, ReadTail, HeadShape, HeadDate, HeadClock, AllDigits;
    assert s[..19] == head;
    HeadOfParts(s, head);
    assert s[19..] == (if fraction == "" then "" else "." + fraction) + zoneText;
    TailOfParts(s[19..], fraction, zoneText, stamp.zone);
  }

  lemma ZoneStart(z: string)
    requires ReadZone(z).Some?
    ensures z != "" && !IsDigit(z[0]) && z[0] != '.'
    ensures '.' !in z
  {
    if z != "Z" && z != "z" {
      forall i | 0 <= i < |z| ensures z[i] != '.' {
        if 1 <= i < 3 { assert z[i] == z[1..3][i - 1]; }
        if |z| == 5 && 3 <= i { assert z[i] == z[3..5][i - 3]; }
        if |z| == 6 && 4 <= i { assert z[i] == z[4..6][i - 4]; }
      }
    }
  }

  // ----- normalising

  lemma {:induction false} UpperSeparatorAt(a: string, c: char, b: string)
    requires forall i :: 0 <= i < |a| ==> !IsSeparator(a[i])
    requires IsSeparator(c)
    ensures UpperSeparator(a + [c] + b) == a + "T" + b
  {
    hide IsSeparator;
    var s := a + [c] + b;
    if a == "" {
      assert s[1..] == b;
    } else {
      UpperSeparatorAt(a[1..], c, b);
      assert s[1..] == a[1..] + [c] + b;
      assert a == [a[0]] + a[1..];
    }
  }

  lemma DateHasNoSeparator(s: string)
    requires DateShape(s)
    ensures forall i :: 0 <= i < |s| ==> !IsSeparator(s[i])
    ensures '.' !in s
  {
    forall i | 0 <= i < |s| ensures !IsSeparator(s[i]) && s[i] != '.' {
      if i < 4 { assert s[i] == s[..4][i]; }
      if 5 <= i < 7 { assert s[i] == s[5..7][i - 5]; }
      if 8 <= i { assert s[i] == s[8..10][i - 8]; }
    }
  }

  function NormalZone(z: string): string {
    MinutesAfterHour(ColonBeforeMinutes(UpperZ(z)))
  }

  lemma UpperCaseZone(p: string, z: string)
    requires |z| == 1 && (z[0] == 'Z' || z[0] == 'z')
    ensures MinutesAfterHour(ColonBeforeMinutes(UpperZ(p + z))) == p + "Z"
  {
    assert (p + z)[..|p|] == p;
    assert UpperZ(p + z) == p + "Z";
  }

  lemma HourZone(p: string, z: string)
    requires |z| == 3 && IsSign(z[0]) && IsDigit(z[1]) && IsDigit(z[2])
    ensures MinutesAfterHour(ColonBeforeMinutes(UpperZ(p + z))) == p + (z + ":00")
  {
    var s := p + z;
    assert UpperZ(s) == s && ColonBeforeMinutes(s) == s;
    assert s + ":00" == p + (z + ":00");
  }

  lemma MinuteZone(p: string, z: string)
    requires |z| == 5 && IsSign(z[0]) && IsDigit(z[1]) && IsDigit(z[2]) && IsDigit(z[3]) && IsDigit(z[4])
    ensures MinutesAfterHour(ColonBeforeMinutes(UpperZ(p + z))) == p + (z[..3] + ":" + z[3..])
  {
    var s := p + z;
    var v := p + (z[..3] + ":" + z[3..]);
    assert UpperZ(s) == s;
    assert s[..|s| - 2] + ":" + s[|s| - 2..] == v;
    assert v[|v| - 3] == ':';
  }

  lemma ColonZone(p: string, z: string)
    requires |z| == 6 && z[3] == ':' && IsDigit(z[4]) && IsDigit(z[5])
    ensures MinutesAfterHour(ColonBeforeMinutes(UpperZ(p + z))) == p + z
  {
    var s := p + z;
    assert UpperZ(s) == s;
    assert s[|s| - 3] == ':';
  }

  lemma ZoneReads(w: string, negative: bool, hour: string, minute: string)
    requires |w| == 6 && IsSign(w[0]) && negative == (w[0] == '-') && w[3] == ':'
    requires w[1..3] == hour && w[4..6] == minute && AllDigits(hour) && AllDigits(minute)
    ensures ReadZone(w) == Some(Zone(negative, Number(hour), Number(minute))) && ZoneShape(w)
  {
    hide Number;
  }

  lemma HourCase(p: string, z: string)
    requires ReadZone(z).Some? && |z| == 3
    ensures MinutesAfterHour(ColonBeforeMinutes(UpperZ(p + z))) == p + NormalZone(z)
    ensures ZoneShape(NormalZone(z)) && ReadZone(NormalZone(z)) == ReadZone(z)
  {
    hide Number, MinutesAfterHour, ColonBeforeMinutes, UpperZ;
    assert "" + z == z && "" + (z + ":00") == z + ":00";
    assert IsDigit(z[1..3][0]) && IsDigit(z[1..3][1]);
    HourZone(p, z);
    HourZone("", z);
    var w := z + ":00";
    assert w[1..3] == z[1..3] && w[4..6] == "00" && NormalZone(z) == w;
    NumberZeroZero();
    ZoneReads(w, z[0] == '-', z[1..3], "00");
  }

  lemma MinuteCase(p: string, z: string)
    requires ReadZone(z).Some? && |z| == 5
    ensures MinutesAfterHour(ColonBeforeMinutes(UpperZ(p + z))) == p + NormalZone(z)
    ensures ZoneShape(NormalZone(z)) && ReadZone(NormalZone(z)) == ReadZone(z)
  {
    hide Number, MinutesAfterHour, ColonBeforeMinutes, UpperZ;
    var w := z[..3] + ":" + z[3..];
    assert "" + z == z && "" + w == w;
    assert IsDigit(z[1..3][0]) && IsDigit(z[1..3][1]) && IsDigit(z[3..5][0]) && IsDigit(z[3..5][1]);
    MinuteZone(p, z);
    MinuteZone("", z);
    assert w[1..3] == z[1..3] && w[4..6] == z[3..5] && NormalZone(z) == w;
    ZoneReads(w, z[0] == '-', z[1..3], z[3..5]);
  }

  lemma ColonCase(p: string, z: string)
    requires ReadZone(z).Some? && |z| == 6
    ensures MinutesAfterHour(ColonBeforeMinutes(UpperZ(p + z))) == p + NormalZone(z)
    ensures ZoneShape(NormalZone(z)) && ReadZone(NormalZone(z)) == ReadZone(z)
  {
    hide Number, MinutesAfterHour, ColonBeforeMinutes, UpperZ;
    assert "" + z == z;
    assert IsDigit(z[4..6][0]) && IsDigit(z[4..6][1]);
    ColonZone(p, z);
    ColonZone("", z);
    assert NormalZone(z) == z;
  }

  /** The zone replacements look only at the zone, whatever stands before it. */
  lemma NormalZoneOnly(p: string, z: string)
    requires ReadZone(z).Some?
    ensures MinutesAfterHour(ColonBeforeMinutes(UpperZ(p + z))) == p + NormalZone(z)
    ensures ZoneShape(NormalZone(z)) && ReadZone(NormalZone(z)) == ReadZone(z)
  {
    hide Number, MinutesAfterHour, ColonBeforeMinutes, UpperZ;
    if z == "Z" || z == "z" {
      UpperCaseZone(p, z);
      UpperCaseZone("", z);
      assert "" + z == z && NormalZone(z) == "Z";
    } else if |z| == 3 {
      HourCase(p, z);
    } else if |z| == 5 {
      MinuteCase(p, z);
    } else {
      ColonCase(p, z);
    }
  }

  lemma NumberZeroZero()
    ensures Number("00") == 0
  {
    assert "00"[..1] == "0" && "0"[..0] == "";
    assert Number("0") == 0;
  }

  lemma HeadUpper(head: string, upper: string)
    requires |head| == 19 && HeadShape(head) && upper == head[10 := 'T']
    ensures HeadShape(upper) && HeadDate(upper) == HeadDate(head) && HeadClock(upper) == HeadClock(head)
    ensures upper == head[..10] + "T" + head[11..]
  {
    hide Number;
    assert upper[..10] == head[..10] && upper[..4] == head[..4] && upper[5..7] == head[5..7];
    assert upper[8..10] == head[8..10] && upper[11..13] == head[11..13];
    assert upper[14..16] == head[14..16] && upper[17..19] == head[17..19];
  }

  lemma NormalizedParts(s: string, head: string, fraction: string, zoneText: string, stamp: Stamp)
    requires Parts(s, head, fraction, zoneText, stamp)
    ensures Parts(Normalize(s), head[10 := 'T'], fraction, NormalZone(zoneText), stamp)
    ensures ZoneShape(NormalZone(zoneText))
  {
    hide ReadZone, ZoneShape, NormalZone, UpperZ, ColonBeforeMinutes, MinutesAfterHour, UpperSeparator, HeadDate;
    hide HeadClock;
    var dot := if fraction == "" then "" else "." + fraction;
    DateHasNoSeparator(head[..10]);
    assert s == head[..10] + [head[10]] + (head[11..] + dot + zoneText);
    UpperSeparatorAt(head[..10], head[10], head[11..] + dot + zoneText);
    var upper := head[10 := 'T'];
    HeadUpper(head, upper);
    assert UpperSeparator(s) == (upper + dot) + zoneText;
    NormalZoneOnly(upper + dot, zoneText);
  }

  lemma {:induction false} DotsFromAt(a: string, b: string)
    requires '.' !in b
    ensures DotsFrom(a + "." + b) == |a|
  {
    var s := a + "." + b;
    if b == "" {
      assert s == a + ".";
    } else {
      assert s[..|s| - 1] == a + "." + b[..|b| - 1];
      assert s[|s| - 1] == b[|b| - 1];
      DotsFromAt(a, b[..|b| - 1]);
    }
  }

  lemma {:induction false} NoDots(s: string)
    requires '.' !in s
    ensures DotsFrom(s) == -1
  {
    if s != "" { NoDots(s[..|s| - 1]); }
  }

  lemma HeadHasNoDot(head: string)
    requires |head| == 19 && HeadShape(head) && head[10] == 'T'
    ensures '.' !in head
  {
    DateHasNoSeparator(head[..10]);
    forall i | 0 <= i < |head| ensures head[i] != '.' {
      if i < 10 { assert head[i] == head[..10][i]; }
      if 11 <= i < 13 { assert head[i] == head[11..13][i - 11]; }
      if 14 <= i < 16 { assert head[i] == head[14..16][i - 14]; }
      if 17 <= i { assert head[i] == head[17..19][i - 17]; }
    }
  }

  lemma SplitOfParts(s: string, head: string, fraction: string, zoneText: string, stamp: Stamp)
    requires Parts(s, head, fraction, zoneText, stamp) && ZoneShape(zoneText) && head[10] == 'T'
    ensures SplitFraction(s) == if fraction == "" then None else Some((head, fraction, zoneText))
  {
    hide Number, ReadZone, ZoneShape;
    ZoneStart(zoneText);
    HeadHasNoDot(head);
    if fraction == "" {
      NoDots(s);
    } else {
      assert s == head + "." + (fraction + zoneText);
      DotsFromAt(head, fraction + zoneText);
      assert s[20..] == fraction + zoneText && s[..19] == head;
      LeadingDigitsJoin(fraction, zoneText);
      assert (fraction + zoneText)[..|fraction|] == fraction && (fraction + zoneText)[|fraction|..] == zoneText;
    }
  }

  // ----- the carry

  /** Nothing comes after the last second of year 9999. */
  predicate LastSecond(date: Date, clock: Clock) {
    && date.year == 9999 && date.month == 12 && date.day == 31
    && LastOfDay(clock)
  }

  function LocalSecond(date: Date, clock: Clock): int
    requires Valid(date)
  {
    DayNumber(date) * DAY_SECONDS + SecondOfDay(clock)
  }

  function HeadText(date: Date, clock: Clock): (s: string)
    requires FourDigitYear(date) && ValidClock(clock)
    ensures |s| == 19
  {
    DateText(date) + "T" + ClockText(clock)
  }

  lemma HeadTextHasT(date: Date, clock: Clock)
    requires FourDigitYear(date) && ValidClock(clock)
    ensures HeadText(date, clock)[10] == 'T'
  {
    hide DateText, ClockText;
    assert |DateText(date)| == 10;
  }

  lemma HeadTextReads(date: Date, clock: Clock)
    requires FourDigitYear(date) && ValidClock(clock)
    ensures var h := HeadText(date, clock);
            HeadShape(h) && HeadDate(h) == date && HeadClock(h) == clock
  {
    hide Number, Pad, Power10;
    var h := HeadText(date, clock);
    Powers();
    NumberOfPad(date.year, 4);
    NumberOfPad(date.month, 2);
    NumberOfPad(date.day, 2);
    NumberOfPad(clock.hour, 2);
    NumberOfPad(clock.minute, 2);
    NumberOfPad(clock.second, 2);
    assert h[..10] == DateText(date);
    assert h[..4] == Pad(date.year, 4) && h[5..7] == Pad(date.month, 2) && h[8..10] == Pad(date.day, 2);
    assert h[11..13] == Pad(clock.hour, 2) && h[14..16] == Pad(clock.minute, 2) && h[17..19] == Pad(clock.second, 2);
  }

  /** A day one past the end of its month becomes the first of the next, December's the next year's. */
  method CarryDay(date: Date, day: int) returns (d: Date)
    requires Valid(date) && (day == date.day || day == date.day + 1)
    ensures d == if day == date.day then date else NextDate(date)
  {
    var year, month, newDay := date.year, date.month, day;
    var leap := year % 4 == 0 && (year % 100 != 0 || year % 400 == 0);
    var monthDays := [31, if leap then 29 else 28, 31, 30, 31, 30, 31, 31, 30, 31, 30, 31];
    if newDay > monthDays[month - 1] {
      newDay := 1;
      month := month + 1;
    }
    if month == 13 {
      month := 1;
      year := year + 1;
    }
    d := Date(year, month, newDay);
  }

  predicate LastOfDay(clock: Clock) {
    clock.hour == 23 && clock.minute == 59 && clock.second == 59
  }

  predicate Midnight(clock: Clock) {
    clock.hour == 0 && clock.minute == 0 && clock.second == 0
  }

  /** The time of day one second later, and whether it passed midnight. */
  method CarryClock(clock: Clock) returns (c: Clock, days: int)
    requires ValidClock(clock)
    ensures ValidClock(c)
    ensures if LastOfDay(clock) then days == 1 && Midnight(c)
            else days == 0 && SecondOfDay(c) == SecondOfDay(clock) + 1
  {
    var hour, minute, second := clock.hour, clock.minute, clock.second;
    days := 0;
    second := second + 1;
    if second >= 60 {
      second := 0;
      minute := minute + 1;
    }
    if minute == 60 {
      minute := 0;
      hour := hour + 1;
    }
    if hour == 24 {
      hour := 0;
      days := days + 1;
    }
    c := Clock(hour, minute, second);
  }

  lemma DayEnds(clock: Clock, c: Clock)
    requires LastOfDay(clock) && Midnight(c)
    ensures SecondOfDay(clock) == 86399 && SecondOfDay(c) == 0
  {
  }

  /** (d, c) is one second after (date, clock); only the last second of year 9999 leaves four digits. */
  ghost predicate OneSecondLater(date: Date, clock: Clock, d: Date, c: Clock)
    requires Valid(date)
  {
    && Valid(d) && ValidClock(c)
    && LocalSecond(d, c) == LocalSecond(date, clock) + 1
    && if LastSecond(date, clock) then
         d.year == 10000 && d.month == 1 && d.day == 1 && Midnight(c)
       else
         0 <= d.year <= 9999
  }

  /** The six fields one second later. */
  method CarrySecond(date: Date, clock: Clock) returns (d: Date, c: Clock)
    requires FourDigitYear(date) && ValidClock(clock)
    ensures OneSecondLater(date, clock, d, c)
  {
    hide OneSecondLater, NextDate, SecondOfDay, Midnight, LastOfDay;
    var days;
    c, days := CarryClock(clock);
    d := CarryDay(date, date.day + days);
    CarriedDate(date, clock, c, days);
  }

  lemma CarriedDate(date: Date, clock: Clock, c: Clock, days: int)
    requires FourDigitYear(date) && ValidClock(clock) && ValidClock(c)
    requires if LastOfDay(clock) then days == 1 && Midnight(c)
             else days == 0 && SecondOfDay(c) == SecondOfDay(clock) + 1
    ensures OneSecondLater(date, clock, if days == 0 then date else NextDate(date), c)
  {
    hide DayNumber, LocalSecond, Valid, NextDate, SecondOfDay, Midnight, LastOfDay;
    var d := if days == 0 then date else NextDate(date);
    DayNumberCountsDays(date);
    if LastOfDay(clock) { DayEnds(clock, c); }
    LocalStep(date, clock, d, c);
    YearStays(date);
  }

  lemma LocalStep(date: Date, clock: Clock, d: Date, c: Clock)
    requires Valid(date) && Valid(d)
    requires (d == date && SecondOfDay(c) == SecondOfDay(clock) + 1) ||
             (DayNumber(d) == DayNumber(date) + 1 && SecondOfDay(c) == 0 && SecondOfDay(clock) == 86399)
    ensures LocalSecond(d, c) == LocalSecond(date, clock) + 1
  {
    hide DayNumber, SecondOfDay, Valid;
  }

  lemma YearStays(date: Date)
    requires FourDigitYear(date)
    ensures var next := NextDate(date);
            if date.year == 9999 && date.month == 12 && date.day == 31
            then next.year == 10000 && next.month == 1 && next.day == 1
            else 0 <= next.year <= 9999
  {
  }

  /** The seconds text one second later. */
  method NextSecond(value: string) returns (r: string)
    requires |value| == 19 && HeadShape(value) && value[10] == 'T'
    requires FourDigitYear(HeadDate(value)) && ValidClock(HeadClock(value))
    ensures if LastSecond(HeadDate(value), HeadClock(value)) then r == "10000-01-01T00:00:00"
            else exists d, c ::
              && FourDigitYear(d) && ValidClock(c) && r == HeadText(d, c)
              && LocalSecond(d, c) == LocalSecond(HeadDate(value), HeadClock(value)) + 1
  {
    hide Pad, LocalSecond, HeadDate, HeadClock, DayNumber;
    var d, c := CarrySecond(HeadDate(value), HeadClock(value));
    FirstOfYear10000();
    var yearText := if d.year <= 9999 then Pad(d.year, 4) else Pad(d.year, 5);
    r := yearText + "-" + Pad(d.month, 2) + "-" + Pad(d.day, 2) + [value[10]] +
         Pad(c.hour, 2) + ":" + Pad(c.minute, 2) + ":" + Pad(c.second, 2);
    if d.year <= 9999 {
      assert r == HeadText(d, c);
    }
  }

  lemma FirstOfYear10000()
    ensures Pad(10000, 5) == "10000" && Pad(1, 2) == "01" && Pad(0, 2) == "00"
  {
  }

  // ----- the boundary

  /** t is at or after the exact moment of the stamp. */
  ghost predicate AtOrAfter(t: int, stamp: Stamp)
    requires ValidStamp(stamp)
  {
    MicrosMinus(t, stamp) >= 0
  }

  /** The two stamps part the microsecond grid at the same place. */
  ghost predicate SameOnGrid(a: Stamp, b: Stamp)
    requires ValidStamp(a) && ValidStamp(b)
  {
    forall t :: AtOrAfter(t, a) <==> AtOrAfter(t, b)
  }

  /** The fraction has digits past the sixth that round it up to the next second. */
  predicate RoundsToSecond(fraction: string)
    requires AllDigits(fraction)
  {
    |fraction| > 6 && Number(fraction[..6]) == MILLION - 1 && HasNonZero(fraction[6..])
  }

  lemma FactorSign(d: int, p: int, low: int)
    requires 0 <= low < p
    ensures (d * p - low) * MILLION >= 0 <==> d >= (if low > 0 then 1 else 0)
  {
    if d >= 1 { assert d * p >= p; }
    if d <= -1 { assert d * p <= -p; }
  }

  /** Rounding up to six digits keeps every comparison with the microsecond grid. */
  lemma RoundedUp(stamp: Stamp, t: int)
    requires ValidStamp(stamp) && |stamp.fraction| > 6
    ensures AtOrAfter(t, stamp) <==>
            t >= EpochSecond(stamp) * MILLION + Number(stamp.fraction[..6])
                + (if HasNonZero(stamp.fraction[6..]) then 1 else 0)
  {
    hide EpochSecond, Power10, Number, Valid, ValidClock;
    var f, a := stamp.fraction, EpochSecond(stamp);
    Powers();
    PowersAdd(|f| - 6, 6);
    NumberJoin(f[..6], f[6..]);
    assert f == f[..6] + f[6..];
    PadOfNumber(f[6..]);
    NonZeroDigits(f[6..]);
    var p := Power10(|f| - 6);
    ScaledSplit(a, p, Number(f[..6]), Number(f[6..]), t);
    FactorSign(t - (a * MILLION + Number(f[..6])), p, Number(f[6..]));
  }

  lemma SixDigits(stamp: Stamp, t: int)
    requires ValidStamp(stamp) && |stamp.fraction| == 6
    ensures AtOrAfter(t, stamp) <==> t >= EpochSecond(stamp) * MILLION + Number(stamp.fraction)
  {
    hide EpochSecond, Power10, Number, ValidStamp;
    Powers();
  }

  lemma SameMicros(a: Stamp, b: Stamp)
    requires ValidStamp(a) && ValidStamp(b) && |a.fraction| > 6 && |b.fraction| == 6
    requires EpochSecond(b) * MILLION + Number(b.fraction) ==
             EpochSecond(a) * MILLION + Number(a.fraction[..6]) + if HasNonZero(a.fraction[6..]) then 1 else 0
    ensures SameOnGrid(a, b)
  {
    hide EpochSecond, Number, ValidStamp, AtOrAfter;
    forall t ensures AtOrAfter(t, a) <==> AtOrAfter(t, b) {
      RoundedUp(a, t);
      SixDigits(b, t);
    }
  }

  /** Written with a capital T, at most six digits of a second, and a Z or an offset with a colon. */
  ghost predicate Canonical(text: string) {
    exists head, fraction, zoneText :: IsCanonical(text, head, fraction, zoneText)
  }

  ghost predicate IsCanonical(text: string, head: string, fraction: string, zoneText: string) {
    && text == head + (if fraction == "" then "" else "." + fraction) + zoneText
    && |head| == 19 && head[10] == 'T' && |fraction| <= 6 && (forall i :: 0 <= i < |fraction| ==> IsDigit(fraction[i]))
    && (|| zoneText == "Z"
        || (|zoneText| == 6 && (zoneText[0] == '+' || zoneText[0] == '-') && zoneText[3] == ':'
            && IsDigit(zoneText[1]) && IsDigit(zoneText[2]) && IsDigit(zoneText[4]) && IsDigit(zoneText[5])))
  }

  lemma CanonicalPieces(text: string, head: string, fraction: string, zoneText: string)
    requires text == head + (if fraction == "" then "" else "." + fraction) + zoneText
    requires |head| == 19 && head[10] == 'T' && |fraction| <= 6 && AllDigits(fraction) && ZoneShape(zoneText)
    ensures Canonical(text)
  {
    if zoneText != "Z" {
      assert zoneText[1..3][0] == zoneText[1] && zoneText[1..3][1] == zoneText[2];
      assert zoneText[4..6][0] == zoneText[4] && zoneText[4..6][1] == zoneText[5];
    }
    assert IsCanonical(text, head, fraction, zoneText);
  }

  /** What the boundary promises of its input stamp: canonical, in the same zone, and the same cut of the grid. */
  ghost predicate BoundaryOf(stamp: Stamp, text: string)
    requires ValidStamp(stamp)
  {
    var r := ReadStamp(text);
    && r.Some? && ValidStamp(r.value) && |r.value.fraction| <= 6 && SameOnGrid(stamp, r.value)
    && r.value.zone == stamp.zone && Canonical(text)
  }

  lemma ShortFraction(stamp: Stamp, text: string, head: string, zoneText: string)
    requires ValidStamp(stamp) && |stamp.fraction| <= 6 && ReadStamp(text) == Some(stamp)
    requires text == head + (if stamp.fraction == "" then "" else "." + stamp.fraction) + zoneText
    requires |head| == 19 && head[10] == 'T' && AllDigits(stamp.fraction) && ZoneShape(zoneText)
    ensures BoundaryOf(stamp, text)
  {
    CanonicalPieces(text, head, stamp.fraction, zoneText);
  }

  lemma WithinSecond(stamp: Stamp, head: string, zoneText: string, micros: nat) returns (text: string)
    requires ValidStamp(stamp) && |stamp.fraction| > 6 && micros < MILLION
    requires micros == Number(stamp.fraction[..6]) + if HasNonZero(stamp.fraction[6..]) then 1 else 0
    requires |head| == 19 && HeadShape(head) && HeadDate(head) == stamp.date && HeadClock(head) == stamp.clock
    requires ReadZone(zoneText) == Some(stamp.zone) && head[10] == 'T' && ZoneShape(zoneText)
    ensures text == head + "." + Pad(micros, 6) + zoneText && BoundaryOf(stamp, text)
  {
    hide Number, Pad, ReadZone, HeadDate, HeadClock, ReadStamp, SameOnGrid, Canonical, ZoneShape;
    Powers();
    NumberOfPad(micros, 6);
    var b := stamp.(fraction := Pad(micros, 6));
    text := head + "." + Pad(micros, 6) + zoneText;
    assert text == head + ("." + Pad(micros, 6)) + zoneText;
    PartsRead(text, head, Pad(micros, 6), zoneText, b);
    CanonicalPieces(text, head, Pad(micros, 6), zoneText);
    SameMicros(stamp, b);
  }

  lemma NextEpochSecond(a: Stamp, b: Stamp)
    requires ValidStamp(a) && ValidStamp(b) && a.zone == b.zone
    requires LocalSecond(b.date, b.clock) == LocalSecond(a.date, a.clock) + 1
    ensures EpochSecond(b) == EpochSecond(a) + 1
  {
    hide DayNumber, SecondOfDay, ZoneSeconds, Valid, ValidClock;
  }

  lemma IntoNextSecond(stamp: Stamp, d: Date, c: Clock, zeros: string, zoneText: string) returns (text: string)
    requires ValidStamp(stamp) && RoundsToSecond(stamp.fraction)
    requires FourDigitYear(d) && ValidClock(c)
    requires LocalSecond(d, c) == LocalSecond(stamp.date, stamp.clock) + 1
    requires AllDigits(zeros) && |zeros| == 6 && Number(zeros) == 0
    requires ReadZone(zoneText) == Some(stamp.zone) && ZoneShape(zoneText)
    ensures text == HeadText(d, c) + "." + zeros + zoneText && BoundaryOf(stamp, text)
  {
    hide Number, Pad, ReadZone, HeadDate, HeadClock, HeadText, ReadStamp, SameOnGrid, LocalSecond, EpochSecond;
    hide Canonical, ZoneShape;
    HeadTextHasT(d, c);
    var b := stamp.(date := d, clock := c, fraction := zeros);
    NextEpochSecond(stamp, b);
    HeadTextReads(d, c);
    text := HeadText(d, c) + "." + zeros + zoneText;
    assert text == HeadText(d, c) + ("." + zeros) + zoneText;
    PartsRead(text, HeadText(d, c), zeros, zoneText, b);
    CanonicalPieces(text, HeadText(d, c), zeros, zoneText);
    SameMicros(stamp, b);
  }

  /**
   * Rounds a search boundary up to the microsecond grid. For every instant on the grid, being at or
   * after (so also being before) the boundary text is being at or after the given text; only the
   * last second of year 9999 has no next second to be written.
   */
  method DocumentIssueTimeBoundary(value: string) returns (r: string)
    requires ReadStamp(value).Some? && ValidStamp(ReadStamp(value).value)
    ensures var stamp := ReadStamp(value).value;
            !(LastSecond(stamp.date, stamp.clock) && RoundsToSecond(stamp.fraction)) ==> BoundaryOf(stamp, r)
    ensures var stamp := ReadStamp(value).value;
            LastSecond(stamp.date, stamp.clock) && RoundsToSecond(stamp.fraction) ==> ReadStamp(r) == None
  {
    hide Number, Pad, ReadZone, HeadDate, HeadClock, ReadStamp, HasNonZero, LocalSecond, HeadShape, BoundaryOf;
    hide Normalize, SplitFraction, Valid, ValidClock, DateText, ClockText, NormalZone, ZoneShape;
    ghost var stamp := ReadStamp(value).value;
    var normalized := Normalize(value);
    ghost var head, zoneText := NormalizedStamp(value);
    var parts := SplitFraction(normalized);
    if parts == None || |parts.value.1| <= 6 {
      ShortFraction(stamp, normalized, head, zoneText);
      return normalized;
    }
    var (seconds, fraction, offset) := parts.value;
    SixLeadingDigits(fraction);
    var micros := Number(fraction[..6]) + if HasNonZero(fraction[6..]) then 1 else 0;
    if micros < 1000000 {
      ghost var text := WithinSecond(stamp, seconds, offset, micros);
      return seconds + "." + Pad(micros, 6) + offset;
    }
    r := RoundToNextSecond(stamp, seconds, offset);
  }

  /** What normalising leaves of a valid text. */
  lemma NormalizedStamp(value: string) returns (head: string, zoneText: string)
    requires ReadStamp(value).Some? && ValidStamp(ReadStamp(value).value)
    ensures var stamp := ReadStamp(value).value;
            && ReadStamp(Normalize(value)) == Some(stamp)
            && |head| == 19 && HeadShape(head) && head[10] == 'T'
            && HeadDate(head) == stamp.date && HeadClock(head) == stamp.clock && FourDigitYear(stamp.date)
            && ReadZone(zoneText) == Some(stamp.zone) && ZoneShape(zoneText) && AllDigits(stamp.fraction)
            && Normalize(value) == head + (if stamp.fraction == "" then "" else "." + stamp.fraction) + zoneText
            && SplitFraction(Normalize(value)) ==
                 if stamp.fraction == "" then None else Some((head, stamp.fraction, zoneText))
  {
    hide Number, ReadZone, HeadClock, ReadStamp, Normalize, SplitFraction, NormalZone, ZoneShape, HeadShape;
    var stamp := ReadStamp(value).value;
    var head0, fraction, zone0 := StampParts(value);
    NormalizedParts(value, head0, fraction, zone0, stamp);
    head, zoneText := head0[10 := 'T'], NormalZone(zone0);
    PartsRead(Normalize(value), head, fraction, zoneText, stamp);
    SplitOfParts(Normalize(value), head, fraction, zoneText, stamp);
    HeadYear(head);
  }

  lemma HeadYear(head: string)
    requires HeadShape(head)
    ensures 0 <= HeadDate(head).year <= 9999
  {
    hide Number;
    assert head[..10][..4] == head[..4];
    PadOfNumber(head[..4]);
    Powers();
  }

  method RoundToNextSecond(ghost stamp: Stamp, seconds: string, offset: string) returns (r: string)
    requires ValidStamp(stamp) && FourDigitYear(stamp.date) && RoundsToSecond(stamp.fraction)
    requires |seconds| == 19 && HeadShape(seconds) && seconds[10] == 'T'
    requires HeadDate(seconds) == stamp.date && HeadClock(seconds) == stamp.clock
    requires ReadZone(offset) == Some(stamp.zone) && ZoneShape(offset)
    ensures if LastSecond(stamp.date, stamp.clock) then ReadStamp(r) == None else BoundaryOf(stamp, r)
  {
    hide Number, ReadZone, HeadDate, HeadClock, ReadStamp, LocalSecond, HeadShape, BoundaryOf, Valid;
    hide HeadText, RoundsToSecond;
    var next := NextSecond(seconds);
    var zeros := "000000";
    r := next + "." + zeros + offset;
    if LastSecond(stamp.date, stamp.clock) {
      FiveDigitYearUnread(r);
    } else {
      ghost var d, c :| FourDigitYear(d) && ValidClock(c) && next == HeadText(d, c) &&
                        LocalSecond(d, c) == LocalSecond(HeadDate(seconds), HeadClock(seconds)) + 1;
      ZerosAreZero(6);
      assert Zeros(6) == zeros;
      ghost var text := IntoNextSecond(stamp, d, c, zeros, offset);
    }
  }

  lemma SixLeadingDigits(fraction: string)
    requires AllDigits(fraction) && |fraction| > 6
    ensures Number(fraction[..6]) < 1000000
  {
    PadOfNumber(fraction[..6]);
    Powers();
  }

  lemma FiveDigitYearUnread(s: string)
    requires |s| >= 5 && IsDigit(s[4])
    ensures ReadStamp(s) == None
  {
  }

  // ----- the filter of a document-issue search

  /** A bound that was not given, or a text that names a moment. */
  ghost predicate ValidBound(bound: Option<string>) {
    bound.Some? ==> ReadStamp(bound.value).Some? && ValidStamp(ReadStamp(bound.value).value)
  }

  /** An instant from `from` on and before `to`; a missing bound restricts nothing. */
  ghost predicate Selected(from: Option<string>, to: Option<string>, t: int)
    requires ValidBound(from) && ValidBound(to)
  {
    && (from.Some? ==> AtOrAfter(t, ReadStamp(from.value).value))
    && (to.Some? ==> !AtOrAfter(t, ReadStamp(to.value).value))
  }

  /** The bound would have to be written in year 10000. */
  ghost predicate BeyondYears(bound: Option<string>)
    requires ValidBound(bound)
  {
    bound.Some? &&
    var stamp := ReadStamp(bound.value).value;
    LastSecond(stamp.date, stamp.clock) && RoundsToSecond(stamp.fraction)
  }

  method RoundedBound(bound: Option<string>) returns (r: Option<string>)
    requires ValidBound(bound)
    ensures r.Some? <==> bound.Some?
    ensures ValidBound(r) <==> !BeyondYears(bound)
    ensures bound.Some? && !BeyondYears(bound) ==> BoundaryOf(ReadStamp(bound.value).value, r.value)
  {
    hide ReadStamp, ValidStamp, LastSecond, SameOnGrid;
    if bound == None {
      return None;
    }
    var text := DocumentIssueTimeBoundary(bound.value);
    r := Some(text);
  }

  /**
   * The filter on the time of issue: it can be read exactly when neither bound goes beyond year 9999, and
   * it then selects exactly the microseconds that lie between the moments asked for.
   */
  method DocumentIssueWhere(issuedFrom: Option<string>, issuedTo: Option<string>)
    returns (gte: Option<string>, lt: Option<string>)
    requires ValidBound(issuedFrom) && ValidBound(issuedTo)
    ensures (gte.Some? <==> issuedFrom.Some?) && (lt.Some? <==> issuedTo.Some?)
    ensures ValidBound(gte) && ValidBound(lt) <==> !BeyondYears(issuedFrom) && !BeyondYears(issuedTo)
    ensures ValidBound(gte) && ValidBound(lt) ==>
              forall t :: Selected(gte, lt, t) <==> Selected(issuedFrom, issuedTo, t)
  {
    hide BeyondYears, ReadStamp, ValidStamp, AtOrAfter;
    gte := RoundedBound(issuedFrom);
    lt := RoundedBound(issuedTo);
  }

  /** Seven nines behind the last second of year 9999: a valid text whose boundary cannot be written. */
  lemma LastSecondRoundsBeyond() returns (value: string)
    ensures ValidBound(Some(value)) && BeyondYears(Some(value))
  {
    var date, clock := Date(9999, 12, 31), Clock(23, 59, 59);
    var fraction := Pad(9999999, 7);
    var stamp := Stamp(date, clock, fraction, Zone(false, 0, 0));
    Nines();
    ZuluReads();
    value := HeadText(date, clock) + ("." + fraction) + "Z";
    HeadTextReads(date, clock);
    hide HeadText, Pad, Number, ReadZone, HeadDate, HeadClock, HeadShape;
    PartsRead(value, HeadText(date, clock), fraction, "Z", stamp);
  }

  lemma ZuluReads()
    ensures ReadZone("Z") == Some(Zone(false, 0, 0))
  {
  }

  lemma Nines()
    ensures var f := Pad(9999999, 7);
            |f| == 7 && AllDigits(f) && Number(f[..6]) == MILLION - 1 && HasNonZero(f[6..])
  {
    var f := Pad(9999999, 7);
    Powers();
    assert f == Pad(999999, 6) + [DigitChar(9)];
    assert f[..6] == Pad(999999, 6) && f[6..][0] == DigitChar(9);
    NumberOfPad(999999, 6);
  }
}
