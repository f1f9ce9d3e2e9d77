/**
 * The written form of dates and instants: fixed-width decimal fields, the date-time grammar both
 * the instant parser and the time boundary accept, and the order of strings.
 */
module DateTimeText {
  import opened Results
  import opened Gregorian

  // ----- decimal digits

  predicate IsDigit(c: char) {
    '0' <= c <= '9'
  }

  function DigitValue(c: char): (d: nat)
    requires IsDigit(c)
    ensures d <= 9
  {
    c as int - '0' as int
  }

  function DigitChar(d: nat): (c: char)
    requires d <= 9
    ensures IsDigit(c) && DigitValue(c) == d
  {
    '0' + d as char
  }

  predicate AllDigits(s: string) {
    forall i :: 0 <= i < |s| ==> IsDigit(s[i])
  }

  function Number(s: string): nat
    requires AllDigits(s)
  {
    if s == "" then 0 else Number(s[..|s| - 1]) * 10 + DigitValue(s[|s| - 1])
  }

  function Power10(n: nat): (p: nat)
    ensures p >= 1
  {
    if n == 0 then 1 else 10 * Power10(n - 1)
  }

  /** The last `width` decimal digits of n, zeros in front. */
  function Pad(n: nat, width: nat): (s: string)
    ensures |s| == width && AllDigits(s)
  {
    if width == 0 then "" else Pad(n / 10, width - 1) + [DigitChar(n % 10)]
  }

  lemma {:induction false} NumberOfPad(n: nat, width: nat)
    requires n < Power10(width)
    ensures Number(Pad(n, width)) == n
  {
    if width > 0 {
      NumberOfPad(n / 10, width - 1);
      assert Pad(n, width)[..width - 1] == Pad(n / 10, width - 1);
    }
  }

  lemma {:induction false} PadOfNumber(s: string)
    requires AllDigits(s)
    ensures Number(s) < Power10(|s|) && Pad(Number(s), |s|) == s
  {
    if s != "" {
      PadOfNumber(s[..|s| - 1]);
      assert Number(s) / 10 == Number(s[..|s| - 1]);
      assert s == s[..|s| - 1] + [s[|s| - 1]];
    }
  }

  lemma {:induction false} NumberJoin(a: string, b: string)
    requires AllDigits(a) && AllDigits(b)
    ensures AllDigits(a + b) && Number(a + b) == Number(a) * Power10(|b|) + Number(b)
  {
    if b == "" {
      assert a + b == a;
    } else {
      var front := b[..|b| - 1];
      NumberJoin(a, front);
      assert (a + b)[..|a + b| - 1] == a + front;
      assert (a + b)[|a + b| - 1] == b[|b| - 1];
      ShiftDigits(Number(a), Number(front), Power10(|front|), DigitValue(b[|b| - 1]));
    }
  }

  lemma ShiftDigits(a: nat, b: nat, p: nat, d: nat)
    ensures (a * p + b) * 10 + d == a * (10 * p) + (b * 10 + d)
  {
    assert (a * p) * 10 == a * (10 * p);
  }

  lemma {:induction false} PowersAdd(a: nat, b: nat)
    ensures Power10(a + b) == Power10(a) * Power10(b)
  {
    if a > 0 {
      PowersAdd(a - 1, b);
      assert 10 * (Power10(a - 1) * Power10(b)) == (10 * Power10(a - 1)) * Power10(b);
    }
  }

  /** `[1-9]` occurs among the digits. */
  predicate HasNonZero(s: string) {
    exists i :: 0 <= i < |s| && s[i] != '0'
  }

  lemma {:induction false} NonZeroDigits(s: string)
    requires AllDigits(s)
    ensures HasNonZero(s) <==> Number(s) > 0
  {
    if s != "" {
      var front := s[..|s| - 1];
      NonZeroDigits(front);
      assert HasNonZero(s) <==> HasNonZero(front) || s[|s| - 1] != '0' by {
        assert forall i :: 0 <= i < |front| ==> front[i] == s[i];
      }
    }
  }

  // ----- string order

  /** JavaScript's `<` on strings. */
  predicate LexLess(a: string, b: string) {
    if b == "" then false
    else if a == "" then true
    else a[0] < b[0] || (a[0] == b[0] && LexLess(a[1..], b[1..]))
  }

  lemma {:induction false} LexJoin(a: string, b: string, s: string, t: string)
    requires |a| == |b|
    ensures LexLess(a + s, b + t) <==> LexLess(a, b) || (a == b && LexLess(s, t))
  {
    if a == "" {
      assert a + s == s && b + t == t;
    } else {
      LexJoin(a[1..], b[1..], s, t);
      assert (a + s)[1..] == a[1..] + s && (b + t)[1..] == b[1..] + t;
      assert a == [a[0]] + a[1..] && b == [b[0]] + b[1..];
    }
  }

  lemma LexIrreflexive(a: string)
    ensures !LexLess(a, a)
  {
  }

  lemma {:induction false} PadOrder(m: nat, n: nat, width: nat)
    requires m < Power10(width) && n < Power10(width)
    ensures LexLess(Pad(m, width), Pad(n, width)) <==> m < n
    ensures Pad(m, width) == Pad(n, width) <==> m == n
  {
    if width > 0 {
      PadOrder(m / 10, n / 10, width - 1);
      LexJoin(Pad(m / 10, width - 1), Pad(n / 10, width - 1), [DigitChar(m % 10)], [DigitChar(n % 10)]);
      NumberOfPad(m, width);
      NumberOfPad(n, width);
    }
  }

  // ----- date text

  predicate FourDigitYear(date: Date) {
    Valid(date) && 0 <= date.year <= 9999
  }

  function DateText(date: Date): (s: string)
    requires FourDigitYear(date)
    ensures |s| == 10
  {
    Pad(date.year, 4) + "-" + Pad(date.month, 2) + "-" + Pad(date.day, 2)
  }

  lemma {:induction false} Powers()
    ensures Power10(1) == 10 && Power10(2) == 100 && Power10(3) == 1000 && Power10(4) == 10000
    ensures Power10(5) == 100000 && Power10(6) == 1000000
  {
    assert Power10(1) == 10;
    assert Power10(2) == 100;
    assert Power10(3) == 1000;
    assert Power10(4) == 10000;
    assert Power10(5) == 100000;
  }

  /** Written dates sort as strings the way the days they name sort. */
  lemma DateTextOrder(a: Date, b: Date)
    requires FourDigitYear(a) && FourDigitYear(b)
    ensures LexLess(DateText(a), DateText(b)) <==> DayNumber(a) < DayNumber(b)
    ensures DateText(a) == DateText(b) <==> a == b
  {
    hide DayNumber, DaysBeforeYear, DaysBeforeMonth, Pad, Power10, LexLess;
    Powers();
    DateOrder(a, b);
    PadOrder(a.year, b.year, 4);
    PadOrder(a.month, b.month, 2);
    PadOrder(a.day, b.day, 2);
    var (ya, ma, da) := (Pad(a.year, 4), Pad(a.month, 2), Pad(a.day, 2));
    var (yb, mb, db) := (Pad(b.year, 4), Pad(b.month, 2), Pad(b.day, 2));
    assert DateText(a) == ya + ("-" + (ma + ("-" + da)));
    assert DateText(b) == yb + ("-" + (mb + ("-" + db)));
    LexJoin(ya, yb, "-" + (ma + ("-" + da)), "-" + (mb + ("-" + db)));
    LexJoin("-", "-", ma + ("-" + da), mb + ("-" + db));
    LexJoin(ma, mb, "-" + da, "-" + db);
    LexJoin("-", "-", da, db);
    LexIrreflexive("-");
    assert DateText(a)[..4] == ya && DateText(b)[..4] == yb;
    assert DateText(a)[5..7] == ma && DateText(b)[5..7] == mb;
    assert DateText(a)[8..] == da && DateText(b)[8..] == db;
  }

  predicate DateShape(s: string) {
    && |s| == 10
    && AllDigits(s[..4]) && s[4] == '-' && AllDigits(s[5..7]) && s[7] == '-' && AllDigits(s[8..10])
  }

  /** `YYYY-MM-DD` naming a date that exists. */
  function ReadDate(s: string): (r: Option<Date>)
    ensures r.Some? ==> FourDigitYear(r.value)
  {
    if !DateShape(s) then None else
      PadOfNumber(s[..4]);
      Powers();
      var date := Date(Number(s[..4]), Number(s[5..7]), Number(s[8..10]));
      if Valid(date) then Some(date) else None
  }

  lemma ReadDateText(date: Date)
    requires FourDigitYear(date)
    ensures ReadDate(DateText(date)) == Some(date)
  {
    hide Pad, Power10, Number;
    Powers();
    NumberOfPad(date.year, 4);
    NumberOfPad(date.month, 2);
    NumberOfPad(date.day, 2);
    var s := DateText(date);
    assert s[..4] == Pad(date.year, 4) && s[5..7] == Pad(date.month, 2) && s[8..10] == Pad(date.day, 2);
  }

  lemma DateTextOfReadDate(s: string)
    requires ReadDate(s).Some?
    ensures DateText(ReadDate(s).value) == s
  {
    hide Pad, Number, Power10;
    PadOfNumber(s[..4]);
    PadOfNumber(s[5..7]);
    PadOfNumber(s[8..10]);
    assert s == s[..4] + "-" + s[5..7] + "-" + s[8..10];
  }

  // ----- the date-time grammar

  datatype Zone = Zone(negative: bool, hour: nat, minute: nat)

  /** A text split into its fields; the date and time need not exist. */
  datatype Stamp = Stamp(date: Date, clock: Clock, fraction: string, zone: Zone)

  predicate IsSpace(c: char) {
    || c == ' ' || '\U{0009}' <= c <= '\U{000D}' || c == '\U{00A0}' || c == '\U{1680}'
    || '\U{2000}' <= c <= '\U{200A}' || c == '\U{2028}' || c == '\U{2029}' || c == '\U{202F}'
    || c == '\U{205F}' || c == '\U{3000}' || c == '\U{FEFF}'
  }

  predicate IsSeparator(c: char) {
    c == 'T' || c == 't' || IsSpace(c)
  }

  function LeadingDigits(s: string): (n: nat)
    ensures n <= |s| && AllDigits(s[..n])
    ensures n < |s| ==> !IsDigit(s[n])
  {
    if s == "" || !IsDigit(s[0]) then 0 else 1 + LeadingDigits(s[1..])
  }

  lemma {:induction false} LeadingDigitsJoin(digits: string, rest: string)
    requires AllDigits(digits) && (rest == "" || !IsDigit(rest[0]))
    ensures LeadingDigits(digits + rest) == |digits|
  {
    if digits == "" {
      assert digits + rest == rest;
    } else {
      LeadingDigitsJoin(digits[1..], rest);
      assert (digits + rest)[1..] == digits[1..] + rest;
    }
  }

  /** `z`, or a sign, two hour digits and maybe two minute digits with or without a colon. */
  function ReadZone(s: string): Option<Zone> {
    if s == "Z" || s == "z" then Some(Zone(false, 0, 0))
    else if |s| < 3 || (s[0] != '+' && s[0] != '-') || !AllDigits(s[1..3]) then None
    else if |s| == 3 then Some(Zone(s[0] == '-', Number(s[1..3]), 0))
    else if |s| == 5 && AllDigits(s[3..5]) then Some(Zone(s[0] == '-', Number(s[1..3]), Number(s[3..5])))
    else if |s| == 6 && s[3] == ':' && AllDigits(s[4..6]) then Some(Zone(s[0] == '-', Number(s[1..3]), Number(s[4..6])))
    else None
  }

  /** What follows the seconds: an optional fraction, then the zone. */
  function ReadTail(s: string): (r: Option<(string, Zone)>)
    ensures r.Some? ==> AllDigits(r.value.0)
  {
    if s != "" && s[0] == '.' then
      var n := LeadingDigits(s[1..]);
      var zone := ReadZone(s[1..][n..]);
      if n == 0 || zone == None then None else Some((s[1..][..n], zone.value))
    else
      var zone := ReadZone(s);
      if zone == None then None else Some(("", zone.value))
  }

  predicate HeadShape(s: string) {
    && |s| >= 19
    && DateShape(s[..10]) && IsSeparator(s[10])
    && AllDigits(s[11..13]) && s[13] == ':' && AllDigits(s[14..16]) && s[16] == ':' && AllDigits(s[17..19])
  }

  /** The written date and time of day; they need not exist. */
  function HeadDate(s: string): Date
    requires HeadShape(s)
  {
    assert s[..10][..4] == s[..4] && s[..10][5..7] == s[5..7] && s[..10][8..10] == s[8..10];
    Date(Number(s[..4]), Number(s[5..7]), Number(s[8..10]))
  }

  function HeadClock(s: string): (c: Clock)
    requires HeadShape(s)
    ensures c.hour >= 0 && c.minute >= 0 && c.second >= 0
  {
    Clock(Number(s[11..13]), Number(s[14..16]), Number(s[17..19]))
  }

  function ReadStamp(s: string): (r: Option<Stamp>)
    ensures r.Some? ==> AllDigits(r.value.fraction)
    ensures r.Some? ==> r.value.clock.hour >= 0 && r.value.clock.minute >= 0 && r.value.clock.second >= 0
  {
    if !HeadShape(s) then None else
      var tail := ReadTail(s[19..]);
      if tail == None then None else Some(Stamp(HeadDate(s), HeadClock(s), tail.value.0, tail.value.1))
  }

  // ----- the moment a stamp denotes, exactly

  predicate ValidStamp(stamp: Stamp) {
    && Valid(stamp.date) && ValidClock(stamp.clock)
    && stamp.zone.hour <= 23 && stamp.zone.minute <= 59
    && AllDigits(stamp.fraction)
  }

  function ZoneSeconds(zone: Zone): int {
    var seconds := zone.hour * 3600 + zone.minute * 60;
    if zone.negative then -seconds else seconds
  }

  /** Whole seconds from the epoch, before the fraction. */
  function EpochSecond(stamp: Stamp): int
    requires ValidStamp(stamp)
  {
    DayNumber(stamp.date) * DAY_SECONDS + SecondOfDay(stamp.clock) - ZoneSeconds(stamp.zone)
  }

  const MILLION := 1000000

  /**
   * Compares a microsecond count with the exact moment of a stamp, both scaled by the number of
   * digits written, so that nothing is rounded: negative, zero or positive as t is before, at or after.
   */
  function MicrosMinus(t: int, stamp: Stamp): int
    requires ValidStamp(stamp)
  {
    var scale := Power10(|stamp.fraction|);
    t * scale - (EpochSecond(stamp) * scale + Number(stamp.fraction)) * MILLION
  }
}
