/** Instants at microsecond precision: parsing and printing (maintenance-instant.ts). */
module Instants {
  import opened Results
  import opened Gregorian
  import opened DateTimeText

  datatype InstantError = Invalid | OutOfRange

  datatype Instant = Instant(epochMicroseconds: int, utcIso: string, sqlTimestamp: string)

  const MIN_EPOCH_MICROSECONDS := -62167219200000000
  const MAX_EPOCH_MICROSECONDS := 253402300799999999

  predicate InRange(epoch: int) {
    MIN_EPOCH_MICROSECONDS <= epoch <= MAX_EPOCH_MICROSECONDS
  }

  // ----- printing

  /** Milliseconds and the microseconds left over, the remainder made non-negative. */
  function SplitMillis(epoch: int): (r: (int, int))
    ensures r.0 * 1000 + r.1 == epoch && 0 <= r.1 < 1000
  {
    var milliseconds := TruncDiv(epoch, 1000);
    var remaining := epoch - milliseconds * 1000;
    if remaining < 0 then (milliseconds - 1, remaining + 1000) else (milliseconds, remaining)
  }

  function ClockText(clock: Clock): (s: string)
    requires ValidClock(clock)
    ensures |s| == 8
  {
    Pad(clock.hour, 2) + ":" + Pad(clock.minute, 2) + ":" + Pad(clock.second, 2)
  }

  lemma RangeIsFourDigitYears(days: int)
    ensures MIN_EPOCH_MICROSECONDS <= days * DAY_SECONDS * MILLION <= MAX_EPOCH_MICROSECONDS <==>
            FourDigitYear(CivilDate(days))
  {
    DateOrder(CivilDate(days), Date(0, 1, 1));
    DateOrder(CivilDate(days), Date(10000, 1, 1));
  }

  lemma InRangeDay(epoch: int)
    requires InRange(epoch)
    ensures FourDigitYear(CivilDate(epoch / MILLION / DAY_SECONDS))
  {
    RangeIsFourDigitYears(epoch / MILLION / DAY_SECONDS);
  }

  /** Date.toISOString without its closing Z: 23 characters to the millisecond. */
  function IsoMillis(milliseconds: int): (s: string)
    requires FourDigitYear(CivilDate(milliseconds / 1000 / DAY_SECONDS))
    ensures |s| == 23
  {
    var second := milliseconds / 1000;
    var (date, clock) := Fields(second);
    DateText(date) + "T" + ClockText(clock) + "." + Pad(milliseconds % 1000, 3)
  }

  function UtcIso(epoch: int): (s: string)
    requires InRange(epoch)
    ensures |s| == 27
  {
    var (milliseconds, remaining) := SplitMillis(epoch);
    InRangeDay(epoch);
    assert milliseconds / 1000 == epoch / MILLION;
    IsoMillis(milliseconds) + Pad(remaining, 3) + "Z"
  }

  function ReplaceFirst(s: string, from: char, to: char): string {
    if s == "" then "" else if s[0] == from then [to] + s[1..] else [s[0]] + ReplaceFirst(s[1..], from, to)
  }

  function SqlTimestamp(utcIso: string): string
    requires |utcIso| == 27
  {
    if utcIso[..5] == "0000-" then "0001-" + ReplaceFirst(utcIso[5..26], 'T', ' ') + "+00 BC"
    else ReplaceFirst(utcIso[..26], 'T', ' ') + "+00"
  }

  function FromEpoch(epoch: int): (r: Result<Instant, InstantError>)
    ensures r.Ok? <==> InRange(epoch)
    ensures r.Ok? ==> r.value.epochMicroseconds == epoch && r.value.utcIso == UtcIso(epoch)
  {
    if !InRange(epoch) then Err(OutOfRange)
    else Ok(Instant(epoch, UtcIso(epoch), SqlTimestamp(UtcIso(epoch))))
  }

  // ----- parsing

  function Zeros(n: nat): (s: string)
    ensures |s| == n && AllDigits(s)
  {
    if n == 0 then "" else Zeros(n - 1) + "0"
  }

  /** The first six fraction digits, zeros behind. */
  function MicroDigits(fraction: string): (s: string)
    requires AllDigits(fraction)
    ensures |s| == 6 && AllDigits(s)
  {
    if |fraction| >= 6 then fraction[..6] else fraction + Zeros(6 - |fraction|)
  }

  function Parse(value: string): Result<Instant, InstantError> {
    var stamp := ReadStamp(value);
    if stamp == None then Err(Invalid) else ParseStamp(stamp.value)
  }

  function ParseStamp(stamp: Stamp): Result<Instant, InstantError>
    requires AllDigits(stamp.fraction)
  {
    if stamp.clock.hour > 23 || stamp.clock.minute > 59 || stamp.zone.hour > 23 || stamp.zone.minute > 59
    then Err(Invalid)
    else if stamp.clock.second >= 60 then Err(OutOfRange)
    else
      var localSecond := CalendarSecond(stamp.date, stamp.clock);
      if localSecond == None then Err(Invalid)
      else if |stamp.fraction| > 6 && HasNonZero(stamp.fraction[6..]) then Err(OutOfRange)
      else
        var microseconds := Number(MicroDigits(stamp.fraction));
        FromEpoch((localSecond.value - ZoneSeconds(stamp.zone)) * MILLION + microseconds)
  }

  // ----- no rounding

  lemma {:induction false} ZerosAreZero(n: nat)
    ensures Number(Zeros(n)) == 0
  {
    if n > 0 {
      ZerosAreZero(n - 1);
      assert Zeros(n)[..n - 1] == Zeros(n - 1);
    }
  }

  lemma ScaledEqual(a: int, p: nat, q: nat, digits: nat, micros: nat)
    requires q >= 1 && p * q == MILLION && micros == digits * q
    ensures (a * MILLION + micros) * p == (a * p + digits) * MILLION
  {
    assert (digits * q) * p == digits * MILLION;
    assert (a * MILLION) * p == (a * p) * MILLION;
  }

  lemma ScaledSplit(a: int, p: nat, high: nat, low: nat, t: int)
    requires p >= 1 && low < p
    ensures t * (p * MILLION) - (a * (p * MILLION) + (high * p + low)) * MILLION
            == ((t - (a * MILLION + high)) * p - low) * MILLION
  {
    assert t * (p * MILLION) == (t * p) * MILLION;
    assert a * (p * MILLION) == (a * MILLION) * p;
    assert (t - (a * MILLION + high)) * p == t * p - ((a * MILLION) * p + high * p);
  }

  /** The microseconds the parser reads are the written fraction, when no digit past the sixth counts. */
  lemma MicrosAreExact(stamp: Stamp, t: int)
    requires ValidStamp(stamp)
    ensures (|stamp.fraction| <= 6 || !HasNonZero(stamp.fraction[6..])) ==>
              (MicrosMinus(t, stamp) == 0 <==> t == EpochSecond(stamp) * MILLION + Number(MicroDigits(stamp.fraction)))
    ensures |stamp.fraction| > 6 && HasNonZero(stamp.fraction[6..]) ==> MicrosMinus(t, stamp) != 0
  {
    hide DayNumber, Power10, Number;
    var f := stamp.fraction;
    var a := EpochSecond(stamp);
    var n := |f|;
    Powers();
    if n <= 6 {
      ZerosAreZero(6 - n);
      NumberJoin(f, Zeros(6 - n));
      if n == 6 { assert f[..6] == f; assert Zeros(0) == ""; assert f + "" == f; }
      PowersAdd(n, 6 - n);
      ScaledEqual(a, Power10(n), Power10(6 - n), Number(f), Number(MicroDigits(f)));
      MultiplyInjective(t, a * MILLION + Number(MicroDigits(f)), Power10(n));
    } else {
      var p := Power10(n - 6);
      PowersAdd(n - 6, 6);
      NumberJoin(f[..6], f[6..]);
      assert f == f[..6] + f[6..];
      PadOfNumber(f[6..]);
      NonZeroDigits(f[6..]);
      ScaledSplit(a, p, Number(f[..6]), Number(f[6..]), t);
      SplitZero(t - (a * MILLION + Number(f[..6])), p, Number(f[6..]));
    }
  }

  lemma MultiplyInjective(a: int, b: int, p: nat)
    requires p >= 1
    ensures a * p == b * p <==> a == b
  {
    if a < b { assert (b - a) * p >= 1; }
    if b < a { assert (a - b) * p >= 1; }
  }

  lemma SplitZero(d: int, p: int, low: nat)
    requires low < p
    ensures d * p - low == 0 <==> d == 0 && low == 0
  {
    if d >= 1 { assert d * p >= p; }
    if d <= -1 { assert d * p <= -p; }
  }

  /**
   * A text is accepted exactly when it has the grammar, names a date, time and zone that exist, and
   * denotes a moment that is itself a whole number of microseconds in range; the parsed epoch is
   * that moment.
   */
  lemma ParseDenotes(value: string)
    ensures Parse(value).Ok? ==>
              && ReadStamp(value).Some? && ValidStamp(ReadStamp(value).value)
              && MicrosMinus(Parse(value).value.epochMicroseconds, ReadStamp(value).value) == 0
              && InRange(Parse(value).value.epochMicroseconds)
    ensures ReadStamp(value).Some? && ValidStamp(ReadStamp(value).value) ==>
              forall e :: MicrosMinus(e, ReadStamp(value).value) == 0 && InRange(e) ==> Parse(value) == FromEpoch(e)
    ensures ReadStamp(value).Some? && ValidStamp(ReadStamp(value).value) && Parse(value).Err? ==>
              Parse(value) == Err(OutOfRange)
    ensures ReadStamp(value) == None ==> Parse(value) == Err(Invalid)
  {
    hide ParseStamp, MicrosMinus, ValidStamp, FromEpoch, ReadStamp;
    if ReadStamp(value).Some? {
      var stamp := ReadStamp(value).value;
      StampDenotes(stamp);
    }
  }

  lemma StampDenotes(stamp: Stamp)
    requires AllDigits(stamp.fraction)
    requires stamp.clock.hour >= 0 && stamp.clock.minute >= 0 && stamp.clock.second >= 0
    ensures ParseStamp(stamp).Ok? ==>
              ValidStamp(stamp) && MicrosMinus(ParseStamp(stamp).value.epochMicroseconds, stamp) == 0
    ensures ValidStamp(stamp) ==>
              forall e :: MicrosMinus(e, stamp) == 0 && InRange(e) ==> ParseStamp(stamp) == FromEpoch(e)
    ensures ParseStamp(stamp).Ok? ==> InRange(ParseStamp(stamp).value.epochMicroseconds)
    ensures ValidStamp(stamp) && ParseStamp(stamp).Err? ==> ParseStamp(stamp) == Err(OutOfRange)
  {
    hide UtcIso, SqlTimestamp, DayNumber, CivilDate, CalendarSecond, MicrosMinus;
    if stamp.clock.hour <= 23 && stamp.clock.minute <= 59 && stamp.clock.second < 60 {
      CalendarSecondExists(stamp.date, stamp.clock);
    }
    if ValidStamp(stamp) {
      forall e ensures (MicrosMinus(e, stamp) == 0 && InRange(e) ==> ParseStamp(stamp) == FromEpoch(e)) {
        MicrosAreExact(stamp, e);
      }
      MicrosAreExact(stamp, EpochSecond(stamp) * MILLION + Number(MicroDigits(stamp.fraction)));
    }
  }

  // ----- printing and parsing are inverse

  function MicrosOf(epoch: int): (r: nat)
    ensures r < MILLION
  {
    epoch % MILLION
  }

  /** The stamp a printed instant reads back as. */
  function PrintedStamp(epoch: int): Stamp {
    var fields := Fields(epoch / MILLION);
    Stamp(fields.0, fields.1, Pad(MicrosOf(epoch), 6), Zone(false, 0, 0))
  }

  lemma PadJoin(high: nat, low: nat, w: nat)
    requires low < 1000 && high < 1000
    ensures Pad(high, 3) + Pad(low, 3) == Pad(high * 1000 + low, 6)
  {
    var a, b := Pad(high, 3), Pad(low, 3);
    Powers();
    NumberOfPad(high, 3);
    NumberOfPad(low, 3);
    NumberJoin(a, b);
    PadOfNumber(a + b);
  }

  lemma PrintedText(epoch: int)
    requires InRange(epoch)
    ensures FourDigitYear(PrintedStamp(epoch).date) && ValidClock(PrintedStamp(epoch).clock)
    ensures UtcIso(epoch) == DateText(PrintedStamp(epoch).date) + "T" + ClockText(PrintedStamp(epoch).clock) + "." +
                             Pad(MicrosOf(epoch), 6) + "Z"
  {
    hide CivilDate, DateText, ClockText, Pad, DayNumber, Valid, InRange;
    InRangeDay(epoch);
    var (ms, us) := SplitMillis(epoch);
    assert ms / 1000 == epoch / MILLION && ms % 1000 * 1000 + us == epoch % MILLION;
    PadJoin(ms % 1000, us, 3);
  }

  lemma PrintedReads(epoch: int)
    requires InRange(epoch)
    ensures ReadStamp(UtcIso(epoch)) == Some(PrintedStamp(epoch))
  {
    hide CivilDate, Pad, Number, UtcIso, Fields, MicrosOf, DaysBeforeYear, DaysBeforeMonth, Power10;
    PrintedText(epoch);
    var stamp := PrintedStamp(epoch);
    var (date, clock) := (stamp.date, stamp.clock);
    var text := UtcIso(epoch);
    var digits := Pad(MicrosOf(epoch), 6);
    assert text[..10] == DateText(date);
    assert text[11..13] == Pad(clock.hour, 2) && text[14..16] == Pad(clock.minute, 2);
    assert text[17..19] == Pad(clock.second, 2);
    assert text[19..] == "." + digits + "Z";
    assert text[..4] == DateText(date)[..4] && text[5..7] == DateText(date)[5..7];
    assert text[8..10] == DateText(date)[8..10];
    ReadDateText(date);
    Powers();
    NumberOfPad(clock.hour, 2);
    NumberOfPad(clock.minute, 2);
    NumberOfPad(clock.second, 2);
    TailReads(digits);
  }

  lemma TailReads(digits: string)
    requires AllDigits(digits) && digits != ""
    ensures ReadTail("." + digits + "Z") == Some((digits, Zone(false, 0, 0)))
  {
    var tail := "." + digits + "Z";
    assert tail[1..] == digits + "Z";
    LeadingDigitsJoin(digits, "Z");
    assert (digits + "Z")[|digits|..] == "Z" && (digits + "Z")[..|digits|] == digits;
  }

  lemma MomentOfParts(stamp: Stamp, second: int, micros: nat)
    requires ValidStamp(stamp) && EpochSecond(stamp) == second
    requires |stamp.fraction| == 6 && Number(stamp.fraction) == micros
    ensures MicrosMinus(second * MILLION + micros, stamp) == 0
  {
    hide EpochSecond, Number, Power10, ValidStamp;
    Powers();
  }

  lemma UtcSecond(stamp: Stamp, second: int)
    requires Valid(stamp.date) && ValidClock(stamp.clock) && AllDigits(stamp.fraction)
    requires stamp.zone.hour == 0 && stamp.zone.minute == 0
    requires DayNumber(stamp.date) * DAY_SECONDS + SecondOfDay(stamp.clock) == second
    ensures ValidStamp(stamp) && EpochSecond(stamp) == second
  {
    hide Valid, DayNumber, SecondOfDay;
    assert ZoneSeconds(stamp.zone) == 0;
  }

  lemma PrintedSecond(epoch: int)
    requires InRange(epoch)
    ensures ValidStamp(PrintedStamp(epoch)) && EpochSecond(PrintedStamp(epoch)) == epoch / MILLION
  {
    hide Pad, Fields, ValidStamp, EpochSecond, DayNumber, SecondOfDay;
    FieldsRestore(epoch / MILLION);
    UtcSecond(PrintedStamp(epoch), epoch / MILLION);
  }

  lemma WholeAndMicros(epoch: int)
    ensures epoch / MILLION * MILLION + MicrosOf(epoch) == epoch
  {
  }

  lemma PrintedMoment(epoch: int)
    requires InRange(epoch)
    ensures ValidStamp(PrintedStamp(epoch)) && MicrosMinus(epoch, PrintedStamp(epoch)) == 0
  {
    hide EpochSecond, ValidStamp, MicrosMinus, MicrosOf, InRange;
    hide Pad, Number, Fields, Power10;
    Powers();
    NumberOfPad(MicrosOf(epoch), 6);
    PrintedSecond(epoch);
    MomentOfParts(PrintedStamp(epoch), epoch / MILLION, MicrosOf(epoch));
    WholeAndMicros(epoch);
  }

  /** Every epoch in range, before 1970 included, survives printing and parsing unchanged. */
  lemma ParsePrinted(epoch: int)
    requires InRange(epoch)
    ensures Parse(UtcIso(epoch)) == FromEpoch(epoch) && FromEpoch(epoch).Ok?
  {
    hide UtcIso, Parse, PrintedStamp, MicrosMinus;
    PrintedReads(epoch);
    PrintedMoment(epoch);
    ParseDenotes(UtcIso(epoch));
  }

  // ----- printed instants sort as strings

  lemma ClockOrder(a: Clock, b: Clock)
    requires ValidClock(a) && ValidClock(b)
    ensures LexLess(ClockText(a), ClockText(b)) <==> SecondOfDay(a) < SecondOfDay(b)
    ensures ClockText(a) == ClockText(b) <==> a == b
  {
    hide Pad, Power10, LexLess;
    Powers();
    PadOrder(a.hour, b.hour, 2);
    PadOrder(a.minute, b.minute, 2);
    PadOrder(a.second, b.second, 2);
    var (ha, ma, sa) := (Pad(a.hour, 2), Pad(a.minute, 2), Pad(a.second, 2));
    var (hb, mb, sb) := (Pad(b.hour, 2), Pad(b.minute, 2), Pad(b.second, 2));
    assert ClockText(a) == ha + (":" + (ma + (":" + sa)));
    assert ClockText(b) == hb + (":" + (mb + (":" + sb)));
    LexJoin(ha, hb, ":" + (ma + (":" + sa)), ":" + (mb + (":" + sb)));
    LexJoin(":", ":", ma + (":" + sa), mb + (":" + sb));
    LexJoin(ma, mb, ":" + sa, ":" + sb);
    LexJoin(":", ":", sa, sb);
    LexIrreflexive(":");
    assert ClockText(a)[..2] == ha && ClockText(b)[..2] == hb;
    assert ClockText(a)[3..5] == ma && ClockText(b)[3..5] == mb;
    assert ClockText(a)[6..] == sa && ClockText(b)[6..] == sb;
  }

  lemma StampTextOrder(da: Date, ca: Clock, ma: nat, db: Date, cb: Clock, mb: nat)
    requires FourDigitYear(da) && FourDigitYear(db) && ValidClock(ca) && ValidClock(cb)
    requires ma < MILLION && mb < MILLION
    ensures LexLess(DateText(da) + "T" + ClockText(ca) + "." + Pad(ma, 6) + "Z",
                    DateText(db) + "T" + ClockText(cb) + "." + Pad(mb, 6) + "Z")
            <==> DayNumber(da) < DayNumber(db) ||
                 (da == db && (SecondOfDay(ca) < SecondOfDay(cb) || (ca == cb && ma < mb)))
  {
    hide Pad, Power10, LexLess, DateText, ClockText, DayNumber, SecondOfDay;
    Powers();
    PadOrder(ma, mb, 6);
    ClockOrder(ca, cb);
    DateTextOrder(da, db);
    var (pa, pb) := (Pad(ma, 6), Pad(mb, 6));
    var (sa, sb) := (DateText(da), DateText(db));
    var (ta, tb) := (ClockText(ca), ClockText(cb));
    assert sa + "T" + ta + "." + pa + "Z" == sa + ("T" + (ta + ("." + (pa + "Z"))));
    assert sb + "T" + tb + "." + pb + "Z" == sb + ("T" + (tb + ("." + (pb + "Z"))));
    LexJoin(sa, sb, "T" + (ta + ("." + (pa + "Z"))), "T" + (tb + ("." + (pb + "Z"))));
    LexJoin("T", "T", ta + ("." + (pa + "Z")), tb + ("." + (pb + "Z")));
    LexJoin(ta, tb, "." + (pa + "Z"), "." + (pb + "Z"));
    LexJoin(".", ".", pa + "Z", pb + "Z");
    LexJoin(pa, pb, "Z", "Z");
    LexIrreflexive("T");
    LexIrreflexive(".");
    LexIrreflexive("Z");
  }

  /** The order of printed strings is the order of the epochs. */
  lemma PrintedOrder(a: int, b: int)
    requires InRange(a) && InRange(b)
    ensures LexLess(UtcIso(a), UtcIso(b)) <==> a < b
  {
    hide UtcIso, CivilDate, Pad, LexLess, DateText, ClockText, DayNumber;
    PrintedText(a);
    PrintedText(b);
    var (sa, sb) := (PrintedStamp(a), PrintedStamp(b));
    StampTextOrder(sa.date, sa.clock, MicrosOf(a), sb.date, sb.clock, MicrosOf(b));
    DateOrder(sa.date, sb.date);
    assert DayNumber(sa.date) == a / MILLION / DAY_SECONDS && DayNumber(sb.date) == b / MILLION / DAY_SECONDS;
  }

  // ----- the database literal

  lemma {:induction false} ReplaceAt(a: string, b: string)
    requires 'T' !in a
    ensures ReplaceFirst(a + "T" + b, 'T', ' ') == a + " " + b
  {
    var s := a + "T" + b;
    if a == "" {
      assert s[1..] == b;
    } else {
      ReplaceAt(a[1..], b);
      assert s[1..] == a[1..] + "T" + b;
      assert a == [a[0]] + a[1..];
    }
  }

  lemma DigitsHaveNoT(s: string)
    requires AllDigits(s)
    ensures 'T' !in s
  {
  }

  lemma SqlOfText(text: string)
    requires |text| == 27 && text[10] == 'T' && 'T' !in text[..5] && 'T' !in text[5..10]
    ensures SqlTimestamp(text) == if text[..5] == "0000-" then "0001-" + text[5..10] + " " + text[11..26] + "+00 BC"
                                  else text[..10] + " " + text[11..26] + "+00"
  {
    assert text[..10] == text[..5] + text[5..10];
    ReplaceAt(text[5..10], text[11..26]);
    ReplaceAt(text[..10], text[11..26]);
    assert text[5..26] == text[5..10] + "T" + text[11..26];
    assert text[..26] == text[..10] + "T" + text[11..26];
  }

  lemma DateHasNoT(date: Date)
    requires FourDigitYear(date)
    ensures 'T' !in DateText(date)
  {
    hide Pad;
    DigitsHaveNoT(Pad(date.year, 4));
    DigitsHaveNoT(Pad(date.month, 2));
    DigitsHaveNoT(Pad(date.day, 2));
  }

  lemma SqlText(epoch: int)
    requires InRange(epoch)
    ensures var text := UtcIso(epoch);
            SqlTimestamp(text) == if text[..5] == "0000-" then "0001-" + text[5..10] + " " + text[11..26] + "+00 BC"
                                  else text[..10] + " " + text[11..26] + "+00"
    ensures UtcIso(epoch)[10] == 'T' && UtcIso(epoch)[26] == 'Z'
  {
    hide UtcIso, CivilDate, Pad, DayNumber, MicrosOf, DateText, ClockText, SqlTimestamp, InRange;
    PrintedText(epoch);
    var text, date := UtcIso(epoch), PrintedStamp(epoch).date;
    DateHasNoT(date);
    assert text[..10] == DateText(date);
    assert forall i :: 0 <= i < 10 ==> text[i] == DateText(date)[i];
    assert text[10] == 'T';
    SqlOfText(text);
  }

  /**
   * What is kept of a moment: nothing outside years 0 to 9999, else its count and two texts, the SQL one being
   * the UTC one with a blank and a numeric offset, and year 0 written as year 1 before the common era.
   */
  lemma StoredTexts(epoch: int)
    ensures FromEpoch(epoch).Ok? <==> -62167219200000000 <= epoch <= 253402300799999999
    ensures FromEpoch(epoch).Ok? ==>
              var (i, utc) := (FromEpoch(epoch).value, FromEpoch(epoch).value.utcIso);
              && i.epochMicroseconds == epoch
              && |utc| == 27 && utc[10] == 'T' && utc[26] == 'Z' && Parse(utc) == FromEpoch(epoch)
              && i.sqlTimestamp == if utc[..5] == "0000-" then "0001-" + utc[5..10] + " " + utc[11..26] + "+00 BC"
                                   else utc[..10] + " " + utc[11..26] + "+00"
  {
    if InRange(epoch) {
      SqlText(epoch);
      ParsePrinted(epoch);
    }
    hide UtcIso, SqlTimestamp, Parse;
  }

  /** The pieces of a text joined from parts of these lengths. */
  lemma Pieces(a: string, b: string, c: string, d: string, e: string)
    requires |a| == 5 && |b| == 5 && |c| == 1 && |d| == 15
    ensures (a + b + c + d + e)[..5] == a && (a + b + c + d + e)[5..10] == b && (a + b + c + d + e)[11..26] == d
    ensures |a + b + c + d + e| == 26 + |e|
  {
  }

  lemma UtcPieces(text: string)
    requires |text| == 27 && text[10] == 'T' && text[26] == 'Z'
    ensures text == text[..5] + text[5..10] + "T" + text[11..26] + "Z"
    ensures text[..10] == text[..5] + text[5..10]
  {
  }

  /** The literal keeps every piece of the text but year 0, which it marks by its length. */
  lemma LiteralPieces(text: string, literal: string)
    requires |text| == 27
    requires literal == if text[..5] == "0000-" then "0001-" + text[5..10] + " " + text[11..26] + "+00 BC"
                        else text[..10] + " " + text[11..26] + "+00"
    ensures |literal| == if text[..5] == "0000-" then 32 else 29
    ensures literal[5..10] == text[5..10] && literal[11..26] == text[11..26]
    ensures text[..5] != "0000-" ==> literal[..5] == text[..5]
  {
    if text[..5] == "0000-" {
      Pieces("0001-", text[5..10], " ", text[11..26], "+00 BC");
    } else {
      assert text[..10] == text[..5] + text[5..10];
      Pieces(text[..5], text[5..10], " ", text[11..26], "+00");
    }
  }

  /** No two instants share a database literal, year zero written as 1 BC included. */
  lemma SqlTimestampIdentifies(a: int, b: int)
    requires InRange(a) && InRange(b)
    requires SqlTimestamp(UtcIso(a)) == SqlTimestamp(UtcIso(b))
    ensures a == b
  {
    hide UtcIso, SqlTimestamp, InRange, LexLess;
    SqlText(a);
    SqlText(b);
    LiteralPieces(UtcIso(a), SqlTimestamp(UtcIso(a)));
    LiteralPieces(UtcIso(b), SqlTimestamp(UtcIso(b)));
    UtcPieces(UtcIso(a));
    UtcPieces(UtcIso(b));
    PrintedOrder(a, b);
    PrintedOrder(b, a);
    LexIrreflexive(UtcIso(a));
  }
}
