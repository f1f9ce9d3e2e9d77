/**
 * What the accepted date-time texts are, and what a written offset does (maintenance-instant.ts), said
 * on the characters themselves.
 */
module WrittenInstants {
  import opened Results
  import opened Gregorian
  import opened DateTimeText
  import opened Instants
  import opened TimeBoundary

  // ----- the grammar

  ghost predicate Decimal(s: string, n: nat) {
    |s| == n && forall i :: 0 <= i < |s| ==> '0' <= s[i] <= '9'
  }

  /** `[t\s]`, in either case: T or white space. */
  ghost predicate Separates(c: char) {
    var code := c as int;
    || code == 0x54 || code == 0x74
    || 0x09 <= code <= 0x0D || code == 0x20 || code == 0xA0 || code == 0x1680 || 0x2000 <= code <= 0x200A
    || code == 0x2028 || code == 0x2029 || code == 0x202F || code == 0x205F || code == 0x3000 || code == 0xFEFF
  }

  /** An offset: its sign, two digits, and maybe two more behind a colon or none. */
  datatype Offset = Utc(letter: char) | Signed(sign: char, hours: string, colon: bool, minutes: string)

  ghost predicate OffsetFits(o: Offset) {
    match o
    case Utc(letter) => letter == 'Z' || letter == 'z'
    case Signed(sign, hours, colon, minutes) =>
      && (sign == '+' || sign == '-') && Decimal(hours, 2)
      && (Decimal(minutes, 2) || (minutes == "" && !colon))
  }

  function OffsetText(o: Offset): string {
    match o
    case Utc(letter) => [letter]
    case Signed(sign, hours, colon, minutes) => [sign] + hours + (if colon then ":" else "") + minutes
  }

  datatype Written = Written(year: string, month: string, day: string, separator: char, hour: string, minute: string,
                             second: string, fraction: string, offset: Offset)

  ghost predicate Fits(w: Written) {
    && Decimal(w.year, 4) && Decimal(w.month, 2) && Decimal(w.day, 2) && Separates(w.separator)
    && Decimal(w.hour, 2) && Decimal(w.minute, 2) && Decimal(w.second, 2)
    && Decimal(w.fraction, |w.fraction|) && OffsetFits(w.offset)
  }

  function HeadOf(w: Written): string {
    w.year + "-" + w.month + "-" + w.day + [w.separator] + w.hour + ":" + w.minute + ":" + w.second
  }

  function FractionOf(w: Written): string {
    if w.fraction == "" then "" else "." + w.fraction
  }

  function TextOf(w: Written): string {
    HeadOf(w) + FractionOf(w) + OffsetText(w.offset)
  }

  ghost function OffsetZone(o: Offset): Zone
    requires OffsetFits(o)
  {
    match o
    case Utc(_) => Zone(false, 0, 0)
    case Signed(sign, hours, _, minutes) => Zone(sign == '-', Number(hours), Number(minutes))
  }

  lemma OffsetReads(o: Offset)
    requires OffsetFits(o)
    ensures ReadZone(OffsetText(o)) == Some(OffsetZone(o))
  {
    hide Number;
    if o.Signed? {
      var s := OffsetText(o);
      assert s[1..3] == o.hours;
      if o.minutes == "" {
        NumberOfNothing();
      } else if o.colon {
        assert s[4..6] == o.minutes;
      } else {
        assert s[3..5] == o.minutes;
      }
    }
  }

  lemma NumberOfNothing()
    ensures Number("") == 0
  {
  }

  /** Every zone that is read is one of these offsets. */
  lemma ReadZoneIsOffset(z: string) returns (o: Offset)
    requires ReadZone(z).Some?
    ensures OffsetFits(o) && OffsetText(o) == z
  {
    hide Number;
    if |z| == 1 {
      o := Utc(z[0]);
    } else if |z| == 6 {
      o := Signed(z[0], z[1..3], true, z[4..6]);
      assert z == [z[0]] + z[1..3] + ":" + z[4..6];
    } else {
      o := Signed(z[0], z[1..3], false, z[3..]);
      assert z == [z[0]] + z[1..3] + "" + z[3..];
      assert |z| == 5 ==> z[3..] == z[3..5];
    }
  }

  lemma HeadReads(w: Written)
    requires Fits(w)
    ensures var h := HeadOf(w);
            && |h| == 19 && HeadShape(h)
            && HeadDate(h) == Date(Number(w.year), Number(w.month), Number(w.day))
            && HeadClock(h) == Clock(Number(w.hour), Number(w.minute), Number(w.second))
  {
    hide Number;
    var h := HeadOf(w);
    assert h[..4] == w.year && h[5..7] == w.month && h[8..10] == w.day;
    assert h[11..13] == w.hour && h[14..16] == w.minute && h[17..19] == w.second;
    assert h[..10][..4] == w.year && h[..10][5..7] == w.month && h[..10][8..10] == w.day;
  }

  /** A written text is accepted, with the numbers of its own digits as fields. */
  lemma WrittenIsRead(w: Written)
    requires Fits(w)
    ensures ReadStamp(TextOf(w)) ==
              Some(Stamp(Date(Number(w.year), Number(w.month), Number(w.day)),
                         Clock(Number(w.hour), Number(w.minute), Number(w.second)), w.fraction, OffsetZone(w.offset)))
  {
    hide Number, ReadStamp, ReadZone, HeadShape, HeadDate, HeadClock;
    HeadReads(w);
    OffsetReads(w.offset);
    PartsRead(TextOf(w), HeadOf(w), w.fraction, OffsetText(w.offset),
              Stamp(HeadDate(HeadOf(w)), HeadClock(HeadOf(w)), w.fraction, OffsetZone(w.offset)));
  }

  lemma HeadIsWritten(h: string, fraction: string, o: Offset) returns (w: Written)
    requires |h| == 19 && HeadShape(h) && Decimal(fraction, |fraction|) && OffsetFits(o)
    ensures Fits(w) && HeadOf(w) == h && w.fraction == fraction && w.offset == o
  {
    w := Written(h[..4], h[5..7], h[8..10], h[10], h[11..13], h[14..16], h[17..19], fraction, o);
    assert h[..10][..4] == h[..4] && h[..10][5..7] == h[5..7] && h[..10][8..10] == h[8..10];
    assert h == h[..4] + "-" + h[5..7] + "-" + h[8..10] + [h[10]] + h[11..13] + ":" + h[14..16] + ":" + h[17..19];
  }

  ghost predicate IsText(s: string) {
    exists w :: Fits(w) && TextOf(w) == s
  }

  /** Exactly the texts of the grammar are read. */
  lemma GrammarIs(s: string)
    ensures ReadStamp(s).Some? <==> IsText(s)
  {
    hide Number, ReadStamp, ReadZone, HeadShape, HeadDate, HeadClock, Fits;
    if ReadStamp(s).Some? {
      var head, fraction, zoneText := StampParts(s);
      var o := ReadZoneIsOffset(zoneText);
      var w := HeadIsWritten(head, fraction, o);
      assert TextOf(w) == s;
    }
    if IsText(s) {
      var w :| Fits(w) && TextOf(w) == s;
      WrittenIsRead(w);
    }
  }

  // ----- the offset

  lemma EpochOfStamp(stamp: Stamp)
    requires AllDigits(stamp.fraction) && ParseStamp(stamp).Ok?
    ensures CalendarSecond(stamp.date, stamp.clock).Some?
    ensures ParseStamp(stamp).value.epochMicroseconds + ZoneSeconds(stamp.zone) * 1000000 ==
              CalendarSecond(stamp.date, stamp.clock).value * 1000000 + Number(MicroDigits(stamp.fraction))
  {
    hide Number, CalendarSecond, FromEpoch, MicroDigits, HasNonZero, AllDigits, ZoneSeconds;
  }

  lemma ZoneShift(zone: Zone)
    ensures var minutes := zone.hour * 60 + zone.minute;
            ZoneSeconds(zone) * 1000000 == if zone.negative then -minutes * 60000000 else minutes * 60000000
  {
  }

  lemma StampShifts(stamp: Stamp, utc: Stamp)
    requires AllDigits(stamp.fraction) && utc == stamp.(zone := Zone(false, 0, 0))
    requires ParseStamp(stamp).Ok? && ParseStamp(utc).Ok?
    ensures var minutes := stamp.zone.hour * 60 + stamp.zone.minute;
            ParseStamp(stamp).value.epochMicroseconds ==
              if stamp.zone.negative then ParseStamp(utc).value.epochMicroseconds + minutes * 60000000
              else ParseStamp(utc).value.epochMicroseconds - minutes * 60000000
  {
    hide ParseStamp, Number, CalendarSecond, MicroDigits, AllDigits, ZoneSeconds;
    EpochOfStamp(stamp);
    EpochOfStamp(utc);
    ZoneShift(stamp.zone);
    ZoneShift(utc.zone);
  }

  lemma ParsesAs(s: string, stamp: Stamp)
    requires ReadStamp(s) == Some(stamp)
    ensures Parse(s) == ParseStamp(stamp)
  {
  }

  /**
   * A time written with an offset is that many hours and minutes before the same time written in UTC when
   * the offset is positive, and after it when it is negative.
   */
  lemma OffsetShifts(local: Written)
    requires Fits(local) && local.offset.Signed?
    requires Parse(TextOf(local)).Ok? && Parse(TextOf(local.(offset := Utc('Z')))).Ok?
    ensures var minutes := Number(local.offset.hours) * 60 + Number(local.offset.minutes);
            var utc := Parse(TextOf(local.(offset := Utc('Z')))).value.epochMicroseconds;
            Parse(TextOf(local)).value.epochMicroseconds ==
              if local.offset.sign == '+' then utc - minutes * 60000000 else utc + minutes * 60000000
  {
    hide Number, ReadStamp, Parse, ParseStamp, TextOf;
    var zulu := local.(offset := Utc('Z'));
    WrittenIsRead(local);
    WrittenIsRead(zulu);
    var stamp, utc := ReadStamp(TextOf(local)).value, ReadStamp(TextOf(zulu)).value;
    ParsesAs(TextOf(local), stamp);
    ParsesAs(TextOf(zulu), utc);
    StampShifts(stamp, utc);
  }

  // ----- the instant itself

  /** The fraction in microseconds; a digit past the sixth that counted would have been refused. */
  lemma FractionInMicros(f: string)
    requires AllDigits(f) && (|f| > 6 ==> !HasNonZero(f[6..]))
    ensures Number(MicroDigits(f)) * Power10(|f|) == Number(f) * 1000000
    ensures 0 <= Number(MicroDigits(f)) < 1000000
  {
    Powers();
    hide Number, Power10, HasNonZero, AllDigits;
    PadOfNumber(MicroDigits(f));
    if |f| > 6 { ManyDigits(f); } else { FewDigits(f); }
  }

  lemma ManyDigits(f: string)
    requires AllDigits(f) && |f| > 6 && !HasNonZero(f[6..])
    ensures Number(f[..6]) * Power10(|f|) == Number(f) * 1000000
  {
    Powers();
    hide Number, Power10, HasNonZero;
    assert f == f[..6] + f[6..];
    NumberJoin(f[..6], f[6..]);
    NonZeroDigits(f[6..]);
    PowersAdd(|f| - 6, 6);
    Scaled(Number(f), Number(f[..6]), Power10(|f| - 6), 1000000, Power10(|f|));
  }

  lemma FewDigits(f: string)
    requires AllDigits(f) && |f| <= 6
    ensures Number(MicroDigits(f)) * Power10(|f|) == Number(f) * 1000000
  {
    Powers();
    hide Number, Power10, Zeros, MicroDigits;
    FilledUp(f);
    ZerosAreZero(6 - |f|);
    NumberJoin(f, Zeros(6 - |f|));
    PowersAdd(6 - |f|, |f|);
    Scaled(Number(MicroDigits(f)), Number(f), Power10(6 - |f|), Power10(|f|), 1000000);
  }

  lemma FilledUp(f: string)
    requires AllDigits(f) && |f| <= 6
    ensures |Zeros(6 - |f|)| == 6 - |f| && AllDigits(Zeros(6 - |f|)) && MicroDigits(f) == f + Zeros(6 - |f|)
  {
  }

  lemma Scaled(m: int, x: int, a: int, b: int, c: int)
    requires m == x * a && a * b == c
    ensures m * b == x * c
  {
    assert (x * a) * b == x * (a * b);
  }

  /** A written time is taken only with fields of a clock, and no digit past the microsecond that counts. */
  lemma TakenStamp(stamp: Stamp)
    requires AllDigits(stamp.fraction) && ParseStamp(stamp).Ok?
    requires stamp.clock.hour >= 0 && stamp.clock.minute >= 0 && stamp.clock.second >= 0
    ensures Valid(stamp.date) && ValidClock(stamp.clock)
    ensures CalendarSecond(stamp.date, stamp.clock) == Some(DayNumber(stamp.date) * 86400 + SecondOfDay(stamp.clock))
    ensures |stamp.fraction| > 6 ==> !HasNonZero(stamp.fraction[6..])
  {
    CalendarSecondExists(stamp.date, stamp.clock);
    hide CalendarSecond, FromEpoch, Number, MicroDigits, DayNumber, Valid;
  }

  /** The days, hours, minutes and seconds written, in microseconds, the offset's minutes taken off. */
  ghost function WholeMicros(w: Written): int
    requires Fits(w) && Valid(DateOf(w))
  {
    (DayNumber(DateOf(w)) * 86400 + Number(w.hour) * 3600 + Number(w.minute) * 60 + Number(w.second)) * 1000000
    - (match w.offset
       case Utc(_) => 0
       case Signed(sign, hours, _, minutes) =>
         (if sign == '-' then -1 else 1) * (Number(hours) * 60 + Number(minutes)) * 60000000)
  }

  ghost function DateOf(w: Written): Date
    requires Fits(w)
  {
    Date(Number(w.year), Number(w.month), Number(w.day))
  }

  /**
   * The instant of an accepted text: its day, counted from 1970-01-01, its hours, minutes and seconds less the
   * offset, and exactly its fraction of a second.
   */
  lemma WrittenDenotes(w: Written) returns (micros: int)
    requires Fits(w) && Parse(TextOf(w)).Ok?
    ensures Valid(DateOf(w)) && Number(w.hour) <= 23 && Number(w.minute) <= 59 && Number(w.second) <= 59
    ensures 0 <= micros < 1000000 && micros * Power10(|w.fraction|) == Number(w.fraction) * 1000000
    ensures Parse(TextOf(w)).value.epochMicroseconds == WholeMicros(w) + micros
  {
    hide Number, ReadStamp, Parse, ParseStamp, TextOf, Power10, Valid, DayNumber, MicroDigits, ZoneSeconds;
    WrittenIsRead(w);
    var stamp := ReadStamp(TextOf(w)).value;
    ParsesAs(TextOf(w), stamp);
    TakenStamp(stamp);
    EpochOfStamp(stamp);
    ZoneShift(stamp.zone);
    FractionInMicros(w.fraction);
    micros := Number(MicroDigits(w.fraction));
  }
}
