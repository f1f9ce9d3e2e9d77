/**
 * Placing the 100 x 60 mm location label (location-label-layout.ts, label-layout.ts): whatever the texts
 * and whatever the size of the QR code, the lines fit beside it, apart from each other, between its top
 * and its bottom, and the code keeps its quiet zone inside the border.
 *
 * Lengths are in dots of a 203 dpi printer. Texts are sequences of UTF-16 code units; the widths and
 * positions, computed with floating point in the code, are exact here.
 */
module LocationLabel {
  import opened Results

  const DPI := 203
  const MIN_POINT := 7
  const QR_CELL_MAX := 12
  const LEVEL_POINT := 11
  const CODE_POINT := 40
  const NAME_POINT := 18
  const FOOTER_POINT := 11
  const BORDER := 3

  /** Millimetres in dots, rounded: the next integer below mm / 25.4 * DPI + 1/2. */
  function Dots(mm: nat): nat {
    (20 * mm * DPI + 254) / 508
  }

  /** The height of a line of this point size, rounded: point * DPI / 72. */
  function Tall(point: nat): nat {
    (2 * point * DPI + 72) / 144
  }

  lemma Sizes()
    ensures Dots(100) == 799 && Dots(60) == 480 && Dots(3) == 24
    ensures Tall(NAME_POINT) == 51 && Tall(LEVEL_POINT) == 31 && Tall(FOOTER_POINT) == 31
  {
  }

  /** The nearest dot, halves up: an inch is 25.4 mm, and 72 points. */
  lemma LengthsInDots(mm: nat, point: nat)
    ensures Dots(mm) as real - 0.5 <= mm as real / 25.4 * 203.0 < Dots(mm) as real + 0.5
    ensures Tall(point) as real - 0.5 <= point as real * 203.0 / 72.0 < Tall(point) as real + 0.5
  {
    var d := Dots(mm);
    assert 508 * d <= 20 * mm * 203 + 254 < 508 * d + 508;
    assert 508.0 * d as real <= 4060.0 * mm as real + 254.0 < 508.0 * d as real + 508.0;
    assert mm as real / 25.4 * 203.0 == 4060.0 * mm as real / 508.0;
    var t := Tall(point);
    assert 144 * t <= 2 * point * 203 + 72 < 144 * t + 144;
    assert 144.0 * t as real <= 406.0 * point as real + 72.0 < 144.0 * t as real + 144.0;
  }

  lemma TallGrows(a: nat, b: nat)
    requires a <= b
    ensures Tall(a) <= Tall(b)
  {
  }

  // ----- fitting a text into a width

  /** A character is taken to be half as wide as its point size. */
  predicate Fits(length: nat, point: nat, available: int) {
    length * (point * DPI) <= available * 144
  }

  /** The characters together, each half its point size wide, are no wider than what is available. */
  lemma FitsIs(length: nat, point: nat, available: int)
    ensures Fits(length, point, available) <==>
            length as real * (point as real * 0.5 * (203.0 / 72.0)) <= available as real
  {
    var wide := length as real * point as real;
    assert length as real * (point as real * 0.5 * (203.0 / 72.0)) == wide * 203.0 / 144.0;
    assert length * (point * DPI) == length * point * 203;
    assert (length * point) as real == wide;
    assert (length * point * 203) as real == wide * 203.0;
  }

  /** The largest size down from `point` at which the text fits, but never below the smallest readable one. */
  ghost predicate IsFitted(chosen: nat, length: nat, point: nat, available: int) {
    && 7 <= chosen <= point
    && (chosen > 7 ==> Fits(length, chosen, available))
    && forall p: nat :: chosen < p <= point ==> !Fits(length, p, available)
  }

  method Fit(length: nat, point: nat, available: int) returns (chosen: nat)
    requires point >= MIN_POINT
    ensures IsFitted(chosen, length, point, available)
  {
    chosen := point;
    while chosen > MIN_POINT && !Fits(length, chosen, available)
      invariant MIN_POINT <= chosen <= point
      invariant forall p: nat :: chosen < p <= point ==> !Fits(length, p, available)
    {
      chosen := chosen - 1;
    }
  }

  function RoomFor(point: nat, available: int): int
    requires point > 0
  {
    available * 144 / (point * DPI)
  }

  function Clip(content: string, point: nat, available: int): string
    requires point > 0
  {
    var room := RoomFor(point, available);
    if |content| <= room then content else content[..Min(Max(room - 1, 1), |content|)] + "~"
  }

  lemma RoomIsWhatFits(length: nat, point: nat, available: int)
    requires point > 0
    ensures length <= RoomFor(point, available) <==> Fits(length, point, available)
  {
    Quotient(available * 144, point * DPI, length);
  }

  lemma Quotient(a: int, d: int, n: int)
    requires d > 0
    ensures n <= a / d <==> n * d <= a
  {
    var q := a / d;
    assert q * d <= a < q * d + d;
    if n <= q {
      assert (q - n) * d >= 0;
    } else {
      assert (n - q - 1) * d >= 0;
    }
  }

  lemma SmallerFits(length: nat, smaller: nat, point: nat, available: int)
    requires Fits(length, point, available) && smaller <= point
    ensures Fits(length, smaller, available)
  {
    assert length * (point * DPI) - length * (smaller * DPI) == length * ((point - smaller) * DPI);
    assert length * ((point - smaller) * DPI) >= 0;
  }

  /** The text itself where it fits; otherwise as much of its beginning as fits before a mark. */
  ghost predicate IsCut(cut: string, content: string, point: nat, available: int) {
    && Fits(|cut|, point, available)
    && (Fits(|content|, point, available) ==> cut == content)
    && (!Fits(|content|, point, available) ==> exists n: nat :: IsCutAt(cut, content, n, point, available))
  }

  ghost predicate IsCutAt(cut: string, content: string, n: nat, point: nat, available: int) {
    0 < n < |content| && cut == content[..n] + "~" && !Fits(n + 2, point, available)
  }

  /** A text that fits is kept; otherwise it is cut as little as possible, and only at the smallest size. */
  lemma ClippedFits(content: string, chosen: nat, point: nat, available: int)
    requires IsFitted(chosen, |content|, point, available) && available >= 100
    ensures IsCut(Clip(content, chosen, available), content, chosen, available)
    ensures !Fits(|content|, chosen, available) ==> chosen == 7
  {
    RoomIsWhatFits(|content|, chosen, available);
    if !Fits(|content|, chosen, available) {
      var room := RoomFor(chosen, available);
      assert room >= 2 by { RoomIsWhatFits(2, chosen, available); }
      assert Clip(content, chosen, available) == content[..room - 1] + "~";
      RoomIsWhatFits(room, chosen, available);
      RoomIsWhatFits(room + 1, chosen, available);
      assert IsCutAt(Clip(content, chosen, available), content, room - 1, chosen, available);
    }
  }

  // ----- the QR code

  /** Modules on a side of a QR code of version 1 to 40. */
  predicate QrSide(modules: nat) {
    exists version :: 1 <= version <= 40 && modules == 17 + 4 * version
  }

  /** Dots for one module: as many as leave four modules free on either side, twelve at most. */
  function Cell(modules: nat): int {
    Min(QR_CELL_MAX, (Dots(60) - 2 * BORDER) / (modules + 8))
  }

  lemma CellBounds(modules: nat)
    requires QrSide(modules)
    ensures 2 <= Cell(modules) <= 12 && (Cell(modules) < 12 ==> (modules + 8) * (Cell(modules) + 1) > 480 - 2 * 3)
    ensures modules * Cell(modules) >= 252
    ensures (modules + 8) * Cell(modules) == modules * Cell(modules) + 8 * Cell(modules) <= Dots(60) - 2 * BORDER
  {
    Sizes();
    SideBounds(modules);
    var q := 474 / (modules + 8);
    assert Cell(modules) == Min(QR_CELL_MAX, q);
    hide Dots, Tall, Cell, QrSide;
    CellQuotient(modules, q);
    CellProduct(modules, Cell(modules), q);
  }

  lemma SideBounds(modules: nat)
    requires QrSide(modules)
    ensures 21 <= modules <= 177
  {
  }

  lemma CellQuotient(modules: nat, q: int)
    requires 21 <= modules <= 177 && q == 474 / (modules + 8)
    ensures 2 <= q && q * (modules + 8) <= 474 < (q + 1) * (modules + 8)
  {
    Quotient(474, modules + 8, 2);
    Quotient(474, modules + 8, q);
    Quotient(474, modules + 8, q + 1);
  }

  lemma CellProduct(modules: int, cell: int, q: int)
    requires 21 <= modules <= 177 && 2 <= q && cell == Min(QR_CELL_MAX, q)
    requires q * (modules + 8) <= 474 < (q + 1) * (modules + 8)
    ensures modules * cell >= 252 && (modules + 8) * cell == modules * cell + 8 * cell <= 474
    ensures cell < 12 ==> (modules + 8) * (cell + 1) > 474
  {
    assert (q - cell) * (modules + 8) >= 0;
    if cell == 12 {
    } else {
      assert cell == q && (modules + 8) * (cell + 1) > 474;
      if cell == 2 {} else if cell == 3 {} else if cell == 4 {} else if cell == 5 {} else if cell == 6 {}
      else if cell == 7 {} else if cell == 8 {} else if cell == 9 {} else if cell == 10 {} else { assert cell == 11; }
    }
  }

  // ----- the lines

  datatype Values = Values(warehouseCode: string, warehouseName: string, locationCode: string, locationName: string,
                           levelCode: Option<string>, issueNumber: string)

  /** Quotes, backslashes and control characters would break the printer's command. */
  predicate TsplSafe(text: string) {
    forall i :: 0 <= i < |text| ==> text[i] >= ' ' && text[i] != '\U{007F}' && text[i] != '\"' && text[i] != '\\'
  }

  predicate SafeValues(values: Values) {
    TsplSafe(values.warehouseCode) && TsplSafe(values.warehouseName)
    && TsplSafe(values.locationCode) && TsplSafe(values.locationName)
  }

  /** Some character is a control character, a double quote or a backslash. */
  predicate Breaks(text: string) {
    exists c :: c in text && (c as int < 32 || c as int == 127 || c as int == 34 || c as int == 92)
  }

  lemma SafeIs(values: Values)
    ensures SafeValues(values) <==>
            && !Breaks(values.warehouseCode) && !Breaks(values.warehouseName)
            && !Breaks(values.locationCode) && !Breaks(values.locationName)
  {
    forall text: string ensures TsplSafe(text) <==> !Breaks(text) {
      if !TsplSafe(text) {
        var i :| 0 <= i < |text| && !(text[i] >= ' ' && text[i] != '\U{007F}' && text[i] != '\"' && text[i] != '\\');
        assert text[i] in text;
      }
    }
  }

  datatype Line = Line(point: nat, content: string)

  /** What the label says, top to bottom, at the sizes it starts from. */
  function Wanted(values: Values): (lines: seq<Line>)
    ensures |lines| == if values.levelCode == None then 3 else 4
  {
    (if values.levelCode == None then [] else [Line(LEVEL_POINT, values.levelCode.value)])
    + [Line(CODE_POINT, values.locationCode),
       Line(NAME_POINT, values.locationName),
       Line(FOOTER_POINT, values.warehouseCode + " | " + values.warehouseName + " | #" + values.issueNumber)]
  }

  function Heights(lines: seq<Line>): nat {
    if lines == [] then 0 else Heights(lines[..|lines| - 1]) + Tall(lines[|lines| - 1].point)
  }

  /** What is left of the code's height for lines 3 mm apart. */
  function Room(lines: seq<Line>, qrSize: int): int {
    qrSize - Heights(lines) - Dots(3) * (|lines| - 1)
  }

  datatype Text = Text(x: int, y: int, point: nat, width: int, content: string)

  datatype Layout =
    Layout(width: int, height: int, border: int, texts: seq<Text>, qrX: int, qrY: int, cell: int, modules: nat)

  function QrSize(layout: Layout): int {
    layout.modules * layout.cell
  }

  /** The code with four free modules on every side lies inside the border. */
  predicate QrInside(layout: Layout) {
    var quiet := 4 * layout.cell;
    && layout.cell >= 2
    && layout.border <= layout.qrX - quiet && layout.qrX + QrSize(layout) + quiet <= layout.width - layout.border
    && layout.border <= layout.qrY - quiet && layout.qrY + QrSize(layout) + quiet <= layout.height - layout.border
  }

  function Bottom(text: Text): int {
    text.y + Tall(text.point)
  }

  ghost predicate LinesApart(layout: Layout) {
    forall i :: 0 < i < |layout.texts| ==> Bottom(layout.texts[i - 1]) + Dots(3) <= layout.texts[i].y
  }

  /** Where the lines begin, and how wide they may be: from the code's quiet zone to 3 mm from the right edge. */
  function TextLeft(layout: Layout): int {
    layout.qrX + QrSize(layout) + 4 * layout.cell
  }

  function TextWidth(layout: Layout): int {
    layout.width - Dots(3) - TextLeft(layout)
  }

  function Space(layout: Layout, i: nat): int
    requires 0 < i < |layout.texts|
  {
    layout.texts[i].y - Bottom(layout.texts[i - 1])
  }

  /** The spaces between the lines are the same, up to the one dot that rounding takes. */
  ghost predicate EvenlySpaced(layout: Layout) {
    forall i, j :: 0 < i < |layout.texts| && 0 < j < |layout.texts| ==> Space(layout, i) - Space(layout, j) <= 1
  }

  /** The code stands its quiet zone off the left border, and in the middle between top and bottom. */
  predicate QrCentred(layout: Layout) {
    && layout.qrX == 3 + 4 * layout.cell
    && 0 <= layout.height - QrSize(layout) - 2 * layout.qrY <= 1
  }

  /** From the code's upper edge to its lower edge. */
  ghost predicate LinesBesideQr(layout: Layout) {
    && layout.texts != []
    && layout.texts[0].y == layout.qrY
    && Bottom(layout.texts[|layout.texts| - 1]) == layout.qrY + QrSize(layout)
    && forall i :: 0 <= i < |layout.texts| ==>
         && layout.qrY <= layout.texts[i].y && Bottom(layout.texts[i]) <= layout.qrY + QrSize(layout)
         && layout.texts[i].x == layout.qrX + QrSize(layout) + 4 * layout.cell
         && layout.texts[i].x + layout.texts[i].width == layout.width - Dots(3)
  }

  /** Each line says what was wanted, cut only at the smallest size, within its width. */
  ghost predicate Shows(text: Text, wanted: Line, fitted: nat) {
    && IsFitted(fitted, |wanted.content|, wanted.point, text.width)
    && IsCut(text.content, wanted.content, fitted, text.width)
    && text.point <= fitted
    && Fits(|text.content|, text.point, text.width)
  }

  /** Lines cut and sized for their width. */
  ghost predicate Sized(lines: seq<Line>, wanted: seq<Line>, width: int) {
    && |lines| == |wanted|
    && forall i :: 0 <= i < |lines| ==> SizedLine(lines[i], wanted[i], width)
  }

  ghost predicate SizedLine(line: Line, wanted: Line, width: int) {
    && IsFitted(line.point, |wanted.content|, wanted.point, width)
    && IsCut(line.content, wanted.content, line.point, width)
  }

  method SizeLines(wanted: seq<Line>, width: int) returns (lines: seq<Line>)
    requires width >= 100 && forall i :: 0 <= i < |wanted| ==> wanted[i].point >= MIN_POINT
    ensures Sized(lines, wanted, width)
  {
    hide IsFitted, Fits, Clip, IsCut;
    lines := [];
    for i := 0 to |wanted|
      invariant |lines| == i
      invariant forall k :: 0 <= k < i ==> SizedLine(lines[k], wanted[k], width)
    {
      var chosen := Fit(|wanted[i].content|, wanted[i].point, width);
      FittedAtLeast(chosen, |wanted[i].content|, wanted[i].point, width);
      ClippedFits(wanted[i].content, chosen, wanted[i].point, width);
      lines := lines + [Line(chosen, Clip(wanted[i].content, chosen, width))];
    }
  }

  lemma FittedAtLeast(chosen: nat, length: nat, point: nat, available: int)
    requires IsFitted(chosen, length, point, available)
    ensures MIN_POINT <= chosen <= point
  {
  }

  // ----- shrinking the code line

  function WithPoint(lines: seq<Line>, at: nat, point: nat): seq<Line>
    requires at < |lines|
  {
    lines[at := lines[at].(point := point)]
  }

  lemma {:induction false} HeightsOfOne(lines: seq<Line>, at: nat, point: nat)
    requires at < |lines|
    ensures Heights(WithPoint(lines, at, point)) == Heights(lines) - Tall(lines[at].point) + Tall(point)
  {
    var last := |lines| - 1;
    var changed := WithPoint(lines, at, point);
    if at < last {
      HeightsOfOne(lines[..last], at, point);
      assert changed[..last] == WithPoint(lines[..last], at, point);
    } else {
      assert changed[..last] == lines[..last];
    }
  }

  /** Shrinks one line until 3 mm stay between the lines; it stops as soon as they do. */
  method ShrinkLine(lines: seq<Line>, at: nat, qrSize: int) returns (point: nat)
    requires at < |lines|
    requires Room(WithPoint(lines, at, NAME_POINT), qrSize) >= 0
    ensures point <= lines[at].point && Room(WithPoint(lines, at, point), qrSize) >= 0
    ensures if lines[at].point >= NAME_POINT then point >= NAME_POINT else point == lines[at].point
    ensures forall p: nat :: point < p <= lines[at].point ==> Room(WithPoint(lines, at, p), qrSize) < 0
  {
    point := lines[at].point;
    while Room(WithPoint(lines, at, point), qrSize) < 0 && point > NAME_POINT
      invariant point <= lines[at].point
      invariant if lines[at].point >= NAME_POINT then point >= NAME_POINT else point == lines[at].point
      invariant forall p: nat :: point < p <= lines[at].point ==> Room(WithPoint(lines, at, p), qrSize) < 0
      decreases point
    {
      point := point - 1;
    }
    if point < NAME_POINT {
      HeightsOfOne(lines, at, point);
      HeightsOfOne(lines, at, NAME_POINT);
      TallGrows(point, NAME_POINT);
    }
  }

  /** With the code line at the size of the name there is always room beside the code. */
  lemma RoomAtNameSize(lines: seq<Line>, values: Values, width: int, qrSize: int)
    requires Sized(lines, Wanted(values), width) && qrSize >= 252
    ensures |lines| >= 3 && Room(WithPoint(lines, |lines| - 3, NAME_POINT), qrSize) >= 0
  {
    var wanted := Wanted(values);
    hide Clip, Fits;
    Sizes();
    var shrunk := WithPoint(lines, |lines| - 3, NAME_POINT);
    forall i | 0 <= i < |lines| && i != |lines| - 3 ensures Tall(lines[i].point) <= Tall(wanted[i].point) {
      assert SizedLine(lines[i], wanted[i], width);
      TallGrows(lines[i].point, wanted[i].point);
    }
    HeightsOfFew(shrunk);
  }

  lemma HeightsOfFew(lines: seq<Line>)
    requires |lines| == 3 || |lines| == 4
    ensures |lines| == 3 ==> Heights(lines) == Tall(lines[0].point) + Tall(lines[1].point) + Tall(lines[2].point)
    ensures |lines| == 4 ==>
              Heights(lines) == Tall(lines[0].point) + Tall(lines[1].point) + Tall(lines[2].point)
                  + Tall(lines[3].point)
  {
    hide Tall;
    assert lines[..1][..0] == [] && lines[..2][..1] == lines[..1] && lines[..3][..2] == lines[..2];
    assert Heights(lines[..0]) == 0;
    assert Heights(lines[..1]) == Tall(lines[0].point);
    assert Heights(lines[..2]) == Tall(lines[0].point) + Tall(lines[1].point);
    assert Heights(lines[..3]) == Heights(lines[..2]) + Tall(lines[2].point);
    if |lines| == 3 { assert lines[..3] == lines; }
  }

  // ----- placing the lines

  /** `Math.round` */
  function Round(r: real): int {
    (r + 0.5).Floor
  }

  lemma RoundKeepsDistance(a: real, b: real, distance: int)
    requires a + distance as real <= b
    ensures Round(a) + distance <= Round(b)
  {
  }

  lemma RoundOfInteger(n: int)
    ensures Round(n as real) == n
  {
  }

  /** The gap that spreads the lines evenly over the code's height. */
  function Gap(lines: seq<Line>, qrSize: int): real
    requires |lines| > 1
  {
    (qrSize - Heights(lines)) as real / (|lines| - 1) as real
  }

  /** Where the i-th line begins. */
  function Top(lines: seq<Line>, start: int, gap: real, i: nat): real
    requires i < |lines|
  {
    if i == 0 then start as real else Top(lines, start, gap, i - 1) + Tall(lines[i - 1].point) as real + gap
  }

  lemma {:induction false} TopIs(lines: seq<Line>, start: int, gap: real, i: nat)
    requires i < |lines|
    ensures Top(lines, start, gap, i) == (start + Heights(lines[..i])) as real + i as real * gap
  {
    hide Tall;
    if i > 0 {
      TopIs(lines, start, gap, i - 1);
      assert lines[..i][..i - 1] == lines[..i - 1] && lines[..i][i - 1] == lines[i - 1];
      assert i as real * gap == (i - 1) as real * gap + gap;
    }
  }

  lemma GapIsWide(lines: seq<Line>, qrSize: int)
    requires |lines| > 1 && Room(lines, qrSize) >= 0
    ensures Gap(lines, qrSize) >= Dots(3) as real
    ensures (|lines| - 1) as real * Gap(lines, qrSize) == (qrSize - Heights(lines)) as real
  {
    hide Dots, Heights;
    var n, free := |lines| - 1, qrSize - Heights(lines);
    assert free >= Dots(3) * n;
    assert free as real >= Dots(3) as real * n as real;
    DivideReal(free as real, n as real, Dots(3) as real);
  }

  lemma DivideReal(a: real, n: real, d: real)
    requires n > 0.0 && a >= d * n
    ensures a / n >= d && n * (a / n) == a
  {
    assert (a / n) * n == a;
  }

  /** Puts every line where the even spacing has it, rounded. */
  method PlaceLines(lines: seq<Line>, x: int, qrY: int, qrSize: int, width: int) returns (texts: seq<Text>)
    requires |lines| > 1
    ensures Placed(texts, lines, x, qrY, Gap(lines, qrSize), width)
  {
    hide Gap, Tall;
    var gap := Gap(lines, qrSize);
    var y := qrY as real;
    texts := [];
    for i := 0 to |lines|
      invariant |texts| == i
      invariant i < |lines| ==> y == Top(lines, qrY, gap, i)
      invariant forall k :: 0 <= k < i ==> texts[k] == PlacedText(lines, k, x, qrY, gap, width)
    {
      texts := texts + [Text(x, Round(y), lines[i].point, width, lines[i].content)];
      y := y + Tall(lines[i].point) as real + gap;
    }
  }

  function PlacedText(lines: seq<Line>, i: nat, x: int, qrY: int, gap: real, width: int): Text
    requires i < |lines|
  {
    Text(x, Round(Top(lines, qrY, gap, i)), lines[i].point, width, lines[i].content)
  }

  ghost predicate Placed(texts: seq<Text>, lines: seq<Line>, x: int, qrY: int, gap: real, width: int) {
    && |texts| == |lines|
    && forall i :: 0 <= i < |texts| ==> texts[i] == PlacedText(lines, i, x, qrY, gap, width)
  }

  /** One line to the next: at least 3 mm after rounding. */
  lemma NextIsApart(lines: seq<Line>, x: int, qrY: int, qrSize: int, width: int, i: nat)
    requires 0 < i < |lines| && Room(lines, qrSize) >= 0
    ensures var gap := Gap(lines, qrSize);
            Bottom(PlacedText(lines, i - 1, x, qrY, gap, width)) + Dots(3) <= PlacedText(lines, i, x, qrY, gap, width).y
  {
    GapIsWide(lines, qrSize);
    var gap := Gap(lines, qrSize);
    hide Gap, Tall, Dots, Room;
    RoundKeepsDistance(Top(lines, qrY, gap, i - 1), Top(lines, qrY, gap, i), Tall(lines[i - 1].point) + Dots(3));
  }

  /** The first line begins at the code's upper edge and the last one ends at its lower edge. */
  lemma EndsMeetQr(lines: seq<Line>, x: int, qrY: int, qrSize: int, width: int)
    requires |lines| > 1 && Room(lines, qrSize) >= 0
    ensures var gap := Gap(lines, qrSize);
            && PlacedText(lines, 0, x, qrY, gap, width).y == qrY
            && Bottom(PlacedText(lines, |lines| - 1, x, qrY, gap, width)) == qrY + qrSize
  {
    GapIsWide(lines, qrSize);
    var gap, last := Gap(lines, qrSize), |lines| - 1;
    TopIs(lines, qrY, gap, last);
    assert Heights(lines) == Heights(lines[..last]) + Tall(lines[last].point);
    hide Gap, Tall, Heights;
    RoundOfInteger(qrY);
    RoundOfInteger(qrY + qrSize - Tall(lines[last].point));
  }

  lemma SpaceNearGap(lines: seq<Line>, x: int, qrY: int, gap: real, width: int, i: nat)
    requires 0 < i < |lines|
    ensures var above, below := PlacedText(lines, i - 1, x, qrY, gap, width), PlacedText(lines, i, x, qrY, gap, width);
            gap - 1.0 < (below.y - Bottom(above)) as real < gap + 1.0
  {
    var a, b := Top(lines, qrY, gap, i - 1), Top(lines, qrY, gap, i);
    var tall := Tall(lines[i - 1].point);
    hide Tall, Top;
    assert b == a + tall as real + gap by { TopNext(lines, qrY, gap, i); }
    assert Round(a) as real <= a + 0.5 < Round(a) as real + 1.0;
    assert Round(b) as real <= b + 0.5 < Round(b) as real + 1.0;
  }

  lemma TopNext(lines: seq<Line>, start: int, gap: real, i: nat)
    requires 0 < i < |lines|
    ensures Top(lines, start, gap, i) == Top(lines, start, gap, i - 1) + Tall(lines[i - 1].point) as real + gap
  {
  }

  lemma {:induction false} BottomsGrow(texts: seq<Text>, i: nat, j: nat)
    requires i <= j < |texts|
    requires forall k :: 0 < k < |texts| ==> Bottom(texts[k - 1]) + Dots(3) <= texts[k].y
    ensures texts[i].y <= texts[j].y && Bottom(texts[i]) <= Bottom(texts[j])
    decreases j - i
  {
    if i < j { BottomsGrow(texts, i, j - 1); }
  }

  // ----- the whole label

  /** What the layout promises for its texts. */
  ghost predicate WellPlaced(layout: Layout, values: Values) {
    && layout.width == Dots(100) && layout.height == Dots(60) && layout.border == 3
    && QrInside(layout) && QrCentred(layout)
    && LinesApart(layout) && EvenlySpaced(layout) && LinesBesideQr(layout)
    && Says(layout, values)
  }

  /**
   * Three lines from below: the location's code at 40 points, its name at 18, and the warehouse with the
   * issue number at 11; above them the level at 11, exactly when there is one.
   */
  ghost predicate Says(layout: Layout, values: Values) {
    var n := |layout.texts|;
    && n == (if values.levelCode.Some? then 4 else 3)
    && (values.levelCode.Some? ==> Shown(layout, 0, Line(11, values.levelCode.value)))
    && Shown(layout, n - 3, Line(40, values.locationCode))
    && Shown(layout, n - 2, Line(18, values.locationName))
    && Shown(layout, n - 1,
             Line(11, values.warehouseCode + " | " + values.warehouseName + " | #" + values.issueNumber))
  }

  lemma WantedIsSaid(layout: Layout, values: Values)
    requires ShowsAll(layout, Wanted(values))
    ensures Says(layout, values)
  {
    hide Shown;
    var wanted, n := Wanted(values), |layout.texts|;
    assert Shown(layout, n - 3, wanted[n - 3]) && Shown(layout, n - 2, wanted[n - 2]);
    assert Shown(layout, n - 1, wanted[n - 1]) && Shown(layout, 0, wanted[0]);
  }

  function LinesOf(texts: seq<Text>): seq<Line> {
    seq(|texts|, i requires 0 <= i < |texts| => Line(texts[i].point, texts[i].content))
  }

  /** Every line is shown, and one is smaller than its width asks for only as `ShrunkAsNeeded` allows. */
  ghost predicate ShowsAll(layout: Layout, wanted: seq<Line>) {
    && |layout.texts| == |wanted|
    && forall i :: 0 <= i < |wanted| ==> Shown(layout, i, wanted[i])
  }

  ghost predicate Shown(layout: Layout, i: nat, wanted: Line)
    requires i < |layout.texts|
  {
    exists fitted :: ShownAs(layout, i, wanted, fitted)
  }

  ghost predicate ShownAs(layout: Layout, i: nat, wanted: Line, fitted: nat)
    requires i < |layout.texts|
  {
    Shows(layout.texts[i], wanted, fitted) && ShrunkAsNeeded(layout, i, fitted)
  }

  /** Only the code line, third from below, to the name's size at least, and only as needed for the room. */
  ghost predicate ShrunkAsNeeded(layout: Layout, i: nat, fitted: nat)
    requires i < |layout.texts|
  {
    && (layout.texts[i].point < fitted ==> i == |layout.texts| - 3 && layout.texts[i].point >= 18)
    && forall p: nat :: layout.texts[i].point < p <= fitted ==>
        Room(WithPoint(LinesOf(layout.texts), i, p), QrSize(layout)) < 0
  }

  datatype Refusal = UNPROCESSABLE

  method LayoutLocationLabel(values: Values, modules: nat) returns (r: Result<Layout, Refusal>)
    requires QrSide(modules)
    ensures r.Err? <==> Breaks(values.warehouseCode) || Breaks(values.warehouseName)
                        || Breaks(values.locationCode) || Breaks(values.locationName)
    ensures r.Ok? ==> r.value.modules == modules && r.value.cell == Cell(modules) && WellPlaced(r.value, values)
  {
    SafeIs(values);
    if !SafeValues(values) {
      return Err(UNPROCESSABLE);
    }
    hide Fits, IsFitted, Clip, Heights, Dots, Tall, QrSide, TsplSafe, Cell, Room, LinesApart, LinesBesideQr, ShowsAll;
    hide QrInside, QrCentred, Says, IsCut, Gap, EvenlySpaced, WellPlaced, Breaks;
    Sizes();
    CellBounds(modules);
    var width, height, pad := Dots(100), Dots(60), Dots(3);
    var cell := Cell(modules);
    var qrSize, quiet := modules * cell, cell * 4;
    var qrX := BORDER + quiet;
    var qrY := (height - qrSize) / 2;
    var left := qrX + qrSize + quiet;
    var lineWidth := width - pad - left;
    var wanted := Wanted(values);
    var lines := SizeLines(wanted, lineWidth);
    RoomAtNameSize(lines, values, lineWidth, qrSize);
    var at := |lines| - 3;
    var point := ShrinkLine(lines, at, qrSize);
    var shrunk := WithPoint(lines, at, point);
    var texts := PlaceLines(shrunk, left, qrY, qrSize, lineWidth);
    var layout := Layout(width, height, BORDER, texts, qrX, qrY, cell, modules);
    LayoutIsGood(layout, values, lines, at, point);
    r := Ok(layout);
  }

  lemma LayoutIsGood(layout: Layout, values: Values, lines: seq<Line>, at: nat, point: nat)
    requires QrSide(layout.modules) && layout.cell == Cell(layout.modules)
    requires layout.width == Dots(100) && layout.height == Dots(60) && layout.border == 3
    requires layout.qrX == 3 + layout.cell * 4 && layout.qrY == (layout.height - QrSize(layout)) / 2
    requires TextWidth(layout) >= 0 && Sized(lines, Wanted(values), TextWidth(layout))
    requires at == |lines| - 3 && point <= lines[at].point
    requires if lines[at].point >= NAME_POINT then point >= NAME_POINT else point == lines[at].point
    requires forall p: nat :: point < p <= lines[at].point ==> Room(WithPoint(lines, at, p), QrSize(layout)) < 0
    requires Room(WithPoint(lines, at, point), QrSize(layout)) >= 0
    requires Placed(layout.texts, WithPoint(lines, at, point), TextLeft(layout), layout.qrY,
                    Gap(WithPoint(lines, at, point), QrSize(layout)), TextWidth(layout))
    ensures WellPlaced(layout, values)
  {
    hide Dots, QrSide, Cell, Room, Sized, LinesApart, LinesBesideQr, ShowsAll, Says, QrInside, QrCentred, Gap;
    hide EvenlySpaced, Wanted;
    var shrunk := WithPoint(lines, at, point);
    QrIsInside(layout);
    TextsWellPlaced(layout, shrunk);
    TextsEven(layout, shrunk);
    assert LinesOf(layout.texts) == shrunk;
    TextsShow(layout, lines, Wanted(values), at, point);
    WantedIsSaid(layout, values);
  }

  lemma QrIsInside(layout: Layout)
    requires QrSide(layout.modules) && layout.cell == Cell(layout.modules)
    requires layout.width == Dots(100) && layout.height == Dots(60) && layout.border == BORDER
    requires layout.qrX == BORDER + layout.cell * 4 && layout.qrY == (layout.height - QrSize(layout)) / 2
    ensures QrInside(layout) && QrCentred(layout)
  {
    Sizes();
    CellBounds(layout.modules);
    hide Dots, Cell, QrSide;
  }

  lemma TextsEven(layout: Layout, lines: seq<Line>)
    requires |lines| > 1
    requires Placed(layout.texts, lines, TextLeft(layout), layout.qrY, Gap(lines, QrSize(layout)), TextWidth(layout))
    ensures EvenlySpaced(layout)
  {
    hide Gap, Dots, Top, PlacedText, Bottom;
    var gap := Gap(lines, QrSize(layout));
    forall i | 0 < i < |layout.texts| ensures gap - 1.0 < Space(layout, i) as real < gap + 1.0 {
      SpaceNearGap(lines, TextLeft(layout), layout.qrY, gap, TextWidth(layout), i);
    }
  }

  lemma TextsWellPlaced(layout: Layout, lines: seq<Line>)
    requires |lines| > 1 && Room(lines, QrSize(layout)) >= 0
    requires TextWidth(layout) >= 0
    requires Placed(layout.texts, lines, TextLeft(layout), layout.qrY, Gap(lines, QrSize(layout)), TextWidth(layout))
    ensures LinesApart(layout) && LinesBesideQr(layout)
  {
    hide Gap, Dots, Tall, Room, Top;
    var x, width := TextLeft(layout), TextWidth(layout);
    forall i | 0 < i < |layout.texts| ensures Bottom(layout.texts[i - 1]) + Dots(3) <= layout.texts[i].y {
      NextIsApart(lines, x, layout.qrY, QrSize(layout), width, i);
    }
    EndsMeetQr(lines, x, layout.qrY, QrSize(layout), width);
    hide PlacedText;
    forall i | 0 <= i < |layout.texts|
      ensures layout.qrY <= layout.texts[i].y && Bottom(layout.texts[i]) <= layout.qrY + QrSize(layout)
    {
      BottomsGrow(layout.texts, 0, i);
      BottomsGrow(layout.texts, i, |layout.texts| - 1);
    }
  }

  lemma TextsShow(layout: Layout, lines: seq<Line>, wanted: seq<Line>, at: nat, point: nat)
    requires at == |lines| - 3 && point <= lines[at].point
    requires if lines[at].point >= NAME_POINT then point >= NAME_POINT else point == lines[at].point
    requires forall p: nat :: point < p <= lines[at].point ==> Room(WithPoint(lines, at, p), QrSize(layout)) < 0
    requires LinesOf(layout.texts) == WithPoint(lines, at, point)
    requires forall i :: 0 <= i < |layout.texts| ==> Sized(lines, wanted, layout.texts[i].width)
    ensures ShowsAll(layout, wanted)
  {
    hide IsCutAt, IsFitted, Fits, Room;
    assert |LinesOf(layout.texts)| == |layout.texts| == |lines|;
    assert Sized(lines, wanted, layout.texts[at].width);
    forall i | 0 <= i < |wanted| ensures Shown(layout, i, wanted[i]) {
      var text := layout.texts[i];
      assert LinesOf(layout.texts)[i] == Line(text.point, text.content) == WithPoint(lines, at, point)[i];
      assert SizedLine(lines[i], wanted[i], text.width);
      SmallerFits(|lines[i].content|, text.point, lines[i].point, text.width);
      assert Shows(text, wanted[i], lines[i].point);
      assert forall p: nat :: WithPoint(LinesOf(layout.texts), at, p) == WithPoint(lines, at, p);
      assert ShownAs(layout, i, wanted[i], lines[i].point);
    }
  }
}
