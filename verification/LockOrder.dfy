/**
 * The row-lock phase of issue requests (document-issue-simple-lock.ts, document-issue-goods-issue-lock.ts,
 * document-issue-inspection-lock.ts, document-issue-delivery.ts, document-issue-shipping-unit.ts).
 *
 * Every request takes its row locks in increasing order of one global rank in which LOT rows come last,
 * so requests cannot wait for each other in a circle. It is the table of document and target types that
 * makes this true: a LOT target next to a goods-issue line would deadlock.
 */
module LockOrder {
  import opened Results
  import opened IssueRules

  datatype Table =
    | SERIAL_ROWS | UNIT_ROWS | UNIT_CONTENT_ROWS | MOLD_ROWS | LOCATION_ROWS | GOODS_ISSUE_ROWS
    | RESULT_ROWS | INSPECTION_REQUEST_ROWS | ALLOCATION_ROWS | SHIPPING_UNIT_ROWS | LOT_ROWS

  function Rank(table: Table): nat {
    match table
    case SERIAL_ROWS => 0
    case UNIT_ROWS => 1
    case UNIT_CONTENT_ROWS => 2
    case MOLD_ROWS => 3
    case LOCATION_ROWS => 4
    case GOODS_ISSUE_ROWS => 5
    case RESULT_ROWS => 6
    case INSPECTION_REQUEST_ROWS => 7
    case ALLOCATION_ROWS => 8
    case SHIPPING_UNIT_ROWS => 9
    case LOT_ROWS => 10
  }

  /** A row; a row of a handling unit's contents is known by the unit and its own id. */
  datatype Resource = Resource(table: Table, id: int, part: int)

  predicate Less(a: Resource, b: Resource) {
    if a.table != b.table then Rank(a.table) < Rank(b.table)
    else if a.id != b.id then a.id < b.id
    else a.part < b.part
  }

  ghost predicate Increasing(trace: seq<Resource>) {
    forall i, j :: 0 <= i < j < |trace| ==> Less(trace[i], trace[j])
  }

  // ----- ids in ascending order, each once

  predicate Ascending(ids: seq<int>) {
    forall i, j :: 0 <= i < j < |ids| ==> ids[i] < ids[j]
  }

  lemma PrependAscending(first: int, rest: seq<int>)
    requires Ascending(rest) && forall x :: x in rest ==> first < x
    ensures Ascending([first] + rest) && forall x :: x in [first] + rest <==> x == first || x in rest
  {
    assert forall i :: 0 <= i < |rest| ==> rest[i] in rest;
  }

  lemma TailAscending(ids: seq<int>)
    requires Ascending(ids) && ids != []
    ensures Ascending(ids[1..]) && forall x :: x in ids[1..] ==> ids[0] < x
    ensures forall x :: x in ids <==> x == ids[0] || x in ids[1..]
  {
    assert ids == [ids[0]] + ids[1..];
  }

  function InsertId(ids: seq<int>, id: int): (r: seq<int>)
    requires Ascending(ids)
    ensures Ascending(r)
    ensures forall x :: x in r <==> x in ids || x == id
  {
    if ids == [] then [id]
    else
      TailAscending(ids);
      if id == ids[0] then ids
      else if id < ids[0] then
        assert forall x :: x in ids ==> id < x;
        PrependAscending(id, ids);
        [id] + ids
      else
        var rest := InsertId(ids[1..], id);
        PrependAscending(ids[0], rest);
        [ids[0]] + rest
  }

  function UniqueSorted(ids: seq<int>): (r: seq<int>)
    ensures Ascending(r)
    ensures forall x :: x in r <==> x in ids
  {
    if ids == [] then []
    else
      assert ids == [ids[0]] + ids[1..];
      InsertId(UniqueSorted(ids[1..]), ids[0])
  }

  function RawIds(targets: seq<Target>, kind: TargetType): (r: seq<int>)
    ensures forall x :: x in r <==> Target(kind, x) in targets
  {
    if targets == [] then []
    else
      assert targets == [targets[0]] + targets[1..];
      (if targets[0].kind == kind then [targets[0].id] else []) + RawIds(targets[1..], kind)
  }

  function IdsOf(targets: seq<Target>, kind: TargetType): seq<int> {
    UniqueSorted(RawIds(targets, kind))
  }

  lemma {:induction false} NoIds(targets: seq<Target>, kind: TargetType)
    requires forall i :: 0 <= i < |targets| ==> targets[i].kind != kind
    ensures RawIds(targets, kind) == [] && IdsOf(targets, kind) == []
  {
    if targets != [] { NoIds(targets[1..], kind); }
  }

  // ----- what the statements of one request read

  datatype Path = Path(header: int, lot: int)

  /**
   * `rows` are the rows there are to lock; a goods-issue line is read before and again after its header
   * is locked.
   */
  datatype Db = Db(rows: set<Resource>, contents: map<int, seq<int>>, lines: map<int, Path>, linesAgain: map<int, Path>,
                   requestOf: map<int, int>, lotOf: map<int, Option<int>>)

  function Existing(db: Db, table: Table, ids: seq<int>): seq<Resource> {
    if ids == [] then []
    else
      (if Resource(table, ids[0], 0) in db.rows then [Resource(table, ids[0], 0)] else [])
      + Existing(db, table, ids[1..])
  }

  function ContentRows(unit: int, parts: seq<int>): seq<Resource> {
    if parts == [] then [] else [Resource(UNIT_CONTENT_ROWS, unit, parts[0])] + ContentRows(unit, parts[1..])
  }

  function Contents(db: Db, units: seq<int>): seq<Resource> {
    if units == [] then []
    else
      (if units[0] in db.contents then ContentRows(units[0], UniqueSorted(db.contents[units[0]])) else [])
      + Contents(db, units[1..])
  }

  /** What a map holds for these ids, in their order. */
  function Looked<V>(table: map<int, V>, ids: seq<int>): seq<V> {
    if ids == [] then [] else (if ids[0] in table then [table[ids[0]]] else []) + Looked(table, ids[1..])
  }

  function Present<V>(options: seq<Option<V>>): seq<V> {
    if options == [] then [] else (if options[0].Some? then [options[0].value] else []) + Present(options[1..])
  }

  function Headers(paths: seq<Path>): seq<int> {
    if paths == [] then [] else [paths[0].header] + Headers(paths[1..])
  }

  function Lots(paths: seq<Path>): seq<int> {
    if paths == [] then [] else [paths[0].lot] + Lots(paths[1..])
  }

  function RowIds(rows: seq<Resource>): seq<int> {
    if rows == [] then [] else [rows[0].id] + RowIds(rows[1..])
  }

  // ----- the locks each step takes, and how it ends

  datatype Outcome = Locked | Moved | Broken

  function SimpleTrace(db: Db, doc: DocumentType, targets: seq<Target>): seq<Resource> {
    Existing(db, LOT_ROWS, IdsOf(targets, LOT))
    + Existing(db, SERIAL_ROWS, IdsOf(targets, SERIAL_NUMBER))
    + Existing(db, UNIT_ROWS, IdsOf(targets, HANDLING_UNIT))
    + (if doc == GOODS_ISSUE_QR then Contents(db, IdsOf(targets, HANDLING_UNIT)) else [])
    + Existing(db, MOLD_ROWS, IdsOf(targets, MOLD))
    + Existing(db, LOCATION_ROWS, IdsOf(targets, LOCATION))
  }

  function GoodsIssueTrace(db: Db, lines: seq<int>): (seq<Resource>, Outcome) {
    var first := Looked(db.lines, lines);
    if first == [] then ([], Locked)
    else
      var headerIds := UniqueSorted(Headers(first));
      var headers := Existing(db, GOODS_ISSUE_ROWS, headerIds);
      var again := Looked(db.linesAgain, lines);
      var lotIds := UniqueSorted(Lots(again));
      var lots := Existing(db, LOT_ROWS, lotIds);
      if |headers| != |headerIds| || !SamePaths(db, lines) then (headers, Moved)
      else (headers + lots, if |lots| == |lotIds| then Locked else Moved)
  }

  /** Both reads find the same lines on the same headers and lots. */
  predicate SamePaths(db: Db, lines: seq<int>) {
    forall i :: 0 <= i < |lines| ==>
      && (lines[i] in db.lines <==> lines[i] in db.linesAgain)
      && (lines[i] in db.lines && lines[i] in db.linesAgain ==> db.lines[lines[i]] == db.linesAgain[lines[i]])
  }

  function InspectionTrace(db: Db, resultIds: seq<int>): (seq<Resource>, Outcome) {
    var results := Existing(db, RESULT_ROWS, resultIds);
    if results == [] then ([], Locked)
    else
      var requestIds := UniqueSorted(Looked(db.requestOf, RowIds(results)));
      var requests := Existing(db, INSPECTION_REQUEST_ROWS, requestIds);
      if |requests| != |requestIds| then (results + requests, Broken)
      else
        var lotIds := UniqueSorted(Present(Looked(db.lotOf, requestIds)));
        var lots := Existing(db, LOT_ROWS, lotIds);
        (results + requests + lots, if |lots| == |lotIds| then Locked else Broken)
  }

  /** The steps one after the other, as far as none fails. */
  function Chain(simple: seq<Resource>, goods: (seq<Resource>, Outcome), inspection: (seq<Resource>, Outcome),
                 allocations: seq<Resource>, units: seq<Resource>): (seq<Resource>, Outcome)
  {
    if goods.1 != Locked then (simple + goods.0, goods.1)
    else if inspection.1 != Locked then (simple + goods.0 + inspection.0, inspection.1)
    else (simple + goods.0 + inspection.0 + allocations + units, Locked)
  }

  function Trace(db: Db, doc: DocumentType, targets: seq<Target>): (seq<Resource>, Outcome) {
    Chain(SimpleTrace(db, doc, targets), GoodsIssueTrace(db, IdsOf(targets, GOODS_ISSUE_LINE)),
          InspectionTrace(db, IdsOf(targets, INSPECTION_RESULT)),
          Existing(db, ALLOCATION_ROWS, IdsOf(targets, SHIPMENT_LOT_ALLOCATION)),
          Existing(db, SHIPPING_UNIT_ROWS, IdsOf(targets, SHIPPING_UNIT)))
  }

  // ----- what a request asks for, row by row

  /** The table whose rows a target of this kind is; a goods-issue line itself is read, not locked. */
  predicate IsTableOf(table: Table, kind: TargetType) {
    || (table == LOT_ROWS && kind == LOT)
    || (table == SERIAL_ROWS && kind == SERIAL_NUMBER)
    || (table == UNIT_ROWS && kind == HANDLING_UNIT)
    || (table == MOLD_ROWS && kind == MOLD)
    || (table == LOCATION_ROWS && kind == LOCATION)
    || (table == RESULT_ROWS && kind == INSPECTION_RESULT)
    || (table == ALLOCATION_ROWS && kind == SHIPMENT_LOT_ALLOCATION)
    || (table == SHIPPING_UNIT_ROWS && kind == SHIPPING_UNIT)
  }

  predicate IsRow(db: Db, table: Table, id: int) {
    Resource(table, id, 0) in db.rows
  }

  /** A target itself. */
  predicate IsTarget(db: Db, targets: seq<Target>, r: Resource) {
    r.part == 0 && r in db.rows && exists t :: t in targets && t.id == r.id && IsTableOf(r.table, t.kind)
  }

  /** A content row of a handling unit on a goods-issue document. */
  predicate IsContent(db: Db, doc: DocumentType, targets: seq<Target>, r: Resource) {
    && doc == GOODS_ISSUE_QR && r.table == UNIT_CONTENT_ROWS
    && Target(HANDLING_UNIT, r.id) in targets && r.id in db.contents && r.part in db.contents[r.id]
  }

  predicate NamedLine(db: Db, targets: seq<Target>, line: int) {
    Target(GOODS_ISSUE_LINE, line) in targets && line in db.lines
  }

  /** The header or the lot of a goods-issue line. */
  predicate IsOfLine(db: Db, targets: seq<Target>, r: Resource) {
    && r.part == 0 && r in db.rows
    && exists line :: line in db.lines && NamedLine(db, targets, line)
                      && (|| (r.table == GOODS_ISSUE_ROWS && r.id == db.lines[line].header)
                          || (r.table == LOT_ROWS && r.id == db.lines[line].lot))
  }

  /** An inspection result that exists, on this request. */
  predicate NamedResult(db: Db, targets: seq<Target>, result: int, request: int) {
    && Target(INSPECTION_RESULT, result) in targets && IsRow(db, RESULT_ROWS, result)
    && result in db.requestOf && db.requestOf[result] == request
  }

  /** The request of an inspection result, or the lot of that request. */
  predicate IsOfResult(db: Db, targets: seq<Target>, r: Resource) {
    && r.part == 0 && r in db.rows
    && exists result :: result in db.requestOf && NamedResult(db, targets, result, db.requestOf[result])
                        && (|| (r.table == INSPECTION_REQUEST_ROWS && r.id == db.requestOf[result])
                            || (r.table == LOT_ROWS && HasLot(db, db.requestOf[result], r.id)))
  }

  predicate HasLot(db: Db, request: int, lot: int) {
    request in db.lotOf && db.lotOf[request] == Some(lot)
  }

  predicate AskedFor(db: Db, doc: DocumentType, targets: seq<Target>, r: Resource) {
    IsTarget(db, targets, r) || IsContent(db, doc, targets, r) || IsOfLine(db, targets, r) || IsOfResult(db, targets, r)
  }

  /** The second read of a line does not give what the first one gave. */
  predicate ReadsDiffer(db: Db, line: int) {
    || (line in db.lines && line !in db.linesAgain)
    || (line !in db.lines && line in db.linesAgain)
    || (line in db.lines && line in db.linesAgain && db.lines[line] != db.linesAgain[line])
  }

  /** Some line was there at first, and since then a named line changed or the header or lot of one is gone. */
  ghost predicate LinesMoved(db: Db, targets: seq<Target>) {
    && (exists line :: NamedLine(db, targets, line))
    && (|| (exists line :: Target(GOODS_ISSUE_LINE, line) in targets && ReadsDiffer(db, line))
        || (exists line :: NamedLine(db, targets, line) && LineBroken(db, line)))
  }

  predicate LineBroken(db: Db, line: int)
    requires line in db.lines
  {
    !IsRow(db, GOODS_ISSUE_ROWS, db.lines[line].header) || !IsRow(db, LOT_ROWS, db.lines[line].lot)
  }

  /** An inspection result whose request, or whose request's lot, cannot be found. */
  ghost predicate ResultsBroken(db: Db, targets: seq<Target>) {
    exists result, request :: NamedResult(db, targets, result, request) && RequestBroken(db, request)
  }

  predicate RequestBroken(db: Db, request: int) {
    || !IsRow(db, INSPECTION_REQUEST_ROWS, request)
    || (request in db.lotOf && db.lotOf[request].Some? && !IsRow(db, LOT_ROWS, db.lotOf[request].value))
  }

  /** The statements of one transaction, each locking the rows it finds in the order it lists them. */
  class Session {
    const db: Db
    var held: seq<Resource>

    constructor (db: Db)
      ensures this.db == db && held == []
    {
      this.db := db;
      held := [];
    }

    method LockRows(table: Table, ids: seq<int>) returns (found: seq<Resource>)
      modifies this
      ensures held == old(held) + found && found == Existing(db, table, ids)
    {
      found := [];
      for i := 0 to |ids|
        invariant held == old(held) + found
        invariant found + Existing(db, table, ids[i..]) == Existing(db, table, ids)
      {
        assert ids[i..][1..] == ids[i + 1..];
        if Resource(table, ids[i], 0) in db.rows {
          held := held + [Resource(table, ids[i], 0)];
          found := found + [Resource(table, ids[i], 0)];
        }
      }
    }

    method LockSimple(doc: DocumentType, targets: seq<Target>)
      modifies this
      ensures held == old(held) + SimpleTrace(db, doc, targets)
      ensures IdsOf(targets, LOT) == [] ==> Increasing(held[|old(held)|..])
    {
      hide Existing, Contents, IdsOf, Increasing;
      StepsIncrease(db, doc, targets, [], []);
      Appended(held, SimpleTrace(db, doc, targets));
      var _ := LockRows(LOT_ROWS, IdsOf(targets, LOT));
      var _ := LockRows(SERIAL_ROWS, IdsOf(targets, SERIAL_NUMBER));
      var units := IdsOf(targets, HANDLING_UNIT);
      var _ := LockRows(UNIT_ROWS, units);
      if doc == GOODS_ISSUE_QR {
        held := held + Contents(db, units);
      }
      var _ := LockRows(MOLD_ROWS, IdsOf(targets, MOLD));
      var _ := LockRows(LOCATION_ROWS, IdsOf(targets, LOCATION));
    }

    method LockGoodsIssues(lines: seq<int>) returns (outcome: Outcome)
      modifies this
      ensures held == old(held) + GoodsIssueTrace(db, lines).0 && outcome == GoodsIssueTrace(db, lines).1
      ensures Increasing(held[|old(held)|..])
    {
      hide Existing, UniqueSorted, SamePaths, Increasing;
      StepsIncrease(db, GOODS_ISSUE_QR, [], lines, []);
      Appended(held, GoodsIssueTrace(db, lines).0);
      var first := Looked(db.lines, lines);
      if first == [] {
        return Locked;
      }
      var headerIds := UniqueSorted(Headers(first));
      var headers := LockRows(GOODS_ISSUE_ROWS, headerIds);
      if |headers| != |headerIds| {
        return Moved;
      }
      if !SamePaths(db, lines) {
        return Moved;
      }
      var lotIds := UniqueSorted(Lots(Looked(db.linesAgain, lines)));
      var lots := LockRows(LOT_ROWS, lotIds);
      outcome := if |lots| == |lotIds| then Locked else Moved;
    }

    method LockInspections(resultIds: seq<int>) returns (outcome: Outcome)
      modifies this
      ensures held == old(held) + InspectionTrace(db, resultIds).0 && outcome == InspectionTrace(db, resultIds).1
      ensures Ascending(resultIds) ==> Increasing(held[|old(held)|..])
    {
      hide Existing, UniqueSorted, Increasing, Ascending;
      StepsIncrease(db, CERTIFICATE_OF_ANALYSIS, [], [], resultIds);
      Appended(held, InspectionTrace(db, resultIds).0);
      var results := LockRows(RESULT_ROWS, resultIds);
      if results == [] {
        return Locked;
      }
      var requestIds := UniqueSorted(Looked(db.requestOf, RowIds(results)));
      var requests := LockRows(INSPECTION_REQUEST_ROWS, requestIds);
      if |requests| != |requestIds| {
        return Broken;
      }
      var lotIds := UniqueSorted(Present(Looked(db.lotOf, requestIds)));
      var lots := [];
      if |lotIds| > 0 {
        lots := LockRows(LOT_ROWS, lotIds);
      } else {
        NothingToLock(db, LOT_ROWS, lotIds);
      }
      outcome := if |lots| == |lotIds| then Locked else Broken;
    }

    method LockAll(doc: DocumentType, targets: seq<Target>) returns (outcome: Outcome)
      modifies this
      ensures held == old(held) + Trace(db, doc, targets).0 && outcome == Trace(db, doc, targets).1
      ensures Supported(doc, targets) ==> Increasing(held[|old(held)|..])
      ensures outcome == Moved <==> LinesMoved(db, targets)
      ensures outcome == Broken <==> !LinesMoved(db, targets) && ResultsBroken(db, targets)
      ensures forall r :: r in held[|old(held)|..] ==> AskedFor(db, doc, targets, r)
      ensures outcome == Locked ==> forall r :: AskedFor(db, doc, targets, r) ==> r in held[|old(held)|..]
    {
      hide AskedFor, LinesMoved, ResultsBroken;
      LocksWhatIsAskedFor(db, doc, targets);
      hide Existing, IdsOf, SimpleTrace, GoodsIssueTrace, InspectionTrace, Increasing, Supported;
      hide Ascending, Less, Rank, RawIds, UniqueSorted, SupportedTargets;
      if Supported(doc, targets) { TraceIncreases(db, doc, targets); }
      Appended(held, Trace(db, doc, targets).0);
      LockSimple(doc, targets);
      outcome := LockGoodsIssues(IdsOf(targets, GOODS_ISSUE_LINE));
      if outcome != Locked {
        return;
      }
      outcome := LockInspections(IdsOf(targets, INSPECTION_RESULT));
      if outcome != Locked {
        return;
      }
      var _ := LockRows(ALLOCATION_ROWS, IdsOf(targets, SHIPMENT_LOT_ALLOCATION));
      var _ := LockRows(SHIPPING_UNIT_ROWS, IdsOf(targets, SHIPPING_UNIT));
    }
  }

  // ----- the trace locks what is asked for and nothing else

  lemma {:induction false} ExistingAre(db: Db, table: Table, ids: seq<int>)
    ensures forall r :: r in Existing(db, table, ids) <==>
              r.table == table && r.part == 0 && r.id in ids && r in db.rows
    ensures |Existing(db, table, ids)| <= |ids|
    ensures |Existing(db, table, ids)| == |ids| <==> forall id :: id in ids ==> IsRow(db, table, id)
  {
    if ids != [] {
      ExistingAre(db, table, ids[1..]);
      assert ids == [ids[0]] + ids[1..];
      assert (forall id :: id in ids ==> IsRow(db, table, id)) <==>
             IsRow(db, table, ids[0]) && forall id :: id in ids[1..] ==> IsRow(db, table, id);
    }
  }

  lemma {:induction false} ContentRowsAre(unit: int, parts: seq<int>)
    ensures forall r :: r in ContentRows(unit, parts) <==>
              r.table == UNIT_CONTENT_ROWS && r.id == unit && r.part in parts
  {
    if parts != [] {
      ContentRowsAre(unit, parts[1..]);
      assert parts == [parts[0]] + parts[1..];
    }
  }

  lemma {:induction false} ContentsAre(db: Db, units: seq<int>)
    ensures forall r :: r in Contents(db, units) <==>
              r.table == UNIT_CONTENT_ROWS && r.id in units && r.id in db.contents && r.part in db.contents[r.id]
  {
    if units != [] {
      ContentsAre(db, units[1..]);
      assert units == [units[0]] + units[1..];
      if units[0] in db.contents {
        ContentRowsAre(units[0], UniqueSorted(db.contents[units[0]]));
      }
      hide ContentRows;
    }
  }

  predicate IsAt<V(==)>(table: map<int, V>, id: int, v: V) {
    id in table && table[id] == v
  }

  lemma {:induction false} LookedIs<V>(table: map<int, V>, ids: seq<int>, v: V)
    ensures v in Looked(table, ids) <==> exists id :: id in ids && IsAt(table, id, v)
  {
    if ids != [] {
      var rest := ids[1..];
      LookedIs(table, rest, v);
      assert forall id :: id in ids <==> id == ids[0] || id in rest by {
        assert ids == [ids[0]] + rest;
      }
      assert v in Looked(table, ids) <==> IsAt(table, ids[0], v) || v in Looked(table, rest);
    }
  }

  lemma LookedAre<V(!new)>(table: map<int, V>, ids: seq<int>)
    ensures forall v :: v in Looked(table, ids) <==> exists id :: id in ids && id in table && table[id] == v
  {
    forall v ensures v in Looked(table, ids) <==> exists id :: id in ids && id in table && table[id] == v {
      LookedIs(table, ids, v);
    }
  }

  lemma {:induction false} HeadersAre(paths: seq<Path>)
    ensures forall x :: x in Headers(paths) <==> exists p :: p in paths && p.header == x
    ensures forall x :: x in Lots(paths) <==> exists p :: p in paths && p.lot == x
  {
    if paths != [] {
      HeadersAre(paths[1..]);
      assert paths == [paths[0]] + paths[1..];
    }
  }

  lemma {:induction false} RowIdsAre(rows: seq<Resource>)
    ensures forall x :: x in RowIds(rows) <==> exists r :: r in rows && r.id == x
  {
    if rows != [] {
      RowIdsAre(rows[1..]);
      assert rows == [rows[0]] + rows[1..];
    }
  }

  lemma {:induction false} PresentAre(options: seq<Option<int>>)
    ensures forall x :: x in Present(options) <==> Some(x) in options
  {
    if options != [] {
      PresentAre(options[1..]);
      assert options == [options[0]] + options[1..];
    }
  }

  lemma IdsAre(targets: seq<Target>, kind: TargetType)
    ensures forall x :: x in IdsOf(targets, kind) <==> Target(kind, x) in targets
  {
  }

  predicate IsKind(db: Db, targets: seq<Target>, r: Resource, kind: TargetType) {
    r.part == 0 && r in db.rows && IsTableOf(r.table, kind) && Target(kind, r.id) in targets
  }

  /** A target of one of the five kinds of the simple step. */
  predicate IsSimple(db: Db, targets: seq<Target>, r: Resource) {
    || IsKind(db, targets, r, LOT) || IsKind(db, targets, r, SERIAL_NUMBER) || IsKind(db, targets, r, HANDLING_UNIT)
    || IsKind(db, targets, r, MOLD) || IsKind(db, targets, r, LOCATION)
  }

  lemma KindsAre(db: Db, targets: seq<Target>, r: Resource)
    ensures IsTarget(db, targets, r) <==>
            || IsSimple(db, targets, r) || IsKind(db, targets, r, INSPECTION_RESULT)
            || IsKind(db, targets, r, SHIPMENT_LOT_ALLOCATION) || IsKind(db, targets, r, SHIPPING_UNIT)
  {
    if IsTarget(db, targets, r) {
      var t :| t in targets && t.id == r.id && IsTableOf(r.table, t.kind);
      assert t == Target(t.kind, r.id);
      assert IsKind(db, targets, r, t.kind);
    }
  }

  lemma KindRows(db: Db, targets: seq<Target>, table: Table, kind: TargetType)
    requires IsTableOf(table, kind)
    ensures forall r :: r in Existing(db, table, IdsOf(targets, kind)) <==> IsKind(db, targets, r, kind)
  {
    hide Existing, IdsOf;
    IdsAre(targets, kind);
    ExistingAre(db, table, IdsOf(targets, kind));
  }

  /** The simple step locks the targets of its five kinds and, where the document asks for them, the contents. */
  lemma SimpleAre(db: Db, doc: DocumentType, targets: seq<Target>)
    ensures forall r :: r in SimpleTrace(db, doc, targets) <==>
              IsSimple(db, targets, r) || IsContent(db, doc, targets, r)
  {
    hide Existing, Contents, IdsOf, IsKind;
    KindRows(db, targets, LOT_ROWS, LOT);
    KindRows(db, targets, SERIAL_ROWS, SERIAL_NUMBER);
    KindRows(db, targets, UNIT_ROWS, HANDLING_UNIT);
    KindRows(db, targets, MOLD_ROWS, MOLD);
    KindRows(db, targets, LOCATION_ROWS, LOCATION);
    IdsAre(targets, HANDLING_UNIT);
    ContentsAre(db, IdsOf(targets, HANDLING_UNIT));
  }

  lemma PathsAre(db: Db, targets: seq<Target>, lines: seq<int>, table: map<int, Path>)
    requires forall x :: x in lines <==> Target(GOODS_ISSUE_LINE, x) in targets
    ensures Looked(table, lines) == [] <==> forall line :: line in lines ==> line !in table
    ensures forall x :: x in Headers(Looked(table, lines)) <==>
              exists line :: line in lines && line in table && table[line].header == x
    ensures forall x :: x in Lots(Looked(table, lines)) <==>
              exists line :: line in lines && line in table && table[line].lot == x
  {
    var paths := Looked(table, lines);
    LookedAre(table, lines);
    HeadersAre(paths);
    hide Looked, Headers, Lots;
    if paths != [] { assert paths[0] in paths; }
    forall line | line in lines && line in table ensures table[line] in paths {
    }
  }

  lemma SameIs(db: Db, targets: seq<Target>, lines: seq<int>)
    requires forall x :: x in lines <==> Target(GOODS_ISSUE_LINE, x) in targets
    ensures SamePaths(db, lines) <==>
            !exists line :: Target(GOODS_ISSUE_LINE, line) in targets && ReadsDiffer(db, line)
  {
    if exists line :: Target(GOODS_ISSUE_LINE, line) in targets && ReadsDiffer(db, line) {
      var line :| Target(GOODS_ISSUE_LINE, line) in targets && ReadsDiffer(db, line);
      assert line in lines;
    } else {
      forall i | 0 <= i < |lines| ensures !ReadsDiffer(db, lines[i]) {
        assert lines[i] in lines;
      }
    }
  }

  ghost predicate NoHeaderMissing(db: Db, targets: seq<Target>) {
    forall line :: NamedLine(db, targets, line) ==> IsRow(db, GOODS_ISSUE_ROWS, db.lines[line].header)
  }

  ghost predicate NoLotMissing(db: Db, targets: seq<Target>) {
    forall line :: NamedLine(db, targets, line) ==> IsRow(db, LOT_ROWS, db.lines[line].lot)
  }

  /** The headers that can be locked: those of the lines of the first read. */
  lemma HeadersFound(db: Db, targets: seq<Target>, lines: seq<int>, ids: seq<int>)
    requires forall x :: x in lines <==> Target(GOODS_ISSUE_LINE, x) in targets
    requires ids == UniqueSorted(Headers(Looked(db.lines, lines)))
    ensures |Existing(db, GOODS_ISSUE_ROWS, ids)| == |ids| <==> NoHeaderMissing(db, targets)
    ensures forall r :: r in Existing(db, GOODS_ISSUE_ROWS, ids) <==>
              r.table == GOODS_ISSUE_ROWS && IsOfLine(db, targets, r)
  {
    PathsAre(db, targets, lines, db.lines);
    ExistingAre(db, GOODS_ISSUE_ROWS, ids);
    assert forall x :: x in ids <==> exists line :: NamedLine(db, targets, line) && db.lines[line].header == x;
    hide Existing, UniqueSorted, Looked, Headers, IsRow;
  }

  /** The lots, when the second read is the first one again. */
  lemma LotsFound(db: Db, targets: seq<Target>, lines: seq<int>, ids: seq<int>)
    requires forall x :: x in lines <==> Target(GOODS_ISSUE_LINE, x) in targets
    requires ids == UniqueSorted(Lots(Looked(db.linesAgain, lines)))
    requires !exists line :: Target(GOODS_ISSUE_LINE, line) in targets && ReadsDiffer(db, line)
    ensures |Existing(db, LOT_ROWS, ids)| == |ids| <==> NoLotMissing(db, targets)
    ensures forall r :: r in Existing(db, LOT_ROWS, ids) <==> r.table == LOT_ROWS && IsOfLine(db, targets, r)
  {
    PathsAre(db, targets, lines, db.linesAgain);
    ExistingAre(db, LOT_ROWS, ids);
    forall x ensures x in ids <==> exists line :: NamedLine(db, targets, line) && db.lines[line].lot == x {
      if line :| NamedLine(db, targets, line) && db.lines[line].lot == x {
        assert Target(GOODS_ISSUE_LINE, line) in targets && !ReadsDiffer(db, line);
      }
      if x in ids {
        var line :| line in lines && line in db.linesAgain && db.linesAgain[line].lot == x;
        assert Target(GOODS_ISSUE_LINE, line) in targets && !ReadsDiffer(db, line);
        assert NamedLine(db, targets, line);
      }
    }
    hide Existing, UniqueSorted, Looked, Lots, IsRow, ReadsDiffer;
  }

  /** Whether the goods-issue step succeeds, in its three conditions. */
  lemma MovedWhen(db: Db, targets: seq<Target>)
    ensures LinesMoved(db, targets) <==>
            && (exists line :: NamedLine(db, targets, line))
            && (|| !NoHeaderMissing(db, targets) || !NoLotMissing(db, targets)
                || exists line :: Target(GOODS_ISSUE_LINE, line) in targets && ReadsDiffer(db, line))
  {
    hide IsRow, ReadsDiffer;
  }

  /** The goods-issue step locks the headers and lots of the named lines, and says when it cannot. */
  lemma GoodsIssuesAre(db: Db, targets: seq<Target>)
    ensures GoodsIssueTrace(db, IdsOf(targets, GOODS_ISSUE_LINE)).1
         == if LinesMoved(db, targets) then Moved else Locked
    ensures forall r :: r in GoodsIssueTrace(db, IdsOf(targets, GOODS_ISSUE_LINE)).0 ==> IsOfLine(db, targets, r)
    ensures !LinesMoved(db, targets) ==>
              forall r :: IsOfLine(db, targets, r) ==> r in GoodsIssueTrace(db, IdsOf(targets, GOODS_ISSUE_LINE)).0
  {
    var lines := IdsOf(targets, GOODS_ISSUE_LINE);
    IdsAre(targets, GOODS_ISSUE_LINE);
    PathsAre(db, targets, lines, db.lines);
    SameIs(db, targets, lines);
    MovedWhen(db, targets);
    HeadersFound(db, targets, lines, UniqueSorted(Headers(Looked(db.lines, lines))));
    if SamePaths(db, lines) {
      LotsFound(db, targets, lines, UniqueSorted(Lots(Looked(db.linesAgain, lines))));
    }
    hide Existing, UniqueSorted, Looked, Headers, Lots, IdsOf, SamePaths, LinesMoved;
    hide NoHeaderMissing, NoLotMissing, ReadsDiffer;
  }

  lemma ResultRequests(db: Db, targets: seq<Target>, resultIds: seq<int>, ids: seq<int>)
    requires forall x :: x in resultIds <==> Target(INSPECTION_RESULT, x) in targets
    requires ids == UniqueSorted(Looked(db.requestOf, RowIds(Existing(db, RESULT_ROWS, resultIds))))
    ensures forall x :: x in ids <==> exists result :: NamedResult(db, targets, result, x)
    ensures Existing(db, RESULT_ROWS, resultIds) == [] ==> ids == []
  {
    var results := Existing(db, RESULT_ROWS, resultIds);
    ExistingAre(db, RESULT_ROWS, resultIds);
    RowIdsAre(results);
    LookedAre(db.requestOf, RowIds(results));
    hide Existing, RowIds, Looked, UniqueSorted;
    forall x ensures x in RowIds(results) <==> Target(INSPECTION_RESULT, x) in targets && IsRow(db, RESULT_ROWS, x) {
      if x in RowIds(results) {
        var r :| r in results && r.id == x;
      }
      if Target(INSPECTION_RESULT, x) in targets && IsRow(db, RESULT_ROWS, x) {
        assert Resource(RESULT_ROWS, x, 0) in results;
      }
    }
    forall x ensures x in ids <==> exists result :: NamedResult(db, targets, result, x) {
      if x in ids {
        var result :| result in RowIds(results) && result in db.requestOf && db.requestOf[result] == x;
        assert NamedResult(db, targets, result, x);
      }
      if result :| NamedResult(db, targets, result, x) {
        assert result in RowIds(results);
      }
    }
    if results == [] && ids != [] {
      assert ids[0] in ids;
    }
  }

  ghost predicate NoRequestMissing(db: Db, requestIds: seq<int>) {
    forall request :: request in requestIds ==> IsRow(db, INSPECTION_REQUEST_ROWS, request)
  }

  lemma RequestLots(db: Db, requestIds: seq<int>, ids: seq<int>)
    requires ids == UniqueSorted(Present(Looked(db.lotOf, requestIds)))
    ensures forall x :: x in ids <==> exists request :: request in requestIds && HasLot(db, request, x)
  {
    LookedAre(db.lotOf, requestIds);
    PresentAre(Looked(db.lotOf, requestIds));
    hide Present, Looked, UniqueSorted;
  }

  lemma BrokenWhen(db: Db, targets: seq<Target>, requestIds: seq<int>)
    requires forall x :: x in requestIds <==> exists result :: NamedResult(db, targets, result, x)
    ensures ResultsBroken(db, targets) <==>
            || !NoRequestMissing(db, requestIds)
            || exists request, lot :: request in requestIds && HasLot(db, request, lot) && !IsRow(db, LOT_ROWS, lot)
  {
    hide NamedResult, IsRow;
    if ResultsBroken(db, targets) {
      var result, request :| NamedResult(db, targets, result, request) && RequestBroken(db, request);
      assert request in requestIds;
      if IsRow(db, INSPECTION_REQUEST_ROWS, request) {
        assert HasLot(db, request, db.lotOf[request].value);
      }
    }
  }

  /** The inspection step locks results, requests and lots, and says when one cannot be found. */
  lemma InspectionsAre(db: Db, targets: seq<Target>)
    ensures InspectionTrace(db, IdsOf(targets, INSPECTION_RESULT)).1
         == if ResultsBroken(db, targets) then Broken else Locked
    ensures forall r :: r in InspectionTrace(db, IdsOf(targets, INSPECTION_RESULT)).0 ==>
              IsKind(db, targets, r, INSPECTION_RESULT) || IsOfResult(db, targets, r)
    ensures !ResultsBroken(db, targets) ==>
              forall r :: IsKind(db, targets, r, INSPECTION_RESULT) || IsOfResult(db, targets, r) ==>
                r in InspectionTrace(db, IdsOf(targets, INSPECTION_RESULT)).0
  {
    hide Existing, UniqueSorted, Looked, RowIds, Present, IdsOf, ResultsBroken, NamedResult, IsKind, IsOfResult, HasLot;
    var resultIds := IdsOf(targets, INSPECTION_RESULT);
    var results := Existing(db, RESULT_ROWS, resultIds);
    var requestIds := UniqueSorted(Looked(db.requestOf, RowIds(results)));
    var lotIds := UniqueSorted(Present(Looked(db.lotOf, requestIds)));
    IdsAre(targets, INSPECTION_RESULT);
    KindRows(db, targets, RESULT_ROWS, INSPECTION_RESULT);
    ResultRequests(db, targets, resultIds, requestIds);
    RequestLots(db, requestIds, lotIds);
    BrokenWhen(db, targets, requestIds);
    ExistingAre(db, INSPECTION_REQUEST_ROWS, requestIds);
    ExistingAre(db, LOT_ROWS, lotIds);
    ResultRowsAre(db, targets, requestIds, lotIds);
  }

  /** The rows behind the results are those found for the request and lot ids. */
  lemma ResultRowsAre(db: Db, targets: seq<Target>, requestIds: seq<int>, lotIds: seq<int>)
    requires forall x :: x in requestIds <==> exists result :: NamedResult(db, targets, result, x)
    requires forall x :: x in lotIds <==> exists request :: request in requestIds && HasLot(db, request, x)
    ensures forall r :: IsOfResult(db, targets, r) <==>
              && r.part == 0 && r in db.rows
              && (|| (r.table == INSPECTION_REQUEST_ROWS && r.id in requestIds)
                  || (r.table == LOT_ROWS && r.id in lotIds))
  {
    hide IsRow, HasLot;
    forall r ensures IsOfResult(db, targets, r) <==>
                     && r.part == 0 && r in db.rows
                     && (|| (r.table == INSPECTION_REQUEST_ROWS && r.id in requestIds)
                         || (r.table == LOT_ROWS && r.id in lotIds)) {
      if r.table == LOT_ROWS && r.id in lotIds {
        var request :| request in requestIds && HasLot(db, request, r.id);
        var result :| NamedResult(db, targets, result, request);
      }
    }
  }

  /**
   * What the lock phase does, row by row: it ends Moved exactly when a line moved, else Broken exactly when a
   * result is broken; locked rows are rows asked for, and when it ends Locked all of them are.
   */
  lemma LocksWhatIsAskedFor(db: Db, doc: DocumentType, targets: seq<Target>)
    ensures Trace(db, doc, targets).1 == Moved <==> LinesMoved(db, targets)
    ensures Trace(db, doc, targets).1 == Broken <==> !LinesMoved(db, targets) && ResultsBroken(db, targets)
    ensures forall r :: r in Trace(db, doc, targets).0 ==> AskedFor(db, doc, targets, r)
    ensures Trace(db, doc, targets).1 == Locked ==>
              forall r :: AskedFor(db, doc, targets, r) ==> r in Trace(db, doc, targets).0
  {
    hide SimpleTrace, GoodsIssueTrace, InspectionTrace, Existing, IdsOf, IsSimple, IsKind, IsContent, IsTarget;
    hide IsOfLine, IsOfResult, LinesMoved, ResultsBroken;
    SimpleAre(db, doc, targets);
    GoodsIssuesAre(db, targets);
    InspectionsAre(db, targets);
    KindRows(db, targets, ALLOCATION_ROWS, SHIPMENT_LOT_ALLOCATION);
    KindRows(db, targets, SHIPPING_UNIT_ROWS, SHIPPING_UNIT);
    forall r ensures AskedFor(db, doc, targets, r) <==>
                     || IsSimple(db, targets, r) || IsKind(db, targets, r, INSPECTION_RESULT)
                     || IsKind(db, targets, r, SHIPMENT_LOT_ALLOCATION) || IsKind(db, targets, r, SHIPPING_UNIT)
                     || IsContent(db, doc, targets, r) || IsOfLine(db, targets, r) || IsOfResult(db, targets, r) {
      KindsAre(db, targets, r);
    }
    hide AskedFor;
  }

  lemma Appended(before: seq<Resource>, trace: seq<Resource>)
    ensures (before + trace)[|before|..] == trace
  {
  }

  lemma NothingToLock(db: Db, table: Table, ids: seq<int>)
    requires ids == []
    ensures Existing(db, table, ids) == []
  {
  }

  // ----- the order

  ghost predicate Within(trace: seq<Resource>, low: nat, high: nat) {
    forall i :: 0 <= i < |trace| ==> low <= Rank(trace[i].table) <= high
  }

  /** Increasing, and only on tables of these ranks. */
  ghost predicate Ordered(trace: seq<Resource>, low: nat, high: nat) {
    Increasing(trace) && Within(trace, low, high)
  }

  lemma RankIsInjective(a: Table, b: Table)
    ensures Rank(a) == Rank(b) ==> a == b
  {
  }

  lemma Joined(a: seq<Resource>, b: seq<Resource>, low: nat, middle: nat, high: nat)
    requires Ordered(a, low, middle) && Ordered(b, middle + 1, high) && low <= middle < high
    ensures Ordered(a + b, low, high)
  {
    forall i, j | 0 <= i < j < |a + b| ensures Less((a + b)[i], (a + b)[j]) {
      RankIsInjective((a + b)[i].table, (a + b)[j].table);
    }
  }

  lemma {:induction false} ExistingOrdered(db: Db, table: Table, ids: seq<int>)
    requires Ascending(ids)
    ensures Ordered(Existing(db, table, ids), Rank(table), Rank(table))
    ensures forall r :: r in Existing(db, table, ids) ==> r.table == table && r.id in ids && r.part == 0
  {
    if ids != [] {
      ExistingOrdered(db, table, ids[1..]);
      assert ids == [ids[0]] + ids[1..];
    }
  }

  lemma {:induction false} ContentRowsOrdered(unit: int, parts: seq<int>)
    requires Ascending(parts)
    ensures Increasing(ContentRows(unit, parts))
    ensures forall r :: r in ContentRows(unit, parts) ==>
              r.table == UNIT_CONTENT_ROWS && r.id == unit && r.part in parts
  {
    if parts != [] {
      ContentRowsOrdered(unit, parts[1..]);
      assert parts == [parts[0]] + parts[1..];
    }
  }

  lemma {:induction false} ContentsOrdered(db: Db, units: seq<int>)
    requires Ascending(units)
    ensures Ordered(Contents(db, units), 2, 2)
    ensures forall r :: r in Contents(db, units) ==> r.table == UNIT_CONTENT_ROWS && r.id in units
  {
    if units == [] {
      NothingOrdered(2, 2);
    } else {
      ContentsOrdered(db, units[1..]);
      if units[0] in db.contents {
        ContentRowsOrdered(units[0], UniqueSorted(db.contents[units[0]]));
      }
      hide ContentRows, UniqueSorted, Ordered;
      var here := if units[0] in db.contents then ContentRows(units[0], UniqueSorted(db.contents[units[0]])) else [];
      assert units == [units[0]] + units[1..];
      NextUnit(here, Contents(db, units[1..]), units[0], units[1..]);
    }
  }

  lemma NextUnit(here: seq<Resource>, there: seq<Resource>, unit: int, rest: seq<int>)
    requires Increasing(here) && forall r :: r in here ==> r.table == UNIT_CONTENT_ROWS && r.id == unit
    requires Ordered(there, 2, 2) && forall r :: r in there ==> r.table == UNIT_CONTENT_ROWS && r.id in rest
    requires forall x :: x in rest ==> unit < x
    ensures Ordered(here + there, 2, 2)
  {
    forall i, j | 0 <= i < j < |here + there| ensures Less((here + there)[i], (here + there)[j]) {
      if i < |here| && j >= |here| {
        assert here[i] in here && there[j - |here|] in there;
      }
    }
    forall i | 0 <= i < |here + there| ensures (here + there)[i].table == UNIT_CONTENT_ROWS {
      assert (here + there)[i] in here || (here + there)[i] in there;
    }
  }

  lemma Widened(trace: seq<Resource>, low: nat, high: nat, lower: nat, higher: nat)
    requires Ordered(trace, low, high) && lower <= low && high <= higher
    ensures Ordered(trace, lower, higher)
  {
  }

  lemma NothingOrdered(low: nat, high: nat)
    ensures Ordered([], low, high)
  {
  }

  lemma GoodsIssueOrdered(db: Db, lines: seq<int>)
    ensures Ordered(GoodsIssueTrace(db, lines).0, 5, 10)
  {
    hide Existing, UniqueSorted, SamePaths, Looked, Headers, Lots, Ordered;
    var headerIds := UniqueSorted(Headers(Looked(db.lines, lines)));
    var lotIds := UniqueSorted(Lots(Looked(db.linesAgain, lines)));
    ExistingOrdered(db, GOODS_ISSUE_ROWS, headerIds);
    ExistingOrdered(db, LOT_ROWS, lotIds);
    var headers, lots := Existing(db, GOODS_ISSUE_ROWS, headerIds), Existing(db, LOT_ROWS, lotIds);
    NothingOrdered(5, 10);
    Widened(headers, 5, 5, 5, 10);
    Widened(lots, 10, 10, 6, 10);
    Joined(headers, lots, 5, 5, 10);
  }

  lemma InspectionOrdered(db: Db, resultIds: seq<int>)
    requires Ascending(resultIds)
    ensures Ordered(InspectionTrace(db, resultIds).0, 6, 10)
  {
    hide Existing, UniqueSorted, Looked, Present, RowIds, Ordered;
    var results := Existing(db, RESULT_ROWS, resultIds);
    var requestIds := UniqueSorted(Looked(db.requestOf, RowIds(results)));
    var lotIds := UniqueSorted(Present(Looked(db.lotOf, requestIds)));
    ExistingOrdered(db, RESULT_ROWS, resultIds);
    ExistingOrdered(db, INSPECTION_REQUEST_ROWS, requestIds);
    ExistingOrdered(db, LOT_ROWS, lotIds);
    var requests := Existing(db, INSPECTION_REQUEST_ROWS, requestIds);
    var lots := Existing(db, LOT_ROWS, lotIds);
    Joined(results, requests, 6, 6, 7);
    NothingOrdered(6, 10);
    Widened(results + requests, 6, 7, 6, 10);
    Widened(lots, 10, 10, 8, 10);
    Joined(results + requests, lots, 6, 7, 10);
  }

  /** Each step of the lock phase locks in increasing order. */
  lemma StepsIncrease(db: Db, doc: DocumentType, targets: seq<Target>, lines: seq<int>, resultIds: seq<int>)
    ensures IdsOf(targets, LOT) == [] ==> Increasing(SimpleTrace(db, doc, targets))
    ensures Increasing(GoodsIssueTrace(db, lines).0)
    ensures Ascending(resultIds) ==> Increasing(InspectionTrace(db, resultIds).0)
  {
    hide SimpleTrace, GoodsIssueTrace, InspectionTrace, IdsOf, Ascending, Increasing, Within;
    if IdsOf(targets, LOT) == [] { SimpleOrdered(db, doc, targets); }
    GoodsIssueOrdered(db, lines);
    if Ascending(resultIds) { InspectionOrdered(db, resultIds); }
  }

  ghost predicate Supported(doc: DocumentType, targets: seq<Target>) {
    forall i :: 0 <= i < |targets| ==> targets[i].kind in SupportedTargets(doc)
  }

  lemma OnlyKind(doc: DocumentType, targets: seq<Target>, kind: TargetType)
    requires Supported(doc, targets) && SupportedTargets(doc) == {kind}
    ensures forall other :: other != kind ==> IdsOf(targets, other) == []
  {
    hide IdsOf;
    forall other | other != kind ensures IdsOf(targets, other) == [] {
      NoIds(targets, other);
    }
  }

  lemma SimpleOrdered(db: Db, doc: DocumentType, targets: seq<Target>)
    requires IdsOf(targets, LOT) == []
    ensures Ordered(SimpleTrace(db, doc, targets), 0, 4)
  {
    hide Existing, Contents, IdsOf;
    var serials := Existing(db, SERIAL_ROWS, IdsOf(targets, SERIAL_NUMBER));
    var units := Existing(db, UNIT_ROWS, IdsOf(targets, HANDLING_UNIT));
    var contents := if doc == GOODS_ISSUE_QR then Contents(db, IdsOf(targets, HANDLING_UNIT)) else [];
    var molds := Existing(db, MOLD_ROWS, IdsOf(targets, MOLD));
    var locations := Existing(db, LOCATION_ROWS, IdsOf(targets, LOCATION));
    SortedIds(targets);
    ExistingOrdered(db, SERIAL_ROWS, IdsOf(targets, SERIAL_NUMBER));
    ExistingOrdered(db, UNIT_ROWS, IdsOf(targets, HANDLING_UNIT));
    ContentsOrdered(db, IdsOf(targets, HANDLING_UNIT));
    ExistingOrdered(db, MOLD_ROWS, IdsOf(targets, MOLD));
    ExistingOrdered(db, LOCATION_ROWS, IdsOf(targets, LOCATION));
    NothingToLock(db, LOT_ROWS, IdsOf(targets, LOT));
    FiveJoined(serials, units, contents, molds, locations);
    assert SimpleTrace(db, doc, targets) == serials + units + contents + molds + locations;
  }

  lemma SortedIds(targets: seq<Target>)
    ensures forall kind :: Ascending(IdsOf(targets, kind))
  {
  }

  lemma FiveJoined(a: seq<Resource>, b: seq<Resource>, c: seq<Resource>, d: seq<Resource>, e: seq<Resource>)
    requires Ordered(a, 0, 0) && Ordered(b, 1, 1) && Ordered(c, 2, 2) && Ordered(d, 3, 3) && Ordered(e, 4, 4)
    ensures Ordered(a + b + c + d + e, 0, 4)
  {
    hide Ordered;
    Joined(a, b, 0, 0, 1);
    Joined(a + b, c, 0, 1, 2);
    Joined(a + b + c, d, 0, 2, 3);
    Joined(a + b + c + d, e, 0, 3, 4);
  }

  /** A supported request locks rows in strictly increasing order, whatever the tables hold and however it ends. */
  lemma TraceIncreases(db: Db, doc: DocumentType, targets: seq<Target>)
    requires Supported(doc, targets)
    ensures Increasing(Trace(db, doc, targets).0)
  {
    SortedIds(targets);
    if doc == CERTIFICATE_OF_ANALYSIS {
      OnlyKind(doc, targets, INSPECTION_RESULT);
      InspectionOrdered(db, IdsOf(targets, INSPECTION_RESULT));
      InspectionOnly(db, doc, targets);
    } else if doc == DELIVERY_LABEL {
      OnlyKind(doc, targets, SHIPPING_UNIT);
      ExistingOrdered(db, SHIPPING_UNIT_ROWS, IdsOf(targets, SHIPPING_UNIT));
      ShippingUnitsOnly(db, doc, targets);
    } else if LOT in SupportedTargets(doc) {
      OnlyKind(doc, targets, LOT);
      ExistingOrdered(db, LOT_ROWS, IdsOf(targets, LOT));
      LotsOnly(db, doc, targets);
    } else {
      Unused(doc, targets);
      SimpleOrdered(db, doc, targets);
      GoodsIssueOrdered(db, IdsOf(targets, GOODS_ISSUE_LINE));
      Joined(SimpleTrace(db, doc, targets), GoodsIssueTrace(db, IdsOf(targets, GOODS_ISSUE_LINE)).0, 0, 4, 10);
      SimpleAndGoodsIssues(db, doc, targets);
    }
  }

  lemma Unused(doc: DocumentType, targets: seq<Target>)
    requires Supported(doc, targets) && LOT !in SupportedTargets(doc)
    requires doc != CERTIFICATE_OF_ANALYSIS && doc != DELIVERY_LABEL
    ensures IdsOf(targets, LOT) == [] && IdsOf(targets, INSPECTION_RESULT) == []
    ensures IdsOf(targets, SHIPMENT_LOT_ALLOCATION) == [] && IdsOf(targets, SHIPPING_UNIT) == []
  {
    NoIds(targets, LOT);
    NoIds(targets, INSPECTION_RESULT);
    NoIds(targets, SHIPMENT_LOT_ALLOCATION);
    NoIds(targets, SHIPPING_UNIT);
  }

  lemma SimpleAndGoodsIssues(db: Db, doc: DocumentType, targets: seq<Target>)
    requires IdsOf(targets, INSPECTION_RESULT) == []
    requires IdsOf(targets, SHIPMENT_LOT_ALLOCATION) == [] && IdsOf(targets, SHIPPING_UNIT) == []
    ensures Trace(db, doc, targets).0 == SimpleTrace(db, doc, targets)
              + GoodsIssueTrace(db, IdsOf(targets, GOODS_ISSUE_LINE)).0
  {
    NoRows(db);
    hide SimpleTrace, GoodsIssueTrace, InspectionTrace, IdsOf, Existing, Chain;
    ChainOfTwo(SimpleTrace(db, doc, targets), GoodsIssueTrace(db, IdsOf(targets, GOODS_ISSUE_LINE)));
  }

  /** Steps without ids lock nothing. */
  lemma NoRows(db: Db)
    ensures forall table :: Existing(db, table, []) == []
    ensures Contents(db, []) == []
    ensures GoodsIssueTrace(db, []) == ([], Locked)
    ensures InspectionTrace(db, []) == ([], Locked)
  {
    assert Looked(db.lines, []) == [];
  }

  lemma NothingSimple(db: Db, doc: DocumentType, targets: seq<Target>)
    requires forall kind :: kind in {SERIAL_NUMBER, HANDLING_UNIT, MOLD, LOCATION} ==> IdsOf(targets, kind) == []
    ensures SimpleTrace(db, doc, targets) == Existing(db, LOT_ROWS, IdsOf(targets, LOT))
  {
    NoRows(db);
    hide IdsOf, Existing, Contents;
    assert IdsOf(targets, SERIAL_NUMBER) == [] && IdsOf(targets, HANDLING_UNIT) == [];
    assert IdsOf(targets, MOLD) == [] && IdsOf(targets, LOCATION) == [];
  }

  lemma ChainOfOne(simple: seq<Resource>, inspection: (seq<Resource>, Outcome), units: seq<Resource>)
    ensures Chain([], ([], Locked), inspection, [], []).0 == inspection.0
    ensures Chain([], ([], Locked), ([], Locked), [], units).0 == units
    ensures Chain(simple, ([], Locked), ([], Locked), [], []).0 == simple
  {
  }

  lemma ChainOfTwo(simple: seq<Resource>, goods: (seq<Resource>, Outcome))
    ensures Chain(simple, goods, ([], Locked), [], []).0 == simple + goods.0
  {
  }

  lemma InspectionOnly(db: Db, doc: DocumentType, targets: seq<Target>)
    requires forall kind :: kind != INSPECTION_RESULT ==> IdsOf(targets, kind) == []
    ensures Trace(db, doc, targets).0 == InspectionTrace(db, IdsOf(targets, INSPECTION_RESULT)).0
  {
    NothingSimple(db, doc, targets);
    NoRows(db);
    hide InspectionTrace, GoodsIssueTrace, IdsOf, SimpleTrace, Existing, Chain;
    ChainOfOne([], InspectionTrace(db, IdsOf(targets, INSPECTION_RESULT)), []);
  }

  lemma ShippingUnitsOnly(db: Db, doc: DocumentType, targets: seq<Target>)
    requires forall kind :: kind != SHIPPING_UNIT ==> IdsOf(targets, kind) == []
    ensures Trace(db, doc, targets).0 == Existing(db, SHIPPING_UNIT_ROWS, IdsOf(targets, SHIPPING_UNIT))
  {
    NothingSimple(db, doc, targets);
    NoRows(db);
    hide InspectionTrace, GoodsIssueTrace, IdsOf, SimpleTrace, Existing, Chain;
    ChainOfOne([], ([], Locked), Existing(db, SHIPPING_UNIT_ROWS, IdsOf(targets, SHIPPING_UNIT)));
  }

  lemma LotsOnly(db: Db, doc: DocumentType, targets: seq<Target>)
    requires forall kind :: kind != LOT ==> IdsOf(targets, kind) == []
    ensures Trace(db, doc, targets).0 == Existing(db, LOT_ROWS, IdsOf(targets, LOT))
  {
    NothingSimple(db, doc, targets);
    NoRows(db);
    hide InspectionTrace, GoodsIssueTrace, IdsOf, SimpleTrace, Existing, Chain;
    ChainOfOne(Existing(db, LOT_ROWS, IdsOf(targets, LOT)), ([], Locked), []);
  }

  // ----- no circle of waiting requests

  /** A request inside its lock phase: it holds the first `got` locks; if it waits, it queues for the next one. */
  datatype Call = Call(trace: seq<Resource>, got: nat, ticket: nat)

  ghost predicate Waiting(c: Call) {
    c.got < |c.trace|
  }

  ghost predicate Holds(c: Call, r: Resource) {
    exists i :: 0 <= i < c.got && i < |c.trace| && c.trace[i] == r
  }

  /** One call waits for the other: for a row the other holds, or queued behind it for the same row. */
  ghost predicate WaitsFor(one: Call, other: Call) {
    && Waiting(one)
    && (Holds(other, one.trace[one.got])
        || (Waiting(other) && other.trace[other.got] == one.trace[one.got] && other.ticket < one.ticket))
  }

  ghost predicate WaitCircle(circle: seq<Call>) {
    && circle != []
    && (forall i :: 0 < i < |circle| ==> WaitsFor(circle[i - 1], circle[i]))
    && WaitsFor(circle[|circle| - 1], circle[0])
  }

  /** What is waited for grows along the chain, or stays with an earlier ticket. */
  ghost predicate Further(one: Call, other: Call)
    requires Waiting(one) && Waiting(other)
  {
    Less(one.trace[one.got], other.trace[other.got])
    || (one.trace[one.got] == other.trace[other.got] && other.ticket < one.ticket)
  }

  lemma WaitMovesOn(one: Call, other: Call)
    requires WaitsFor(one, other) && Waiting(other) && Increasing(other.trace)
    ensures Further(one, other)
  {
    if Holds(other, one.trace[one.got]) {
      var i :| 0 <= i < other.got && i < |other.trace| && other.trace[i] == one.trace[one.got];
      assert Less(other.trace[i], other.trace[other.got]);
    }
  }

  lemma FurtherIsTransitive(a: Call, b: Call, c: Call)
    requires Waiting(a) && Waiting(b) && Waiting(c) && Further(a, b) && Further(b, c)
    ensures Further(a, c)
  {
  }

  lemma {:induction false} ChainMovesOn(chain: seq<Call>)
    requires |chain| >= 2
    requires forall i :: 0 <= i < |chain| ==> Increasing(chain[i].trace) && Waiting(chain[i])
    requires forall i :: 0 < i < |chain| ==> WaitsFor(chain[i - 1], chain[i])
    ensures Further(chain[0], chain[|chain| - 1])
  {
    var last := |chain| - 1;
    WaitMovesOn(chain[last - 1], chain[last]);
    if last > 1 {
      ChainMovesOn(chain[..last]);
      FurtherIsTransitive(chain[0], chain[last - 1], chain[last]);
    }
  }

  /** Calls that lock in increasing order never wait for each other in a circle. */
  lemma NoWaitCircle(circle: seq<Call>)
    requires forall i :: 0 <= i < |circle| ==> Increasing(circle[i].trace)
    ensures !WaitCircle(circle)
  {
    if WaitCircle(circle) {
      var chain := circle + [circle[0]];
      forall i | 0 < i < |chain| ensures WaitsFor(chain[i - 1], chain[i]) {
        assert i < |circle| ==> WaitsFor(circle[i - 1], circle[i]);
      }
      forall i | 0 <= i < |chain| ensures Increasing(chain[i].trace) && Waiting(chain[i]) {
        var at := if i < |circle| then i else 0;
        assert chain[i] == chain[at] && WaitsFor(chain[at + 1 - 1], chain[at + 1]);
      }
      ChainMovesOn(chain);
      assert false;
    }
  }

  datatype IssueCall = IssueCall(db: Db, doc: DocumentType, targets: seq<Target>, got: nat, ticket: nat)

  ghost function CallOf(c: IssueCall): Call {
    Call(Trace(c.db, c.doc, c.targets).0, c.got, c.ticket)
  }

  /** No number of supported issue requests, each seeing its own data, can block each other in a circle. */
  lemma IssueRequestsNeverDeadlock(calls: seq<IssueCall>)
    requires forall i :: 0 <= i < |calls| ==> Supported(calls[i].doc, calls[i].targets)
    ensures !WaitCircle(seq(|calls|, i requires 0 <= i < |calls| => CallOf(calls[i])))
  {
    var circle := seq(|calls|, i requires 0 <= i < |calls| => CallOf(calls[i]));
    hide Supported, Trace, Increasing, WaitCircle;
    forall i | 0 <= i < |circle| ensures Increasing(circle[i].trace) {
      TraceIncreases(calls[i].db, calls[i].doc, calls[i].targets);
    }
    NoWaitCircle(circle);
  }

  /**
   * The rank rests on the table of supported pairs: two requests that each name a LOT and a goods-issue
   * line, which no document type allows together, lock their rows in an order that can block for ever.
   */
  lemma MixedTargetsDeadlock(doc: DocumentType)
    ensures !({LOT, GOODS_ISSUE_LINE} <= SupportedTargets(doc))
    ensures WaitCircle([CallOf(MixedCall(doc, 5, 1)), CallOf(MixedCall(doc, 6, 2))])
  {
    NeverMixed(doc);
    MixedCallWaits(doc, 5, 1, Path(1, 6));
    MixedCallWaits(doc, 6, 2, Path(2, 5));
    hide CallOf, MixedCall, SupportedTargets, WaitCircle;
    CrossedWait(CallOf(MixedCall(doc, 5, 1)), CallOf(MixedCall(doc, 6, 2)));
  }

  /** A request naming a LOT and a line, holding its first two locks. */
  ghost function MixedCall(doc: DocumentType, lot: int, line: int): IssueCall {
    IssueCall(MixedDb(), doc, [Target(LOT, lot), Target(GOODS_ISSUE_LINE, line)], 2, 0)
  }

  lemma MixedCallWaits(doc: DocumentType, lot: int, line: int, path: Path)
    requires line in MixedDb().lines && MixedDb().lines[line] == path && line in MixedDb().linesAgain
    requires MixedDb().linesAgain[line] == path
    requires Resource(GOODS_ISSUE_ROWS, path.header, 0) in MixedDb().rows
    requires Resource(LOT_ROWS, lot, 0) in MixedDb().rows && Resource(LOT_ROWS, path.lot, 0) in MixedDb().rows
    ensures var c := CallOf(MixedCall(doc, lot, line));
            && |c.trace| == 3 && c.got == 2
            && c.trace[0] == Resource(LOT_ROWS, lot, 0) && c.trace[2] == Resource(LOT_ROWS, path.lot, 0)
  {
    hide Trace, MixedDb;
    LotAndLine(MixedDb(), doc, lot, line, path);
  }

  lemma NeverMixed(doc: DocumentType)
    ensures !({LOT, GOODS_ISSUE_LINE} <= SupportedTargets(doc))
  {
    assert LOT in {LOT, GOODS_ISSUE_LINE} && GOODS_ISSUE_LINE in {LOT, GOODS_ISSUE_LINE};
  }

  lemma CrossedWait(a: Call, b: Call)
    requires |a.trace| == 3 && |b.trace| == 3 && a.got == 2 && b.got == 2
    requires a.trace[0] == b.trace[2] && b.trace[0] == a.trace[2]
    ensures WaitCircle([a, b])
  {
    assert WaitsFor(a, b) && WaitsFor(b, a);
  }

  /** Line 1 leads to LOT 6 and line 2 to LOT 5. */
  function MixedDb(): Db {
    var lines := map[1 := Path(1, 6), 2 := Path(2, 5)];
    Db({Resource(LOT_ROWS, 5, 0), Resource(LOT_ROWS, 6, 0), Resource(GOODS_ISSUE_ROWS, 1, 0),
        Resource(GOODS_ISSUE_ROWS, 2, 0)},
       map[], lines, lines, map[], map[])
  }

  /** A LOT target and a goods-issue line leading to another lot: the LOT, the header, the other lot. */
  lemma LotAndLine(db: Db, doc: DocumentType, lot: int, line: int, path: Path)
    requires line in db.lines && line in db.linesAgain && db.lines[line] == path && db.linesAgain[line] == path
    requires Resource(GOODS_ISSUE_ROWS, path.header, 0) in db.rows
    requires Resource(LOT_ROWS, lot, 0) in db.rows && Resource(LOT_ROWS, path.lot, 0) in db.rows
    ensures Trace(db, doc, [Target(LOT, lot), Target(GOODS_ISSUE_LINE, line)]).0
         == [Resource(LOT_ROWS, lot, 0), Resource(GOODS_ISSUE_ROWS, path.header, 0), Resource(LOT_ROWS, path.lot, 0)]
  {
    var targets := [Target(LOT, lot), Target(GOODS_ISSUE_LINE, line)];
    hide IdsOf, RawIds, SimpleTrace, GoodsIssueTrace, Trace, Existing;
    OneTarget(targets, LOT, lot);
    OneTarget(targets, GOODS_ISSUE_LINE, line);
    forall kind | kind != LOT && kind != GOODS_ISSUE_LINE ensures IdsOf(targets, kind) == [] {
      NoIds(targets, kind);
    }
    OneLine(db, line, path);
    NothingSimple(db, doc, targets);
    SimpleAndGoodsIssues(db, doc, targets);
    OneRow(db, LOT_ROWS, lot);
  }

  lemma OneTarget(targets: seq<Target>, kind: TargetType, id: int)
    requires forall x :: Target(kind, x) in targets <==> x == id
    ensures IdsOf(targets, kind) == [id]
  {
    hide RawIds;
    OnlyId(IdsOf(targets, kind), id);
  }

  lemma OnlyId(ids: seq<int>, id: int)
    requires Ascending(ids) && forall x :: x in ids <==> x == id
    ensures ids == [id]
  {
    assert id in ids;
    var last := |ids| - 1;
    assert ids[0] in ids && ids[last] in ids;
  }

  /** A single line whose header and lot exist and stay. */
  lemma OneLine(db: Db, line: int, path: Path)
    requires line in db.lines && line in db.linesAgain && db.lines[line] == path && db.linesAgain[line] == path
    requires Resource(GOODS_ISSUE_ROWS, path.header, 0) in db.rows && Resource(LOT_ROWS, path.lot, 0) in db.rows
    ensures GoodsIssueTrace(db, [line]).0
              == [Resource(GOODS_ISSUE_ROWS, path.header, 0), Resource(LOT_ROWS, path.lot, 0)]
    ensures GoodsIssueTrace(db, [line]).1 == Locked
  {
    LookedOne(db.lines, line);
    LookedOne(db.linesAgain, line);
    OnePath(path);
    hide Looked, Headers, Lots, Existing;
    OnlyId(UniqueSorted([path.header]), path.header);
    OnlyId(UniqueSorted([path.lot]), path.lot);
    OneRow(db, GOODS_ISSUE_ROWS, path.header);
    OneRow(db, LOT_ROWS, path.lot);
    assert SamePaths(db, [line]);
    hide UniqueSorted, SamePaths;
  }

  lemma LookedOne<V>(table: map<int, V>, id: int)
    requires id in table
    ensures Looked(table, [id]) == [table[id]]
  {
    assert [id][1..] == [];
  }

  lemma OnePath(path: Path)
    ensures Headers([path]) == [path.header] && Lots([path]) == [path.lot]
  {
    assert [path][1..] == [];
  }

  lemma OneRow(db: Db, table: Table, id: int)
    requires Resource(table, id, 0) in db.rows
    ensures Existing(db, table, [id]) == [Resource(table, id, 0)]
  {
  }
}
