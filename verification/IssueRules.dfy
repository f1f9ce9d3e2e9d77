/**
 * Rules of one document-issue request (document-issue-create-rules.ts, document-issue-report.service.ts,
 * document-issue-write.service.ts, document-issue-sequence.ts): which targets it may name, when a reissue
 * reason is due, what a print report changes, how the response is put together, and the bounded retry.
 */
module IssueRules {
  import opened Results
  import opened DateTimeText

  datatype DocumentType =
    | MATERIAL_LOT_LABEL | GOODS_ISSUE_QR | PRODUCTION_LOT_LABEL | IDENTIFICATION_TAG | PACKING_LABEL
    | CERTIFICATE_OF_ANALYSIS | TOOL_LABEL | LOCATION_LABEL | IQC_LABEL | DELIVERY_LABEL

  datatype TargetType =
    | LOT | SERIAL_NUMBER | HANDLING_UNIT | GOODS_ISSUE_LINE | MOLD | LOCATION | INSPECTION_RESULT
    | SHIPMENT_LOT_ALLOCATION | SHIPPING_UNIT

  datatype Target = Target(kind: TargetType, id: int)

  datatype TargetInput = TargetInput(target: Target, lotId: Option<int>)

  datatype Prepared = Prepared(index: nat, target: Target, requestedLotId: Option<int>)

  datatype Refusal = UnsafeId | UnsupportedPair | DuplicateTarget

  const MAX_SAFE_INTEGER := 9007199254740991

  predicate SafeId(id: int) {
    -MAX_SAFE_INTEGER <= id <= MAX_SAFE_INTEGER
  }

  function SupportedTargets(doc: DocumentType): set<TargetType> {
    match doc
    case MATERIAL_LOT_LABEL => {LOT}
    case GOODS_ISSUE_QR => {GOODS_ISSUE_LINE, HANDLING_UNIT}
    case PRODUCTION_LOT_LABEL => {LOT}
    case IDENTIFICATION_TAG => {SERIAL_NUMBER}
    case PACKING_LABEL => {HANDLING_UNIT}
    case CERTIFICATE_OF_ANALYSIS => {INSPECTION_RESULT}
    case TOOL_LABEL => {MOLD}
    case LOCATION_LABEL => {LOCATION}
    case IQC_LABEL => {LOT}
    case DELIVERY_LABEL => {SHIPPING_UNIT}
  }

  // ----- preparing the targets of a request

  /** Below 2 to the power of 53, where every whole number is a number of its own. */
  predicate IsExact(id: int) {
    -9007199254740992 < id < 9007199254740992
  }

  /** The documents that are issued for a kind of target; none any more for a shipment allocation. */
  predicate IsIssuedFor(kind: TargetType, doc: DocumentType) {
    match kind
    case LOT => doc == MATERIAL_LOT_LABEL || doc == PRODUCTION_LOT_LABEL || doc == IQC_LABEL
    case SERIAL_NUMBER => doc == IDENTIFICATION_TAG
    case HANDLING_UNIT => doc == GOODS_ISSUE_QR || doc == PACKING_LABEL
    case GOODS_ISSUE_LINE => doc == GOODS_ISSUE_QR
    case MOLD => doc == TOOL_LABEL
    case LOCATION => doc == LOCATION_LABEL
    case INSPECTION_RESULT => doc == CERTIFICATE_OF_ANALYSIS
    case SHIPMENT_LOT_ALLOCATION => false
    case SHIPPING_UNIT => doc == DELIVERY_LABEL
  }

  /** The table of supported pairs and the limit on ids, from the other side. */
  lemma PairsAre(doc: DocumentType, kind: TargetType, id: int)
    ensures kind in SupportedTargets(doc) <==> IsIssuedFor(kind, doc)
    ensures SafeId(id) <==> IsExact(id)
  {
  }

  /** What is wrong with the i-th target, looking at it and the ones before it. */
  function Fault(doc: DocumentType, inputs: seq<TargetInput>, i: nat): Option<Refusal>
    requires i < |inputs|
  {
    var input := inputs[i];
    if !IsExact(input.target.id) || (input.lotId.Some? && !IsExact(input.lotId.value)) then Some(UnsafeId)
    else if !IsIssuedFor(input.target.kind, doc) then Some(UnsupportedPair)
    else if exists j :: 0 <= j < i && inputs[j].target == input.target then Some(DuplicateTarget)
    else None
  }

  method PrepareTargets(doc: DocumentType, inputs: seq<TargetInput>) returns (r: Result<seq<Prepared>, (nat, Refusal)>)
    ensures r.Ok? <==> forall i :: 0 <= i < |inputs| ==> Fault(doc, inputs, i) == None
    ensures r.Err? ==> r.error.0 < |inputs| && Fault(doc, inputs, r.error.0) == Some(r.error.1)
    ensures r.Err? ==> forall i :: 0 <= i < r.error.0 ==> Fault(doc, inputs, i) == None
    ensures r.Ok? ==> |r.value| == |inputs|
    ensures r.Ok? ==> forall i :: 0 <= i < |inputs| ==> r.value[i] == Prepared(i, inputs[i].target, inputs[i].lotId)
  {
    hide SupportedTargets, SafeId, IsIssuedFor, IsExact;
    var seen: set<Target> := {};
    var prepared: seq<Prepared> := [];
    for i := 0 to |inputs|
      invariant |prepared| == i
      invariant forall t :: t in seen <==> exists j :: 0 <= j < i && inputs[j].target == t
      invariant forall j :: 0 <= j < i ==> Fault(doc, inputs, j) == None
      invariant forall j :: 0 <= j < i ==> prepared[j] == Prepared(j, inputs[j].target, inputs[j].lotId)
    {
      var input := inputs[i];
      PairsAre(doc, input.target.kind, input.target.id);
      PairsAre(doc, input.target.kind, if input.lotId.Some? then input.lotId.value else 0);
      if !SafeId(input.target.id) || (input.lotId.Some? && !SafeId(input.lotId.value)) {
        assert Fault(doc, inputs, i) == Some(UnsafeId);
        return Err((i, UnsafeId));
      }
      if input.target.kind !in SupportedTargets(doc) {
        assert Fault(doc, inputs, i) == Some(UnsupportedPair);
        return Err((i, UnsupportedPair));
      }
      if input.target in seen {
        assert Fault(doc, inputs, i) == Some(DuplicateTarget);
        return Err((i, DuplicateTarget));
      }
      seen := seen + {input.target};
      prepared := prepared + [Prepared(i, input.target, input.lotId)];
    }
    r := Ok(prepared);
  }

  ghost predicate Distinct(targets: seq<Target>) {
    forall i, j :: 0 <= i < j < |targets| ==> targets[i] != targets[j]
  }

  /** Targets that pass preparation are pairwise different and all fit the document. */
  lemma PreparedAreDistinct(doc: DocumentType, inputs: seq<TargetInput>)
    requires forall i :: 0 <= i < |inputs| ==> Fault(doc, inputs, i) == None
    ensures Distinct(seq(|inputs|, i requires 0 <= i < |inputs| => inputs[i].target))
    ensures forall i :: 0 <= i < |inputs| ==> inputs[i].target.kind in SupportedTargets(doc)
  {
    forall i, j | 0 <= i < j < |inputs| ensures inputs[i].target != inputs[j].target {
      assert Fault(doc, inputs, j) == None;
    }
    forall i | 0 <= i < |inputs| ensures inputs[i].target.kind in SupportedTargets(doc) {
      assert Fault(doc, inputs, i) == None;
    }
  }

  // ----- the reissue reason

  /** `trim() === ""` */
  predicate Blank(s: string) {
    forall i :: 0 <= i < |s| ==> IsSpace(s[i])
  }

  datatype ReasonRefusal = REQUIRED | INVALID

  function ReissueReason(needed: bool, reason: Option<string>, active: bool): (r: Result<Option<string>, ReasonRefusal>)
    ensures r.Ok? && needed ==> r.value.Some? && !Blank(r.value.value)
    ensures r.Ok? && r.value.Some? ==> r.value == reason && active && !Blank(r.value.value)
    ensures r.Ok? && r.value.None? ==> reason == None && !needed
    ensures r == Err(REQUIRED) <==> needed && (reason == None || Blank(reason.value))
  {
    if reason == None || Blank(reason.value) then
      if needed then Err(REQUIRED) else if reason.Some? then Err(INVALID) else Ok(None)
    else if !active then Err(INVALID)
    else Ok(reason)
  }

  // ----- one row of the issue log and its print report

  datatype Outcome = PENDING | SUCCEEDED | FAILED

  datatype Row = Row(reissueReason: Option<string>, outcome: Outcome, failureReason: Option<string>)

  datatype ReportRefusal = STATE_LOCKED | REASON_REQUIRED | REASON_NOT_ALLOWED

  function ReportFailureReason(succeeded: bool, reason: Option<string>): Result<Option<string>, ReportRefusal> {
    var empty := reason == None || Blank(reason.value);
    if !succeeded then if empty then Err(REASON_REQUIRED) else Ok(reason)
    else if !empty then Err(REASON_NOT_ALLOWED)
    else Ok(None)
  }

  function ReportPrint(row: Row, succeeded: bool, reason: Option<string>): Result<Row, ReportRefusal> {
    if row.outcome == SUCCEEDED then Err(STATE_LOCKED)
    else
      var failure :- ReportFailureReason(succeeded, reason);
      Ok(row.(outcome := if succeeded then SUCCEEDED else FAILED, failureReason := failure))
  }

  /** A failure reason that says something, exactly on the rows whose print failed. */
  predicate ReportConsistent(row: Row) {
    && (row.failureReason.Some? <==> row.outcome == FAILED)
    && (row.failureReason.Some? ==> !Blank(row.failureReason.value))
  }

  /**
   * A report is accepted exactly on a row not yet printed, with a failure reason that says something for a
   * failure and none for a success. It leaves what it sent, keeps the row consistent and never touches a
   * success or the reissue reason.
   */
  lemma ReportKeeps(row: Row, succeeded: bool, reason: Option<string>)
    requires ReportConsistent(row)
    ensures var r := ReportPrint(row, succeeded, reason);
            && (r.Ok? <==> row.outcome != SUCCEEDED && (succeeded <==> reason == None || Blank(reason.value)))
            && (r.Ok? ==> ReportConsistent(r.value) && r.value.reissueReason == row.reissueReason)
            && (r.Ok? ==> r.value.outcome == (if succeeded then SUCCEEDED else FAILED))
            && (r.Ok? ==> r.value.failureReason == (if succeeded then None else reason))
            && (row.outcome == SUCCEEDED <==> r == Err(STATE_LOCKED))
  {
  }

  // ----- the response

  datatype IssueKey = IssueKey(doc: DocumentType, target: Target, sequence: int)

  /** Puts re-read rows, in whatever order they came, back into the order of the request. */
  method Assemble<V>(keys: seq<IssueKey>, rows: seq<(IssueKey, V)>) returns (items: Option<seq<V>>)
    ensures items.Some? <==>
              |rows| == |keys| && forall i :: 0 <= i < |keys| ==> exists k :: 0 <= k < |rows| && rows[k].0 == keys[i]
    ensures items.Some? ==> |items.value| == |keys|
    ensures items.Some? ==> forall i :: 0 <= i < |keys| ==> (keys[i], items.value[i]) in rows
  {
    if |rows| != |keys| {
      return None;
    }
    var views: map<IssueKey, V> := map[];
    for k := 0 to |rows|
      invariant forall key :: key in views <==> exists j :: 0 <= j < k && rows[j].0 == key
      invariant forall key :: key in views ==> (key, views[key]) in rows
    {
      views := views[rows[k].0 := rows[k].1];
      assert rows[k] in rows;
    }
    var found: seq<V> := [];
    for i := 0 to |keys|
      invariant |found| == i
      invariant forall j :: 0 <= j < i ==> exists k :: 0 <= k < |rows| && rows[k].0 == keys[j]
      invariant forall j :: 0 <= j < i ==> (keys[j], found[j]) in rows
    {
      if keys[i] !in views {
        return None;
      }
      found := found + [views[keys[i]]];
    }
    items := Some(found);
  }

  ghost function KeySet<V>(rows: seq<(IssueKey, V)>): set<IssueKey> {
    set k | 0 <= k < |rows| :: rows[k].0
  }

  /** The ids of the created rows, in the order of the request; refused unless the rows have exactly its keys. */
  method CreatedIds(keys: seq<IssueKey>, rows: seq<(IssueKey, int)>) returns (r: Option<seq<int>>)
    ensures r.Some? <==>
              keys == [] || (|KeySet(rows)| == |keys| && forall i :: 0 <= i < |keys| ==> keys[i] in KeySet(rows))
    ensures r.Some? ==> |r.value| == |keys| && forall i :: 0 <= i < |keys| ==> (keys[i], r.value[i]) in rows
  {
    var ids: map<IssueKey, int> := map[];
    for k := 0 to |rows|
      invariant ids.Keys == KeySet(rows[..k])
      invariant forall key :: key in ids ==> (key, ids[key]) in rows
    {
      assert rows[k] in rows;
      assert KeySet(rows[..k + 1]) == KeySet(rows[..k]) + {rows[k].0};
      ids := ids[rows[k].0 := rows[k].1];
    }
    assert rows[..|rows|] == rows;
    var found: seq<int> := [];
    for i := 0 to |keys|
      invariant |found| == i
      invariant i > 0 ==> |KeySet(rows)| == |keys|
      invariant forall j :: 0 <= j < i ==> keys[j] in KeySet(rows) && (keys[j], found[j]) in rows
    {
      if keys[i] !in ids || |ids.Keys| != |keys| {
        return None;
      }
      found := found + [ids[keys[i]]];
    }
    r := Some(found);
  }

  // ----- the bounded retry

  datatype Meta = Absent | Constraint(name: string) | Columns(names: seq<string>)

  datatype Failure =
    | PathChanged
    | KnownRequest(code: string, sqlState: string, target: Meta)
    | Coded(code: string)
    | Uncoded

  const MAX_ATTEMPTS := 3

  predicate RetryableSqlState(code: string) {
    code == "40001" || code == "40P01"
  }

  predicate SequenceDuplicate(failure: Failure) {
    failure.KnownRequest? && failure.code == "P2002" &&
    match failure.target
    case Constraint(name) => name == "uq_document_issue_log"
    case Columns(names) =>
      multiset(names) == multiset{"document_type_code", "target_type_code", "target_id", "issue_seq"}
    case Absent => false
  }

  predicate Retryable(failure: Failure) {
    match failure
    case PathChanged => true
    case KnownRequest(code, state, _) => code == "P2034" || RetryableSqlState(state) || SequenceDuplicate(failure)
    case Coded(code) => RetryableSqlState(code)
    case Uncoded => false
  }

  // What is tried again, by the fields of the failure.

  predicate IsSerialization(code: string) {
    code in {"40001", "40P01"}
  }

  /** The unique violation is that of the issue log: its constraint, or its four columns in any order. */
  predicate NamesIssueLog(target: Meta) {
    || target == Constraint("uq_document_issue_log")
    || (target.Columns? && |target.names| == 4
        && "document_type_code" in target.names && "target_type_code" in target.names
        && "target_id" in target.names && "issue_seq" in target.names)
  }

  predicate TriedAgain(failure: Failure) {
    || failure == PathChanged
    || (failure.Coded? && IsSerialization(failure.code))
    || (failure.KnownRequest?
        && (|| IsSerialization(failure.sqlState) || failure.code == "P2034"
            || (failure.code == "P2002" && NamesIssueLog(failure.target))))
  }

  /** Four names that hold four different ones are these, in some order. */
  lemma FourNames(names: seq<string>, a: string, b: string, c: string, d: string)
    requires a != b && a != c && a != d && b != c && b != d && c != d
    ensures multiset(names) == multiset{a, b, c, d} <==>
            |names| == 4 && a in names && b in names && c in names && d in names
  {
    var all, four := multiset(names), multiset{a, b, c, d};
    assert |all| == |names| && forall x :: x in names <==> x in all;
    if |names| == 4 && a in names && b in names && c in names && d in names {
      assert four <= all;
      assert all == four + (all - four);
    }
  }

  /** The request is tried again after these failures and no others. */
  lemma RetryableIs(failure: Failure)
    ensures Retryable(failure) <==> TriedAgain(failure)
  {
    if failure.KnownRequest? && failure.target.Columns? {
      FourNames(failure.target.names, "document_type_code", "target_type_code", "target_id", "issue_seq");
    }
  }

  datatype CallError = Thrown(failure: Failure) | Conflict

  /**
   * `work(k)` is what the k-th whole transaction would come to. The first outcome that is not a
   * retryable failure is the answer; three retryable failures are a conflict.
   */
  method RunWithRetry<T>(work: nat -> Result<T, Failure>) returns (r: Result<T, CallError>, attempts: nat)
    ensures 1 <= attempts <= 3
    ensures forall k: nat :: 1 <= k < attempts ==> work(k).Err? && TriedAgain(work(k).error)
    ensures r.Ok? <==> work(attempts).Ok?
    ensures r.Ok? ==> r.value == work(attempts).value
    ensures r == Err(Conflict) <==> work(attempts).Err? && TriedAgain(work(attempts).error)
    ensures r == Err(Conflict) ==> attempts == 3
    ensures r.Err? && r.error.Thrown? ==> work(attempts) == Err(r.error.failure)
  {
    hide TriedAgain, Retryable;
    attempts := 1;
    while true
      invariant 1 <= attempts <= MAX_ATTEMPTS
      invariant forall k: nat :: 1 <= k < attempts ==> work(k).Err? && TriedAgain(work(k).error)
      decreases MAX_ATTEMPTS - attempts
    {
      var outcome := work(attempts);
      if outcome.Ok? {
        return Ok(outcome.value), attempts;
      }
      RetryableIs(outcome.error);
      if !Retryable(outcome.error) {
        return Err(Thrown(outcome.error)), attempts;
      }
      if attempts >= MAX_ATTEMPTS {
        return Err(Conflict), attempts;
      }
      attempts := attempts + 1;
    }
  }
}
