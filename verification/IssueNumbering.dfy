/**
 * Numbering of issued documents under concurrency (document-issue-sequence.ts,
 * document-issue-write.service.ts): lock the targets, read each target's highest number, insert the
 * next one, and start over when that fails.
 *
 * READ COMMITTED as in section 13.2.1 of the PostgreSQL manual: a number is the highest committed one
 * at that statement; an inserted key must be absent from the committed log (else the insert fails on
 * uq_document_issue_log) and waits while another open transaction has inserted it.
 */
module IssueNumbering {
  import opened Results
  import opened IssueRules

  type CallId = int

  const MAX_ISSUE_SEQ := 2147483647

  type Log = map<IssueKey, Row>

  datatype Request = Request(doc: DocumentType, targets: seq<Target>, reason: Option<string>, reasonActive: bool)

  datatype Phase = Locking | Numbered | Qualified(reason: Option<string>)

  /** The rows of the first `done` targets are inserted and not yet committed. */
  datatype Tx = Tx(request: Request, attempt: nat, phase: Phase, locks: set<Target>, current: seq<nat>,
                   inserted: Log, done: nat)

  datatype State = State(log: Log, running: map<CallId, Tx>)

  /**
   * Inspection results are locked FOR SHARE, so two certificates of one result run side by side; every
   * other target is held by one transaction at a time (a goods-issue line through its header).
   */
  predicate Exclusive(target: Target) {
    target.kind != INSPECTION_RESULT
  }

  ghost predicate WellFormed(request: Request) {
    && Distinct(request.targets)
    && forall i :: 0 <= i < |request.targets| ==> request.targets[i].kind in SupportedTargets(request.doc)
  }

  // ----- numbers of a target

  /** COALESCE(MAX(issue_seq), 0) over the committed rows of one document and target. */
  ghost predicate IsHighest(log: Log, doc: DocumentType, target: Target, h: int) {
    && (forall i :: IssueKey(doc, target, i) in log ==> i <= h)
    && (IssueKey(doc, target, h) in log || (h == 0 && forall i :: IssueKey(doc, target, i) !in log))
  }

  lemma {:induction false} LargestOf(s: set<int>) returns (m: int)
    requires s != {}
    ensures m in s && forall x :: x in s ==> x <= m
    decreases |s|
  {
    assert (forall x: int :: x !in s) ==> s == {};
    var some: int :| some in s;
    var others := s - {some};
    assert forall x :: x in s ==> x == some || x in others;
    m := some;
    if others != {} {
      var rest := LargestOf(others);
      if rest > some { m := rest; }
    }
  }

  lemma HighestExists(log: Log, doc: DocumentType, target: Target) returns (h: int)
    ensures IsHighest(log, doc, target, h)
  {
    var numbers := set k | k in log && k.doc == doc && k.target == target :: k.sequence;
    assert forall i :: IssueKey(doc, target, i) in log ==> i in numbers;
    if numbers == {} {
      h := 0;
    } else {
      h := LargestOf(numbers);
      var k :| k in log && k.doc == doc && k.target == target && k.sequence == h;
      assert k == IssueKey(doc, target, h);
    }
  }

  function KeyOf(tx: Tx, i: nat): IssueKey
    requires i < |tx.request.targets| && i < |tx.current|
  {
    IssueKey(tx.request.doc, tx.request.targets[i], tx.current[i] + 1)
  }

  function NewRow(tx: Tx, i: nat): Row
    requires i < |tx.current| && tx.phase.Qualified?
  {
    Row(if tx.current[i] == 0 then None else tx.phase.reason, PENDING, None)
  }

  function Fresh(request: Request, attempt: nat): Tx {
    Tx(request, attempt, Locking, {}, [], map[], 0)
  }

  // ----- steps

  datatype Step =
    | Begin(request: Request)
    | Lock(target: Target)
    | ReadNumbers(current: seq<nat>)
    | Qualify
    | Insert
    | Commit
    | Retry
    | GiveUp
    | Report(key: IssueKey, succeeded: bool, failureReason: Option<string>)

  function WithTx(s: State, t: CallId, tx: Tx): State {
    s.(running := s.running[t := tx])
  }

  ghost predicate Next(s: State, t: CallId, step: Step, s': State) {
    if step.Begin? then
      t !in s.running && WellFormed(step.request) && s' == WithTx(s, t, Fresh(step.request, 1))
    else if step.Report? then
      // The row is locked from its read to its commit, so a report is one step.
      && step.key in s.log
      && ReportPrint(s.log[step.key], step.succeeded, step.failureReason).Ok?
      && s' == s.(log := s.log[step.key := ReportPrint(s.log[step.key], step.succeeded, step.failureReason).value])
    else if step.Commit? then
      && t in s.running && s.running[t].phase.Qualified? && s.running[t].done == |s.running[t].request.targets|
      && s' == State(s.log + s.running[t].inserted, s.running - {t})
    else if step.GiveUp? then
      t in s.running && s' == s.(running := s.running - {t})
    else
      t in s.running && exists tx :: OwnStep(s, t, step, tx) && s' == WithTx(s, t, tx)
  }

  ghost predicate Held(s: State, t: CallId, target: Target) {
    exists u :: u in s.running && u != t && target in s.running[u].locks
  }

  ghost predicate Pending(s: State, t: CallId, key: IssueKey) {
    exists u :: u in s.running && u != t && key in s.running[u].inserted
  }

  /** Neither a duplicate in the committed log nor waiting for an open transaction's insert. */
  ghost predicate CanInsert(s: State, t: CallId, key: IssueKey) {
    key !in s.log && !Pending(s, t, key)
  }

  /**
   * The steps that only change the transaction's own record, to `tx`. Refusals (missing target, number
   * range, reason, permission) leave only GiveUp; a duplicate number has no Insert step and leaves
   * Retry, which starts the whole transaction over, twice at most.
   */
  ghost predicate OwnStep(s: State, t: CallId, step: Step, tx: Tx)
    requires t in s.running
  {
    var before := s.running[t];
    if step.Lock? then
      && before.phase == Locking && step.target in before.request.targets
      && (Exclusive(step.target) ==> !Held(s, t, step.target))
      && tx == before.(locks := before.locks + {step.target})
    else if step.ReadNumbers? then
      && before.phase == Locking && |step.current| == |before.request.targets|
      && (forall i :: 0 <= i < |before.request.targets| ==> before.request.targets[i] in before.locks)
      && (forall i :: 0 <= i < |step.current| ==>
            && IsHighest(s.log, before.request.doc, before.request.targets[i], step.current[i])
            && step.current[i] < MAX_ISSUE_SEQ)
      && tx == before.(phase := Numbered, current := step.current)
    else if step.Qualify? then
      && before.phase == Numbered
      && var needed := exists i :: 0 <= i < |before.current| && before.current[i] > 0;
         var reason := ReissueReason(needed, before.request.reason, before.request.reasonActive);
         reason.Ok? && tx == before.(phase := Qualified(reason.value))
    else if step.Insert? then
      && before.phase.Qualified? && before.done < |before.request.targets| == |before.current|
      && CanInsert(s, t, KeyOf(before, before.done)) && KeyOf(before, before.done) !in before.inserted
      && tx == before.(inserted := before.inserted[KeyOf(before, before.done) := NewRow(before, before.done)],
                       done := before.done + 1)
    else if step.Retry? then
      before.attempt < MAX_ATTEMPTS && tx == Fresh(before.request, before.attempt + 1)
    else
      false
  }

  // ----- gap-free numbers

  ghost predicate PreviousIn(log: Log, key: IssueKey) {
    key.sequence >= 1 && (key.sequence > 1 ==> key.(sequence := key.sequence - 1) in log)
  }

  /** Numbers start at one, and below every number stands the one before it. */
  ghost predicate GapFree(log: Log) {
    forall k :: k in log ==> PreviousIn(log, k)
  }

  lemma {:induction false} Below(log: Log, key: IssueKey, i: int)
    requires GapFree(log) && key in log && 1 <= i <= key.sequence
    ensures key.(sequence := i) in log
    decreases key.sequence - i
  {
    if i < key.sequence {
      Below(log, key, i + 1);
      assert PreviousIn(log, key.(sequence := i + 1));
    }
  }

  /** The issue numbers of a target are exactly 1..n, n being the highest. */
  lemma NumbersAreOneToN(log: Log, doc: DocumentType, target: Target) returns (n: nat)
    requires GapFree(log)
    ensures IsHighest(log, doc, target, n)
    ensures forall i :: IssueKey(doc, target, i) in log <==> 1 <= i <= n
  {
    var h := HighestExists(log, doc, target);
    assert h != 0 ==> PreviousIn(log, IssueKey(doc, target, h));
    forall i ensures IssueKey(doc, target, i) in log <==> 1 <= i <= h {
      if 1 <= i <= h { Below(log, IssueKey(doc, target, h), i); }
      if IssueKey(doc, target, i) in log { assert PreviousIn(log, IssueKey(doc, target, i)); }
    }
    n := h;
  }

  /** A reissue reason on exactly the rows after the first, and a consistent print report. */
  predicate RowOk(key: IssueKey, row: Row) {
    && (row.reissueReason.Some? <==> key.sequence > 1)
    && (row.reissueReason.Some? ==> !Blank(row.reissueReason.value))
    && ReportConsistent(row)
  }

  ghost predicate RowsOk(log: Log) {
    forall k :: k in log ==> RowOk(k, log[k])
  }

  // ----- what a transaction knows and has written

  ghost predicate Sound(log: Log, tx: Tx) {
    && WellFormed(tx.request)
    && 1 <= tx.attempt <= MAX_ATTEMPTS
    && (!tx.phase.Qualified? ==> tx.inserted == map[] && tx.done == 0)
    && (tx.phase != Locking ==> NumbersHeld(log, tx))
    && (tx.phase.Qualified? ==> ReasonHeld(tx))
    && forall k :: k in tx.inserted ==> Extends(log, tx, k, tx.inserted[k])
  }

  ghost predicate NumbersHeld(log: Log, tx: Tx) {
    && |tx.current| == |tx.request.targets|
    && (forall i :: 0 <= i < |tx.current| ==> NumberHeld(log, tx, i))
  }

  /** The number read is committed; while its target is locked for this transaction alone it stays the highest. */
  ghost predicate NumberHeld(log: Log, tx: Tx, i: nat)
    requires i < |tx.current| && i < |tx.request.targets|
  {
    && tx.request.targets[i] in tx.locks
    && (tx.current[i] == 0 || IssueKey(tx.request.doc, tx.request.targets[i], tx.current[i]) in log)
    && (Exclusive(tx.request.targets[i]) ==> IsHighest(log, tx.request.doc, tx.request.targets[i], tx.current[i]))
  }

  ghost predicate ReasonHeld(tx: Tx)
    requires tx.phase.Qualified?
  {
    && (forall i :: 0 <= i < |tx.current| && tx.current[i] > 0 ==> tx.phase.reason.Some?)
    && (tx.phase.reason.Some? ==> !Blank(tx.phase.reason.value))
  }

  /** An inserted row belongs to one of the first `done` targets and continues the committed numbers. */
  ghost predicate Extends(log: Log, tx: Tx, key: IssueKey, row: Row) {
    && key !in log && PreviousIn(log, key) && RowOk(key, row)
    && key.target in tx.locks
    && exists j :: 0 <= j < tx.done && j < |tx.request.targets| && key.target == tx.request.targets[j]
  }

  /** Open transactions never hold the same uncommitted key, nor the same exclusive target. */
  ghost predicate Apart(one: Tx, other: Tx) {
    && one.inserted.Keys !! other.inserted.Keys
    && forall x :: x in one.locks && x in other.locks ==> !Exclusive(x)
  }

  ghost predicate Inv(s: State) {
    && GapFree(s.log) && RowsOk(s.log)
    && (forall t :: t in s.running ==> Sound(s.log, s.running[t]))
    && (forall t, u :: t in s.running && u in s.running && t != u ==> Apart(s.running[t], s.running[u]))
  }

  // ----- each step keeps the invariant

  /** Rows committed by another transaction leave a transaction's knowledge standing. */
  lemma SoundAfterCommit(log: Log, tx: Tx, other: Tx)
    requires Sound(log, tx) && Sound(log, other) && Apart(tx, other)
    ensures Sound(log + other.inserted, tx)
  {
    var grown := log + other.inserted;
    if tx.phase != Locking {
      forall i | 0 <= i < |tx.current| ensures NumberHeld(grown, tx, i) {
        assert NumberHeld(log, tx, i);
        if Exclusive(tx.request.targets[i]) { StillHighest(log, tx, other, i); }
      }
    }
    forall k | k in tx.inserted ensures Extends(grown, tx, k, tx.inserted[k]) {
      assert Extends(log, tx, k, tx.inserted[k]);
    }
  }

  lemma OwnInserted(log: Log, tx: Tx, key: IssueKey)
    requires Sound(log, tx)
    ensures key in tx.inserted ==> Extends(log, tx, key, tx.inserted[key])
  {
  }

  lemma StillHighest(log: Log, tx: Tx, other: Tx, i: nat)
    requires Sound(log, other) && Apart(tx, other)
    requires i < |tx.current| && i < |tx.request.targets| && NumberHeld(log, tx, i) && Exclusive(tx.request.targets[i])
    ensures IsHighest(log + other.inserted, tx.request.doc, tx.request.targets[i], tx.current[i])
  {
    forall n ensures IssueKey(tx.request.doc, tx.request.targets[i], n) !in other.inserted {
      OwnInserted(log, other, IssueKey(tx.request.doc, tx.request.targets[i], n));
    }
  }

  lemma CommitKeepsLog(log: Log, tx: Tx)
    requires GapFree(log) && RowsOk(log) && Sound(log, tx)
    ensures GapFree(log + tx.inserted) && RowsOk(log + tx.inserted)
  {
    var grown := log + tx.inserted;
    forall k | k in grown ensures PreviousIn(grown, k) && RowOk(k, grown[k]) {
      if k in tx.inserted {
        assert Extends(log, tx, k, tx.inserted[k]);
      } else {
        assert PreviousIn(log, k) && RowOk(k, log[k]);
      }
    }
  }

  lemma CommitKeeps(s: State, t: CallId, s': State)
    requires Inv(s) && Next(s, t, Commit, s')
    ensures Inv(s')
  {
    CommitKeepsLog(s.log, s.running[t]);
    hide GapFree, RowsOk, Sound, Apart;
    forall u | u in s'.running ensures Sound(s'.log, s'.running[u]) {
      SoundAfterCommit(s.log, s.running[u], s.running[t]);
    }
  }

  lemma SoundAfterReport(log: Log, key: IssueKey, row: Row, tx: Tx)
    requires Sound(log, tx) && key in log
    ensures Sound(log[key := row], tx)
  {
    var after := log[key := row];
    if tx.phase != Locking {
      forall i | 0 <= i < |tx.current| ensures NumberHeld(after, tx, i) {
        assert NumberHeld(log, tx, i);
      }
    }
    forall k | k in tx.inserted ensures Extends(after, tx, k, tx.inserted[k]) {
      assert Extends(log, tx, k, tx.inserted[k]);
    }
  }

  lemma ReportKeepsLog(log: Log, key: IssueKey, row: Row)
    requires GapFree(log) && RowsOk(log) && key in log && RowOk(key, row)
    ensures GapFree(log[key := row]) && RowsOk(log[key := row])
  {
    var after := log[key := row];
    forall k | k in after ensures PreviousIn(after, k) { assert PreviousIn(log, k); }
  }

  lemma ReportStepKeeps(s: State, t: CallId, step: Step, s': State)
    requires Inv(s) && step.Report? && Next(s, t, step, s')
    ensures Inv(s')
  {
    var row := ReportPrint(s.log[step.key], step.succeeded, step.failureReason).value;
    assert RowOk(step.key, s.log[step.key]);
    ReportKeeps(s.log[step.key], step.succeeded, step.failureReason);
    ReportKeepsLog(s.log, step.key, row);
    hide GapFree, RowsOk, Sound, Apart, ReportPrint;
    forall u | u in s'.running ensures Sound(s'.log, s'.running[u]) {
      SoundAfterReport(s.log, step.key, row, s.running[u]);
    }
  }

  lemma InsertedIsSound(s: State, t: CallId, tx: Tx)
    requires Inv(s) && t in s.running && OwnStep(s, t, Insert, tx)
    ensures Sound(s.log, tx)
    ensures forall u :: u in s.running && u != t ==> Apart(tx, s.running[u])
  {
    var before := s.running[t];
    var i, key := before.done, KeyOf(before, before.done);
    assert Sound(s.log, before);
    assert NumberHeld(s.log, before, i);
    assert Extends(s.log, tx, key, NewRow(before, i)) by {
      assert key.target == tx.request.targets[i];
    }
    forall k | k in tx.inserted ensures Extends(s.log, tx, k, tx.inserted[k]) {
      if k != key { assert Extends(s.log, before, k, before.inserted[k]); }
    }
    forall j | 0 <= j < |tx.current| ensures NumberHeld(s.log, tx, j) {
      assert NumberHeld(s.log, before, j);
    }
    forall u | u in s.running && u != t ensures Apart(tx, s.running[u]) {
      assert Apart(before, s.running[u]);
      assert key !in s.running[u].inserted;
    }
  }

  lemma OwnIsSound(s: State, t: CallId, step: Step, tx: Tx)
    requires Inv(s) && t in s.running && OwnStep(s, t, step, tx) && !step.Insert?
    ensures Sound(s.log, tx)
  {
    var before := s.running[t];
    assert Sound(s.log, before);
    if step.ReadNumbers? || step.Qualify? {
      forall i | 0 <= i < |tx.current| ensures NumberHeld(s.log, tx, i) {
        if step.Qualify? { assert NumberHeld(s.log, before, i); }
      }
    }
  }

  lemma OwnIsApart(s: State, t: CallId, step: Step, tx: Tx)
    requires Inv(s) && t in s.running && OwnStep(s, t, step, tx) && !step.Insert?
    ensures forall u :: u in s.running && u != t ==> Apart(tx, s.running[u])
  {
    var before := s.running[t];
    assert Sound(s.log, before);
    hide Sound;
    forall u | u in s.running && u != t ensures Apart(tx, s.running[u]) {
      assert Apart(before, s.running[u]);
    }
  }

  /** Replacing one transaction's record by one that is sound and apart from the others. */
  lemma WithTxKeeps(s: State, t: CallId, tx: Tx)
    requires Inv(s) && Sound(s.log, tx)
    requires forall u :: u in s.running && u != t ==> Apart(tx, s.running[u])
    ensures Inv(WithTx(s, t, tx))
  {
    hide GapFree, RowsOk, Sound;
    forall u | u in s.running && u != t ensures Apart(s.running[u], tx) {
      assert Apart(tx, s.running[u]);
    }
    hide Apart;
  }

  lemma StepKeeps(s: State, t: CallId, step: Step, s': State)
    requires Inv(s) && Next(s, t, step, s')
    ensures Inv(s')
  {
    hide OwnStep, Apart, Sound, GapFree, RowsOk, ReportPrint;
    if step.Commit? {
      CommitKeeps(s, t, s');
    } else if step.Report? {
      ReportStepKeeps(s, t, step, s');
    } else if step.GiveUp? {
      assert forall u :: u in s'.running ==> u in s.running && s'.running[u] == s.running[u];
    } else if step.Begin? {
      FreshIsSound(s, step.request);
      WithTxKeeps(s, t, Fresh(step.request, 1));
    } else {
      var tx :| OwnStep(s, t, step, tx) && s' == WithTx(s, t, tx);
      if step.Insert? {
        InsertedIsSound(s, t, tx);
      } else {
        OwnIsSound(s, t, step, tx);
        OwnIsApart(s, t, step, tx);
      }
      WithTxKeeps(s, t, tx);
    }
  }

  lemma FreshIsSound(s: State, request: Request)
    requires WellFormed(request)
    ensures Sound(s.log, Fresh(request, 1))
    ensures forall u :: u in s.running ==> Apart(Fresh(request, 1), s.running[u])
  {
  }

  // ----- duplicates

  lemma ExclusiveIsFree(s: State, t: CallId)
    requires Inv(s) && t in s.running
    requires s.running[t].phase.Qualified? && s.running[t].done < |s.running[t].request.targets|
    requires Exclusive(s.running[t].request.targets[s.running[t].done])
    ensures |s.running[t].current| == |s.running[t].request.targets|
    ensures CanInsert(s, t, KeyOf(s.running[t], s.running[t].done))
    ensures KeyOf(s.running[t], s.running[t].done) !in s.running[t].inserted
  {
    var tx := s.running[t];
    assert Sound(s.log, tx);
    var key := KeyOf(tx, tx.done);
    assert NumberHeld(s.log, tx, tx.done);
    OwnInserted(s.log, tx, key);
    forall u | u in s.running && u != t ensures key !in s.running[u].inserted {
      assert Apart(tx, s.running[u]);
      assert Sound(s.log, s.running[u]);
      OwnInserted(s.log, s.running[u], key);
    }
  }

  // ----- rows endure

  /** A committed row stays; only a print report changes it, and a successful print is never reopened. */
  lemma RowsEndure(s: State, t: CallId, step: Step, s': State, key: IssueKey)
    requires Inv(s) && Next(s, t, step, s') && key in s.log
    ensures key in s'.log
    ensures s'.log[key].reissueReason == s.log[key].reissueReason
    ensures s.log[key].outcome == SUCCEEDED ==> s'.log[key] == s.log[key]
    ensures s'.log[key] != s.log[key] ==> step.Report? && step.key == key && s'.log[key].outcome != PENDING
  {
    hide GapFree, Apart, OwnStep;
    if step.Commit? {
      OwnInserted(s.log, s.running[t], key);
    }
  }

  // ----- whole runs

  ghost predicate Stepped(s: State, s': State) {
    exists t, step :: Next(s, t, step, s')
  }

  ghost predicate IsRun(run: seq<State>) {
    && run != []
    && run[0].running == map[] && GapFree(run[0].log) && RowsOk(run[0].log)
    && forall i :: 0 < i < |run| ==> Stepped(run[i - 1], run[i])
  }

  lemma StepsKeep(s: State, s': State)
    requires Inv(s) && Stepped(s, s')
    ensures Inv(s')
  {
    hide Inv;
    var t, step :| Next(s, t, step, s');
    StepKeeps(s, t, step, s');
  }

  lemma {:induction false} AlwaysInv(run: seq<State>, n: nat)
    requires IsRun(run) && n < |run|
    ensures Inv(run[n])
  {
    if n > 0 {
      hide Inv, Stepped;
      AlwaysInv(run, n - 1);
      StepsKeep(run[n - 1], run[n]);
    } else {
      hide Stepped;
    }
  }

  /**
   * In every run, a target locked for one transaction alone never meets a duplicate or a wait: the number
   * about to be inserted is taken neither by the committed log nor by any open transaction.
   */
  lemma ExclusiveNeverDuplicates(run: seq<State>, at: nat, t: CallId)
    requires IsRun(run) && at < |run| && t in run[at].running
    requires var tx := run[at].running[t];
             tx.phase.Qualified? && tx.done < |tx.request.targets| && Exclusive(tx.request.targets[tx.done])
    ensures var tx := run[at].running[t];
            && |tx.current| == |tx.request.targets|
            && CanInsert(run[at], t, KeyOf(tx, tx.done)) && KeyOf(tx, tx.done) !in tx.inserted
  {
    hide Inv, IsRun, CanInsert;
    AlwaysInv(run, at);
    ExclusiveIsFree(run[at], t);
  }

  /**
   * In every committed state of every run of concurrent, retried requests and print reports, the numbers
   * of every document and target are exactly 1..n and every row is consistent.
   */
  lemma NumbersNeverGap(run: seq<State>, at: nat, doc: DocumentType, target: Target) returns (n: nat)
    requires IsRun(run) && at < |run|
    ensures forall i :: IssueKey(doc, target, i) in run[at].log <==> 1 <= i <= n
    ensures forall i :: 1 <= i <= n ==> RowOk(IssueKey(doc, target, i), run[at].log[IssueKey(doc, target, i)])
  {
    AlwaysInv(run, at);
    n := NumbersAreOneToN(run[at].log, doc, target);
  }

  /** Over a run a row is never lost, and its printed success and its reissue reason never change. */
  lemma {:induction false} SuccessIsFinal(run: seq<State>, early: nat, late: nat, key: IssueKey)
    requires IsRun(run) && early <= late < |run| && key in run[early].log
    ensures key in run[late].log
    ensures run[late].log[key].reissueReason == run[early].log[key].reissueReason
    ensures run[early].log[key].outcome == SUCCEEDED ==> run[late].log[key] == run[early].log[key]
    decreases late
  {
    hide Inv;
    if early < late {
      SuccessIsFinal(run, early, late - 1, key);
      AlwaysInv(run, late - 1);
      assert Stepped(run[late - 1], run[late]);
      var t, step :| Next(run[late - 1], t, step, run[late]);
      hide Next;
      RowsEndure(run[late - 1], t, step, run[late], key);
    }
  }

  // ----- the response of a request

  /** The inserted keys are those of the first `done` targets, one for each. */
  ghost predicate InsertedSoFar(tx: Tx) {
    && tx.done <= |tx.request.targets| && |tx.inserted| == tx.done && Distinct(tx.request.targets)
    && (tx.phase != Locking ==> |tx.current| == |tx.request.targets|)
    && (!tx.phase.Qualified? ==> tx.done == 0)
    && forall k :: k in tx.inserted <==> KeyOfSome(tx, k)
  }

  ghost predicate KeyOfSome(tx: Tx, key: IssueKey) {
    exists i :: 0 <= i < tx.done && i < |tx.request.targets| && i < |tx.current| && key == KeyOf(tx, i)
  }

  lemma OneMoreKey(before: Tx, tx: Tx, key: IssueKey)
    requires tx.request == before.request && tx.current == before.current && tx.done == before.done + 1
    requires before.done < |before.request.targets| == |before.current|
    ensures KeyOfSome(tx, key) <==> KeyOfSome(before, key) || key == KeyOf(before, before.done)
  {
    if KeyOfSome(tx, key) {
      var i :| 0 <= i < tx.done && i < |tx.request.targets| && i < |tx.current| && key == KeyOf(tx, i);
      assert key == KeyOf(before, i);
    }
    if KeyOfSome(before, key) {
      var i :| 0 <= i < before.done && i < |tx.request.targets| && i < |before.current| && key == KeyOf(before, i);
      assert key == KeyOf(tx, i);
    }
    assert KeyOf(before, before.done) == KeyOf(tx, before.done);
  }

  lemma InsertAddsOne(s: State, t: CallId, tx: Tx)
    requires t in s.running && OwnStep(s, t, Insert, tx) && InsertedSoFar(s.running[t])
    ensures InsertedSoFar(tx)
  {
    hide KeyOfSome, KeyOf, CanInsert, Distinct, NewRow;
    var before := s.running[t];
    var key := KeyOf(before, before.done);
    assert tx.inserted.Keys == before.inserted.Keys + {key};
    forall k ensures k in tx.inserted <==> KeyOfSome(tx, k) {
      OneMoreKey(before, tx, k);
    }
  }

  lemma OwnKeepsInserted(s: State, t: CallId, step: Step, tx: Tx)
    requires t in s.running && OwnStep(s, t, step, tx) && InsertedSoFar(s.running[t])
    ensures InsertedSoFar(tx)
  {
    if step.Insert? {
      InsertAddsOne(s, t, tx);
    } else {
      assert step.Lock? || tx.done == 0;
    }
  }

  lemma StepKeepsInserted(s: State, t: CallId, step: Step, s': State)
    requires Next(s, t, step, s') && forall u :: u in s.running ==> InsertedSoFar(s.running[u])
    ensures forall u :: u in s'.running ==> InsertedSoFar(s'.running[u])
  {
    hide OwnStep, ReportPrint;
    if t in s.running && !step.Report? && !step.Commit? && !step.GiveUp? && !step.Begin? {
      var tx :| OwnStep(s, t, step, tx) && s' == WithTx(s, t, tx);
      OwnKeepsInserted(s, t, step, tx);
    }
  }

  lemma {:induction false} AlwaysInserted(run: seq<State>, n: nat)
    requires IsRun(run) && n < |run|
    ensures forall t :: t in run[n].running ==> InsertedSoFar(run[n].running[t])
  {
    if n > 0 {
      hide InsertedSoFar, Next;
      AlwaysInserted(run, n - 1);
      assert Stepped(run[n - 1], run[n]);
      var t, step :| Next(run[n - 1], t, step, run[n]);
      StepKeepsInserted(run[n - 1], t, step, run[n]);
    }
  }

  /** The rows a statement gives back for what the transaction has inserted, in whatever order. */
  ghost predicate GivesBack<V>(tx: Tx, rows: seq<(IssueKey, V)>) {
    |rows| == |tx.inserted| && KeySet(rows) == tx.inserted.Keys
  }

  function Keys(tx: Tx): seq<IssueKey>
    requires |tx.current| == |tx.request.targets|
  {
    seq(|tx.current|, i requires 0 <= i < |tx.current| => KeyOf(tx, i))
  }

  /** Once every target has its row, the keys looked for are the inserted ones, each once. */
  lemma KeysAreInserted(tx: Tx)
    requires InsertedSoFar(tx) && tx.phase.Qualified? && tx.done == |tx.request.targets|
    ensures |Keys(tx)| == |tx.inserted| && forall k :: k in Keys(tx) <==> k in tx.inserted
    ensures forall i, j :: 0 <= i < j < |Keys(tx)| ==> Keys(tx)[i] != Keys(tx)[j]
  {
    forall k ensures k in Keys(tx) <==> k in tx.inserted {
      if k in tx.inserted {
        var i :| 0 <= i < tx.done && i < |tx.request.targets| && i < |tx.current| && k == KeyOf(tx, i);
        assert Keys(tx)[i] == k;
      }
      if k in Keys(tx) {
        var i :| 0 <= i < |Keys(tx)| && Keys(tx)[i] == k;
        assert KeyOfSome(tx, k);
      }
    }
  }

  /**
   * The response once every target has its row: whatever order the created and the re-read rows come in,
   * none of the internal errors occurs and item i is the row of target i.
   */
  method IssueResponse<V>(tx: Tx, created: seq<(IssueKey, int)>, reread: seq<(IssueKey, V)>) returns (items: seq<V>)
    requires InsertedSoFar(tx) && tx.phase.Qualified? && tx.done == |tx.request.targets|
    requires GivesBack(tx, created) && GivesBack(tx, reread)
    ensures |items| == |tx.request.targets| == |tx.current|
    ensures forall i :: 0 <= i < |items| ==> (KeyOf(tx, i), items[i]) in reread
  {
    KeysAreInserted(tx);
    var keys := Keys(tx);
    forall i | 0 <= i < |keys| ensures keys[i] in tx.inserted { assert keys[i] in keys; }
    hide InsertedSoFar;
    var ids := CreatedIds(keys, created);
    assert ids.Some?;
    forall i | 0 <= i < |keys| ensures exists k :: 0 <= k < |reread| && reread[k].0 == keys[i] {
      assert keys[i] in KeySet(reread);
    }
    var assembled := Assemble(keys, reread);
    items := assembled.value;
  }

  /** In every run, a request that is ready to commit is one the response is promised for. */
  lemma ReadyToRespond(run: seq<State>, at: nat, t: CallId)
    requires IsRun(run) && at < |run| && t in run[at].running
    requires run[at].running[t].phase.Qualified? && run[at].running[t].done == |run[at].running[t].request.targets|
    ensures InsertedSoFar(run[at].running[t])
    ensures var tx := run[at].running[t];
            && |Keys(tx)| == |tx.inserted| && (forall k :: k in Keys(tx) <==> k in tx.inserted)
            && (forall i, j :: 0 <= i < j < |Keys(tx)| ==> Keys(tx)[i] != Keys(tx)[j])
  {
    AlwaysInserted(run, at);
    KeysAreInserted(run[at].running[t]);
  }
}
