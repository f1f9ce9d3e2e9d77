/**
 * The history of one row of the issue log (document-issue-write.service.ts, document-issue-report.service.ts):
 * what a request writes, and what the print reports after it leave behind.
 */
module IssueHistory {
  import opened Results
  import opened IssueRules
  import opened IssueNumbering

  datatype Event = Event(call: CallId, step: Step)

  /** A run with the step taken at each point. */
  ghost predicate IsTrace(run: seq<State>, events: seq<Event>) {
    && |run| == |events| + 1
    && run[0].running == map[] && GapFree(run[0].log) && RowsOk(run[0].log)
    && forall i :: 0 <= i < |events| ==> Taken(run, events, i)
  }

  ghost predicate Taken(run: seq<State>, events: seq<Event>, i: nat)
    requires |run| == |events| + 1 && i < |events|
  {
    Next(run[i], events[i].call, events[i].step, run[i + 1])
  }

  lemma TraceIsRun(run: seq<State>, events: seq<Event>)
    requires IsTrace(run, events)
    ensures IsRun(run)
  {
    hide Next;
    forall i | 0 < i < |run| ensures Stepped(run[i - 1], run[i]) {
      assert Taken(run, events, i - 1);
    }
  }

  /** A row as its request writes it: not yet printed, and with the request's own reason from number 2 on. */
  predicate IsFresh(row: Row, key: IssueKey, request: Request) {
    && row.outcome == PENDING && row.failureReason == None
    && row.reissueReason == (if key.sequence == 1 then None else request.reason)
  }

  // ----- what a transaction has inserted

  /** What a transaction was qualified with, and the rows it has written so far. */
  ghost predicate FreshInserts(tx: Tx) {
    && (!tx.phase.Qualified? ==> tx.inserted == map[])
    && (tx.phase.Qualified? ==> OwnReason(tx))
    && forall k :: k in tx.inserted ==> InsertedBy(tx, k)
  }

  ghost predicate OwnReason(tx: Tx)
    requires tx.phase.Qualified?
  {
    && (tx.phase.reason.Some? ==> tx.phase.reason == tx.request.reason && tx.request.reasonActive)
    && forall i :: 0 <= i < |tx.current| && tx.current[i] > 0 ==> tx.phase.reason.Some?
  }

  ghost predicate InsertedBy(tx: Tx, key: IssueKey)
    requires key in tx.inserted
  {
    && key.doc == tx.request.doc && key.target in tx.request.targets
    && IsFresh(tx.inserted[key], key, tx.request)
    && (key.sequence > 1 ==> tx.request.reason.Some? && tx.request.reasonActive)
  }

  lemma InsertIsFresh(s: State, t: CallId, tx: Tx)
    requires t in s.running && OwnStep(s, t, Insert, tx) && FreshInserts(s.running[t])
    ensures FreshInserts(tx)
  {
    hide CanInsert;
    var before := s.running[t];
    var i, key := before.done, KeyOf(before, before.done);
    assert key.target == before.request.targets[i];
    assert InsertedBy(tx, key);
    forall k | k in tx.inserted ensures InsertedBy(tx, k) {
      if k != key { assert InsertedBy(before, k); }
    }
  }

  lemma QualifyOwnReason(s: State, t: CallId, tx: Tx)
    requires t in s.running && OwnStep(s, t, Qualify, tx) && FreshInserts(s.running[t])
    ensures FreshInserts(tx)
  {
    hide Blank;
  }

  lemma OwnStepFresh(s: State, t: CallId, step: Step, tx: Tx)
    requires t in s.running && OwnStep(s, t, step, tx) && FreshInserts(s.running[t])
    ensures FreshInserts(tx)
  {
    if step.Insert? {
      InsertIsFresh(s, t, tx);
    } else if step.Qualify? {
      QualifyOwnReason(s, t, tx);
    } else {
      assert step.Lock? || tx.inserted == map[];
    }
  }

  ghost predicate AllFresh(s: State) {
    forall t :: t in s.running ==> FreshInserts(s.running[t])
  }

  lemma StepFresh(s: State, t: CallId, step: Step, s': State)
    requires AllFresh(s) && Next(s, t, step, s')
    ensures AllFresh(s')
  {
    hide OwnStep, ReportPrint;
    if t in s.running && !step.Report? && !step.Commit? && !step.GiveUp? && !step.Begin? {
      var tx :| OwnStep(s, t, step, tx) && s' == WithTx(s, t, tx);
      OwnStepFresh(s, t, step, tx);
    }
  }

  lemma {:induction false} AlwaysFresh(run: seq<State>, events: seq<Event>, n: nat)
    requires IsTrace(run, events) && n < |run|
    ensures AllFresh(run[n])
  {
    if n > 0 {
      hide AllFresh, Next;
      AlwaysFresh(run, events, n - 1);
      assert Taken(run, events, n - 1);
      StepFresh(run[n - 1], events[n - 1].call, events[n - 1].step, run[n]);
    }
  }

  // ----- where a committed row comes from

  /** The commit at this point writes the row of the key. */
  ghost predicate Writes(run: seq<State>, events: seq<Event>, c: nat, key: IssueKey)
    requires |run| == |events| + 1 && c < |events|
  {
    && events[c].step.Commit? && events[c].call in run[c].running
    && key !in run[c].log && key in run[c].running[events[c].call].inserted
  }

  ghost function Writer(run: seq<State>, events: seq<Event>, c: nat): Request
    requires |run| == |events| + 1 && c < |events| && events[c].call in run[c].running
  {
    run[c].running[events[c].call].request
  }

  /** No print report of this key is taken from a on before b. */
  ghost predicate Unreported(events: seq<Event>, key: IssueKey, a: nat, b: nat) {
    forall k :: a <= k < b && k < |events| ==> !Reports(events[k].step, key)
  }

  predicate Reports(step: Step, key: IssueKey) {
    step.Report? && step.key == key
  }

  /** A row without a report stays as it is. */
  lemma {:induction false} Unchanged(run: seq<State>, events: seq<Event>, key: IssueKey, a: nat, b: nat)
    requires IsTrace(run, events) && a <= b < |run| && key in run[a].log && Unreported(events, key, a, b)
    ensures key in run[b].log && run[b].log[key] == run[a].log[key]
    decreases b
  {
    hide Next, IsRun, Inv;
    if a < b {
      Unchanged(run, events, key, a, b - 1);
      TraceIsRun(run, events);
      AlwaysInv(run, b - 1);
      assert Taken(run, events, b - 1);
      RowsEndure(run[b - 1], events[b - 1].call, events[b - 1].step, run[b], key);
      assert !Reports(events[b - 1].step, key);
    }
  }

  lemma NewRowIsWritten(s: State, t: CallId, step: Step, s': State, key: IssueKey)
    requires Next(s, t, step, s') && key !in s.log && key in s'.log
    ensures step.Commit? && t in s.running && key in s.running[t].inserted && s'.log[key] == s.running[t].inserted[key]
  {
    hide OwnStep, ReportPrint;
  }

  /** Every row that was not there at the start was written by exactly one commit, as its request asked. */
  lemma {:induction false} WrittenAt(run: seq<State>, events: seq<Event>, key: IssueKey, n: nat) returns (c: nat)
    requires IsTrace(run, events) && n < |run| && key in run[n].log && key !in run[0].log
    ensures c < n && Writes(run, events, c, key)
    ensures key in run[c + 1].log && IsFresh(run[c + 1].log[key], key, Writer(run, events, c))
    ensures key.doc == Writer(run, events, c).doc && key.target in Writer(run, events, c).targets
    ensures key.sequence > 1 ==> Writer(run, events, c).reason.Some? && Writer(run, events, c).reasonActive
  {
    hide Next, FreshInserts;
    if key in run[n - 1].log {
      c := WrittenAt(run, events, key, n - 1);
    } else {
      c := n - 1;
      assert Taken(run, events, c);
      NewRowIsWritten(run[c], events[c].call, events[c].step, run[n], key);
      AlwaysFresh(run, events, c);
      WrittenRow(run[c].running[events[c].call], key);
    }
  }

  lemma WrittenRow(tx: Tx, key: IssueKey)
    requires FreshInserts(tx) && key in tx.inserted
    ensures InsertedBy(tx, key)
  {
  }

  /**
   * A row nobody has reported on is as its request wrote it: PENDING, without a failure reason, without a
   * reissue reason for number 1 and with the request's own reason otherwise.
   */
  lemma UnreportedIsPending(run: seq<State>, events: seq<Event>, key: IssueKey, n: nat) returns (c: nat)
    requires IsTrace(run, events) && n < |run| && key in run[n].log && key !in run[0].log
    requires Unreported(events, key, 0, n)
    ensures c < n && Writes(run, events, c, key) && IsFresh(run[n].log[key], key, Writer(run, events, c))
    ensures key.sequence > 1 ==> Writer(run, events, c).reason.Some? && Writer(run, events, c).reasonActive
  {
    c := WrittenAt(run, events, key, n);
    Unchanged(run, events, key, c + 1, n);
  }

  /** The reissue reason stays the one the row was written with, whatever is reported. */
  lemma ReasonIsTheRequests(run: seq<State>, events: seq<Event>, key: IssueKey, n: nat) returns (c: nat)
    requires IsTrace(run, events) && n < |run| && key in run[n].log && key !in run[0].log
    ensures c < n && Writes(run, events, c, key)
    ensures run[n].log[key].reissueReason == (if key.sequence == 1 then None else Writer(run, events, c).reason)
  {
    c := WrittenAt(run, events, key, n);
    TraceIsRun(run, events);
    SuccessIsFinal(run, c + 1, n, key);
  }

  lemma RowIsConsistent(run: seq<State>, events: seq<Event>, n: nat, key: IssueKey)
    requires IsTrace(run, events) && n < |run| && key in run[n].log
    ensures ReportConsistent(run[n].log[key])
  {
    TraceIsRun(run, events);
    AlwaysInv(run, n);
    assert RowOk(key, run[n].log[key]);
  }

  /** After its last report a row says what that report sent: for a failure the very text, for a success none. */
  lemma LastReportStands(run: seq<State>, events: seq<Event>, r: nat, n: nat)
    requires IsTrace(run, events) && r < n < |run| && events[r].step.Report?
    requires Unreported(events, events[r].step.key, r + 1, n)
    ensures var report := events[r].step;
            && report.key in run[n].log
            && run[n].log[report.key].outcome == (if report.succeeded then SUCCEEDED else FAILED)
            && run[n].log[report.key].failureReason == (if report.succeeded then None else report.failureReason)
  {
    assert Taken(run, events, r);
    var report := events[r].step;
    RowIsConsistent(run, events, r, report.key);
    ReportKeeps(run[r].log[report.key], report.succeeded, report.failureReason);
    hide Next;
    Unchanged(run, events, report.key, r + 1, n);
  }

  /** A print report on a committed row is taken exactly when the row is not yet printed and the reason fits. */
  lemma ReportTakenIff(run: seq<State>, n: nat, t: CallId, report: Step)
    requires IsRun(run) && n < |run| && report.Report?
    ensures (exists s' :: Next(run[n], t, report, s')) <==>
              && report.key in run[n].log && run[n].log[report.key].outcome != SUCCEEDED
              && (report.succeeded <==> report.failureReason == None || Blank(report.failureReason.value))
  {
    hide Blank;
    AlwaysInv(run, n);
    if report.key in run[n].log {
      var row := run[n].log[report.key];
      assert RowOk(report.key, row);
      ReportKeeps(row, report.succeeded, report.failureReason);
      hide ReportPrint, ReportConsistent, Inv, IsRun;
      var printed := ReportPrint(row, report.succeeded, report.failureReason);
      if printed.Ok? {
        assert Next(run[n], t, report, run[n].(log := run[n].log[report.key := printed.value]));
      }
    }
  }
}
