/**
 * A request that meets no other one gets its documents issued (document-issue-write.service.ts): by its own
 * steps it locks, reads, qualifies, inserts and commits, and each target has its next number.
 */
module IssueCompletes {
  import opened Results
  import opened IssueRules
  import opened IssueNumbering

  ghost predicate Path(path: seq<State>) {
    path != [] && forall i :: 0 < i < |path| ==> Stepped(path[i - 1], path[i])
  }

  lemma PathGoesOn(path: seq<State>, s: State)
    requires Path(path) && Stepped(path[|path| - 1], s)
    ensures Path(path + [s])
  {
    hide Stepped;
  }

  function Alone(log: Log, t: CallId, tx: Tx): State {
    State(log, map[t := tx])
  }

  lemma OwnStepTaken(log: Log, t: CallId, before: Tx, step: Step, tx: Tx)
    requires step.Lock? || step.ReadNumbers? || step.Qualify? || step.Insert?
    requires OwnStep(Alone(log, t, before), t, step, tx)
    ensures Stepped(Alone(log, t, before), Alone(log, t, tx))
  {
    hide OwnStep;
    assert WithTx(Alone(log, t, before), t, tx) == Alone(log, t, tx);
    assert Next(Alone(log, t, before), t, step, Alone(log, t, tx));
  }

  // ----- the locks

  ghost function LocksOf(targets: seq<Target>, n: nat): set<Target>
    requires n <= |targets|
  {
    if n == 0 then {} else LocksOf(targets, n - 1) + {targets[n - 1]}
  }

  lemma {:induction false} LocksHold(targets: seq<Target>, n: nat)
    requires n <= |targets|
    ensures forall i :: 0 <= i < n ==> targets[i] in LocksOf(targets, n)
  {
    if n > 0 { LocksHold(targets, n - 1); }
  }

  lemma {:induction false} TakesLocks(log: Log, t: CallId, request: Request, n: nat) returns (path: seq<State>)
    requires n <= |request.targets|
    ensures Path(path) && path[0] == Alone(log, t, Fresh(request, 1))
    ensures path[|path| - 1] == Alone(log, t, Fresh(request, 1).(locks := LocksOf(request.targets, n)))
  {
    if n == 0 {
      path := [Alone(log, t, Fresh(request, 1))];
    } else {
      path := TakesLocks(log, t, request, n - 1);
      var before := Fresh(request, 1).(locks := LocksOf(request.targets, n - 1));
      var tx := before.(locks := LocksOf(request.targets, n));
      OwnStepTaken(log, t, before, Lock(request.targets[n - 1]), tx);
      PathGoesOn(path, Alone(log, t, tx));
      path := path + [Alone(log, t, tx)];
    }
  }

  // ----- the numbers

  ghost predicate Highest(log: Log, request: Request, current: seq<nat>) {
    && |current| == |request.targets|
    && forall i :: 0 <= i < |current| ==> IsHighest(log, request.doc, request.targets[i], current[i])
  }

  lemma {:induction false} HighestOf(log: Log, doc: DocumentType, targets: seq<Target>, n: nat)
    returns (current: seq<nat>)
    requires GapFree(log) && n <= |targets|
    ensures |current| == n && forall i :: 0 <= i < n ==> IsHighest(log, doc, targets[i], current[i])
  {
    if n == 0 {
      current := [];
    } else {
      current := HighestOf(log, doc, targets, n - 1);
      var h := NumbersAreOneToN(log, doc, targets[n - 1]);
      current := current + [h];
    }
  }

  /** Some target has a document of this type already. */
  ghost predicate IssuedBefore(log: Log, request: Request) {
    exists i, n :: 0 <= i < |request.targets| && IssueKey(request.doc, request.targets[i], n) in log
  }

  /** A reason is there where one is needed, and one that is there can be used. */
  ghost predicate ReasonFits(log: Log, request: Request) {
    && (IssuedBefore(log, request) ==> request.reason.Some?)
    && (request.reason.Some? ==> !Blank(request.reason.value) && request.reasonActive)
  }

  ghost predicate NumbersLeft(log: Log, request: Request) {
    forall i, n :: 0 <= i < |request.targets| && IssueKey(request.doc, request.targets[i], n) in log ==> n < 2147483647
  }

  lemma HighestSays(log: Log, request: Request, current: seq<nat>)
    requires GapFree(log) && Highest(log, request, current)
    ensures IssuedBefore(log, request) <==> exists i :: 0 <= i < |current| && current[i] > 0
    ensures NumbersLeft(log, request) ==> forall i :: 0 <= i < |current| ==> current[i] < MAX_ISSUE_SEQ
  {
    if IssuedBefore(log, request) {
      var i, n :| 0 <= i < |request.targets| && IssueKey(request.doc, request.targets[i], n) in log;
      assert PreviousIn(log, IssueKey(request.doc, request.targets[i], n));
      assert IsHighest(log, request.doc, request.targets[i], current[i]);
    }
    forall i | 0 <= i < |current| && current[i] > 0
      ensures IssueKey(request.doc, request.targets[i], current[i]) in log
    {
      assert IsHighest(log, request.doc, request.targets[i], current[i]);
    }
  }

  // ----- the inserts

  /** The rows of the first n targets. */
  ghost function RowsOf(tx: Tx, n: nat): Log
    requires n <= |tx.current| == |tx.request.targets| && tx.phase.Qualified?
  {
    if n == 0 then map[] else RowsOf(tx, n - 1)[KeyOf(tx, n - 1) := NewRow(tx, n - 1)]
  }

  lemma {:induction false} RowsOfAre(tx: Tx, n: nat)
    requires n <= |tx.current| == |tx.request.targets| && tx.phase.Qualified? && Distinct(tx.request.targets)
    ensures forall k :: k in RowsOf(tx, n) <==> exists i :: 0 <= i < n && k == KeyOf(tx, i)
    ensures forall i :: 0 <= i < n ==> KeyOf(tx, i) in RowsOf(tx, n) && RowsOf(tx, n)[KeyOf(tx, i)] == NewRow(tx, i)
  {
    hide NewRow;
    if n > 0 { RowsOfAre(tx, n - 1); }
  }

  ghost function Written(tx: Tx, n: nat): Tx
    requires n <= |tx.current| == |tx.request.targets| && tx.phase.Qualified?
  {
    tx.(inserted := RowsOf(tx, n), done := n)
  }

  lemma {:induction false} WritesRows(log: Log, t: CallId, tx: Tx, n: nat) returns (path: seq<State>)
    requires n <= |tx.current| == |tx.request.targets| && tx.phase.Qualified? && Distinct(tx.request.targets)
    requires tx.inserted == map[] && tx.done == 0
    requires Highest(log, tx.request, tx.current)
    ensures Path(path) && path[0] == Alone(log, t, tx) && path[|path| - 1] == Alone(log, t, Written(tx, n))
  {
    if n == 0 {
      path := [Alone(log, t, tx)];
    } else {
      path := WritesRows(log, t, tx, n - 1);
      WritesRow(log, t, tx, n - 1);
      hide RowsOf, Stepped, Highest;
      PathGoesOn(path, Alone(log, t, Written(tx, n)));
      path := path + [Alone(log, t, Written(tx, n))];
    }
  }

  lemma WritesRow(log: Log, t: CallId, tx: Tx, n: nat)
    requires n < |tx.current| == |tx.request.targets| && tx.phase.Qualified? && Distinct(tx.request.targets)
    requires Highest(log, tx.request, tx.current)
    ensures Stepped(Alone(log, t, Written(tx, n)), Alone(log, t, Written(tx, n + 1)))
  {
    var before, key := Written(tx, n), KeyOf(tx, n);
    RowsOfAre(tx, n);
    assert IsHighest(log, tx.request.doc, tx.request.targets[n], tx.current[n]);
    assert KeyOf(before, n) == key && NewRow(before, n) == NewRow(tx, n);
    assert key !in before.inserted;
    hide Stepped, IsHighest, Highest, Distinct;
    assert CanInsert(Alone(log, t, before), t, key);
    OwnStepTaken(log, t, before, Insert, Written(tx, n + 1));
  }

  // ----- the whole request

  lemma PathsJoin(a: seq<State>, b: seq<State>)
    requires Path(a) && Path(b) && a[|a| - 1] == b[0]
    ensures Path(a + b[1..]) && (a + b[1..])[0] == a[0] && (a + b[1..])[|a + b[1..]| - 1] == b[|b| - 1]
  {
    hide Stepped;
    var joined := a + b[1..];
    forall i | 0 < i < |joined| ensures Stepped(joined[i - 1], joined[i]) {
      if i >= |a| {
        var k := i - |a| + 1;
        assert Stepped(b[k - 1], b[k]);
      }
    }
  }

  /** What the request was qualified with: its own reason, if it has one. */
  lemma Qualifies(log: Log, request: Request, current: seq<nat>)
    requires GapFree(log) && Highest(log, request, current) && ReasonFits(log, request)
    ensures ReissueReason(exists i :: 0 <= i < |current| && current[i] > 0, request.reason, request.reasonActive)
         == Ok(request.reason)
  {
    HighestSays(log, request, current);
    hide IssuedBefore, Highest, Blank;
  }

  lemma Reads(log: Log, t: CallId, request: Request, current: seq<nat>)
    requires Highest(log, request, current) && forall i :: 0 <= i < |current| ==> current[i] < MAX_ISSUE_SEQ
    ensures var held := Fresh(request, 1).(locks := LocksOf(request.targets, |request.targets|));
            Stepped(Alone(log, t, held), Alone(log, t, held.(phase := Numbered, current := current)))
  {
    LocksHold(request.targets, |request.targets|);
    hide IsHighest, LocksOf, Stepped;
    var held := Fresh(request, 1).(locks := LocksOf(request.targets, |request.targets|));
    OwnStepTaken(log, t, held, ReadNumbers(current), held.(phase := Numbered, current := current));
  }

  lemma QualifiesAfter(log: Log, t: CallId, request: Request, read: Tx)
    requires GapFree(log) && Highest(log, request, read.current) && ReasonFits(log, request)
    requires read.request == request && read.phase == Numbered
    ensures Stepped(Alone(log, t, read), Alone(log, t, read.(phase := Qualified(request.reason))))
  {
    Qualifies(log, request, read.current);
    hide GapFree, Highest, ReasonFits, Stepped, ReissueReason;
    OwnStepTaken(log, t, read, Qualify, read.(phase := Qualified(request.reason)));
  }

  /** From the start to the moment the first row is written. */
  lemma GetsQualified(log: Log, t: CallId, request: Request) returns (path: seq<State>, tx: Tx)
    requires GapFree(log) && WellFormed(request) && ReasonFits(log, request) && NumbersLeft(log, request)
    ensures Path(path) && path[0] == State(log, map[]) && path[|path| - 1] == Alone(log, t, tx)
    ensures tx.request == request && tx.phase == Qualified(request.reason) && tx.inserted == map[] && tx.done == 0
    ensures Highest(log, request, tx.current)
  {
    var locked := TakesLocks(log, t, request, |request.targets|);
    var current := HighestOf(log, request.doc, request.targets, |request.targets|);
    HighestSays(log, request, current);
    var held := Fresh(request, 1).(locks := LocksOf(request.targets, |request.targets|));
    var read := held.(phase := Numbered, current := current);
    tx := read.(phase := Qualified(request.reason));
    Reads(log, t, request, current);
    QualifiesAfter(log, t, request, read);
    Begins(log, t, request);
    hide Stepped, WellFormed, Highest, ReasonFits, NumbersLeft, GapFree, LocksOf, IsHighest;
    path := [State(log, map[]), Alone(log, t, Fresh(request, 1))];
    PathsJoin(path, locked);
    path := path + locked[1..];
    PathGoesOn(path, Alone(log, t, read));
    path := path + [Alone(log, t, read)];
    PathGoesOn(path, Alone(log, t, tx));
    path := path + [Alone(log, t, tx)];
  }

  lemma Begins(log: Log, t: CallId, request: Request)
    requires WellFormed(request)
    ensures Stepped(State(log, map[]), Alone(log, t, Fresh(request, 1)))
  {
    assert Next(State(log, map[]), t, Begin(request), Alone(log, t, Fresh(request, 1)));
  }

  lemma Commits(log: Log, t: CallId, tx: Tx)
    requires tx.phase.Qualified? && tx.done == |tx.request.targets|
    ensures Stepped(Alone(log, t, tx), State(log + tx.inserted, map[]))
  {
    assert Next(Alone(log, t, tx), t, Commit, State(log + tx.inserted, map[]));
  }

  /** The log with the next number of every target, not printed yet, and the reason from number 2 on. */
  ghost predicate Issued(log: Log, request: Request, after: Log) {
    && (forall k :: k in log ==> k in after && after[k] == log[k])
    && (forall i :: 0 <= i < |request.targets| ==> IssuedNext(log, request, after, request.targets[i]))
    && (forall k :: k in after && k !in log ==> k.doc == request.doc && k.target in request.targets)
  }

  ghost predicate IssuedNext(log: Log, request: Request, after: Log, target: Target) {
    exists h :: IssuedAs(log, request, after, target, h)
  }

  ghost predicate IssuedAs(log: Log, request: Request, after: Log, target: Target, h: int) {
    && IsHighest(log, request.doc, target, h)
    && (forall n :: IssueKey(request.doc, target, n) in after ==>
          IssueKey(request.doc, target, n) in log || n == h + 1)
    && IssueKey(request.doc, target, h + 1) in after
    && after[IssueKey(request.doc, target, h + 1)] == Row(if h == 0 then None else request.reason, PENDING, None)
  }

  lemma RowIsIssued(log: Log, tx: Tx, i: nat)
    requires i < |tx.current| == |tx.request.targets| && tx.phase == Qualified(tx.request.reason)
    requires Distinct(tx.request.targets) && Highest(log, tx.request, tx.current)
    ensures KeyOf(tx, i) !in log
    ensures IssuedAs(log, tx.request, log + RowsOf(tx, |tx.current|), tx.request.targets[i], tx.current[i])
  {
    RowsOfAre(tx, |tx.current|);
    hide RowsOf, Highest;
    assert IsHighest(log, tx.request.doc, tx.request.targets[i], tx.current[i]) by { HighestAt(log, tx, i); }
    var rows, target := RowsOf(tx, |tx.current|), tx.request.targets[i];
    assert KeyOf(tx, i) in rows && rows[KeyOf(tx, i)] == NewRow(tx, i);
    forall n | IssueKey(tx.request.doc, target, n) in rows ensures n == tx.current[i] + 1 {
      var j :| 0 <= j < |tx.current| && IssueKey(tx.request.doc, target, n) == KeyOf(tx, j);
      assert tx.request.targets[j] == tx.request.targets[i];
    }
  }

  lemma HighestAt(log: Log, tx: Tx, i: nat)
    requires Highest(log, tx.request, tx.current) && i < |tx.current|
    ensures i < |tx.request.targets| && IsHighest(log, tx.request.doc, tx.request.targets[i], tx.current[i])
  {
  }

  lemma IssuedFrom(log: Log, request: Request, rows: Log)
    requires forall k :: k in rows ==> k !in log && k.doc == request.doc && k.target in request.targets
    requires forall i :: 0 <= i < |request.targets| ==> IssuedNext(log, request, log + rows, request.targets[i])
    ensures Issued(log, request, log + rows)
  {
    hide IssuedNext;
  }

  lemma RowsAreIssued(log: Log, tx: Tx)
    requires |tx.current| == |tx.request.targets| && tx.phase == Qualified(tx.request.reason)
    requires Distinct(tx.request.targets) && Highest(log, tx.request, tx.current)
    ensures Issued(log, tx.request, log + RowsOf(tx, |tx.current|))
  {
    var rows := RowsOf(tx, |tx.current|);
    hide RowsOf, Highest, IssuedAs, Distinct, Issued, NewRow;
    forall k | k in rows ensures k !in log && k.doc == tx.request.doc && k.target in tx.request.targets {
      RowsOfAre(tx, |tx.current|);
      var i :| 0 <= i < |tx.current| && k == KeyOf(tx, i);
      RowIsIssued(log, tx, i);
    }
    forall i | 0 <= i < |tx.current| ensures IssuedNext(log, tx.request, log + rows, tx.request.targets[i]) {
      RowIsIssued(log, tx, i);
    }
    IssuedFrom(log, tx.request, rows);
  }

  /**
   * A request that is alone commits by its own steps, whatever the log, when every reason it needs is there
   * and no number is used up; then every target has exactly its next number, and nothing else changed.
   */
  lemma SoleIssueCommits(log: Log, t: CallId, request: Request) returns (path: seq<State>)
    requires GapFree(log) && WellFormed(request) && ReasonFits(log, request) && NumbersLeft(log, request)
    ensures Path(path) && path[0] == State(log, map[]) && path[|path| - 1].running == map[]
    ensures Issued(log, request, path[|path| - 1].log)
  {
    hide GapFree, ReasonFits, NumbersLeft, Highest, Stepped, Issued, RowsOf;
    var tx;
    path, tx := GetsQualified(log, t, request);
    QualifiedCommits(log, t, tx);
    var rows := WritesRows(log, t, tx, |tx.current|);
    PathsJoin(path, rows);
    path := path + rows[1..];
    var after := State(log + RowsOf(tx, |tx.current|), map[]);
    PathGoesOn(path, after);
    path := path + [after];
  }

  lemma QualifiedCommits(log: Log, t: CallId, tx: Tx)
    requires Highest(log, tx.request, tx.current) && Distinct(tx.request.targets)
    requires tx.phase == Qualified(tx.request.reason) && tx.inserted == map[] && tx.done == 0
    ensures |tx.current| == |tx.request.targets|
    ensures Stepped(Alone(log, t, Written(tx, |tx.current|)), State(log + RowsOf(tx, |tx.current|), map[]))
    ensures Issued(log, tx.request, log + RowsOf(tx, |tx.current|))
  {
    RowsAreIssued(log, tx);
    Commits(log, t, Written(tx, |tx.current|));
  }

  // ----- and only then

  /** What a transaction has been let through with, the log being what it was. */
  ghost predicate Passed(log: Log, tx: Tx) {
    && (tx.phase != Locking ==>
          Highest(log, tx.request, tx.current) && forall i :: 0 <= i < |tx.current| ==> tx.current[i] < 2147483647)
    && (tx.phase.Qualified? ==>
          ReissueReason(exists i :: 0 <= i < |tx.current| && tx.current[i] > 0, tx.request.reason,
                        tx.request.reasonActive).Ok?)
  }

  lemma OwnPasses(s: State, t: CallId, step: Step, tx: Tx)
    requires t in s.running && OwnStep(s, t, step, tx) && Passed(s.log, s.running[t])
    ensures Passed(s.log, tx)
  {
    hide IsHighest, ReissueReason, CanInsert, Held, KeyOf, NewRow;
  }

  lemma StepPasses(s: State, s': State)
    requires Stepped(s, s') && s'.log == s.log && forall u :: u in s.running ==> Passed(s.log, s.running[u])
    ensures forall u :: u in s'.running ==> Passed(s'.log, s'.running[u])
  {
    hide OwnStep, Passed, ReportPrint;
    var t, step :| Next(s, t, step, s');
    if step.Begin? {
      FreshPasses(s.log, step.request);
    } else if t in s.running && !step.Report? && !step.Commit? && !step.GiveUp? {
      var tx :| OwnStep(s, t, step, tx) && s' == WithTx(s, t, tx);
      OwnPasses(s, t, step, tx);
    }
  }

  lemma FreshPasses(log: Log, request: Request)
    ensures Passed(log, Fresh(request, 1))
  {
  }

  lemma {:induction false} AlwaysPassed(run: seq<State>, n: nat)
    requires IsRun(run) && n < |run| && forall i :: 0 <= i <= n ==> run[i].log == run[0].log
    ensures forall u :: u in run[n].running ==> Passed(run[n].log, run[n].running[u])
  {
    hide Stepped, Passed;
    if n > 0 {
      AlwaysPassed(run, n - 1);
      StepPasses(run[n - 1], run[n]);
    }
  }

  /**
   * As long as nobody else changes the log, a request comes to its commit only if the reason it needs is there
   * and none of its numbers is used up.
   */
  lemma CommitsOnlyIf(run: seq<State>, t: CallId, s': State)
    requires IsRun(run) && forall i :: 0 <= i < |run| ==> run[i].log == run[0].log
    requires Next(run[|run| - 1], t, Commit, s')
    ensures var request := run[|run| - 1].running[t].request;
            ReasonFits(run[0].log, request) && NumbersLeft(run[0].log, request)
  {
    var last := run[|run| - 1];
    AlwaysPassed(run, |run| - 1);
    PassedFits(last.log, last.running[t]);
  }

  lemma PassedFits(log: Log, tx: Tx)
    requires GapFree(log) && Passed(log, tx) && tx.phase.Qualified?
    ensures ReasonFits(log, tx.request) && NumbersLeft(log, tx.request)
  {
    HighestSays(log, tx.request, tx.current);
    forall i, n | 0 <= i < |tx.request.targets| && IssueKey(tx.request.doc, tx.request.targets[i], n) in log
      ensures n < 2147483647
    {
      assert IsHighest(log, tx.request.doc, tx.request.targets[i], tx.current[i]);
    }
    hide Highest, IssuedBefore, GapFree, Blank;
  }
}
