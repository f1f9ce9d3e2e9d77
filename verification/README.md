# Verified model of the MES backend's concurrency, time and dashboard logic

The backend is a manufacturing-execution API over PostgreSQL. This project models, in Dafny, the parts of
it whose correctness spans several statements, several transactions or a whole loop, and proves what those
parts are for:

- **Concurrent invariants.** `LastAdmin` (four guarded writes and one advisory lock always leave an
  administrator), `WorkerLink` (one account, one worker), `ApprovalRoute` (a route has steps when it is
  activated), `IssueNumbering` with `IssueRules` (issue numbers are 1..n under max-plus-one, a unique key
  and retries), `IssueHistory` (what a row says from its issue through its print reports), `IssueCompletes`
  (when a request that is alone commits), `LockOrder` (issue requests lock exactly the rows they ask for and
  cannot deadlock on them). Transactions are state machines
  over their statements under READ COMMITTED (section 13.2.1 of the PostgreSQL manual): a statement sees
  what is committed plus the transaction's own writes; writes appear when it commits.
- **Time.** `Gregorian` (the proleptic calendar as a day count), `DateTimeText` (digits, written dates, the
  date-time grammar, string order), `Instants` (parser and printer at microsecond precision),
  `WrittenInstants` (which texts are accepted and the instant each one means, character by character),
  `TimeBoundary` (rounding a search boundary up to the microsecond grid as text), `CalendarSolver` (local
  days as UTC intervals for an arbitrary zone).
- **Intervals and figures.** `Intervals` (union, subtract, intersect as point sets with a measure; stop
  and resume events), `Availability` (planned and actual time), `CountedTime` (which milliseconds of which
  equipment the availability figures are the numbers of), `DashboardWindows` and `DashboardFigures` (which
  days are fetched, which are read, what they add up to), `DashboardFetch` (from instants logged on each
  plant's own clock to the figures shown), `ShownFigures` (each number on the dashboard as a sum or quotient
  over rows), `Rates` (percentages).
- **Bounded loops.** `NumberedWrite` (the numbered-write retry loop), `LocationLabel` (the label layout).

A method is the code's own loop or update, proved against what it is for: a set of instants, a
specification function, a bound. Lemmas then relate those across functions and over whole runs. Where the
code does not meet the property everywhere, the exact condition is proved:

- `TimeBoundary.DocumentIssueTimeBoundary`: a boundary in the last second of year 9999 that rounds up has no
  readable result, and `LastSecondRoundsBeyond` is such a text; every other boundary cuts the microsecond grid
  where its input does.
- `CalendarSolver.MaintenanceDateRange`: the range selects the days asked for if and only if the clock never
  leaps back over a whole day at one of its ends. The premises stated in the code (offsets within a day,
  transitions an hour apart) do not exclude that; `LeapBackBreaksRanges` is such a clock. Jumps forward,
  however large, do no harm.
- `DashboardWindows.PreviousIsAdjacent`, `ProductionDaysExistIff`, `PeriodIsOk`: the period before a range,
  the chart and the quality period exist, with all they promise, exactly when they do not reach back beyond
  year 0. `FirstDayHasNothingBefore` is a range that is accepted and has none of them.
- `WorkerLink.CommitsIffLinkable`: a call that holds its account and is not interfered with can commit exactly
  when it names no worker or one that exists, is active and is linked to nobody. Saving a pair that is
  already linked therefore never succeeds, whatever other calls do (`ResaveOnlyRollsBack`), although such a
  call passes its check (`ResavingIsReached`): the code finds no row with an empty link and undoes it.
- `ApprovalRoute.KeepsStepsIff`: only the moment of activation is protected. Over any stretch of any run a
  route that has steps keeps having steps exactly when no replacement by the empty list commits; that list is
  the one the request came with (`WritesWhatWasRequested`), and `ActiveRouteMayBeEmptied` is such a run.

`dafny verify dfyconfig.toml` checks the whole project.

## Model

| member | source | states |
|---|---|---|
| LastAdmin.AdminAlwaysRemains | src/app/access/last-admin.ts:36-68 | in every run of any number of guarded writes and unlocked activations, each free to roll back, every committed state keeps an active user holding the admin permission through an active role |
| LastAdmin.StepKeeps | src/app/access/role.service.ts:147-163 | each statement of each transaction (begin, change rows, take the lock, count, commit, roll back) keeps the invariant that whoever has counted under the lock leaves an admin with its own writes applied |
| LastAdmin.CommitKeeps | src/app/access/user-assignment.service.ts:65-77 | committing after the count leaves an admin, and leaves what every other open transaction has counted true |
| LastAdmin.MoreRowsMoreAdmins | src/app/access/role-permission.service.ts:54-66 | adding rows never removes the last admin, which is why activations need no lock |
| LastAdmin.WriteSkewWithoutLock | src/app/access/app-user.service.ts:217-233 | without the lock, for any tables with exactly two admins, there is a run in which both deactivations count the other one and zero admins are committed |
| LastAdmin.CountedIs | src/app/access/last-admin.ts:44-57 | a user is counted exactly when it is active and has an active role holding the permission W-CO-02 |
| LastAdmin.WritesWhenFree | src/app/access/role-permission.service.ts:54-66 | a transaction gets through its writes by its own steps when nobody else holds the rows it touches |
| LastAdmin.WrittenCommitsIff | src/app/access/last-admin.ts:36-68 | with the lock free, a guarded transaction that has written can lock, count and commit exactly when an admin is left in what it sees |
| LastAdmin.ActivationCommits | src/app/access/app-user.service.ts:217-233 | switching a user or role on commits without lock or count, switching it off never does |
| LastAdmin.EndingFrees | src/app/access/last-admin.ts:38-42 | a commit or rollback frees the lock and the rows of its transaction and touches no other one |
| LastAdmin.CommitDoesWhatWasRequested | src/app/access/user-assignment.service.ts:65-77 | in any run a commit leaves exactly its request's effect: rows asked for are there, a user or role switched off is off, nothing else appears, no other row changes |
| WorkerLink.OneWorkerAlways | src/app/access/user-worker-link.service.ts:39-76 | in every interleaving of replace calls no account is ever linked to two workers |
| WorkerLink.StepKeeps | src/app/access/user-worker-link.service.ts:42-65 | each statement (account lock, check, free, conditional set, commit, rollback) keeps one worker per account and what every open call may rely on |
| WorkerLink.CallEffect | src/app/access/user-worker-link.service.ts:58-76 | a committed call links exactly the worker asked for, took it from nobody and changed no other account's link; every other step, a failed call's end included, leaves all links as they were |
| WorkerLink.CallEffectInRuns | src/app/access/user-worker-link.service.ts:38-77 | that effect is the only one any step has, in every reachable state |
| WorkerLink.CommitsIffLinkable | src/app/access/user-worker-link.service.ts:46-73 | holding its account, a call can reach its commit by its own steps exactly when it names no worker or one that exists, is active and has a null link, and no open call is writing the rows it writes |
| WorkerLink.AloneTheLinkDecides | src/app/access/user-worker-link.service.ts:46-56 | with no other call's writes open, existence, activity and the null link alone decide; a call naming no worker always can commit |
| WorkerLink.SoleCallSucceedsIff | src/app/access/user-worker-link.service.ts:38-77 | from its beginning, a call made alone can succeed exactly on the links its caller could read before it |
| WorkerLink.ResavingIsReached | src/app/access/user-worker-link.service.ts:46-65 | a real call for an already linked, active worker passes the check and frees nothing, and is then bound to be undone |
| WorkerLink.ResaveOnlyRollsBack | src/app/access/user-worker-link.service.ts:66-72 | a call for a pair already linked can only end by its own rollback, whatever other calls do |
| ApprovalRoute.ActivatedRouteHasSteps | src/app/approval/approval-route.service.ts:144-167 | whatever the interleaving, the route has a first step at the moment an activation commits, though the steps were counted outside any transaction, and step numbers are 1..n |
| ApprovalRoute.StepKeeps | src/app/approval/approval-route.service.ts:194-233 | every statement of activations, step replacements, updates and deactivations keeps: a counted version that is still current has steps, and step numbers are 1..n |
| ApprovalRoute.StepsChangeWithVersion | src/app/approval/approval-route.service.ts:173-181 | the version only grows, and neither the steps nor the active flag change without it |
| ApprovalRoute.StepRows | src/app/approval/approval-route.service.ts:216-229 | the rows of a list of n steps are numbered exactly 1..n, in the order of the list |
| ApprovalRoute.LosesStepsIff | src/app/approval/approval-route.service.ts:215-216 | a step takes a route's steps away exactly when it commits a replacement by the empty list |
| ApprovalRoute.KeepsStepsIff | src/app/approval/approval-route.service.ts:194-233 | over any stretch of any run a route with steps keeps having steps exactly when no replacement by the empty list commits in it |
| ApprovalRoute.ActivatedRouteKeepsStepsIff | src/app/approval/approval-route.service.ts:144-233 | from an activation on, the route has steps exactly as long as no replacement by the empty list commits |
| ApprovalRoute.WritesWhatWasRequested | src/app/approval/approval-route.service.ts:194-229 | a replacement, until it commits, holds the list its request came with |
| ApprovalRoute.EmptiesWhatWasRequestedEmpty | src/app/approval/approval-route.service.ts:194-216 | a commit that empties a route belongs to a call whose request body was the empty list |
| ApprovalRoute.NoEmptyRequestKeepsSteps | src/app/approval/approval-route.service.ts:194-233 | a route with steps keeps them for as long as no request with the empty list has been begun |
| ApprovalRoute.WithoutBumpAnEmptyRouteIsActivated | src/app/approval/approval-route.service.ts:202-205 | if replacing the steps did not bump the version, a route without steps would be activated, at any version |
| ApprovalRoute.ActiveRouteMayBeEmptied | src/app/approval/approval-route.service.ts:215-216 | an active route can lose all its steps afterwards and stay active |
| ApprovalRoute.StepEffect | src/app/approval/approval-route.service.ts:144-229 | what each committing step does to version, active flag and steps of the route, and that no other step does anything to it |
| ApprovalRoute.SwitchLasts | src/app/approval/approval-route.service.ts:144-184 | in any run a deactivated route stays inactive until the next activation commits, and an activated one active until the next deactivation |
| ApprovalRoute.SoleActivationIff | src/app/approval/approval-route.service.ts:144-168 | an activation made alone succeeds exactly when it names the current version and the route has a step |
| ApprovalRoute.SoleReplacementIff | src/app/approval/approval-route.service.ts:194-233 | a replacement made alone succeeds, with any list, exactly when it names the current version |
| IssueNumbering.NumbersNeverGap | src/app/document-issue/document-issue-write.service.ts:49-112 | in every committed state of every run, from any gap-free log, of concurrent, retried issue requests and print reports, the numbers of every document and target are exactly 1..n and every row is consistent |
| IssueNumbering.NumbersAreOneToN | src/app/document-issue/document-issue-sequence.ts:43-95 | a log in which every number's predecessor exists holds exactly 1..n for each target, n being the highest that max-plus-one reads |
| IssueNumbering.StepKeeps | src/app/document-issue/document-issue-sequence.ts:98-113 | every lock, read, qualification, insert, commit, retry, refusal and report keeps the log gap-free and what each open transaction knows true, from max-plus-one and the unique key alone |
| IssueNumbering.InsertedIsSound | src/app/document-issue/document-issue-write.service.ts:86-112 | an inserted row continues the committed numbers, carries a reissue reason exactly when its number exceeds one, and is held by no other open transaction; what the row says besides is `IssueHistory.UnreportedIsPending` |
| IssueNumbering.ExclusiveNeverDuplicates | src/app/document-issue/document-issue-sequence.ts:49-74 | in every run, a target locked for one transaction alone never meets a duplicate or a wait: its next number is taken neither in the log nor by any open transaction |
| IssueNumbering.RowsEndure | src/app/document-issue/document-issue-report.service.ts:28-49 | no step loses a committed row or changes its reissue reason; only a report of that row changes it, and a successful print is never reopened |
| IssueNumbering.SuccessIsFinal | src/app/document-issue/document-issue-report.service.ts:92-103 | over any part of any run a printed success stays as it was |
| IssueNumbering.ReadyToRespond | src/app/document-issue/document-issue-write.service.ts:86-123 | in every run, a request whose rows are all inserted has inserted exactly the keys its response looks for, each once |
| IssueNumbering.IssueResponse | src/app/document-issue/document-issue-write.service.ts:112-158 | for such a request, whatever order created and re-read rows come in, no internal error occurs and item i is the row of target i |
| IssueHistory.UnreportedIsPending | src/app/document-issue/document-issue-write.service.ts:86-104 | in every run, a row committed since its start that no report step has touched is pending and has no failure reason |
| IssueHistory.ReasonIsTheRequests | src/app/document-issue/document-issue-write.service.ts:86-104 | its reissue reason is none for number one and otherwise the reason its own request came with, active at the time |
| IssueHistory.LastReportStands | src/app/document-issue/document-issue-report.service.ts:36-49 | after a report, and until the next one of that row, its outcome and failure reason are those the report sent |
| IssueHistory.ReportTakenIff | src/app/document-issue/document-issue-report.service.ts:92-126 | in every run a report of an existing row is taken exactly when the row is not a success and a failure reason is there for a failure and only for one |
| IssueCompletes.SoleIssueCommits | src/app/document-issue/document-issue-write.service.ts:49-112 | from any gap-free log, a request that is alone commits by its own steps when its reason fits and no number is used up; then each target has exactly its next number, pending, and nothing else changed |
| IssueCompletes.CommitsOnlyIf | src/app/document-issue/document-issue-create-rules.ts:252-282 | while the log stays as it is, only such a request comes to its commit, whatever other requests run |
| IssueRules.PrepareTargets | src/app/document-issue/document-issue-create-rules.ts:105-135 | succeeds exactly when no target is at fault (an id that is not exact as a double, a kind the document is not issued for, a repetition), keeping order and index; otherwise names the first target at fault and its fault |
| IssueRules.PreparedAreDistinct | src/app/document-issue/document-issue-create-rules.ts:284-312 | prepared targets are pairwise different and all of a kind the document type allows |
| IssueRules.PairsAre | src/app/document-issue/document-issue-create-rules.ts:288-303 | the table of supported pairs is, seen from each kind of target, the documents issued for it, and an id is safe exactly below 2 to the power of 53 |
| IssueRules.ReissueReason | src/app/document-issue/document-issue-create-rules.ts:252-282 | a needed reason is required and not blank, a given one must be active, none is made up |
| IssueRules.ReportKeeps | src/app/document-issue/document-issue-report.service.ts:105-126 | a report is accepted exactly when the row is not a success and a failure comes with a reason, a success without; the row then has that outcome and that reason, and its reissue reason as before |
| IssueRules.Assemble | src/app/document-issue/document-issue-write.service.ts:124-158 | re-read rows in any order become a response whose item i belongs to request target i, or an error when one is missing |
| IssueRules.CreatedIds | src/app/document-issue/document-issue-write.service.ts:220-255 | the ids in request order exactly when the created rows have as many distinct keys as the request and each of its keys |
| IssueRules.RunWithRetry | src/app/document-issue/document-issue-sequence.ts:98-145 | runs the whole transaction at most three times, goes on only after failures of the kinds that `RetryableIs` lists, and returns the last outcome, a conflict exactly when the third failure was one of them |
| IssueRules.RetryableIs | src/app/document-issue/document-issue-sequence.ts:115-145 | by the fields of a failure: a moved path, P2034, the states 40001 and 40P01, and a P2002 that names the issue log's constraint or its four columns in any order; nothing else |
| LockOrder.IssueRequestsNeverDeadlock | src/app/document-issue/document-issue-write.service.ts:54-62 | any number of supported issue requests, each seeing its own data, cannot wait for each other in a circle |
| LockOrder.TraceIncreases | src/app/document-issue/document-issue-create-rules.ts:288-303 | every supported request locks rows in strictly increasing order of one global rank with LOT last, whatever the tables hold and however the lock phase ends |
| LockOrder.NoWaitCircle | src/app/document-issue/document-issue-simple-lock.ts:41-58 | calls that lock in increasing order never wait in a circle, queueing behind another waiter included |
| LockOrder.SimpleOrdered | src/app/document-issue/document-issue-simple-lock.ts:86-176 | serials, handling units, their contents, molds and locations are locked in rank order, each table by ascending id |
| LockOrder.ContentsOrdered | src/app/document-issue/document-issue-simple-lock.ts:119-129 | the content rows of several handling units come in ascending order of unit and row |
| LockOrder.GoodsIssueOrdered | src/app/document-issue/document-issue-goods-issue-lock.ts:39-66 | headers before lots, both ascending, also when the path has moved and the phase stops early |
| LockOrder.InspectionOrdered | src/app/document-issue/document-issue-inspection-lock.ts:36-72 | results before requests before lots, each ascending |
| LockOrder.MixedTargetsDeadlock | src/app/document-issue/document-issue-goods-issue-lock.ts:35-83 | a LOT target together with a goods-issue line, which no document type allows, gives two requests that wait for each other |
| LockOrder.UniqueSorted | src/app/document-issue/document-issue-inspection-lock.ts:97-99 | the given ids, each once, in ascending order |
| LockOrder.Session.LockSimple | src/app/document-issue/document-issue-simple-lock.ts:60-84 | the statements append exactly the rows of the trace (which `LocksWhatIsAskedFor` says in terms of targets), in increasing order when no LOT is named |
| LockOrder.Session.LockGoodsIssues | src/app/document-issue/document-issue-goods-issue-lock.ts:42-66 | the locks taken and the outcome (moved path or locked) are those of the trace, and increase |
| LockOrder.Session.LockInspections | src/app/document-issue/document-issue-inspection-lock.ts:32-74 | the locks taken and the outcome are those of the trace, and increase |
| LockOrder.Session.LockAll | src/app/document-issue/document-issue-shipping-unit.ts:36-45 | by targets and rows: it ends Moved exactly when a named line was there and a named line's second read differs or a header or lot is missing, else Broken exactly when a result's request or lot is missing; it locks only rows asked for and, when it ends Locked, all of them; for a supported request the locks strictly increase |
| LockOrder.LocksWhatIsAskedFor | src/app/document-issue/document-issue-simple-lock.ts:41-176 | the trace of a request holds the existing rows its targets name, unit contents where the document asks for them, line headers and lots, results, requests and their lots, and nothing else; and the exact condition of each outcome |
| LockOrder.GoodsIssuesAre | src/app/document-issue/document-issue-goods-issue-lock.ts:35-66 | the goods-issue step locks the headers and lots of the lines of the first read, and ends Moved exactly when a read differs or one of those rows is missing |
| LockOrder.InspectionsAre | src/app/document-issue/document-issue-inspection-lock.ts:32-74 | the inspection step locks the existing results, their requests and the requests' lots, and ends Broken exactly when a request or a lot is missing |
| CalendarSolver.DayBounds | src/maintenance/maintenance-calendar.ts:51-113 | within the premises a returned interval holds exactly the instants whose wall time is on that day, it exists exactly when the day is one interval entered and left forwards, and each error names what is wrong; on any clock its two ends are checked |
| CalendarSolver.EqualSamplesAreSteady | src/maintenance/maintenance-calendar.ts:71-78 | equal offsets an hour apart have no transition between them: the hourly scan misses none |
| CalendarSolver.TransitionSplitsHour | src/maintenance/maintenance-calendar.ts:79-91 | where bisection ends is the only transition of its hour |
| CalendarSolver.Bisect | src/maintenance/maintenance-calendar.ts:80-90 | ends on a second at which the offset changes away from the one it started with |
| CalendarSolver.ScanWindow | src/maintenance/maintenance-calendar.ts:56-97 | within the premises the scan finds exactly the instants of the day in its window, or a gap in the day |
| CalendarSolver.StartPartsTime | src/maintenance/maintenance-calendar.ts:98-112 | a day's start parts all time into before and after if and only if the clock never leaps back over that day |
| CalendarSolver.DaysTile | src/maintenance/maintenance-calendar.ts:23-27 | neighbouring resolved days meet without gap or overlap |
| CalendarSolver.ShortStepsBack | src/maintenance/maintenance-calendar.ts:29-49 | clocks whose single steps back stay under a day never leap back over one |
| CalendarSolver.Resolve | src/maintenance/maintenance-calendar.ts:139-146 | the memo only ever holds right answers, and an error means the day does not resolve |
| CalendarSolver.MaintenanceDateRange | src/maintenance/maintenance-calendar.ts:122-156 | succeeds exactly when texts, zone and end days are good, and selects exactly the instants whose local date lies between the two if and only if the clock never leaps back over an end day |
| CalendarSolver.SelectsDays | src/maintenance/maintenance-calendar.ts:148-156 | an instant is in a selecting range exactly when its local day is from..to, days between included without being resolved |
| CalendarSolver.LeapBackBreaksRanges | src/maintenance/maintenance-calendar.ts:115-121 | a clock within the stated premises for which the end days resolve and the range still misses an instant |
| Intervals.Union | src/app/dashboard/dashboard-intervals.ts:13-23 | the normal form (sorted, non-empty, strict gaps) of the input's instants |
| Intervals.NormalFormIsUnique | src/app/dashboard/dashboard-intervals.ts:2-5 | two normal forms of the same instants are equal, so union, subtract and intersect are determined by their point sets |
| Intervals.Subtract | src/app/dashboard/dashboard-intervals.ts:25-38 | the set difference of the instants, in normal form |
| Intervals.Intersect | src/app/dashboard/dashboard-intervals.ts:41-43 | the set intersection of the instants, in normal form, through two subtractions |
| Intervals.TotalLength | src/app/dashboard/dashboard-intervals.ts:45-47 | the number of instants, counted once however the spans overlap |
| Intervals.CutAndOverlapAddUp | src/app/dashboard/dashboard-intervals.ts:25-47 | measured by the operations themselves, the length of A is that of A minus B plus that of A intersect B, each being the number of its instants |
| Intervals.Clip | src/app/dashboard/dashboard-intervals.ts:7-11 | the part of a span inside a range, nothing exactly when they share no instant |
| Intervals.EventsByTime | src/app/dashboard/dashboard-intervals.ts:59-60 | sorting by time, ties in the given order, changes at no instant whether the session is stopped |
| Intervals.StoppedSpans | src/app/dashboard/dashboard-intervals.ts:58-70 | for events in any order, with repeats and ties, the instants before the session's end that it covers are exactly those at which replaying the events leaves the session stopped |
| Intervals.RunningSpans | src/app/dashboard/dashboard-availability.service.ts:197-210 | an instant survives exactly when the session is open and the events up to it leave it not stopped |
| Availability.ComputeFigures | src/app/dashboard/dashboard-availability.service.ts:67-88 | planned, actual, equipment and excluded counts are the sums over all plants, planned is null exactly when some calendar cannot be read, and actual never exceeds planned |
| Availability.ActualWithinPlanned | src/app/dashboard/dashboard-availability.service.ts:181-218 | per plant, the running and measured instants that are planned are no more than the planned ones |
| Availability.PlannedTime | src/app/dashboard/dashboard-availability.service.ts:104-143 | per equipment the normal form of: in a shift, in the measured window, not on holiday, in no planned stop; null exactly when a slot cannot be read |
| Availability.Actual | src/app/dashboard/dashboard-availability.service.ts:181-219 | for each equipment of the plant's sessions the number of counted instants, added up; which instants those are is `CountedTime.CountedIs` |
| Availability.StopSpans | src/app/dashboard/dashboard-availability.service.ts:145-173 | exactly the instants of the stops that name the equipment, or its line |
| Availability.HolidaysAre | src/maintenance/downtime/downtime-summary-planned.ts:22-58 | a slot can be read exactly when calendar, day type, shift (and partial hours) can; an instant is off duty exactly when it is in the shift and the day is a holiday, or partial and the instant outside the partial hours |
| Availability.ScopeEquipment | src/app/dashboard/dashboard-availability.service.ts:48-55 | each equipment with a session once, in order of first appearance, with the line of its last session |
| Availability.KeysAreTheEquipment | src/app/dashboard/dashboard-availability.service.ts:185-196 | the equipment keys are distinct and are exactly the equipment of the sessions |
| Availability.SumLengths | src/app/dashboard/dashboard-availability.service.ts:221-223 | the planned total is the number of planned instants, equipment by equipment |
| Availability.ReadAvailability | src/app/dashboard/dashboard-summary.service.ts:79-80 | from the plants to the card: the exact quotient of actual and planned time over all plants, within 0..100, when there is planned time; otherwise exactly the reason |
| Availability.CapNeverBinds | src/app/dashboard/dashboard-view.ts:169-189 | on figures with actual within planned, the cap changes nothing; the card exists exactly when there is equipment and planned time |
| CountedTime.FiguresCount | src/app/dashboard/dashboard-availability.service.ts:67-88 | the four figures are numbers of things in the rows: (plant, equipment, millisecond) triples running and, where the plant's calendar can be read, planned; triples planned; plants' equipment with a session; sessions without equipment |
| CountedTime.CountedIs | src/app/dashboard/dashboard-availability.service.ts:181-219 | an instant counts exactly when it is measured, some session of the equipment is open then (up to its end, or to the moment of counting while it runs) and not stopped by its own events, and it is planned if the plant's calendar can be read |
| CountedTime.StoppedByItsOwnEvents | src/app/dashboard/dashboard-intervals.ts:58-70 | a session is stopped at an instant exactly when the last stop or resume logged for that very session up to then, the later listed of two at one time, is a stop |
| CountedTime.PlannedIs | src/app/dashboard/dashboard-availability.service.ts:104-173 | an instant is planned exactly when it is measured, in some shift of the equipment cut to milliseconds, off duty by none of its slots, and in no stop that names the equipment or, naming none, the line of its last session |
| CountedTime.OffDutyIs | src/maintenance/downtime/downtime-summary-planned.ts:22-58 | off duty in milliseconds: the shift on a holiday, and on a partial day the shift outside the partial hours |
| CountedTime.LineIsTheLast | src/app/dashboard/dashboard-availability.service.ts:48-55 | the line in scope is that of the equipment's last session |
| Gregorian.DayNumberCountsDays | src/maintenance/maintenance-instant.ts:22-44 | the closed day count grows by one with the calendar's own successor through month ends, leap Februaries and year ends |
| Gregorian.EpochIsDayZero | src/maintenance/maintenance-instant.ts:30-34 | day zero is 1970-01-01 and no other date |
| Gregorian.CivilDateInverts | src/maintenance/maintenance-instant.ts:30-43 | turning a date into its day and back is the identity |
| Gregorian.DateOrder | src/app/dashboard/dashboard-range.ts:48-49 | dates order as their days do |
| Gregorian.CalendarSecondExists | src/maintenance/maintenance-instant.ts:22-43 | setting the fields and reading them back accepts exactly the dates and clock times that exist |
| DateTimeText.DateTextOrder | src/app/dashboard/dashboard-range.ts:71-79 | written dates sort as strings the way their days do |
| DateTimeText.DateTextOfReadDate | src/app/dashboard/dashboard-range.ts:75-78 | a text read as a date is the text of that date |
| DateTimeText.ReadDateText | src/maintenance/maintenance-calendar.ts:11-21 | the text of a date reads as that date |
| Instants.ParsePrinted | src/maintenance/maintenance-instant.ts:66-79 | parsing the printed form of any epoch in range, negative ones included, gives that epoch again |
| Instants.PrintedOrder | src/maintenance/maintenance-instant.ts:72-73 | printed strings order as the epochs do |
| Instants.ParseDenotes | src/maintenance/maintenance-instant.ts:81-108 | a text is accepted exactly when its fields exist and the moment it denotes is a whole microsecond in range; the epoch is that moment. What moment a text denotes is said digit by digit in `WrittenInstants.WrittenDenotes` |
| Instants.MicrosAreExact | src/maintenance/maintenance-instant.ts:96-99 | padding or cutting the fraction to six digits never rounds, and a fraction finer than that denotes no microsecond |
| Instants.FromEpoch | src/maintenance/maintenance-instant.ts:46-65 | succeeds exactly on the range of four-digit years and keeps the epoch |
| Instants.SqlTimestampIdentifies | src/maintenance/maintenance-instant.ts:74-77 | no two instants share a database literal, year 0 written as 1 BC included |
| Instants.StoredTexts | src/maintenance/maintenance-instant.ts:46-80 | a count is kept exactly from year 0 to year 9999, with a UTC text that parses to it and the SQL literal made of that text's pieces |
| WrittenInstants.GrammarIs | src/maintenance/maintenance-instant.ts:9-10 | exactly the texts of the grammar are read: digits, separators, an optional fraction, Z or an offset with or without minutes and colon, in either case |
| WrittenInstants.WrittenIsRead | src/maintenance/maintenance-instant.ts:81-90 | each field read is the number its own digits write |
| WrittenInstants.WrittenDenotes | src/maintenance/maintenance-instant.ts:91-108 | the epoch of an accepted text is its day, counted from 1970-01-01, its hours, minutes and seconds, less the written offset, and exactly its fraction |
| WrittenInstants.OffsetShifts | src/maintenance/maintenance-instant.ts:100-102 | the same time written with an offset of plus hh:mm is hh hours and mm minutes before the one written with Z, and with minus after it |
| TimeBoundary.DocumentIssueTimeBoundary | src/app/document-issue/document-issue-time-boundary.ts:2-17 | every instant on the microsecond grid is at or after the result exactly when it is at or after the input, in the input's own offset, written with T, at most six digits and Z or an offset with a colon; except in the last second of year 9999, where rounding up gives an unreadable text |
| TimeBoundary.DocumentIssueWhere | src/app/document-issue/document-issue-query.service.ts:98-108 | for any two optional bounds the filter can be read exactly when neither goes beyond year 9999, and then selects exactly the microseconds between the moments asked for, an absent bound restricting nothing |
| TimeBoundary.LastSecondRoundsBeyond | src/app/document-issue/document-issue-time-boundary.ts:12-16 | a valid text in the last second of year 9999 that rounds up beyond what can be written |
| TimeBoundary.NextSecond | src/app/document-issue/document-issue-time-boundary.ts:20-47 | the text of the second after, through every carry up to the year |
| TimeBoundary.CarrySecond | src/app/document-issue/document-issue-time-boundary.ts:22-44 | the in-place carries reach the calendar's next day exactly after the last second of the day |
| TimeBoundary.RoundedUp | src/app/document-issue/document-issue-time-boundary.ts:12-15 | adding one microsecond for a non-zero rest keeps every comparison with the grid |
| TimeBoundary.NormalizedParts | src/app/document-issue/document-issue-time-boundary.ts:3-8 | the four replacements leave date, clock, fraction and zone as they were and give the shape the split expects |
| TimeBoundary.SplitOfParts | src/app/document-issue/document-issue-time-boundary.ts:8-9 | the split finds seconds, fraction and zone, and nothing exactly when there is no fraction |
| NumberedWrite.Service.Run | src/maintenance/numbered-maintenance-write.ts:48-98 | ends, asks for at most four numbers and runs at most five transactions plus the work's own retries; commits at most once, in the last one, with a number prepared for the plant the target has in it; every error is what the retries say it is; the first transaction has a number exactly when there is no record, each later one a further number exactly when one was wanted; a stored answer is given without asking for a number, and without a record a failed preparation ends the call before any transaction |
| NumberedWrite.Service.React | src/maintenance/numbered-maintenance-write.ts:79-95 | the work's own retry is asked before the duplicate number, each ends exactly when its count is used up, and anything else is raised at once |
| NumberedWrite.Service.Transaction | src/maintenance/numbered-maintenance-write.ts:56-71 | what is done inside the transaction, statement by statement, ends as the round and the prepared number say; it commits only with a prepared number, a target and an unchanged plant, and the number committed is the prepared one |
| NumberedWrite.Service.Prepare | src/maintenance/numbered-maintenance-write.ts:108-119 | a number is asked for exactly when the target exists, for its plant |
| DashboardWindows.AcceptedRanges | src/app/dashboard/dashboard-range.ts:25-52 | a period is accepted exactly when both dates exist, in order, none after today, 92 days at most; without a period the range is the base date alone, or today; each refusal has its exact condition |
| DashboardWindows.PreviousIsAdjacent | src/app/dashboard/dashboard-range.ts:60-64 | the period before is adjacent and equally long exactly when it does not reach beyond year 0 |
| DashboardWindows.DatesBetweenIsRange | src/app/dashboard/dashboard-range.ts:67-69 | the dates of a range are its days in order, each once |
| DashboardWindows.IsoDayNames | src/app/dashboard/dashboard-range.ts:71-73 | the shifted text is a date, and names the shifted day, exactly from year 0 on |
| DashboardWindows.TextOrder | src/app/dashboard/dashboard-range.ts:47-48 | comparing date texts compares their days |
| DashboardWindows.ChartDaysAre | src/app/dashboard/dashboard-view.ts:79-89 | nine days up to a single day, or the days of the range, ending on the last day |
| DashboardWindows.ProductionDaysExistIff | src/app/dashboard/dashboard-summary.service.ts:74-77 | all days the production figures read exist as texts exactly when none lies before year 0 |
| DashboardWindows.ProductionReadsInWindow | src/app/dashboard/dashboard-summary.service.ts:74-78 | every day of the range, the range before and the chart lies in the window that is fetched |
| DashboardWindows.PeriodIsOk | src/app/dashboard/dashboard-scope.ts:28-44 | exactly when nothing reaches beyond year 0, the quality period exists: for one day its month so far against the whole month before, for a longer range that range against the adjacent one of the same length |
| DashboardWindows.FirstDayHasNothingBefore | src/app/dashboard/dashboard-range.ts:60-73 | 0000-01-01 alone is accepted on any day and has no proper period before it, no full chart and no quality period |
| DashboardWindows.QualityReadsInWindow | src/app/dashboard/dashboard-scope.ts:47-49 | every stretch the quality figures count lies between the period's start and its end |
| DashboardFigures.QualityNeedsOnlyWindow | src/app/dashboard/dashboard-inspection.ts:92-119 | computed from the rows of the window alone, every quality figure is what it is computed from all rows |
| DashboardFigures.RowsBetweenTwice | src/app/dashboard/dashboard-inspection.ts:92-94 | filtering by a wider period first changes no count |
| DashboardFigures.DailyProduction | src/app/dashboard/dashboard-summary.service.ts:119-156 | a day is in the map exactly when some plant has a row for it, with the sum over all plants |
| DashboardFigures.ByDaySumsResults | src/app/dashboard/dashboard-summary.service.ts:128-142 | the sums are those over the results of all plants, and on every day total = good + NG + hold |
| DashboardFigures.SectionAddsUp | src/app/dashboard/dashboard-view.ts:228-253 | over any range and any plants, total = good before the rework transfer + NG + hold |
| DashboardFigures.ProductionNeedsOnlyWindow | src/app/dashboard/dashboard-view.ts:108-154 | cards, trend and section computed from the fetched days alone are those computed from all days |
| ShownFigures.ProductionCardsAre | src/app/dashboard/dashboard-view.ts:108-136 | the quantity is everything ordinary orders made in the range over all plants; the change is told against the range before exactly when something was made there; the yield rate is good pieces, rework included, over that quantity, within 0 and 100 |
| ShownFigures.ProductionSectionIs | src/app/dashboard/dashboard-view.ts:228-253 | total, good with rework, NG and hold are sums over the results of the range, and the defect rate is NG over total |
| ShownFigures.TrendIs | src/app/dashboard/dashboard-view.ts:138-154 | a point has a value exactly when some plant has a result that day, and then what was made that day |
| ShownFigures.QualityBlockIs | src/app/dashboard/dashboard-inspection.ts:81-119 | accepted, rejected and held lots of the month, the month before, each chart day and the range, and the month's rejected quantity, are sums over the rows of those dates and judgments |
| ShownFigures.WithinItself | src/app/dashboard/dashboard-inspection.ts:104-107 | the stretch from a date to itself holds the rows of that date only |
| DashboardFetch.ReadProduction | src/app/dashboard/dashboard-summary.service.ts:74-98 | read plant by plant between the instants each plant's clock gives the window, cards, trend and section are those of everything ever logged, when the clocks never leap back over an end of the window; it fails exactly when some end cannot be found |
| DashboardFetch.FetchRows | src/app/dashboard/dashboard-summary.service.ts:125-142 | each plant's query returns its results on the local days of the window, whole, and nothing else |
| DashboardFetch.FetchedIsWithin | src/maintenance/maintenance-calendar.ts:148-156 | an instant is fetched exactly when the local date written for it lies in the window |
| DashboardFetch.GroupByDayGroups | src/app/dashboard/dashboard-summary.service.ts:128-142 | grouping gives one row for each day with results, holding their sums |
| DashboardFetch.OnLocalDaysAre | src/app/dashboard/dashboard-summary.service.ts:125-142 | every logged result becomes one row of the day its plant's clock shows, with its quantities as they are |
| DashboardFetch.JudgmentsOnAre | src/app/dashboard/dashboard-inspection.ts:44-52 | every judgment counts on the day its own plant's clock shows |
| DashboardFetch.CoarseCoversWindow | src/app/dashboard/dashboard-scope.ts:70-72 | the one-day margin in UTC covers every clock whose offset stays within a day |
| DashboardFetch.QualityNeedsOnlyCoarseRange | src/app/dashboard/dashboard-inspection.ts:44-74 | the quality figures read through the coarse bounds are those of everything ever judged |
| LocationLabel.LayoutLocationLabel | src/app/document-issue/location-label-layout.ts:66-112 | refused exactly when a text has a control character, a double quote or a backslash; otherwise, for every QR size, the label says code, name and warehouse with issue number at 40, 18 and 11 points, the level above them exactly when there is one, lines evenly spaced and 3 mm apart from the code's upper edge to its lower edge, within their width, cut only at the smallest size and as little as possible, and the code centred with its quiet zone inside the border |
| LocationLabel.ShrinkLine | src/app/document-issue/location-label-layout.ts:97-102 | the shrinking loop ends with room between the lines, and no smaller than needed |
| LocationLabel.RoomAtNameSize | src/app/document-issue/location-label-layout.ts:98-99 | with the code line at the size of the name there is always room, so the loop cannot end without it |
| LocationLabel.CellBounds | src/app/document-issue/location-label-layout.ts:76-80 | for versions 1 to 40 the code takes as many dots a module as leave four free modules on either side between the borders, twelve at most, and is at least 252 dots high |
| LocationLabel.NextIsApart | src/app/document-issue/location-label-layout.ts:104-110 | rounding the accumulated positions never brings two lines closer than 3 mm |
| LocationLabel.EndsMeetQr | src/app/document-issue/location-label-layout.ts:103-106 | the first line begins at the code's upper edge and the last ends at its lower edge |
| LocationLabel.Fit | src/app/document-issue/label-layout.ts:19-23 | the largest size at which the text fits, the smallest readable size at least |
| LocationLabel.ClippedFits | src/app/document-issue/label-layout.ts:26-29 | a text that fits is kept; otherwise as much of its beginning as fits before a mark remains, and only at the smallest size |
| LocationLabel.FitsIs | src/app/document-issue/label-layout.ts:16-17 | a text fits exactly when its characters, each half its point size wide at 203 dots an inch, are no wider than the room |
| LocationLabel.LengthsInDots | src/app/document-issue/label-layout.ts:11 | millimetres and points become the nearest dot, halves up |
| LocationLabel.SpaceNearGap | src/app/document-issue/location-label-layout.ts:103-110 | after rounding every space between two lines is within a dot of the even one |

## Left out

- `Intl` is a parameter: the offset of a zone is an arbitrary function of the second. The code's instants are all multiples of 1000 ms there, so the calendar solver counts seconds.
- IdempotencyService, NumberingService and ApprovalService are not part of this model: a run either replays a stored answer or executes the work and stores its answer with it; numbers are whatever the service returns.
- SQL text: a query is modelled by what it selects; the dashboard's per-plant query by its grouping of production results, quality rows by their local date. Foreign-key share locks and waits on the unique index during inserts are not in the lock-order property.
- Local days outside years 1 to 9999 of the common era in production and quality rows, which the database writes differently, and fractions of a second there: bounds and offset changes fall on whole seconds.
- Leap seconds (second 60) in time boundaries, and years beyond 9999.
- maintenanceInstantFromEpoch on string input, whose only extra step is a decimal check, and the range of JavaScript dates beyond 270,000 years.
- Eligibility of an issue target (qualifyDocumentIssueTarget), terminal permission, worker and audit rows; a refusal there is the GiveUp step, a moved path the Retry step.
- Terminal and worker checks that refuse a request after its allocation or shipping-unit locks: they only end a trace early.
- isIssueSequenceDuplicate joins sorted column names with a bar; the model compares them as a multiset, which differs only for names that contain a bar.
- Ids that are not integers, and validation of baseDate by the request contract, which DashboardRange takes as given.
- Floating point in label widths, label positions and percentages: computed exactly here, so rounding by the machine is not captured; production sums likewise. The QR module count is an input; drawing, fonts, PNG and TSPL bytes are not modelled.
- DashboardFigures.SectionAddsUp: quantities are exact here, while the code converts each database sum to a double and adds doubles per plant and day, so for fractional quantities the identity can miss by rounding.
- DashboardFigures.ByDaySumsResults: the same, for the sums of a day.
- passRate: the quality figures are the lot counts; the percentage made of two of them is not modelled.
- performanceCard, oeeCard, alarms, shipments and equipment status: short case splits over figures that need no further proof.
- The optional-field, code-list and scope checks of the role, user and route services, and their read methods.
- DateTimeText.ReadDate: models isDate by the date it names, without the intermediate NaN of Date.parse.
- CalendarSolver.DayBounds: outside the stated premises an error is only said to be one of those the code raises.
