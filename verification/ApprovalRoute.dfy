/**
 * Activating an approval route while its steps are being replaced (approval-route.service.ts).
 *
 * `activate` reads the route, counts its steps and then updates the route if the version is still the
 * one it was given, each in a statement of its own; `replaceSteps` bumps the version and rewrites the
 * steps in one transaction that holds the route's row lock until it ends. A statement reads what is
 * committed, and an update of the locked row waits for the lock.
 */
module ApprovalRoute {
  import opened Results

  type CallId = int

  /** A USER step; other approver types are refused. */
  datatype Approver = Approver(user: int)

  /** The committed rows of one route: step rows by their step number. */
  datatype Route = Route(version: nat, active: bool, steps: map<int, Approver>)

  datatype Call =
    | Activating(version: nat)
    | Loaded(version: nat)
    | Counted(version: nat)
    | Replacing(version: nat, steps: seq<Approver>)
    | Replaced(bumped: nat, steps: seq<Approver>)

  /** `holder` is the transaction that has bumped the version and not yet ended. */
  datatype State = State(route: Route, holder: Option<CallId>, calls: map<CallId, Call>)

  datatype Step =
    | BeginActivate(version: nat)
    | Load
    | Count
    | Activate
    | BeginReplace(version: nat, steps: seq<Approver>)
    | Bump
    | CommitSteps
    | Deactivate(version: nat)
    | Update(version: nat)
    | Fail

  /** Rows made from a list of steps: the step at index i gets the number i + 1. */
  function StepRows(steps: seq<Approver>): (rows: map<int, Approver>)
    ensures OneToN(rows, |steps|)
    ensures forall i :: 0 <= i < |steps| ==> rows[i + 1] == steps[i]
  {
    var last := |steps| - 1;
    if steps == [] then map[] else StepRows(steps[..last])[last + 1 := steps[last]]
  }

  ghost predicate OneToN(steps: map<int, Approver>, n: nat) {
    forall i :: i in steps <==> 1 <= i <= n
  }

  /** Step numbers are exactly 1..n. */
  ghost predicate Numbered(steps: map<int, Approver>) {
    exists n: nat :: OneToN(steps, n)
  }

  function WithCall(s: State, t: CallId, c: Call): State {
    s.(calls := s.calls[t := c])
  }

  function EndCall(s: State, t: CallId): State {
    s.(calls := s.calls - {t}, holder := if s.holder == Some(t) then None else s.holder)
  }

  /** `bump` is what replacing the steps adds to the version: one in the code. */
  ghost predicate Next(s: State, t: CallId, step: Step, s': State, bump: nat) {
    if step.BeginActivate? then t !in s.calls && s' == WithCall(s, t, Activating(step.version))
    else if step.BeginReplace? then t !in s.calls && s' == WithCall(s, t, Replacing(step.version, step.steps))
    else if step.Deactivate? then
      s.holder == None && s.route.version == step.version
      && s' == s.(route := s.route.(active := false, version := s.route.version + 1))
    else if step.Update? then
      s.holder == None && s.route.version == step.version
      && s' == s.(route := s.route.(version := s.route.version + 1))
    else if step.Fail? then t in s.calls && s' == EndCall(s, t)
    else t in s.calls && CallStep(s, t, s.calls[t], step, s', bump)
  }

  /** A check that does not hold leaves only Fail. */
  ghost predicate CallStep(s: State, t: CallId, c: Call, step: Step, s': State, bump: nat)
    requires t in s.calls
  {
    if step.Load? then
      c.Activating? && s.route.version == c.version && s' == WithCall(s, t, Loaded(c.version))
    else if step.Count? then
      c.Loaded? && s.route.steps != map[] && s' == WithCall(s, t, Counted(c.version))
    else if step.Activate? then
      c.Counted? && s.holder == None && s.route.version == c.version
      && s' == EndCall(s.(route := s.route.(active := true, version := s.route.version + 1)), t)
    else if step.Bump? then
      c.Replacing? && s.holder == None && s.route.version == c.version
      && s' == WithCall(s, t, Replaced(c.version + bump, c.steps)).(holder := Some(t))
    else if step.CommitSteps? then
      c.Replaced? && s' == EndCall(s.(route := s.route.(version := c.bumped, steps := StepRows(c.steps))), t)
    else false
  }

  // ----- the invariant

  /** What a call still knows about the committed route. */
  ghost predicate Knows(s: State, t: CallId, c: Call) {
    match c
    case Activating(_) => true
    case Loaded(version) => version <= s.route.version
    case Counted(version) => version <= s.route.version && (version == s.route.version ==> s.route.steps != map[])
    case Replacing(_, _) => true
    case Replaced(bumped, _) => s.holder == Some(t) && bumped == s.route.version + 1
  }

  ghost predicate Inv(s: State) {
    && Numbered(s.route.steps)
    && forall t :: t in s.calls ==> Knows(s, t, s.calls[t])
  }

  lemma StepKeeps(s: State, t: CallId, step: Step, s': State)
    requires Inv(s) && Next(s, t, step, s', 1)
    ensures Inv(s')
  {
    if step.CommitSteps? { assert OneToN(StepRows(s.calls[t].steps), |s.calls[t].steps|); }
    hide Numbered, StepRows, OneToN;
    forall u | u in s'.calls ensures Knows(s', u, s'.calls[u]) {
      if u in s.calls { assert Knows(s, u, s.calls[u]); }
    }
    if step.CommitSteps? { assert Knows(s, t, s.calls[t]); }
  }

  // ----- runs

  ghost predicate Initial(s: State) {
    s.holder == None && s.calls == map[] && Numbered(s.route.steps)
  }

  datatype Event = Event(call: CallId, step: Step)

  ghost predicate IsRun(states: seq<State>, events: seq<Event>, bump: nat) {
    && |states| == |events| + 1
    && Initial(states[0])
    && forall i :: 0 <= i < |events| ==> Next(states[i], events[i].call, events[i].step, states[i + 1], bump)
  }

  lemma {:induction false} AlwaysInv(states: seq<State>, events: seq<Event>, n: nat)
    requires IsRun(states, events, 1) && n < |states|
    ensures Inv(states[n])
  {
    if n > 0 {
      AlwaysInv(states, events, n - 1);
      hide Next, Inv;
      StepKeeps(states[n - 1], events[n - 1].call, events[n - 1].step, states[n]);
    }
  }

  /**
   * Whatever the interleaving, at the moment an activation commits the route has a step, although the
   * steps were counted before, outside any transaction; and step numbers are always 1..n.
   */
  lemma ActivatedRouteHasSteps(states: seq<State>, events: seq<Event>, n: nat)
    requires IsRun(states, events, 1) && n < |events| && events[n].step.Activate?
    ensures states[n + 1].route.active && states[n + 1].route.steps != map[]
    ensures 1 in states[n + 1].route.steps
    ensures Numbered(states[n + 1].route.steps)
  {
    AlwaysInv(states, events, n);
    AlwaysInv(states, events, n + 1);
    var s, t := states[n], events[n].call;
    assert Next(s, t, Activate, states[n + 1], 1);
    assert Knows(s, t, s.calls[t]);
    FirstStepExists(states[n + 1].route.steps);
  }

  lemma FirstStepExists(steps: map<int, Approver>)
    requires Numbered(steps) && steps != map[]
    ensures 1 in steps
  {
    var n: nat :| OneToN(steps, n);
    assert (forall i: int :: i !in steps) ==> steps == map[];
    var i: int :| i in steps;
  }

  /** The version only grows, and steps change only together with it. */
  lemma StepsChangeWithVersion(s: State, t: CallId, step: Step, s': State)
    requires Inv(s) && Next(s, t, step, s', 1)
    ensures s.route.version <= s'.route.version
    ensures s'.route.steps != s.route.steps ==> s.route.version < s'.route.version && step.CommitSteps?
    ensures s'.route.active != s.route.active ==> s.route.version < s'.route.version
  {
    if step.CommitSteps? { assert Knows(s, t, s.calls[t]); }
  }

  /** What each step does to the committed route. */
  lemma StepEffect(s: State, t: CallId, step: Step, s': State)
    requires Inv(s) && Next(s, t, step, s', 1)
    ensures step.Activate? || step.Deactivate? || step.Update? || step.CommitSteps? ==>
              s'.route.version == s.route.version + 1
    ensures step.Activate? ==> s'.route.active && s'.route.steps == s.route.steps
    ensures step.Deactivate? ==> !s'.route.active && s'.route.steps == s.route.steps
    ensures step.Update? ==> s'.route.active == s.route.active && s'.route.steps == s.route.steps
    ensures step.CommitSteps? ==> s'.route.active == s.route.active && t in s.calls && s.calls[t].Replaced?
    ensures step.CommitSteps? ==>
              var list := s.calls[t].steps;
              && (forall i :: 0 <= i < |list| ==> i + 1 in s'.route.steps && s'.route.steps[i + 1] == list[i])
              && (forall k :: k in s'.route.steps ==> 1 <= k <= |list|)
    ensures !step.Activate? && !step.Deactivate? && !step.Update? && !step.CommitSteps? ==> s'.route == s.route
  {
    if step.CommitSteps? { assert Knows(s, t, s.calls[t]); }
  }

  ghost predicate NoneIn(events: seq<Event>, first: nat, last: nat, activation: bool)
    requires first <= last <= |events|
  {
    forall k :: first <= k < last ==> if activation then !events[k].step.Activate? else !events[k].step.Deactivate?
  }

  /** A route becomes active by activations only, and inactive by deactivations only. */
  lemma {:induction false} SwitchedOnlyBy(states: seq<State>, events: seq<Event>, first: nat, last: nat)
    requires IsRun(states, events, 1) && first <= last < |states|
    ensures !states[first].route.active && NoneIn(events, first, last, true) ==> !states[last].route.active
    ensures states[first].route.active && NoneIn(events, first, last, false) ==> states[last].route.active
    decreases last
  {
    if first < last {
      SwitchedOnlyBy(states, events, first, last - 1);
      AlwaysInv(states, events, last - 1);
      var e := events[last - 1];
      assert Next(states[last - 1], e.call, e.step, states[last], 1);
      hide Next, Inv, IsRun;
      StepEffect(states[last - 1], e.call, e.step, states[last]);
    }
  }

  /** A deactivated route stays inactive until an activation commits, and an activated one active. */
  lemma SwitchLasts(states: seq<State>, events: seq<Event>, n: nat, last: nat)
    requires IsRun(states, events, 1) && n < last < |states|
    ensures events[n].step.Deactivate? && NoneIn(events, n + 1, last, true) ==> !states[last].route.active
    ensures events[n].step.Activate? && NoneIn(events, n + 1, last, false) ==> states[last].route.active
  {
    AlwaysInv(states, events, n);
    assert Next(states[n], events[n].call, events[n].step, states[n + 1], 1);
    SwitchedOnlyBy(states, events, n + 1, last);
    hide Next, Inv, IsRun, NoneIn;
    StepEffect(states[n], events[n].call, events[n].step, states[n + 1]);
  }

  ghost predicate Activates(s: State, t: CallId, version: nat, s1: State, s2: State, s3: State, s4: State) {
    && Next(s, t, BeginActivate(version), s1, 1) && Next(s1, t, Load, s2, 1)
    && Next(s2, t, Count, s3, 1) && Next(s3, t, Activate, s4, 1)
  }

  /** A call that meets no other one activates the route exactly when it knows its version and there is a step. */
  lemma SoleActivationIff(s: State, t: CallId, version: nat)
    requires s.calls == map[] && s.holder == None
    ensures (exists s1, s2, s3, s4 :: Activates(s, t, version, s1, s2, s3, s4)) <==>
            version == s.route.version && s.route.steps != map[]
  {
    if version == s.route.version && s.route.steps != map[] {
      var s1 := WithCall(s, t, Activating(version));
      var s2 := WithCall(s1, t, Loaded(version));
      var s3 := WithCall(s2, t, Counted(version));
      var s4 := EndCall(s3.(route := s.route.(active := true, version := version + 1)), t);
      assert Activates(s, t, version, s1, s2, s3, s4);
    }
  }

  ghost predicate Replaces(s: State, t: CallId, version: nat, steps: seq<Approver>, s1: State, s2: State, s3: State) {
    && Next(s, t, BeginReplace(version, steps), s1, 1) && Next(s1, t, Bump, s2, 1) && Next(s2, t, CommitSteps, s3, 1)
  }

  /** And it replaces the steps, by any list, exactly when it knows the version. */
  lemma SoleReplacementIff(s: State, t: CallId, version: nat, steps: seq<Approver>)
    requires s.calls == map[] && s.holder == None
    ensures (exists s1, s2, s3 :: Replaces(s, t, version, steps, s1, s2, s3)) <==> version == s.route.version
  {
    hide StepRows;
    if version == s.route.version {
      var s1 := WithCall(s, t, Replacing(version, steps));
      var s2 := WithCall(s1, t, Replaced(version + 1, steps)).(holder := Some(t));
      var s3 := EndCall(s2.(route := s.route.(version := version + 1, steps := StepRows(steps))), t);
      assert Replaces(s, t, version, steps, s1, s2, s3);
    }
  }

  // ----- why the version must grow, and what is not promised

  lemma RunGoesOn(states: seq<State>, events: seq<Event>, bump: nat, event: Event, s': State)
    requires IsRun(states, events, bump) && Next(states[|events|], event.call, event.step, s', bump)
    ensures IsRun(states + [s'], events + [event], bump)
  {
    hide Next;
  }

  /** If replacing the steps left the version alone, a route without steps would be activated, at any version. */
  lemma WithoutBumpAnEmptyRouteIsActivated(route: Route) returns (states: seq<State>, events: seq<Event>)
    requires Numbered(route.steps) && route.steps != map[]
    ensures IsRun(states, events, 0) && states[0].route == route
    ensures |events| > 0 && events[|events| - 1].step.Activate?
    ensures states[|events|].route.active && states[|events|].route.steps == map[]
  {
    hide IsRun;
    var v := route.version;
    states, events := CountedRun(route);
    var s3 := states[|events|];
    var s4 := WithCall(s3, 2, Replacing(v, []));
    RunGoesOn(states, events, 0, Event(2, BeginReplace(v, [])), s4);
    states, events := states + [s4], events + [Event(2, BeginReplace(v, []))];
    var s5 := WithCall(s4, 2, Replaced(v, [])).(holder := Some(2));
    RunGoesOn(states, events, 0, Event(2, Bump), s5);
    states, events := states + [s5], events + [Event(2, Bump)];
    var s6 := EndCall(s5.(route := route.(steps := map[])), 2);
    assert StepRows([]) == map[];
    RunGoesOn(states, events, 0, Event(2, CommitSteps), s6);
    states, events := states + [s6], events + [Event(2, CommitSteps)];
    var s7 := EndCall(s6.(route := s6.route.(active := true, version := v + 1)), 1);
    RunGoesOn(states, events, 0, Event(1, Activate), s7);
    states, events := states + [s7], events + [Event(1, Activate)];
  }

  /** Call 1 has counted the steps at the route's version. */
  lemma CountedRun(route: Route) returns (states: seq<State>, events: seq<Event>)
    requires Numbered(route.steps) && route.steps != map[]
    ensures IsRun(states, events, 0) && states[0].route == route
    ensures states[|events|] == State(route, None, map[1 := Counted(route.version)])
  {
    var v := route.version;
    var s0 := State(route, None, map[]);
    var s1 := WithCall(s0, 1, Activating(v));
    var s2 := WithCall(s1, 1, Loaded(v));
    var s3 := WithCall(s2, 1, Counted(v));
    states, events := [s0, s1, s2, s3], [Event(1, BeginActivate(v)), Event(1, Load), Event(1, Count)];
  }

  // ----- how a route loses its steps

  /** This step commits a replacement by the empty list. */
  ghost predicate Empties(s: State, t: CallId, step: Step) {
    step.CommitSteps? && t in s.calls && s.calls[t].Replaced? && s.calls[t].steps == []
  }

  /** The only way a route with steps loses them. */
  lemma LosesStepsIff(s: State, t: CallId, step: Step, s': State)
    requires Inv(s) && Next(s, t, step, s', 1) && s.route.steps != map[]
    ensures s'.route.steps == map[] <==> Empties(s, t, step)
  {
    if step.CommitSteps? { NoRowsOfNoSteps(s.calls[t].steps); }
  }

  lemma NoRowsOfNoSteps(steps: seq<Approver>)
    ensures StepRows(steps) == map[] <==> steps == []
  {
    assert steps != [] ==> 1 in StepRows(steps);
  }

  /** From `first` on, up to `last`, no replacement by the empty list commits. */
  ghost predicate NeverEmptied(states: seq<State>, events: seq<Event>, first: nat, last: nat)
    requires |states| == |events| + 1 && last <= |events|
  {
    forall k :: first <= k < last ==> !EmptiedAt(states, events, k)
  }

  ghost predicate EmptiedAt(states: seq<State>, events: seq<Event>, k: nat)
    requires |states| == |events| + 1 && k < |events|
  {
    Empties(states[k], events[k].call, events[k].step)
  }

  ghost predicate HasStepsAt(states: seq<State>, n: nat)
    requires n < |states|
  {
    states[n].route.steps != map[]
  }

  /** Over any stretch of any run a route keeps having steps exactly when no empty replacement commits in it. */
  lemma {:induction false} KeepsStepsIff(states: seq<State>, events: seq<Event>, first: nat, last: nat)
    requires IsRun(states, events, 1) && first <= last < |states| && HasStepsAt(states, first)
    ensures (forall n :: first <= n <= last ==> HasStepsAt(states, n)) <==> NeverEmptied(states, events, first, last)
    decreases last
  {
    if first < last {
      hide Inv, Empties;
      KeepsStepsIff(states, events, first, last - 1);
      AlwaysInv(states, events, last - 1);
      var e := events[last - 1];
      assert Next(states[last - 1], e.call, e.step, states[last], 1);
      if HasStepsAt(states, last - 1) { LosesStepsIff(states[last - 1], e.call, e.step, states[last]); }
      assert HasStepsAt(states, last - 1) ==> (HasStepsAt(states, last) <==> !EmptiedAt(states, events, last - 1));
      hide Next, HasStepsAt, EmptiedAt, IsRun;
      assert NeverEmptied(states, events, first, last)
             <==> NeverEmptied(states, events, first, last - 1) && !EmptiedAt(states, events, last - 1);
    }
  }

  /**
   * What is promised after an activation: from its commit on the route has steps exactly as long as no
   * replacement by the empty list commits.
   */
  lemma ActivatedRouteKeepsStepsIff(states: seq<State>, events: seq<Event>, n: nat, last: nat)
    requires IsRun(states, events, 1) && n < last < |states| && events[n].step.Activate?
    ensures (forall m :: n < m <= last ==> HasStepsAt(states, m)) <==> NeverEmptied(states, events, n + 1, last)
  {
    ActivatedRouteHasSteps(states, events, n);
    KeepsStepsIff(states, events, n + 1, last);
  }

  /** The call was begun with this list in its request. */
  ghost predicate Requested(events: seq<Event>, n: nat, t: CallId, steps: seq<Approver>)
    requires n <= |events|
  {
    exists k :: 0 <= k < n && events[k].call == t && events[k].step.BeginReplace? && events[k].step.steps == steps
  }

  /** Each call writes the list its request came with, so an empty replacement is an empty list in a request body. */
  lemma {:induction false} WritesWhatWasRequested(states: seq<State>, events: seq<Event>, n: nat, t: CallId)
    requires IsRun(states, events, 1) && n < |states|
    requires t in states[n].calls && (states[n].calls[t].Replacing? || states[n].calls[t].Replaced?)
    ensures Requested(events, n, t, states[n].calls[t].steps)
    decreases n
  {
    if n > 0 {
      var s, e := states[n - 1], events[n - 1];
      assert Next(s, e.call, e.step, states[n], 1);
      if !(e.call == t && e.step.BeginReplace?) {
        WritesWhatWasRequested(states, events, n - 1, t);
      }
    }
  }

  /** Only a call whose request body was the empty list empties a route. */
  lemma EmptiesWhatWasRequestedEmpty(states: seq<State>, events: seq<Event>, n: nat)
    requires IsRun(states, events, 1) && n < |events| && EmptiedAt(states, events, n)
    ensures Requested(events, n, events[n].call, [])
  {
    WritesWhatWasRequested(states, events, n, events[n].call);
  }

  lemma RequestedStays(events: seq<Event>, n: nat, later: nat, t: CallId, steps: seq<Approver>)
    requires n <= later <= |events| && Requested(events, n, t, steps)
    ensures Requested(events, later, t, steps)
  {
  }

  /** A route with steps keeps them for as long as no request with the empty list has been begun. */
  lemma NoEmptyRequestKeepsSteps(states: seq<State>, events: seq<Event>, first: nat, last: nat)
    requires IsRun(states, events, 1) && first <= last < |states| && HasStepsAt(states, first)
    requires forall t :: !Requested(events, last, t, [])
    ensures forall n :: first <= n <= last ==> HasStepsAt(states, n)
  {
    hide EmptiedAt, HasStepsAt, Next, Initial;
    forall k | first <= k < last ensures !EmptiedAt(states, events, k) {
      if EmptiedAt(states, events, k) {
        EmptiesWhatWasRequestedEmpty(states, events, k);
        RequestedStays(events, k, last, events[k].call, []);
      }
    }
    KeepsStepsIff(states, events, first, last);
  }

  /** An active route can lose all its steps later: only the moment of activation is promised. */
  lemma ActiveRouteMayBeEmptied(route: Route) returns (states: seq<State>)
    requires route.active && Numbered(route.steps)
    ensures IsRun(states, [Event(2, BeginReplace(route.version, [])), Event(2, Bump), Event(2, CommitSteps)], 1)
    ensures states[3].route.active && states[3].route.steps == map[]
  {
    assert StepRows([]) == map[];
    var s0 := State(route, None, map[]);
    var s1 := WithCall(s0, 2, Replacing(route.version, []));
    var s2 := WithCall(s1, 2, Replaced(route.version + 1, [])).(holder := Some(2));
    var s3 := EndCall(s2.(route := route.(version := route.version + 1, steps := map[])), 2);
    states := [s0, s1, s2, s3];
  }
}
