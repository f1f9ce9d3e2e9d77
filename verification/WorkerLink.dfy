/**
 * One account, one worker (user-worker-link.service.ts): concurrent `replace` calls that lock the
 * account row, free the account's old link and set the new one only on an unlinked worker.
 *
 * Each statement acts on the committed rows under its own transaction's writes; a written worker row
 * stays locked to the end of its transaction. Nothing else writes the link column.
 */
module WorkerLink {
  import opened Results

  type UserId = int
  type WorkerId = int
  type TxId = int

  type Links = map<WorkerId, Option<UserId>>

  datatype Phase = Begun | UserLocked | Checked | Freed | Linked

  datatype Tx = Tx(user: UserId, worker: Option<WorkerId>, phase: Phase, writes: Links)

  /** `links` has a row per worker; `active` is who may be linked. */
  datatype State = State(links: Links, active: set<WorkerId>, running: map<TxId, Tx>, locks: map<UserId, TxId>)

  datatype Step = Begin(user: UserId, worker: Option<WorkerId>) | LockUser | Check | Free | Link | Commit | Rollback

  ghost function WithTx(s: State, t: TxId, tx: Tx): State {
    s.(running := s.running[t := tx])
  }

  ghost function Ended(s: State, t: TxId): State {
    s.(running := s.running - {t}, locks := map u | u in s.locks && s.locks[u] != t :: s.locks[u])
  }

  ghost predicate RowFree(s: State, t: TxId, w: WorkerId) {
    forall u :: u in s.running && u != t ==> w !in s.running[u].writes
  }

  /** The rows updateMany frees: linked to the account, the worker being linked excepted. */
  ghost function OldLinks(s: State, tx: Tx): set<WorkerId> {
    set w | w in s.links && s.links[w] == Some(tx.user) && tx.worker != Some(w)
  }

  ghost function LinkInView(s: State, tx: Tx, w: WorkerId): Option<UserId>
    requires w in s.links
  {
    if w in tx.writes then tx.writes[w] else s.links[w]
  }

  ghost predicate Next(s: State, t: TxId, step: Step, s': State) {
    if step.Begin? then t !in s.running && s' == WithTx(s, t, Tx(step.user, step.worker, Begun, map[]))
    else t in s.running && TxStep(s, t, s.running[t], step, s')
  }

  /** Every refusal (unknown or inactive worker, linked elsewhere, nothing to set) leaves only Rollback. */
  ghost predicate TxStep(s: State, t: TxId, tx: Tx, step: Step, s': State) {
    match step
    case Begin(_, _) => false
    case LockUser =>
      && tx.phase == Begun && tx.user !in s.locks
      && s' == WithTx(s, t, tx.(phase := UserLocked)).(locks := s.locks[tx.user := t])
    case Check =>
      && tx.phase == UserLocked
      && (tx.worker.Some? ==>
            && tx.worker.value in s.links && tx.worker.value in s.active
            && (s.links[tx.worker.value] == None || s.links[tx.worker.value] == Some(tx.user)))
      && s' == WithTx(s, t, tx.(phase := Checked))
    case Free =>
      && tx.phase == Checked
      && (forall w :: w in OldLinks(s, tx) ==> RowFree(s, t, w))
      && s' == WithTx(s, t, tx.(phase := Freed, writes := map w | w in OldLinks(s, tx) :: None))
    case Link =>
      && tx.phase == Freed && tx.worker.Some?
      && tx.worker.value in s.links && RowFree(s, t, tx.worker.value)
      && LinkInView(s, tx, tx.worker.value) == None
      && s' == WithTx(s, t, tx.(phase := Linked, writes := tx.writes[tx.worker.value := Some(tx.user)]))
    case Commit =>
      && (tx.phase == Linked || (tx.phase == Freed && tx.worker == None))
      && s' == Ended(s, t).(links := s.links + tx.writes)
    case Rollback =>
      s' == Ended(s, t)
  }

  // ----- what always holds

  ghost predicate OneWorkerEach(links: Links) {
    forall v, w :: v in links && w in links && links[v].Some? && links[v] == links[w] ==> v == w
  }

  /** What a transaction has written against the committed rows, and the account lock it holds. */
  ghost predicate Sound(s: State, t: TxId, tx: Tx) {
    && (tx.phase != Begun ==> tx.user in s.locks && s.locks[tx.user] == t)
    && (tx.phase in {Begun, UserLocked, Checked} ==> tx.writes == map[])
    && (forall w :: w in tx.writes ==> w in s.links)
    && (forall w :: w in tx.writes && tx.worker != Some(w) ==> s.links[w] == Some(tx.user) && tx.writes[w] == None)
    && (forall w :: w in tx.writes && tx.worker == Some(w) ==>
          s.links[w] == None && tx.writes[w] == Some(tx.user) && tx.phase == Linked)
    && (tx.phase == Linked ==> tx.worker.Some? && tx.worker.value in tx.writes)
    && (tx.phase in {Freed, Linked} ==> forall w :: w in OldLinks(s, tx) ==> w in tx.writes)
  }

  ghost predicate RowLocksExclude(s: State) {
    forall t, u, w :: t in s.running && u in s.running && t != u && w in s.running[t].writes ==>
      w !in s.running[u].writes
  }

  ghost predicate Inv(s: State) {
    && OneWorkerEach(s.links)
    && RowLocksExclude(s)
    && forall t :: t in s.running ==> Sound(s, t, s.running[t])
  }

  lemma CommitKeeps(s: State, t: TxId, s': State)
    requires Inv(s) && Next(s, t, Commit, s')
    ensures Inv(s')
  {
    var tx := s.running[t];
    assert Sound(s, t, tx);
    forall v, w | v in s'.links && w in s'.links && s'.links[v].Some? && s'.links[v] == s'.links[w] ensures v == w {
      assert v !in tx.writes ==> s'.links[v] == s.links[v];
      assert w !in tx.writes ==> s'.links[w] == s.links[w];
      assert v !in OldLinks(s, tx) || v in tx.writes;
      assert w !in OldLinks(s, tx) || w in tx.writes;
    }
    forall u | u in s'.running ensures Sound(s', u, s'.running[u]) {
      var other := s.running[u];
      assert Sound(s, u, other);
      forall w | w in other.writes ensures s'.links[w] == s.links[w] {
        assert w !in tx.writes;
      }
      assert other.phase != Begun ==> other.user != tx.user;
      forall w | w in OldLinks(s', other) && other.phase in {Freed, Linked} ensures w in other.writes {
        assert w !in tx.writes ==> w in OldLinks(s, other);
      }
    }
  }

  /** Steps that leave the committed rows alone keep everybody else sound. */
  lemma OthersKeep(s: State, t: TxId, step: Step, s': State, u: TxId)
    requires Inv(s) && Next(s, t, step, s') && step != Commit
    requires u != t && u in s'.running
    ensures Sound(s', u, s'.running[u])
  {
    assert Sound(s, u, s.running[u]);
    assert OldLinks(s', s'.running[u]) == OldLinks(s, s.running[u]);
  }

  lemma OwnKeeps(s: State, t: TxId, step: Step, s': State)
    requires Inv(s) && Next(s, t, step, s') && step != Commit && step != Rollback && !step.Begin?
    ensures Sound(s', t, s'.running[t])
  {
    assert Sound(s, t, s.running[t]);
    assert OldLinks(s', s'.running[t]) == OldLinks(s, s.running[t]);
  }

  lemma LocksKeep(s: State, t: TxId, step: Step, s': State)
    requires Inv(s) && Next(s, t, step, s')
    ensures RowLocksExclude(s')
  {
  }

  lemma StepKeeps(s: State, t: TxId, step: Step, s': State)
    requires Inv(s) && Next(s, t, step, s')
    ensures Inv(s')
  {
    if step == Commit {
      CommitKeeps(s, t, s');
    } else {
      hide Sound, RowLocksExclude;
      LocksKeep(s, t, step, s');
      forall u | u in s'.running ensures Sound(s', u, s'.running[u]) {
        if u != t {
          OthersKeep(s, t, step, s', u);
        } else if step.Begin? {
          BeginIsSound(s', t);
        } else {
          OwnKeeps(s, t, step, s');
        }
      }
    }
  }

  lemma BeginIsSound(s: State, t: TxId)
    requires t in s.running && s.running[t].phase == Begun && s.running[t].writes == map[]
    ensures Sound(s, t, s.running[t])
  {
  }

  ghost predicate Stepped(s: State, s': State) {
    exists t, step :: Next(s, t, step, s')
  }

  ghost predicate IsRun(run: seq<State>) {
    && run != []
    && run[0].running == map[]
    && forall i :: 0 < i < |run| ==> Stepped(run[i - 1], run[i])
  }

  lemma StepsKeep(s: State, s': State)
    requires Inv(s) && Stepped(s, s')
    ensures Inv(s') && OneWorkerEach(s'.links)
  {
    hide Next;
    var t, step :| Next(s, t, step, s');
    StepKeeps(s, t, step, s');
  }

  lemma {:induction false} AlwaysInv(run: seq<State>, n: nat)
    requires IsRun(run) && OneWorkerEach(run[0].links) && n < |run|
    ensures Inv(run[n]) && OneWorkerEach(run[n].links)
  {
    if n > 0 {
      hide Inv, Stepped, OneWorkerEach;
      AlwaysInv(run, n - 1);
      StepsKeep(run[n - 1], run[n]);
    } else {
      hide Stepped;
    }
  }

  /** In every interleaving of replace calls no account ever has two workers. */
  lemma OneWorkerAlways(run: seq<State>)
    requires IsRun(run) && OneWorkerEach(run[0].links)
    ensures Inv(run[|run| - 1])
    ensures forall i :: 0 <= i < |run| ==> OneWorkerEach(run[i].links)
  {
    hide Inv, Stepped, OneWorkerEach;
    forall i | 0 <= i < |run| ensures OneWorkerEach(run[i].links) {
      AlwaysInv(run, i);
    }
    AlwaysInv(run, |run| - 1);
  }

  // ----- what one call does

  ghost predicate LinksOnly(before: Links, tx: Tx, after: Links) {
    && after.Keys == before.Keys
    && (forall w :: w in before ==> (after[w] == Some(tx.user) <==> tx.worker == Some(w)))
    && (tx.worker.Some? ==> tx.worker.value in before && before[tx.worker.value] == None)
    && (forall w :: w in before && before[w] != Some(tx.user) && tx.worker != Some(w) ==> after[w] == before[w])
  }

  /**
   * A committed call links its account to exactly the worker asked for (or to none), gives up only
   * the account's own old link and takes only a worker that was linked to nobody. Every other step,
   * a failed call's end included, leaves every link as it was.
   */
  lemma CallEffect(s: State, t: TxId, step: Step, s': State)
    requires Inv(s) && Next(s, t, step, s')
    ensures step != Commit ==> s'.links == s.links
    ensures step == Commit ==> t in s.running && LinksOnly(s.links, s.running[t], s'.links)
  {
    if step == Commit {
      var tx := s.running[t];
      assert Sound(s, t, tx);
      forall w | w in tx.writes.Keys ensures w in s.links.Keys { assert w in tx.writes; }
      if tx.phase == Linked {
        var w := tx.worker.value;
        assert w in tx.writes && tx.worker == Some(w);
      }
      forall w | w in s.links ensures s'.links[w] == Some(tx.user) <==> tx.worker == Some(w) {
        assert w in OldLinks(s, tx) ==> w in tx.writes;
      }
    }
  }

  /** In every run: whichever step comes next, it has only the effect above. */
  lemma CallEffectInRuns(run: seq<State>, n: nat, t: TxId, step: Step)
    requires IsRun(run) && OneWorkerEach(run[0].links) && n + 1 < |run| && Next(run[n], t, step, run[n + 1])
    ensures step != Commit ==> run[n + 1].links == run[n].links
    ensures step == Commit ==> t in run[n].running && LinksOnly(run[n].links, run[n].running[t], run[n + 1].links)
  {
    hide Next, OneWorkerEach, Inv, IsRun;
    AlwaysInv(run, n);
    CallEffect(run[n], t, step, run[n + 1]);
  }

  /** A call for the pair that is already linked, once it holds the account. */
  ghost predicate Resaving(s: State, t: TxId) {
    && t in s.running
    && s.running[t].phase in {UserLocked, Checked, Freed}
    && s.running[t].worker.Some? && s.running[t].worker.value in s.links
    && s.links[s.running[t].worker.value] == Some(s.running[t].user)
  }

  /** Saving a pair that is already linked never commits: nothing but its own rollback ends it. */
  lemma ResaveOnlyRollsBack(s: State, t: TxId, u: TxId, step: Step, s': State)
    requires Inv(s) && Resaving(s, t) && Next(s, u, step, s')
    ensures Resaving(s', t) || (u == t && step == Rollback)
  {
    var tx := s.running[t];
    var w := tx.worker.value;
    assert Sound(s, t, tx);
    if u in s.running { assert Sound(s, u, s.running[u]); }
    assert w !in tx.writes;
  }

  // ----- when a call succeeds

  ghost function Quiet(links: Links, active: set<WorkerId>): State {
    State(links, active, map[], map[])
  }

  /** A real call gets there: saving the pair its account already has passes the check and frees nothing. */
  lemma ResavingIsReached(links: Links, active: set<WorkerId>, user: UserId, worker: WorkerId) returns (run: seq<State>)
    requires worker in links && links[worker] == Some(user) && worker in active
    ensures IsRun(run) && run[0] == Quiet(links, active)
    ensures Resaving(run[|run| - 1], 1) && run[|run| - 1].running[1].phase == Freed
    ensures Next(run[0], 1, Begin(user, Some(worker)), run[1])
  {
    var tx := Tx(user, Some(worker), Begun, map[]);
    var s0 := Quiet(links, active);
    var s1 := WithTx(s0, 1, tx);
    var s2 := WithTx(s1, 1, tx.(phase := UserLocked)).(locks := map[user := 1]);
    var s3 := WithTx(s2, 1, tx.(phase := Checked));
    var freed := map w | w in OldLinks(s3, s3.running[1]) :: None;
    var s4 := WithTx(s3, 1, tx.(phase := Freed, writes := freed));
    assert Next(s0, 1, Begin(user, Some(worker)), s1);
    assert Next(s1, 1, LockUser, s2) && Next(s2, 1, Check, s3) && Next(s3, 1, Free, s4);
    hide Next;
    assert Stepped(s0, s1) && Stepped(s1, s2) && Stepped(s2, s3) && Stepped(s3, s4);
    run := [s0, s1, s2, s3, s4];
  }

  /** Steps of one call alone, from its account lock to its end. */
  ghost predicate OwnPath(t: TxId, path: seq<State>, steps: seq<Step>) {
    && |path| == |steps| + 1
    && forall i :: 0 <= i < |steps| ==> !steps[i].Begin? && Next(path[i], t, steps[i], path[i + 1])
  }

  /** Without another call's step in between, the call can get to its commit. */
  ghost predicate CanCommit(s: State, t: TxId) {
    exists path, steps :: OwnPath(t, path, steps) && path[0] == s && steps != [] && steps[|steps| - 1] == Commit
  }

  /**
   * What a caller can look at: the worker exists, is active and is linked to nobody. The rest is that no
   * open call is writing the rows this one writes.
   */
  ghost predicate Linkable(s: State, t: TxId, tx: Tx) {
    && (forall w :: w in OldLinks(s, tx) ==> RowFree(s, t, w))
    && (tx.worker.Some? ==>
          && tx.worker.value in s.links && tx.worker.value in s.active
          && s.links[tx.worker.value] == None && RowFree(s, t, tx.worker.value))
  }

  /** Past the account lock, before any link is written, and bound to fail. */
  ghost predicate Blocked(s: State, t: TxId) {
    && t in s.running && !Linkable(s, t, s.running[t])
    && s.running[t].phase in {UserLocked, Checked, Freed}
    && (s.running[t].phase == Freed ==> forall w :: w in OldLinks(s, s.running[t]) ==> RowFree(s, t, w))
    && (s.running[t].phase in {Checked, Freed} && s.running[t].worker.Some? ==>
          s.running[t].worker.value in s.links && s.running[t].worker.value in s.active)
    && (s.running[t].worker.Some? ==> s.running[t].worker.value !in s.running[t].writes)
  }

  lemma OthersWriteTheSame(s: State, t: TxId, step: Step, s': State)
    requires Next(s, t, step, s') && (step == Check || step == Free)
    ensures forall w :: RowFree(s, t, w) <==> RowFree(s', t, w)
  {
    forall u | u != t ensures u in s.running <==> u in s'.running {
    }
    forall u | u != t && u in s.running ensures s'.running[u] == s.running[u] {
    }
    forall w ensures RowFree(s, t, w) <==> RowFree(s', t, w) {
      if RowFree(s', t, w) {
        forall u | u in s.running && u != t ensures w !in s.running[u].writes {
          assert u in s'.running && w !in s'.running[u].writes;
        }
      }
    }
  }

  lemma StaysBlocked(s: State, t: TxId, step: Step, s': State)
    requires Blocked(s, t) && Next(s, t, step, s') && !step.Begin?
    ensures step != Commit && (step == Rollback || Blocked(s', t))
  {
    if step == Check || step == Free {
      assert OldLinks(s', s'.running[t]) == OldLinks(s, s.running[t]);
      OthersWriteTheSame(s, t, step, s');
    }
  }

  lemma {:induction false} BlockedNeverCommits(t: TxId, path: seq<State>, steps: seq<Step>)
    requires OwnPath(t, path, steps) && Blocked(path[0], t) && steps != []
    ensures steps[|steps| - 1] != Commit
    decreases |steps|
  {
    hide Next, Blocked;
    StaysBlocked(path[0], t, steps[0], path[1]);
    if |steps| > 1 {
      if steps[0] == Rollback {
        EndedStays(path[0], t, path[1], steps[1], path[2]);
      } else {
        BlockedNeverCommits(t, path[1..], steps[1..]);
      }
    }
  }

  /** After its rollback a call takes no further step. */
  lemma EndedStays(s: State, t: TxId, s': State, step: Step, s'': State)
    requires Next(s, t, Rollback, s') && !step.Begin?
    ensures !Next(s', t, step, s'')
  {
  }

  lemma PathGrows(t: TxId, path: seq<State>, steps: seq<Step>, step: Step, s': State)
    requires OwnPath(t, path, steps) && !step.Begin? && Next(path[|steps|], t, step, s')
    ensures OwnPath(t, path + [s'], steps + [step])
  {
    hide Next;
  }

  /** A linkable call gets past its check and frees its account's old link. */
  lemma LinkableFrees(s: State, t: TxId) returns (path: seq<State>)
    requires t in s.running && s.running[t].phase == UserLocked && s.running[t].writes == map[]
    requires Linkable(s, t, s.running[t])
    ensures |path| == 3 && OwnPath(t, path, [Check, Free]) && path[0] == s
    ensures t in path[2].running && path[2].running[t].phase == Freed && path[2].links == s.links
    ensures path[2].running[t].worker == s.running[t].worker && path[2].running[t].user == s.running[t].user
    ensures path[2].running[t].writes.Keys == OldLinks(s, s.running[t])
    ensures forall w :: RowFree(s, t, w) <==> RowFree(path[2], t, w)
  {
    var tx := s.running[t];
    var s1 := WithTx(s, t, tx.(phase := Checked));
    assert Next(s, t, Check, s1);
    OthersWriteTheSame(s, t, Check, s1);
    var freed: Links := map w | w in OldLinks(s1, s1.running[t]) :: None;
    assert OldLinks(s1, s1.running[t]) == OldLinks(s, tx);
    var s2 := WithTx(s1, t, s1.running[t].(phase := Freed, writes := freed));
    assert Next(s1, t, Free, s2);
    OthersWriteTheSame(s1, t, Free, s2);
    path := [s, s1, s2];
    hide Next, RowFree;
  }

  /** The commit of a linkable call, by its own steps. */
  lemma LinkableCommits(s: State, t: TxId)
    requires t in s.running && s.running[t].phase == UserLocked && s.running[t].writes == map[]
    requires Linkable(s, t, s.running[t])
    ensures CanCommit(s, t)
  {
    hide Next;
    var path := LinkableFrees(s, t);
    var steps := [Check, Free];
    var s2 := path[2];
    if s.running[t].worker.Some? {
      var s3 := LinkStep(s, t, s2);
      PathGrows(t, path, steps, Link, s3);
      path, steps := path + [s3], steps + [Link];
    }
    var last := path[|steps|];
    var done := Ended(last, t).(links := last.links + last.running[t].writes);
    CommitStep(last, t, done);
    PathGrows(t, path, steps, Commit, done);
    path, steps := path + [done], steps + [Commit];
  }

  lemma LinkStep(s: State, t: TxId, s2: State) returns (s3: State)
    requires t in s.running && Linkable(s, t, s.running[t]) && s.running[t].worker.Some?
    requires t in s2.running && s2.running[t].phase == Freed && s2.links == s.links
    requires s2.running[t].worker == s.running[t].worker && s2.running[t].writes.Keys == OldLinks(s, s.running[t])
    requires forall w :: RowFree(s, t, w) <==> RowFree(s2, t, w)
    ensures Next(s2, t, Link, s3) && t in s3.running && s3.running[t].phase == Linked
  {
    var tx := s2.running[t];
    assert tx.worker.value !in tx.writes;
    s3 := WithTx(s2, t, tx.(phase := Linked, writes := tx.writes[tx.worker.value := Some(tx.user)]));
  }

  lemma CommitStep(s: State, t: TxId, s': State)
    requires t in s.running
    requires s.running[t].phase == Linked || (s.running[t].phase == Freed && s.running[t].worker == None)
    requires s' == Ended(s, t).(links := s.links + s.running[t].writes)
    ensures Next(s, t, Commit, s')
  {
  }

  /**
   * A call that holds its account can get to its commit without another call's step exactly when it names
   * no worker or one that exists, is active and is linked to nobody, its own account included; no open
   * call may be writing the rows in question.
   */
  lemma CommitsIffLinkable(s: State, t: TxId)
    requires Inv(s) && t in s.running && s.running[t].phase == UserLocked
    ensures CanCommit(s, t) <==> Linkable(s, t, s.running[t])
  {
    assert Sound(s, t, s.running[t]);
    if Linkable(s, t, s.running[t]) {
      LinkableCommits(s, t);
    } else {
      assert Blocked(s, t);
      hide Inv, Next, Blocked, Linkable, Sound;
      if CanCommit(s, t) {
        var path, steps :| OwnPath(t, path, steps) && path[0] == s && steps != [] && steps[|steps| - 1] == Commit;
        BlockedNeverCommits(t, path, steps);
      }
    }
  }

  /** With no other call open, the link the caller can read decides. */
  lemma AloneTheLinkDecides(s: State, t: TxId)
    requires Inv(s) && t in s.running && s.running[t].phase == UserLocked
    requires forall u :: u in s.running && u != t ==> s.running[u].writes == map[]
    ensures var worker := s.running[t].worker;
            CanCommit(s, t) <==>
              (worker.Some? ==> worker.value in s.links && worker.value in s.active && s.links[worker.value] == None)
  {
    hide CanCommit, Inv;
    CommitsIffLinkable(s, t);
  }

  /** A call made while nobody else is: it succeeds exactly on the links the caller could have read before it. */
  lemma SoleCallSucceedsIff(links: Links, active: set<WorkerId>, user: UserId, worker: Option<WorkerId>)
    returns (begun: State, locked: State)
    requires OneWorkerEach(links)
    ensures Next(Quiet(links, active), 1, Begin(user, worker), begun) && Next(begun, 1, LockUser, locked)
    ensures CanCommit(locked, 1) <==>
              (worker.Some? ==> worker.value in links && worker.value in active && links[worker.value] == None)
  {
    var tx := Tx(user, worker, Begun, map[]);
    begun := WithTx(Quiet(links, active), 1, tx);
    locked := WithTx(begun, 1, tx.(phase := UserLocked)).(locks := map[user := 1]);
    hide CanCommit;
    AloneTheLinkDecides(locked, 1);
  }
}
