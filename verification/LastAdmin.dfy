/**
 * The last-administrator guard (last-admin.ts) under READ COMMITTED: transactions that may take the
 * admin permission away write first, then queue on one advisory lock held to commit, then count.
 *
 * Rows are cells that are present or absent in the committed tables. A statement sees the committed
 * tables and its own transaction's writes (section 13.2.1 of the PostgreSQL manual); written cells
 * stay locked against other writers until the transaction ends.
 */
module LastAdmin {
  import opened Results

  type UserId = int
  type RoleId = int
  type TxId = int

  const ADMIN_PERMISSION := "W-CO-02"

  datatype Cell =
    | UserActive(user: UserId)
    | RoleActive(role: RoleId)
    | UserRole(user: UserId, role: RoleId)
    | RolePermission(role: RoleId, permission: string)

  type Tables = set<Cell>

  ghost predicate IsAdmin(tables: Tables, user: UserId) {
    && UserActive(user) in tables
    && exists role :: HoldsThrough(tables, user, role)
  }

  ghost predicate HoldsThrough(tables: Tables, user: UserId, role: RoleId) {
    && UserRole(user, role) in tables
    && RoleActive(role) in tables
    && RolePermission(role, ADMIN_PERMISSION) in tables
  }

  /** The users the count query counts. */
  ghost function Admins(tables: Tables): set<UserId> {
    set c | c in tables && c.UserActive? && IsAdmin(tables, c.user) :: c.user
  }

  // ----- transactions

  datatype Request =
    | SetUserActive(user: UserId, active: bool)
    | SetRoleActive(role: RoleId, active: bool)
    | ReplaceRoles(user: UserId, roles: set<RoleId>)
    | ReplacePermissions(role: RoleId, permissions: set<string>)

  /** Switching a user or role on can only add administrators, so it is not guarded. */
  predicate Guarded(request: Request) {
    match request
    case SetUserActive(_, active) => !active
    case SetRoleActive(_, active) => !active
    case _ => true
  }

  datatype Phase = Started | Deleted | Written | Locked | Counted

  datatype Tx = Tx(request: Request, phase: Phase, writes: map<Cell, bool>)

  datatype State = State(committed: Tables, running: map<TxId, Tx>, lock: Option<TxId>)

  /** What a transaction sees: the committed tables under its own writes. */
  ghost function View(tables: Tables, writes: map<Cell, bool>): Tables {
    (set c | c in tables && !(c in writes && !writes[c])) + (set c | c in writes && writes[c])
  }

  ghost predicate LockedByOther(s: State, t: TxId, c: Cell) {
    exists u :: u in s.running && u != t && c in s.running[u].writes
  }

  ghost predicate Free(s: State, t: TxId, cells: set<Cell>) {
    forall c :: c in cells ==> !LockedByOther(s, t, c)
  }

  /** The rows a replacing request deletes first, and the ones it then inserts. */
  ghost predicate Replaced(request: Request, c: Cell) {
    match request
    case ReplaceRoles(user, _) => c.UserRole? && c.user == user
    case ReplacePermissions(role, _) => c.RolePermission? && c.role == role
    case _ => false
  }

  ghost predicate Inserted(request: Request, c: Cell) {
    match request
    case ReplaceRoles(user, roles) => c.UserRole? && c.user == user && c.role in roles
    case ReplacePermissions(role, permissions) => c.RolePermission? && c.role == role && c.permission in permissions
    case _ => false
  }

  // ----- steps

  datatype Step =
    | Begin(request: Request)
    | Update
    | Delete(removed: set<Cell>)
    | Insert(added: set<Cell>)
    | TakeLock
    | Count
    | Commit
    | Rollback

  ghost function WithTx(s: State, t: TxId, tx: Tx): State {
    s.(running := s.running[t := tx])
  }

  ghost function Ended(s: State, t: TxId): State {
    s.(running := s.running - {t}, lock := if s.lock == Some(t) then None else s.lock)
  }

  ghost function SetAll(writes: map<Cell, bool>, cells: set<Cell>, value: bool): map<Cell, bool> {
    writes + map c | c in cells :: value
  }

  function Target(request: Request): Cell
    requires request.SetUserActive? || request.SetRoleActive?
  {
    match request
    case SetUserActive(user, _) => UserActive(user)
    case SetRoleActive(role, _) => RoleActive(role)
  }

  /**
   * One step of transaction t. `guard` is false only to show what goes wrong without the advisory
   * lock: the phase then advances without waiting for it.
   *
   * A delete may miss rows that a concurrent transaction replaced while it waited, so it removes some
   * of the matching rows in view; an insert of a row already in view is a unique violation and has no
   * step but Rollback. Rollback also stands for every other refusal (stale version, unknown row).
   */
  ghost predicate Next(guard: bool, s: State, t: TxId, step: Step, s': State) {
    if step.Begin? then t !in s.running && s' == WithTx(s, t, Tx(step.request, Started, map[]))
    else t in s.running && TxStep(guard, s, t, s.running[t], step, s')
  }

  ghost predicate TxStep(guard: bool, s: State, t: TxId, tx: Tx, step: Step, s': State) {
    match step
    case Begin(_) => false
    case Update =>
      && tx.phase == Started && (tx.request.SetUserActive? || tx.request.SetRoleActive?)
      && Free(s, t, {Target(tx.request)})
      && s' == WithTx(s, t, tx.(phase := Written, writes := SetAll(tx.writes, {Target(tx.request)}, tx.request.active)))
    case Delete(removed) =>
      && tx.phase == Started && (tx.request.ReplaceRoles? || tx.request.ReplacePermissions?)
      && (forall c :: c in removed ==> c in View(s.committed, tx.writes) && Replaced(tx.request, c))
      && Free(s, t, removed)
      && s' == WithTx(s, t, tx.(phase := Deleted, writes := SetAll(tx.writes, removed, false)))
    case Insert(added) =>
      && tx.phase == Deleted
      && (forall c :: c in added <==> Inserted(tx.request, c))
      && added !! View(s.committed, tx.writes)
      && Free(s, t, added)
      && s' == WithTx(s, t, tx.(phase := Written, writes := SetAll(tx.writes, added, true)))
    case TakeLock =>
      && tx.phase == Written && Guarded(tx.request)
      && (guard ==> s.lock == None)
      && s' == WithTx(s, t, tx.(phase := Locked)).(lock := if guard then Some(t) else s.lock)
    case Count =>
      && tx.phase == Locked
      && |Admins(View(s.committed, tx.writes))| > 0
      && s' == WithTx(s, t, tx.(phase := Counted))
    case Commit =>
      && (tx.phase == Counted || (tx.phase == Written && !Guarded(tx.request)))
      && s' == Ended(s, t).(committed := View(s.committed, tx.writes))
    case Rollback =>
      s' == Ended(s, t)
  }

  ghost predicate Stepped(guard: bool, s: State, s': State) {
    exists t, step :: Next(guard, s, t, step, s')
  }

  ghost predicate IsRun(guard: bool, run: seq<State>) {
    && run != []
    && run[0].running == map[] && run[0].lock == None
    && Chain(guard, run)
  }

  ghost predicate Chain(guard: bool, path: seq<State>) {
    forall i :: 0 < i < |path| ==> Stepped(guard, path[i - 1], path[i])
  }

  lemma ChainsJoin(guard: bool, a: seq<State>, b: seq<State>)
    requires a != [] && b != [] && a[|a| - 1] == b[0] && Chain(guard, a) && Chain(guard, b)
    ensures Chain(guard, a + b[1..])
  {
    hide Stepped;
    var joined := a + b[1..];
    forall i | 0 < i < |joined| ensures Stepped(guard, joined[i - 1], joined[i]) {
      if i >= |a| {
        var k := i - |a| + 1;
        assert Stepped(guard, b[k - 1], b[k]);
      }
    }
  }

  // ----- the guard keeps an administrator

  lemma AdminsCounted(tables: Tables)
    ensures |Admins(tables)| > 0 <==> exists user :: IsAdmin(tables, user)
  {
    if user :| IsAdmin(tables, user) {
      assert UserActive(user) in tables;
      assert user in Admins(tables);
    }
    if |Admins(tables)| > 0 {
      var user :| user in Admins(tables);
      assert IsAdmin(tables, user);
    }
  }

  /** Counted is an active user with an active role that has the permission of the screen W-CO-02. */
  lemma CountedIs(tables: Tables, user: UserId)
    ensures user in Admins(tables) <==>
            exists role :: {UserActive(user), UserRole(user, role), RoleActive(role), RolePermission(role, "W-CO-02")}
                           <= tables
  {
    if user in Admins(tables) {
      assert IsAdmin(tables, user);
      var role :| HoldsThrough(tables, user, role);
      assert {UserActive(user), UserRole(user, role), RoleActive(role), RolePermission(role, "W-CO-02")} <= tables;
    }
    if role :| {UserActive(user), UserRole(user, role), RoleActive(role), RolePermission(role, "W-CO-02")} <= tables {
      assert UserActive(user) in tables && HoldsThrough(tables, user, role);
      assert IsAdmin(tables, user);
    }
  }

  lemma MoreRowsMoreAdmins(a: Tables, b: Tables)
    requires a <= b && |Admins(a)| > 0
    ensures |Admins(b)| > 0
  {
    AdminsCounted(a);
    var user :| IsAdmin(a, user);
    var role :| HoldsThrough(a, user, role);
    assert HoldsThrough(b, user, role);
    assert IsAdmin(b, user);
    AdminsCounted(b);
  }

  ghost predicate OnlyAdds(tx: Tx) {
    forall c :: c in tx.writes ==> tx.writes[c]
  }

  ghost predicate Sound(s: State, t: TxId, tx: Tx) {
    && (!Guarded(tx.request) ==> OnlyAdds(tx) && tx.phase != Deleted)
    && (tx.phase == Locked || tx.phase == Counted ==> Guarded(tx.request) && s.lock == Some(t))
    && (tx.phase == Counted ==> |Admins(View(s.committed, tx.writes))| > 0)
  }

  ghost predicate Inv(s: State) {
    && |Admins(s.committed)| > 0
    && forall t :: t in s.running ==> Sound(s, t, s.running[t])
  }

  lemma ViewGrows(tables: Tables, writes: map<Cell, bool>, other: map<Cell, bool>)
    requires forall c :: c in writes ==> writes[c]
    ensures tables <= View(tables, writes)
    ensures View(tables, other) <= View(View(tables, writes), other)
  {
  }

  /** Committing an unguarded activation only adds rows to everybody's view. */
  lemma CommitKeeps(s: State, t: TxId, s': State)
    requires Inv(s) && Next(true, s, t, Commit, s')
    ensures Inv(s')
  {
    var tx := s.running[t];
    if tx.phase != Counted {
      ViewGrows(s.committed, tx.writes, map[]);
      MoreRowsMoreAdmins(s.committed, s'.committed);
    }
    forall u | u in s'.running ensures Sound(s', u, s'.running[u]) {
      assert Sound(s, u, s.running[u]);
      var other := s.running[u];
      if other.phase == Counted {
        assert s.lock == Some(u) && tx.phase != Counted;
        ViewGrows(s.committed, tx.writes, other.writes);
        MoreRowsMoreAdmins(View(s.committed, other.writes), View(s'.committed, other.writes));
      }
    }
  }

  lemma StepKeeps(s: State, t: TxId, step: Step, s': State)
    requires Inv(s) && Next(true, s, t, step, s')
    ensures Inv(s')
  {
    if step == Commit {
      CommitKeeps(s, t, s');
    } else {
      forall u | u in s'.running ensures Sound(s', u, s'.running[u]) {
        if u in s.running { assert Sound(s, u, s.running[u]); }
        if t in s.running { assert Sound(s, t, s.running[t]); }
      }
    }
  }

  lemma StepsKeep(s: State, s': State)
    requires Inv(s) && Stepped(true, s, s')
    ensures Inv(s')
  {
    hide Inv, Next;
    var t, step :| Next(true, s, t, step, s');
    StepKeeps(s, t, step, s');
  }

  lemma {:induction false} AlwaysInv(run: seq<State>, n: nat)
    requires IsRun(true, run) && |Admins(run[0].committed)| > 0 && n < |run|
    ensures Inv(run[n])
  {
    if n > 0 {
      hide Inv, Stepped, Admins;
      AlwaysInv(run, n - 1);
      StepsKeep(run[n - 1], run[n]);
    } else {
      hide Stepped, Admins;
    }
  }

  lemma InvHasAdmin(s: State)
    requires Inv(s)
    ensures |Admins(s.committed)| > 0
  {
    hide Admins;
  }

  /** Whatever interleaving of any number of requests, every committed state keeps an administrator. */
  lemma AdminAlwaysRemains(run: seq<State>)
    requires IsRun(true, run) && |Admins(run[0].committed)| > 0
    ensures Inv(run[|run| - 1])
    ensures forall i :: 0 <= i < |run| ==> |Admins(run[i].committed)| > 0
  {
    hide Inv, Stepped, Admins;
    forall i | 0 <= i < |run| ensures |Admins(run[i].committed)| > 0 {
      AlwaysInv(run, i);
      InvHasAdmin(run[i]);
    }
    AlwaysInv(run, |run| - 1);
  }

  // ----- what a guarded write comes to

  /** The three steps left after the write. */
  ghost predicate CanFinish(s: State, t: TxId) {
    exists s1, s2, s3 :: Finishes(s, t, s1, s2, s3)
  }

  ghost predicate Finishes(s: State, t: TxId, s1: State, s2: State, s3: State) {
    Next(true, s, t, TakeLock, s1) && Next(true, s1, t, Count, s2) && Next(true, s2, t, Commit, s3)
  }

  /** With the lock free, a guarded write can be committed exactly when somebody is left in what it sees. */
  lemma WrittenCommitsIff(s: State, t: TxId)
    requires t in s.running && s.lock == None
    requires s.running[t].phase == Written && Guarded(s.running[t].request)
    ensures CanFinish(s, t) <==> exists user :: IsAdmin(View(s.committed, s.running[t].writes), user)
  {
    var tx := s.running[t];
    AdminsCounted(View(s.committed, tx.writes));
    hide Admins, View, IsAdmin;
    var s1 := WithTx(s, t, tx.(phase := Locked)).(lock := Some(t));
    var s2 := WithTx(s1, t, tx.(phase := Counted));
    var s3 := Ended(s2, t).(committed := View(s.committed, tx.writes));
    if |Admins(View(s.committed, tx.writes))| > 0 {
      assert Finishes(s, t, s1, s2, s3);
    }
  }

  /** Switching a user or a role on waits for no lock and counts nobody. */
  lemma ActivationCommits(s: State, t: TxId)
    requires t in s.running && s.running[t].phase == Written
    requires s.running[t].request.SetUserActive? || s.running[t].request.SetRoleActive?
    ensures (exists s' :: Next(true, s, t, Commit, s')) <==> s.running[t].request.active
  {
    var s' := Ended(s, t).(committed := View(s.committed, s.running[t].writes));
    if s.running[t].request.active { assert Next(true, s, t, Commit, s'); }
  }

  /** The rows a replacing request asks for. */
  function Rows(request: Request): set<Cell> {
    match request
    case ReplaceRoles(user, roles) => set role | role in roles :: UserRole(user, role)
    case ReplacePermissions(role, permissions) =>
      set permission | permission in permissions :: RolePermission(role, permission)
    case _ => {}
  }

  /** A transaction whose rows nobody else holds gets through its writes by its own steps. */
  lemma WritesWhenFree(s: State, t: TxId) returns (path: seq<State>)
    requires t in s.running && s.running[t].phase == Started && s.running[t].writes == map[]
    requires forall c :: Touches(s.running[t].request, c) ==> !LockedByOther(s, t, c)
    ensures path != [] && path[0] == s && Chain(true, path)
    ensures var last := path[|path| - 1];
            && t in last.running && last.running[t].phase == Written
            && last.running[t].request == s.running[t].request
            && last.committed == s.committed && last.lock == s.lock
  {
    var tx := s.running[t];
    if !Replaces(tx.request) {
      var s1 := WithTx(s, t, tx.(phase := Written, writes := SetAll(map[], {Target(tx.request)}, tx.request.active)));
      assert Free(s, t, {Target(tx.request)});
      assert Next(true, s, t, Update, s1);
      hide Next;
      path := [s, s1];
    } else {
      path := ReplacesWhenFree(s, t);
    }
  }

  lemma ReplacesWhenFree(s: State, t: TxId) returns (path: seq<State>)
    requires t in s.running && s.running[t].phase == Started && s.running[t].writes == map[]
    requires Replaces(s.running[t].request)
    requires forall c :: Touches(s.running[t].request, c) ==> !LockedByOther(s, t, c)
    ensures |path| == 3 && path[0] == s && Chain(true, path)
    ensures var last := path[2];
            && t in last.running && last.running[t].phase == Written
            && last.running[t].request == s.running[t].request
            && last.committed == s.committed && last.lock == s.lock
  {
    var tx := s.running[t];
    var removed := set c | c in s.committed && Replaced(tx.request, c);
    var s1 := WithTx(s, t, tx.(phase := Deleted, writes := SetAll(map[], removed, false)));
    assert Next(true, s, t, Delete(removed), s1);
    hide Next;
    forall c | Touches(s1.running[t].request, c) ensures !LockedByOther(s1, t, c) {
      assert !LockedByOther(s, t, c);
    }
    var s2 := InsertsWhenFree(s1, t);
    hide Touches, Replaces, LockedByOther, SetAll;
    path := [s, s1, s2];
    assert Stepped(true, s, s1) && Stepped(true, s1, s2);
  }

  lemma InsertsWhenFree(s: State, t: TxId) returns (s': State)
    requires t in s.running && s.running[t].phase == Deleted && Replaces(s.running[t].request)
    requires forall c :: c in s.committed && Replaced(s.running[t].request, c) ==>
               c in s.running[t].writes && !s.running[t].writes[c]
    requires forall c :: c in s.running[t].writes ==> !s.running[t].writes[c]
    requires forall c :: Touches(s.running[t].request, c) ==> !LockedByOther(s, t, c)
    ensures Stepped(true, s, s')
    ensures t in s'.running && s'.running[t].phase == Written && s'.running[t].request == s.running[t].request
    ensures s'.committed == s.committed && s'.lock == s.lock
  {
    var tx, added := s.running[t], Rows(s.running[t].request);
    hide Admins, LockedByOther;
    s' := WithTx(s, t, tx.(phase := Written, writes := SetAll(tx.writes, added, true)));
    assert Free(s, t, added);
    assert Next(true, s, t, Insert(added), s');
  }

  /** A transaction that ends is gone, with its lock and its row locks; nobody else is touched. */
  lemma EndingFrees(s: State, t: TxId, step: Step, s': State)
    requires (step == Commit || step == Rollback) && Next(true, s, t, step, s')
    ensures t !in s'.running && s'.lock == (if s.lock == Some(t) then None else s.lock)
    ensures forall u :: u != t ==> (u in s'.running <==> u in s.running)
    ensures forall u :: u in s'.running ==> s'.running[u] == s.running[u]
    ensures step == Rollback ==> s'.committed == s.committed
  {
  }

  /** What a transaction has written so far, by its request. */
  ghost predicate Shaped(tx: Tx) {
    && (tx.phase == Started ==> tx.writes == map[])
    && (tx.phase == Deleted ==> Replaces(tx.request) && forall c :: c in tx.writes ==> !tx.writes[c])
    && (forall c :: c in tx.writes ==> Touches(tx.request, c))
    && (tx.phase != Started && tx.phase != Deleted ==>
          forall c :: (c in tx.writes && tx.writes[c]) <==> WrittenPresent(tx.request, c))
    && (tx.phase != Started && !Replaces(tx.request) ==> Target(tx.request) in tx.writes)
  }

  predicate Replaces(request: Request) {
    request.ReplaceRoles? || request.ReplacePermissions?
  }

  /** The rows a request may change. */
  predicate Touches(request: Request, c: Cell) {
    match request
    case SetUserActive(user, _) => c == UserActive(user)
    case SetRoleActive(role, _) => c == RoleActive(role)
    case ReplaceRoles(user, _) => c.UserRole? && c.user == user
    case ReplacePermissions(role, _) => c.RolePermission? && c.role == role
  }

  /** The rows a request asks to be there. */
  predicate WrittenPresent(request: Request, c: Cell) {
    match request
    case SetUserActive(user, active) => active && c == UserActive(user)
    case SetRoleActive(role, active) => active && c == RoleActive(role)
    case ReplaceRoles(user, roles) => c.UserRole? && c.user == user && c.role in roles
    case ReplacePermissions(role, permissions) => c.RolePermission? && c.role == role && c.permission in permissions
  }

  ghost predicate AllShaped(s: State) {
    forall t :: t in s.running ==> Shaped(s.running[t])
  }

  lemma StepShapes(guard: bool, s: State, s': State)
    requires AllShaped(s) && Stepped(guard, s, s')
    ensures AllShaped(s')
  {
    hide Next, Shaped;
    var t, step :| Next(guard, s, t, step, s');
    forall u | u in s'.running ensures Shaped(s'.running[u]) {
      if u == t { OwnShapes(guard, s, t, step, s'); } else { OthersStay(guard, s, t, step, s', u); }
    }
  }

  lemma OthersStay(guard: bool, s: State, t: TxId, step: Step, s': State, u: TxId)
    requires Next(guard, s, t, step, s') && u != t && u in s'.running
    ensures u in s.running && s'.running[u] == s.running[u]
  {
    hide View, Admins, Free;
  }

  lemma OwnShapes(guard: bool, s: State, t: TxId, step: Step, s': State)
    requires Next(guard, s, t, step, s') && t in s'.running && (t in s.running ==> Shaped(s.running[t]))
    ensures Shaped(s'.running[t])
  {
    hide View, Admins, Free;
  }

  lemma {:induction false} AlwaysShaped(guard: bool, run: seq<State>, n: nat)
    requires IsRun(guard, run) && n < |run|
    ensures AllShaped(run[n])
  {
    hide Stepped;
    if n > 0 {
      hide AllShaped;
      AlwaysShaped(guard, run, n - 1);
      StepShapes(guard, run[n - 1], run[n]);
    }
  }

  /**
   * A commit in any run does what its request says to the tables: rows asked for are there, switched-off
   * users and roles are not, nothing new that was not asked for, and no other row changes.
   */
  lemma CommitDoesWhatWasRequested(guard: bool, run: seq<State>, t: TxId, s': State)
    requires IsRun(guard, run) && Next(guard, run[|run| - 1], t, Commit, s')
    ensures var (s, request) := (run[|run| - 1], run[|run| - 1].running[t].request);
            && (forall c :: !Touches(request, c) ==> (c in s'.committed <==> c in s.committed))
            && (forall c :: WrittenPresent(request, c) ==> c in s'.committed)
            && (forall c :: c in s'.committed ==> c in s.committed || WrittenPresent(request, c))
            && (request.SetUserActive? && !request.active ==> UserActive(request.user) !in s'.committed)
            && (request.SetRoleActive? && !request.active ==> RoleActive(request.role) !in s'.committed)
  {
    AlwaysShaped(guard, run, |run| - 1);
    assert Shaped(run[|run| - 1].running[t]);
    hide IsRun, Admins;
  }

  // ----- without the lock it does not hold

  ghost function Off(user: UserId): map<Cell, bool> {
    map[UserActive(user) := false]
  }

  /** Deactivating the user `other` still leaves `user`, as the count in that transaction sees it. */
  lemma StillSeen(tables: Tables, user: UserId, other: UserId)
    requires user in Admins(tables) && user != other
    ensures |Admins(View(tables, Off(other)))| > 0
  {
    var view := View(tables, Off(other));
    var role :| HoldsThrough(tables, user, role);
    assert UserActive(user) in tables by { assert IsAdmin(tables, user); }
    assert HoldsThrough(view, user, role);
    assert IsAdmin(view, user);
    AdminsCounted(view);
  }

  /** Both deactivations committed, neither user is an administrator any more, and nobody new is. */
  lemma BothGone(tables: Tables, a: UserId, b: UserId)
    ensures Admins(View(View(tables, Off(a)), Off(b))) <= Admins(tables) - {a, b}
  {
    var after := View(View(tables, Off(a)), Off(b));
    forall user | user in Admins(after) ensures user in Admins(tables) - {a, b} {
      assert IsAdmin(after, user);
      var role :| HoldsThrough(after, user, role);
      assert HoldsThrough(tables, user, role);
      assert UserActive(user) in tables && IsAdmin(tables, user);
      assert user in Admins(tables);
    }
  }

  lemma Overwrite(s: State, t: TxId, x: Tx, y: Tx)
    ensures WithTx(WithTx(s, t, x), t, y) == WithTx(s, t, y)
  {
  }

  /** One transaction from its start to its write. */
  lemma RunToWrite(s: State, t: TxId, user: UserId) returns (path: seq<State>)
    requires t !in s.running
    requires forall u :: u in s.running ==> UserActive(user) !in s.running[u].writes
    ensures |path| == 3 && path[0] == s && Chain(false, path)
    ensures path[2] == WithTx(s, t, Tx(SetUserActive(user, false), Written, Off(user)))
  {
    var off := SetUserActive(user, false);
    var s1 := WithTx(s, t, Tx(off, Started, map[]));
    var s2 := WithTx(s, t, Tx(off, Written, Off(user)));
    assert SetAll(map[], {UserActive(user)}, false) == Off(user);
    Overwrite(s, t, s1.running[t], s2.running[t]);
    assert Stepped(false, s, s1) by { assert Next(false, s, t, Begin(off), s1); }
    assert Stepped(false, s1, s2) by { assert Next(false, s1, t, Update, s2); }
    hide Stepped, WithTx, SetAll;
    path := [s, s1, s2];
  }

  /** One transaction from its start to the end of its count, the other one's writes unseen. */
  lemma RunToCount(s: State, t: TxId, user: UserId) returns (path: seq<State>)
    requires t !in s.running
    requires forall u :: u in s.running ==> UserActive(user) !in s.running[u].writes
    requires |Admins(View(s.committed, Off(user)))| > 0
    ensures |path| == 5 && path[0] == s && Chain(false, path)
    ensures path[4] == WithTx(s, t, Tx(SetUserActive(user, false), Counted, Off(user)))
  {
    var off := SetUserActive(user, false);
    path := RunToWrite(s, t, user);
    var s2 := path[2];
    var s3 := WithTx(s, t, Tx(off, Locked, Off(user)));
    var s4 := WithTx(s, t, Tx(off, Counted, Off(user)));
    Overwrite(s, t, s2.running[t], s3.running[t]);
    Overwrite(s, t, s3.running[t], s4.running[t]);
    assert Stepped(false, s2, s3) by { assert Next(false, s2, t, TakeLock, s3); }
    assert Stepped(false, s3, s4) by { assert Next(false, s3, t, Count, s4); }
    hide Stepped, WithTx, Admins, Off, View;
    ChainsJoin(false, path, [s2, s3, s4]);
    path := path + [s2, s3, s4][1..];
  }

  /**
   * Without the lock, two administrators deactivated at once reach zero, whatever the tables: each
   * transaction counts the other one, whose write it cannot see yet.
   */
  lemma WriteSkewWithoutLock(tables: Tables, a: UserId, b: UserId) returns (run: seq<State>)
    requires Admins(tables) == {a, b} && a != b
    ensures IsRun(false, run) && run[0].committed == tables
    ensures |Admins(run[|run| - 1].committed)| == 0
  {
    StillSeen(tables, b, a);
    StillSeen(tables, a, b);
    var first := RunToCount(State(tables, map[], None), 1, a);
    var second := RunToCount(first[4], 2, b);
    var s8 := second[4];
    var s9 := Ended(s8, 1).(committed := View(tables, Off(a)));
    var s10 := Ended(s9, 2).(committed := View(View(tables, Off(a)), Off(b)));
    assert Stepped(false, s8, s9) by { assert Next(false, s8, 1, Commit, s9); }
    assert Stepped(false, s9, s10) by { assert Next(false, s9, 2, Commit, s10); }
    BothGone(tables, a, b);
    hide Stepped, WithTx, View, Admins, Off;
    ChainsJoin(false, first, second);
    ChainsJoin(false, first + second[1..], [s8, s9, s10]);
    run := first + second[1..] + [s8, s9, s10][1..];
  }
}
