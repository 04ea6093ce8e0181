/** The server's job protocol as a state machine over its atomic steps: everything between two awaits
    is one step, and the steps of all tasks interleave freely. */
module JobProtocol {
  import opened Options
  import opened JobRecords
  import opened LauncherRegistry

  // Where the dispatcher stands. Outside `Free` it holds the assignment lock.
  datatype Dispatcher = Free | Holding(idle: set<LauncherId>) | Claimed(job: JobId, launcher: LauncherId)

  // Where the connection handler of one launcher stands.
  datatype Handler =
    | Created                 // row written, not yet in the registry
    | Listening
    | Matched(msg: Message)   // registry check passed, row not yet written
    | Committed(msg: Message) // row written, registry not yet updated
    | ResetChecked
    | Closing
    | Deregistered            // gone from the registry, jobs not yet failed
    | Gone

  datatype State = State(db: Db, registry: Registry, dispatcher: Dispatcher, handlers: map<LauncherId, Handler>)

  datatype Step =
    | CreateJob(job: JobId, user: UserId, app: AppId, now: Time)
    | Connect(launcher: LauncherId, row: Launcher)
    | Register(launcher: LauncherId)
    | Receive(launcher: LauncherId, msg: Message)
    | ReceiveResetDone(launcher: LauncherId)
    | ApplyMessage(launcher: LauncherId, now: Time)
    | FinishMessage(launcher: LauncherId)
    | ClearReset(launcher: LauncherId)
    | Drop(launcher: LauncherId)
    | Deregister(launcher: LauncherId)
    | FailDisconnected(launcher: LauncherId, now: Time)
    | ReadIdle
    | ClaimJob(job: JobId, launcher: LauncherId, now: Time)
    | ClaimNothing
    | MarkClaimed
    // Writes of kills, resets, failed deliveries, heartbeats, reconciliation, key revalidation and
    // expiry. Their tasks may be anywhere in their own code, so these steps are always enabled.
    | Kill(job: JobId, userFilter: Option<UserId>, launcherFilter: Option<LauncherId>, now: Time)
    | MarkResetting(launcher: LauncherId)
    | RemoveLauncher(launcher: LauncherId)
    | FailJob(job: JobId, launcher: LauncherId, state: JobState, now: Time)
    | FailLaunchers(launchers: set<LauncherId>, now: Time)
    | ExpireJobs(stale: set<JobId>, now: Time)
    | Heartbeat(launcher: LauncherId, status: LauncherStatus, now: Time)

  function Init(): State {
    State(Db(map[], map[]), map[], Free, map[])
  }

  predicate At(s: State, l: LauncherId, h: Handler) {
    l in s.handlers && s.handlers[l] == h
  }

  predicate Enabled(s: State, step: Step) {
    match step
    case CreateJob(j, _, _, _) => j !in s.db.jobs
    case Connect(l, row) => l !in s.db.launchers && row.status == Ready && !row.disconnected
    case Register(l) => At(s, l, Created)
    case Receive(l, _) => At(s, l, Listening)
    case ReceiveResetDone(l) => At(s, l, Listening)
    case ApplyMessage(l, _) => l in s.handlers && s.handlers[l].Matched? && l in s.db.launchers
    case FinishMessage(l) => l in s.handlers && s.handlers[l].Committed?
    case ClearReset(l) => At(s, l, ResetChecked)
    case Drop(l) => l in s.handlers && !s.handlers[l].Deregistered? && !s.handlers[l].Gone?
    case Deregister(l) => At(s, l, Closing)
    case FailDisconnected(l, _) => At(s, l, Deregistered)
    case ReadIdle => s.dispatcher == Free
    case ClaimJob(j, l, _) => s.dispatcher.Holding? && Claimable(s.db, s.dispatcher.idle, j, l)
    case ClaimNothing => s.dispatcher.Holding?
    case MarkClaimed => s.dispatcher.Claimed?
    case Kill(_, _, _, _) => s.dispatcher == Free
    case MarkResetting(l) => s.dispatcher == Free && l in s.registry && !s.registry[l].resetting
    case RemoveLauncher(_) => true
    case FailJob(_, _, state, _) => state == Failed || state == Cancelled
    case FailLaunchers(_, _) => true
    case ExpireJobs(stale, now) => forall j :: j in stale ==> j in s.db.jobs && Stale(s.db.jobs[j], now)
    case Heartbeat(_, _, _) => true
  }

  function Move(s: State, l: LauncherId, h: Handler): State {
    s.(handlers := s.handlers[l := h])
  }

  function Apply(s: State, step: Step): State
    requires Enabled(s, step)
  {
    match step
    case CreateJob(j, user, app, now) => s.(db := s.db.(jobs := s.db.jobs[j := NewJob(user, app, now)]))
    case Connect(l, row) => Move(s.(db := s.db.(launchers := s.db.launchers[l := row])), l, Created)
    case Register(l) => Move(s.(registry := Registered(s.registry, l)), l, Listening)
    case Receive(l, m) => Move(s, l, if Matches(s.registry, l, m.job) then Matched(m) else Closing)
    case ReceiveResetDone(l) =>
      Move(s, l, if l in s.registry && s.registry[l].resetting && s.registry[l].currentJob == None
           then ResetChecked else Closing)
    case ApplyMessage(l, now) =>
      var m := s.handlers[l].msg;
      (match UpdateLauncherJob(s.db, l, s.db.launchers[l].user, m, now)
       case None => Move(s, l, Closing)
       case Some(db) => Move(s.(db := db), l, Committed(m)))
    case FinishMessage(l) =>
      var m := s.handlers[l].msg;
      Move(if Final(m) then s.(registry := Marked(s.registry, l, None)) else s, l, Listening)
    case ClearReset(l) => Move(s.(registry := Cleared(s.registry, l)), l, Listening)
    case Drop(l) => Move(s, l, Closing)
    case Deregister(l) => Move(s.(registry := Removed(s.registry, l)), l, Deregistered)
    case FailDisconnected(l, now) => Move(s.(db := DisconnectLaunchers(s.db, {l}, now)), l, Gone)
    case ReadIdle => s.(dispatcher := if Idle(s.registry) == {} then Free else Holding(Idle(s.registry)))
    case ClaimJob(j, l, now) => s.(db := Claim(s.db, j, l, now), dispatcher := Claimed(j, l))
    case ClaimNothing => s.(dispatcher := Free)
    case MarkClaimed =>
      s.(registry := Marked(s.registry, s.dispatcher.launcher, Some(s.dispatcher.job)), dispatcher := Free)
    case Kill(j, user, l, now) => s.(db := RequestKill(s.db, j, user, l, now))
    case MarkResetting(l) => s.(registry := Resetting(s.registry, l))
    case RemoveLauncher(l) => s.(registry := Removed(s.registry, l))
    case FailJob(j, l, state, now) => s.(db := FailAssigned(s.db, j, l, state, now))
    case FailLaunchers(ids, now) => s.(db := DisconnectLaunchers(s.db, ids, now))
    case ExpireJobs(stale, now) => s.(db := Expire(s.db, stale, now))
    case Heartbeat(l, status, now) => s.(db := Beat(s.db, l, status, now))
  }

  // --- What every step keeps ---

  /** A launcher has at most one active job. */
  ghost predicate OneActiveJob(s: State) {
    forall i: JobId, j: JobId, l: LauncherId :: ActiveOn(s.db, i, l) && ActiveOn(s.db, j, l) ==> i == j
  }

  /** An active job of a registered launcher is its current job, except between claim and mark. */
  ghost predicate ActiveIsCurrent(s: State) {
    forall j: JobId, l: LauncherId :: ActiveOn(s.db, j, l) && l in s.registry ==>
      s.registry[l].currentJob == Some(j) || s.dispatcher == Claimed(j, l)
  }

  /** The launcher has been in the registry at some time. */
  predicate Introduced(s: State, l: LauncherId) {
    l in s.handlers && s.handlers[l] != Created
  }

  ghost predicate RowsSane(s: State) {
    && s.handlers.Keys == s.db.launchers.Keys
    && (forall j: JobId :: j in s.db.jobs ==> JobSane(s, s.db.jobs[j]))
    && (forall l: LauncherId :: l in s.registry ==> Introduced(s, l))
  }

  ghost predicate JobSane(s: State, job: Job) {
    && (job.state == Queued ==> job.launcher == None && job.attempts == 0)
    && (Active(job.state) ==> job.launcher.Some? && job.attempts == 1)
    && job.attempts <= 1
    && (job.launcher.Some? ==> Introduced(s, job.launcher.value))
  }

  predicate Unassigned(s: State, l: LauncherId) {
    l in s.registry ==> s.registry[l].currentJob == None && !s.registry[l].resetting
  }

  /** Every active job on `l`, if any, is `j`. */
  ghost predicate NoOtherActive(s: State, j: Option<JobId>, l: LauncherId) {
    forall i: JobId :: ActiveOn(s.db, i, l) ==> j == Some(i)
  }

  ghost predicate IdleSane(s: State, l: LauncherId) {
    Unassigned(s, l) && NoOtherActive(s, None, l) && Introduced(s, l)
  }

  ghost predicate DispatcherSane(s: State) {
    match s.dispatcher
    case Free => true
    case Holding(idle) => forall l: LauncherId :: l in idle ==> IdleSane(s, l)
    case Claimed(j, l) => Unassigned(s, l) && NoOtherActive(s, Some(j), l) && Introduced(s, l)
  }

  ghost predicate HandlerSane(s: State, l: LauncherId)
    requires l in s.handlers
  {
    match s.handlers[l]
    case Matched(m) => l in s.registry ==> s.registry[l].currentJob == Some(m.job)
    case Committed(m) =>
      && (l in s.registry ==> s.registry[l].currentJob == Some(m.job))
      && (Final(m) ==> m.job in s.db.jobs && Terminal(s.db.jobs[m.job].state))
    case ResetChecked => l in s.registry ==> s.registry[l].resetting && s.registry[l].currentJob == None
    case _ => true
  }

  ghost predicate HandlersSane(s: State) {
    forall l: LauncherId :: l in s.handlers ==> HandlerSane(s, l)
  }

  ghost predicate Inv(s: State) {
    OneActiveJob(s) && ActiveIsCurrent(s) && RowsSane(s) && DispatcherSane(s) && HandlersSane(s)
  }

  lemma InitInv()
    ensures Inv(Init())
  {
  }

  // --- Steps that write rows only ---

  /** A database write that creates no active job and rewrites no ended one. */
  ghost predicate Retires(before: Db, after: Db) {
    && before.jobs.Keys <= after.jobs.Keys
    && before.launchers.Keys <= after.launchers.Keys
    && (forall j: JobId, l: LauncherId :: ActiveOn(after, j, l) ==> ActiveOn(before, j, l))
    && (forall j: JobId :: j in before.jobs && Terminal(before.jobs[j].state) ==> after.jobs[j] == before.jobs[j])
  }

  /** One row's part of it: a legal move that is not a claim. */
  predicate RowRetires(before: Job, after: Job) {
    && after.launcher == before.launcher && after.attempts == before.attempts
    && after.user == before.user && after.app == before.app
    && LegalMove(before.state, after.state) && !(before.state == Queued && after.state == Assigned)
    && (Terminal(before.state) ==> after == before)
    && (before.answered ==> after.answered) && before.progress <= after.progress
  }

  ghost predicate RowsRetire(before: Db, after: Db) {
    && before.jobs.Keys == after.jobs.Keys && before.launchers.Keys == after.launchers.Keys
    && (forall j: JobId :: j in before.jobs ==> RowRetires(before.jobs[j], after.jobs[j]))
    && (forall l: LauncherId ::
        l in before.launchers && before.launchers[l].disconnected ==> after.launchers[l].disconnected)
  }

  lemma RowsRetireRetires(before: Db, after: Db)
    requires RowsRetire(before, after)
    ensures Retires(before, after)
  {
  }

  lemma RetiringKeepsInv(s: State, db: Db)
    requires Inv(s) && RowsRetire(s.db, db)
    ensures Inv(s.(db := db))
  {
    var t := s.(db := db);
    RowsRetireRetires(s.db, db);
    RetiringRows(s, db);
    RetiringJobs(s, db);
  }

  lemma RetiringRows(s: State, db: Db)
    requires RowsSane(s) && RowsRetire(s.db, db)
    ensures RowsSane(s.(db := db))
  {
  }

  lemma RetiringJobs(s: State, db: Db)
    requires Inv(s) && Retires(s.db, db)
    ensures var t := s.(db := db); OneActiveJob(t) && ActiveIsCurrent(t) && DispatcherSane(t) && HandlersSane(t)
  {
  }

  lemma KillRetires(db: Db, j: JobId, user: Option<UserId>, l: Option<LauncherId>, now: Time)
    ensures RowsRetire(db, RequestKill(db, j, user, l, now))
  {
  }

  lemma FailRetires(db: Db, j: JobId, l: LauncherId, state: JobState, now: Time)
    requires state == Failed || state == Cancelled
    ensures RowsRetire(db, FailAssigned(db, j, l, state, now))
  {
  }

  lemma DisconnectRetires(db: Db, ids: set<LauncherId>, now: Time)
    ensures RowsRetire(db, DisconnectLaunchers(db, ids, now))
  {
  }

  lemma ExpireRetires(db: Db, stale: set<JobId>, now: Time)
    ensures RowsRetire(db, Expire(db, stale, now))
  {
  }

  lemma HeartbeatRetires(db: Db, l: LauncherId, status: LauncherStatus, now: Time)
    ensures RowsRetire(db, Beat(db, l, status, now))
  {
  }

  lemma UpdateRetires(db: Db, l: LauncherId, user: UserId, m: Message, now: Time)
    requires UpdateLauncherJob(db, l, user, m, now).Some?
    ensures var after := UpdateLauncherJob(db, l, user, m, now).value;
      && RowsRetire(db, after)
      && (Final(m) ==> m.job in after.jobs && Terminal(after.jobs[m.job].state))
  {
  }

  // --- Steps of a connection handler ---

  // A handler that moves on without touching anything else.
  lemma MoveKeepsInv(s: State, l: LauncherId, h: Handler)
    requires Inv(s) && l in s.handlers && h != Created && HandlerSane(Move(s, l, h), l)
    ensures Inv(Move(s, l, h))
  {
  }

  // Dropping the assignment of a launcher whose current job has ended, or that has none.
  lemma ReleasedKeepsInv(s: State, l: LauncherId, runtime: LauncherRuntime)
    requires Inv(s) && l in s.registry && Introduced(s, l)
    requires !s.handlers[l].Matched? && !s.handlers[l].Committed? && !s.handlers[l].ResetChecked?
    requires runtime.currentJob == None
    requires !s.registry[l].resetting ==> !runtime.resetting
    requires s.registry[l].currentJob.Some? ==> !exists x: LauncherId ::
      ActiveOn(s.db, s.registry[l].currentJob.value, x)
    ensures Inv(s.(registry := s.registry[l := runtime]))
  {
  }

  lemma RemovedKeepsInv(s: State, l: LauncherId)
    requires Inv(s)
    ensures Inv(s.(registry := Removed(s.registry, l)))
  {
  }

  lemma ConnectInv(s: State, l: LauncherId, row: Launcher)
    requires Inv(s) && Enabled(s, Connect(l, row))
    ensures Inv(Apply(s, Connect(l, row)))
  {
    var t := Apply(s, Connect(l, row));
    assert l !in s.handlers;
    assert forall j: JobId, x: LauncherId :: ActiveOn(t.db, j, x) == ActiveOn(s.db, j, x);
    assert forall x: LauncherId :: Introduced(s, x) ==> Introduced(t, x);
    forall j: JobId | j in t.db.jobs ensures JobSane(t, t.db.jobs[j]) {
      assert JobSane(s, s.db.jobs[j]);
    }
    forall x: LauncherId | x in t.handlers ensures HandlerSane(t, x) {
      if x != l {
        assert HandlerSane(s, x);
      }
    }
    if t.dispatcher.Holding? {
      forall x: LauncherId | x in t.dispatcher.idle ensures IdleSane(t, x) {
        assert IdleSane(s, x);
      }
    }
  }

  lemma RegisterInv(s: State, l: LauncherId)
    requires Inv(s) && Enabled(s, Register(l))
    ensures Inv(Apply(s, Register(l)))
  {
    var t := Apply(s, Register(l));
    assert forall x: LauncherId :: Introduced(s, x) ==> Introduced(t, x);
    forall j: JobId | j in t.db.jobs ensures JobSane(t, t.db.jobs[j]) {
      assert JobSane(s, s.db.jobs[j]);
    }
    forall j: JobId, x: LauncherId | ActiveOn(t.db, j, x) && x in t.registry
      ensures t.registry[x].currentJob == Some(j) || t.dispatcher == Claimed(j, x)
    {
      assert JobSane(s, s.db.jobs[j]);
      assert ActiveOn(s.db, j, x) && x != l;
    }
    forall x: LauncherId | x in t.handlers ensures HandlerSane(t, x) {
      assert HandlerSane(s, x);
    }
    if t.dispatcher.Holding? {
      forall x: LauncherId | x in t.dispatcher.idle ensures IdleSane(t, x) {
        assert IdleSane(s, x);
      }
    }
  }

  lemma ApplyMessageInv(s: State, l: LauncherId, now: Time)
    requires Inv(s) && Enabled(s, ApplyMessage(l, now))
    ensures Inv(Apply(s, ApplyMessage(l, now)))
  {
    var m := s.handlers[l].msg;
    var outcome := UpdateLauncherJob(s.db, l, s.db.launchers[l].user, m, now);
    assert HandlerSane(s, l);
    if outcome.Some? {
      UpdateRetires(s.db, l, s.db.launchers[l].user, m, now);
      RetiringKeepsInv(s, outcome.value);
      MoveKeepsInv(s.(db := outcome.value), l, Committed(m));
    } else {
      MoveKeepsInv(s, l, Closing);
    }
  }

  // The registry entry is freed only once its job has ended.
  lemma FinishMessageInv(s: State, l: LauncherId)
    requires Inv(s) && Enabled(s, FinishMessage(l))
    ensures Inv(Apply(s, FinishMessage(l)))
  {
    var m := s.handlers[l].msg;
    assert HandlerSane(s, l);
    MoveKeepsInv(s, l, Listening);
    if Final(m) && l in s.registry {
      ReleasedKeepsInv(Move(s, l, Listening), l, s.registry[l].(currentJob := None));
    }
  }

  lemma ClearResetInv(s: State, l: LauncherId)
    requires Inv(s) && Enabled(s, ClearReset(l))
    ensures Inv(Apply(s, ClearReset(l)))
  {
    assert HandlerSane(s, l);
    MoveKeepsInv(s, l, Listening);
    if l in s.registry {
      ReleasedKeepsInv(Move(s, l, Listening), l, LauncherRuntime(None, false));
    }
  }

  lemma HandlerStepInv(s: State, step: Step)
    requires Inv(s) && Enabled(s, step)
    requires step.Receive? || step.ReceiveResetDone? || step.Drop? || step.Deregister? || step.FailDisconnected?
    ensures Inv(Apply(s, step))
  {
    match step
    case Receive(l, m) => MoveKeepsInv(s, l, if Matches(s.registry, l, m.job) then Matched(m) else Closing);
    case ReceiveResetDone(l) => MoveKeepsInv(s, l, Apply(s, step).handlers[l]);
    case Drop(l) => MoveKeepsInv(s, l, Closing);
    case Deregister(l) =>
      MoveKeepsInv(s, l, Deregistered);
      RemovedKeepsInv(Move(s, l, Deregistered), l);
    case FailDisconnected(l, now) =>
      DisconnectRetires(s.db, {l}, now);
      RetiringKeepsInv(s, DisconnectLaunchers(s.db, {l}, now));
      MoveKeepsInv(s.(db := DisconnectLaunchers(s.db, {l}, now)), l, Gone);
  }

  // --- Steps of the dispatcher ---

  lemma ReadIdleInv(s: State)
    requires Inv(s) && Enabled(s, ReadIdle)
    ensures Inv(Apply(s, ReadIdle))
  {
  }

  lemma ClaimJobInv(s: State, j: JobId, l: LauncherId, now: Time)
    requires Inv(s) && Enabled(s, ClaimJob(j, l, now))
    ensures Inv(Apply(s, ClaimJob(j, l, now)))
  {
    var t := Apply(s, ClaimJob(j, l, now));
    assert IdleSane(s, l) && JobSane(s, s.db.jobs[j]);
    assert forall i: JobId, x: LauncherId :: ActiveOn(t.db, i, x) <==> ActiveOn(s.db, i, x) || (i == j && x == l);
    forall i: JobId | i in t.db.jobs ensures JobSane(t, t.db.jobs[i]) {
      assert JobSane(s, s.db.jobs[i]);
    }
    forall x: LauncherId | x in t.registry ensures Introduced(t, x) {
      assert Introduced(s, x);
    }
    forall x: LauncherId | x in t.handlers ensures HandlerSane(t, x) {
      assert HandlerSane(s, x);
    }
  }

  lemma MarkClaimedInv(s: State)
    requires Inv(s) && Enabled(s, MarkClaimed)
    ensures Inv(Apply(s, MarkClaimed))
  {
  }

  lemma MarkResettingInv(s: State, l: LauncherId)
    requires Inv(s) && Enabled(s, MarkResetting(l))
    ensures Inv(Apply(s, MarkResetting(l)))
  {
  }

  lemma CreateJobInv(s: State, step: Step)
    requires Inv(s) && step.CreateJob? && Enabled(s, step)
    ensures Inv(Apply(s, step))
  {
    var t := Apply(s, step);
    assert forall i: JobId, x: LauncherId :: ActiveOn(t.db, i, x) == ActiveOn(s.db, i, x);
    forall j: JobId | j in t.db.jobs ensures JobSane(t, t.db.jobs[j]) {
      if j != step.job {
        assert JobSane(s, s.db.jobs[j]);
      }
    }
    forall x: LauncherId | x in t.registry ensures Introduced(t, x) {
      assert Introduced(s, x);
    }
    forall x: LauncherId | x in t.handlers ensures HandlerSane(t, x) {
      assert HandlerSane(s, x);
    }
    if t.dispatcher.Holding? {
      forall x: LauncherId | x in t.dispatcher.idle ensures IdleSane(t, x) {
        assert IdleSane(s, x);
      }
    }
  }

  /** Every step of every task keeps the invariant. */
  lemma StepInv(s: State, step: Step)
    requires Inv(s) && Enabled(s, step)
    ensures Inv(Apply(s, step))
  {
    hide Inv;
    match step
    case CreateJob(_, _, _, _) => CreateJobInv(s, step);
    case Connect(l, row) => ConnectInv(s, l, row);
    case Register(l) => RegisterInv(s, l);
    case ApplyMessage(l, now) => ApplyMessageInv(s, l, now);
    case FinishMessage(l) => FinishMessageInv(s, l);
    case ClearReset(l) => ClearResetInv(s, l);
    case ReadIdle => ReadIdleInv(s);
    case ClaimJob(j, l, now) => ClaimJobInv(s, j, l, now);
    case ClaimNothing => ClaimNothingInv(s);
    case MarkClaimed => MarkClaimedInv(s);
    case Kill(j, user, l, now) => KillRetires(s.db, j, user, l, now); RetiringKeepsInv(s, Apply(s, step).db);
    case MarkResetting(l) => MarkResettingInv(s, l);
    case RemoveLauncher(l) => RemovedKeepsInv(s, l);
    case FailJob(j, l, state, now) => FailRetires(s.db, j, l, state, now); RetiringKeepsInv(s, Apply(s, step).db);
    case FailLaunchers(ids, now) => DisconnectRetires(s.db, ids, now); RetiringKeepsInv(s, Apply(s, step).db);
    case ExpireJobs(stale, now) => ExpireRetires(s.db, stale, now); RetiringKeepsInv(s, Apply(s, step).db);
    case Heartbeat(l, status, now) => HeartbeatRetires(s.db, l, status, now); RetiringKeepsInv(s, Apply(s, step).db);
    case _ => HandlerStepInv(s, step);
  }

  lemma ClaimNothingInv(s: State)
    requires Inv(s) && Enabled(s, ClaimNothing)
    ensures Inv(Apply(s, ClaimNothing))
  {
  }
}
