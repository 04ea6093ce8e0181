/** What the job protocol guarantees over whole runs, from an empty server on. */
module JobRuns {
  import opened Options
  import opened JobRecords
  import opened JobProtocol

  /** `steps`, taken from `s` one after the other, all enabled, lead to `t`. */
  ghost predicate Run(s: State, steps: seq<Step>, t: State)
    decreases |steps|
  {
    if steps == [] then s == t
    else Enabled(s, steps[0]) && Run(Apply(s, steps[0]), steps[1..], t)
  }

  lemma {:induction false} RunInv(s: State, steps: seq<Step>, t: State)
    requires Inv(s) && Run(s, steps, t)
    ensures Inv(t)
    decreases |steps|
  {
    if steps != [] {
      StepInv(s, steps[0]);
      RunInv(Apply(s, steps[0]), steps[1..], t);
    }
  }

  /** In every interleaving a launcher has at most one active job, and an active job of a registered
      launcher is that launcher's current job, outside the locked window between claim and mark. */
  lemma AssignmentsAgree(steps: seq<Step>, t: State)
    requires Run(Init(), steps, t)
    ensures forall i: JobId, j: JobId, l: LauncherId :: ActiveOn(t.db, i, l) && ActiveOn(t.db, j, l) ==> i == j
    ensures forall j: JobId, l: LauncherId :: ActiveOn(t.db, j, l) && l in t.registry && !t.dispatcher.Claimed? ==>
      t.registry[l].currentJob == Some(j)
  {
    InitInv();
    RunInv(Init(), steps, t);
  }

  // --- The life of one job ---

  function Stage(state: JobState): nat {
    match state
    case Queued => 0
    case Assigned => 1
    case AnswerReady => 2
    case Running => 3
    case _ => 4
  }

  /** What may happen to a row in one step: an ended row is never touched again, a row moves only
      forward, and it gets or changes its launcher only when it leaves the queue. */
  ghost predicate Advances(before: Job, after: Job) {
    && (Terminal(before.state) ==> after == before)
    && Stage(before.state) <= Stage(after.state)
    && after.user == before.user && after.app == before.app
    && (before.state != Queued ==> after.launcher == before.launcher && after.attempts == before.attempts)
    && (before.answered ==> after.answered)
    && before.progress <= after.progress
  }

  lemma StepAdvances(s: State, step: Step, j: JobId)
    requires Inv(s) && Enabled(s, step) && j in s.db.jobs
    ensures j in Apply(s, step).db.jobs && Advances(s.db.jobs[j], Apply(s, step).db.jobs[j])
    ensures LegalMove(s.db.jobs[j].state, Apply(s, step).db.jobs[j].state)
  {
    hide Inv, RowsRetire, RequestKill, FailAssigned, DisconnectLaunchers, Expire, UpdateLauncherJob, RowRetires;
    var t := Apply(s, step);
    match step
    case Kill(k, user, l, now) => KillRetires(s.db, k, user, l, now); RowsRetireAdvances(s.db, t.db, j);
    case FailJob(k, l, state, now) => FailRetires(s.db, k, l, state, now); RowsRetireAdvances(s.db, t.db, j);
    case FailLaunchers(ids, now) => DisconnectRetires(s.db, ids, now); RowsRetireAdvances(s.db, t.db, j);
    case FailDisconnected(l, now) => DisconnectRetires(s.db, {l}, now); RowsRetireAdvances(s.db, t.db, j);
    case ExpireJobs(stale, now) => ExpireRetires(s.db, stale, now); RowsRetireAdvances(s.db, t.db, j);
    case ApplyMessage(l, now) =>
      if t.db != s.db {
        UpdateRetires(s.db, l, s.db.launchers[l].user, s.handlers[l].msg, now);
        RowsRetireAdvances(s.db, t.db, j);
      }
    case _ =>
  }

  lemma RowsRetireAdvances(before: Db, after: Db, j: JobId)
    requires RowsRetire(before, after) && j in before.jobs
    ensures j in after.jobs && Advances(before.jobs[j], after.jobs[j])
    ensures LegalMove(before.jobs[j].state, after.jobs[j].state)
  {
    assert RowRetires(before.jobs[j], after.jobs[j]);
  }

  lemma {:induction false} RunAdvances(s: State, steps: seq<Step>, t: State, j: JobId)
    requires Inv(s) && Run(s, steps, t) && j in s.db.jobs
    ensures j in t.db.jobs && Advances(s.db.jobs[j], t.db.jobs[j])
    decreases |steps|
  {
    if steps != [] {
      StepInv(s, steps[0]);
      StepAdvances(s, steps[0], j);
      RunAdvances(Apply(s, steps[0]), steps[1..], t, j);
    }
  }

  /** An ended job keeps its record in every later state. */
  lemma EndedForGood(before: seq<Step>, s: State, after: seq<Step>, t: State, j: JobId)
    requires Run(Init(), before, s) && Run(s, after, t)
    requires j in s.db.jobs && Terminal(s.db.jobs[j].state)
    ensures j in t.db.jobs && t.db.jobs[j] == s.db.jobs[j]
  {
    InitInv();
    RunInv(Init(), before, s);
    RunAdvances(s, after, t, j);
  }

  /** How often `j` is claimed along a run. */
  function Claims(steps: seq<Step>, j: JobId): nat {
    if steps == [] then 0
    else (if steps[0].ClaimJob? && steps[0].job == j then 1 else 0) + Claims(steps[1..], j)
  }

  function Attempts(s: State, j: JobId): nat {
    if j in s.db.jobs then s.db.jobs[j].attempts else 0
  }

  lemma StepAttempts(s: State, step: Step, j: JobId)
    requires Inv(s) && Enabled(s, step)
    ensures Attempts(Apply(s, step), j) == Attempts(s, j) + Claims([step], j)
  {
    hide DispatcherSane, HandlersSane, ActiveIsCurrent, OneActiveJob;
    assert [step][1..] == [];
  }

  lemma {:induction false} ClaimsAreCounted(s: State, steps: seq<Step>, t: State, j: JobId)
    requires Inv(s) && Run(s, steps, t)
    ensures Attempts(t, j) == Attempts(s, j) + Claims(steps, j)
    decreases |steps|
  {
    if steps != [] {
      StepInv(s, steps[0]);
      StepAttempts(s, steps[0], j);
      assert [steps[0]][1..] == [];
      ClaimsAreCounted(Apply(s, steps[0]), steps[1..], t, j);
    }
  }

  /** No job is claimed twice, whatever else happens. */
  lemma ClaimedAtMostOnce(steps: seq<Step>, t: State, j: JobId)
    requires Run(Init(), steps, t)
    ensures Claims(steps, j) <= 1
    ensures Claims(steps, j) == Attempts(t, j)
  {
    InitInv();
    RunInv(Init(), steps, t);
    ClaimsAreCounted(Init(), steps, t, j);
    if j in t.db.jobs {
      assert JobSane(t, t.db.jobs[j]);
    }
  }

  // --- Launchers that have left ---

  /** Once the handler of a launcher is gone, its row is marked and none of its jobs is active. */
  ghost predicate NoneLeftBehind(s: State) {
    forall l: LauncherId ::
      At(s, l, Gone) ==> l in s.db.launchers && s.db.launchers[l].disconnected && NoOtherActive(s, None, l)
  }

  // A write that only retires jobs leaves nobody behind who was not.
  lemma RetiringLeavesNone(s: State, db: Db)
    requires NoneLeftBehind(s) && RowsRetire(s.db, db)
    ensures NoneLeftBehind(s.(db := db))
  {
    RowsRetireRetires(s.db, db);
    hide RowsRetire;
    assert forall l: LauncherId ::
      l in s.db.launchers && s.db.launchers[l].disconnected ==> db.launchers[l].disconnected by {
      assert RowsRetire(s.db, db);
      DisconnectedStays(s.db, db);
    }
    forall l: LauncherId | At(s, l, Gone) ensures NoOtherActive(s.(db := db), None, l) {
      assert NoOtherActive(s, None, l);
    }
  }

  lemma DisconnectedStays(before: Db, after: Db)
    requires RowsRetire(before, after)
    ensures before.launchers.Keys == after.launchers.Keys
    ensures forall l: LauncherId ::
      l in before.launchers && before.launchers[l].disconnected ==> after.launchers[l].disconnected
  {
  }

  lemma DepartureLeavesNone(s: State, l: LauncherId, now: Time)
    requires NoneLeftBehind(s) && l in s.db.launchers && l in s.handlers
    ensures NoneLeftBehind(Move(s.(db := DisconnectLaunchers(s.db, {l}, now)), l, Gone))
  {
    DisconnectRetires(s.db, {l}, now);
    RetiringLeavesNone(s, DisconnectLaunchers(s.db, {l}, now));
  }

  lemma StepLeavesNone(s: State, step: Step)
    requires Inv(s) && NoneLeftBehind(s) && Enabled(s, step)
    ensures NoneLeftBehind(Apply(s, step))
  {
    hide Inv, RowsRetire, RequestKill, FailAssigned, DisconnectLaunchers, Expire, UpdateLauncherJob, Beat;
    RowsShape(s);
    match step
    case Kill(j, user, l, now) => KillRetires(s.db, j, user, l, now); RetiringLeavesNone(s, Apply(s, step).db);
    case FailJob(j, l, state, now) => FailRetires(s.db, j, l, state, now); RetiringLeavesNone(s, Apply(s, step).db);
    case FailLaunchers(ids, now) => DisconnectRetires(s.db, ids, now); RetiringLeavesNone(s, Apply(s, step).db);
    case ExpireJobs(stale, now) => ExpireRetires(s.db, stale, now); RetiringLeavesNone(s, Apply(s, step).db);
    case Heartbeat(l, status, now) => HeartbeatRetires(s.db, l, status, now); RetiringLeavesNone(s, Apply(s, step).db);
    case FailDisconnected(l, now) => DepartureLeavesNone(s, l, now);
    case ApplyMessage(l, now) =>
      if Apply(s, step).db != s.db {
        UpdateRetires(s.db, l, s.db.launchers[l].user, s.handlers[l].msg, now);
        RetiringLeavesNone(s, Apply(s, step).db);
      }
    case ClaimJob(_, _, _) => ClaimLeavesNone(s, step);
    case _ =>
  }

  // A claimed launcher has not departed.
  lemma ClaimLeavesNone(s: State, step: Step)
    requires NoneLeftBehind(s) && Enabled(s, step) && step.ClaimJob?
    ensures NoneLeftBehind(Apply(s, step))
  {
    var t := Apply(s, step);
    forall l: LauncherId | At(t, l, Gone)
      ensures l in t.db.launchers && t.db.launchers[l].disconnected && NoOtherActive(t, None, l)
    {
      assert NoOtherActive(s, None, l);
    }
  }

  lemma RowsShape(s: State)
    requires Inv(s)
    ensures s.handlers.Keys == s.db.launchers.Keys
  {
  }

  lemma {:induction false} RunLeavesNone(s: State, steps: seq<Step>, t: State)
    requires Inv(s) && NoneLeftBehind(s) && Run(s, steps, t)
    ensures NoneLeftBehind(t)
    decreases |steps|
  {
    if steps != [] {
      StepInv(s, steps[0]);
      StepLeavesNone(s, steps[0]);
      RunLeavesNone(Apply(s, steps[0]), steps[1..], t);
    }
  }

  /** No job stays active on a launcher whose connection has been torn down. */
  lemma DepartedLaunchersHoldNoJob(steps: seq<Step>, t: State, j: JobId, l: LauncherId)
    requires Run(Init(), steps, t) && At(t, l, Gone)
    ensures !ActiveOn(t.db, j, l)
  {
    InitInv();
    RunLeavesNone(Init(), steps, t);
    assert NoOtherActive(t, None, l);
  }
}
