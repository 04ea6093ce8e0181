/** The job and launcher rows of the server's database and the writes JobService makes to them. */
module JobRecords {
  import opened Options

  type JobId = nat
  type LauncherId = nat
  type UserId = nat
  type AppId = nat
  // Seconds.
  type Time = int

  datatype JobState = Queued | Assigned | AnswerReady | Running | Succeeded | Failed | Cancelled | Killed

  predicate Active(s: JobState) { s in {Assigned, AnswerReady, Running} }

  predicate Terminal(s: JobState) { s in {Succeeded, Failed, Cancelled, Killed} }

  /** The moves the database states can make in one step. */
  predicate LegalMove(before: JobState, after: JobState) {
    after == before ||
    match before
    case Queued => after in {Assigned, Killed, Failed}
    case Assigned => after in {AnswerReady, Failed, Cancelled}
    case AnswerReady => after in {Running, Failed, Cancelled}
    case Running => after in {Succeeded, Failed, Cancelled}
    case _ => false
  }

  const PROGRESS_MAX_ITEMS: nat := 1000

  datatype Job = Job(
    user: UserId,
    app: AppId,
    state: JobState,
    launcher: Option<LauncherId>,
    answered: bool,
    attempts: nat,
    progress: nat,
    cancelRequested: bool,
    created: Time,
    updated: Time
  )

  datatype LauncherStatus = Ready | Busy | Disconnected

  datatype Launcher = Launcher(
    user: UserId,
    apps: set<AppId>,
    status: LauncherStatus,
    disconnected: bool,
    connected: Time,
    lastHeartbeat: Time
  )

  datatype Db = Db(jobs: map<JobId, Job>, launchers: map<LauncherId, Launcher>)

  /** `job` occupies launcher `l`: it is assigned to it and in an active state. */
  predicate ActiveOn(db: Db, j: JobId, l: LauncherId) {
    j in db.jobs && Active(db.jobs[j].state) && db.jobs[j].launcher == Some(l)
  }

  /** The job has an answer or has ended: what a waiting client is waiting for. */
  predicate Settled(job: Job) {
    job.answered || Terminal(job.state)
  }

  function NewJob(user: UserId, app: AppId, now: Time): Job {
    Job(user, app, Queued, None, false, 0, 0, false, now, now)
  }

  /** The pairs `claim_next_compatible_job` may select. */
  predicate Claimable(db: Db, idle: set<LauncherId>, j: JobId, l: LauncherId) {
    && j in db.jobs && l in db.launchers && l in idle
    && db.jobs[j].state == Queued
    && db.launchers[l].user == db.jobs[j].user && db.jobs[j].app in db.launchers[l].apps
    && !db.launchers[l].disconnected && db.launchers[l].status == Ready
  }

  /** The order of `claim_next_compatible_job`: the oldest job first, and for it the launcher heard of
      last, then the one connected longest. */
  predicate Precedes(db: Db, a: (JobId, LauncherId), b: (JobId, LauncherId))
    requires a.0 in db.jobs && a.1 in db.launchers && b.0 in db.jobs && b.1 in db.launchers
  {
    var j, k, l, m := db.jobs[a.0], db.jobs[b.0], db.launchers[a.1], db.launchers[b.1];
    if j.created != k.created then j.created < k.created
    else if a.0 != b.0 then a.0 < b.0
    else if l.lastHeartbeat != m.lastHeartbeat then l.lastHeartbeat > m.lastHeartbeat
    else if l.connected != m.connected then l.connected < m.connected
    else a.1 < b.1
  }

  /** A claimable pair that no other claimable pair precedes. */
  ghost predicate NextPair(db: Db, idle: set<LauncherId>, a: (JobId, LauncherId)) {
    && Claimable(db, idle, a.0, a.1)
    && forall j: JobId, l: LauncherId :: Claimable(db, idle, j, l) ==> !Precedes(db, (j, l), a)
  }

  /** The rows a query that skips locked rows sees. */
  function Unlocked(db: Db, lockedJobs: set<JobId>, lockedLaunchers: set<LauncherId>): Db {
    Db(db.jobs - lockedJobs, db.launchers - lockedLaunchers)
  }

  function Claim(db: Db, j: JobId, l: LauncherId, now: Time): Db
    requires j in db.jobs && l in db.launchers
  {
    var job := db.jobs[j];
    Db(db.jobs[j := job.(launcher := Some(l), state := Assigned, attempts := job.attempts + 1, updated := now)],
       db.launchers[l := db.launchers[l].(status := Busy)])
  }

  function SetStatus(db: Db, l: LauncherId, status: LauncherStatus): Db {
    if l in db.launchers then db.(launchers := db.launchers[l := db.launchers[l].(status := status)]) else db
  }

  function Beat(db: Db, l: LauncherId, status: LauncherStatus, now: Time): Db {
    if l in db.launchers
      then db.(launchers := db.launchers[l := db.launchers[l].(status := status, lastHeartbeat := now)]) else db
  }

  // Launchers that are marked disconnected are not released.
  function Release(db: Db, l: LauncherId): Db {
    if l in db.launchers && !db.launchers[l].disconnected then SetStatus(db, l, Ready) else db
  }

  datatype Message = Answer(job: JobId) | RunningNow(job: JobId) | Progress(job: JobId)
                   | Result(job: JobId) | Error(job: JobId) | CancelledNow(job: JobId)

  predicate Final(m: Message) { m.Result? || m.Error? || m.CancelledNow? }

  /** The states in which a message is accepted. */
  predicate Expects(m: Message, job: Job) {
    match m
    case Answer(_) => job.state == Assigned
    case RunningNow(_) => job.state == AnswerReady
    case Progress(_) => job.state == Running && job.progress < PROGRESS_MAX_ITEMS
    case Result(_) => job.state == Running
    case Error(_) => Active(job.state)
    case CancelledNow(_) => Active(job.state)
  }

  function Written(m: Message, job: Job): Job {
    match m
    case Answer(_) => job.(answered := true, state := AnswerReady)
    case RunningNow(_) => job.(state := Running)
    case Progress(_) => job.(progress := job.progress + 1)
    case Result(_) => job.(state := Succeeded)
    case Error(_) => job.(state := Failed)
    case CancelledNow(_) => job.(state := Cancelled)
  }

  /** `_update_launcher_job`: the write of a launcher message, refused on any mismatch. */
  function UpdateLauncherJob(db: Db, l: LauncherId, user: UserId, m: Message, now: Time): Option<Db> {
    if && m.job in db.jobs && db.jobs[m.job].launcher == Some(l) && db.jobs[m.job].user == user
       && Expects(m, db.jobs[m.job])
    then
      var updated := db.(jobs := db.jobs[m.job := Written(m, db.jobs[m.job]).(updated := now)]);
      Some(if Final(m) && l in db.launchers && db.launchers[l].user == user then Release(updated, l) else updated)
    else None
  }

  /** The rows a kill may name: those of the user and the launcher it asks for. */
  predicate Killable(db: Db, j: JobId, user: Option<UserId>, l: Option<LauncherId>) {
    j in db.jobs && (user.Some? ==> db.jobs[j].user == user.value) && (l.Some? ==> db.jobs[j].launcher == l)
  }

  /** `request_kill`: a queued job dies at once, an active one is only asked to stop. */
  function RequestKill(db: Db, j: JobId, user: Option<UserId>, l: Option<LauncherId>, now: Time): Db {
    if !Killable(db, j, user, l) then db
    else
      var job := db.jobs[j];
      if Terminal(job.state) then db
      else
        var asked := job.(cancelRequested := true, updated := now);
        db.(jobs := db.jobs[j := if job.state == Queued then asked.(state := Killed) else asked])
  }

  /** `fail_assigned_job`. */
  function FailAssigned(db: Db, j: JobId, l: LauncherId, state: JobState, now: Time): Db {
    if ActiveOn(db, j, l)
      then Release(db.(jobs := db.jobs[j := db.jobs[j].(state := state, updated := now)]), l) else db
  }

  /** `disconnect_launchers_and_fail_jobs`. */
  function DisconnectLaunchers(db: Db, ids: set<LauncherId>, now: Time): Db {
    Db(map j | j in db.jobs :: var job := db.jobs[j];
         if job.launcher.Some? && job.launcher.value in ids && Active(job.state)
           then job.(state := Failed, updated := now) else job,
       map l | l in db.launchers ::
         if l in ids then db.launchers[l].(status := Disconnected, disconnected := true) else db.launchers[l])
  }

  const JOB_MAX_LIFETIME: Time := 24 * 60 * 60
  const JOB_IDLE_TIMEOUT: Time := 2 * 60 * 60

  /** The age limits: of the whole life of an open job, and of the silence of an active one. */
  predicate Stale(job: Job, now: Time) {
    || (job.state == Queued && job.created < now - JOB_MAX_LIFETIME)
    || (Active(job.state) && (job.created < now - JOB_MAX_LIFETIME || job.updated < now - JOB_IDLE_TIMEOUT))
  }

  /** The writes of `expire_stale_jobs` to the rows it found stale and could lock. */
  function Expire(db: Db, stale: set<JobId>, now: Time): Db {
    Db(map j | j in db.jobs :: var job := db.jobs[j];
         if j in stale && !Terminal(job.state) then job.(state := Failed, updated := now) else job,
       map l | l in db.launchers :: var row := db.launchers[l];
         if !row.disconnected
            && (exists j :: && j in stale && j in db.jobs && !Terminal(db.jobs[j].state)
                            && db.jobs[j].launcher == Some(l))
         then row.(status := Ready) else row)
  }
}
