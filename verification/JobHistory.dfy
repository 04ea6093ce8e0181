/** A job's row as the outcome of what happened to the job: in every run it can be read off the events that
    concerned it, and each final state has its own causes. */
module JobHistory {
  import opened Options
  import opened JobRecords
  import opened LauncherRegistry
  import opened JobProtocol
  import opened JobRuns
  import opened JobStore
  import opened JobEvents

  /** What can happen to a job. */
  datatype Mark =
    | Submitted
    | Taken            // claimed for a launcher
    | AnswerTaken
    | Started
    | Progressed
    | ResultTaken
    | ErrorTaken
    | CancelTaken
    | LauncherLost
    | DeliveryFailed
    | ResetCancelled
    | Expired
    | KilledInQueue
    | AskedToStop

  predicate OnItsLauncher(s: State, j: JobId, l: LauncherId) {
    j in s.db.jobs && s.db.jobs[j].launcher == Some(l)
  }

  predicate Busy(s: State, j: JobId) {
    j in s.db.jobs && s.db.jobs[j].state in {Assigned, AnswerReady, JobState.Running}
  }

  predicate InState(s: State, j: JobId, state: JobState) {
    j in s.db.jobs && s.db.jobs[j].state == state
  }

  /** What a message of launcher `l` does to the job it names, if the job is that launcher's and of the
      launcher's user, and in the state in which the message is due. */
  function MessageMark(s: State, l: LauncherId, m: Message): Option<Mark>
    requires l in s.db.launchers
  {
    var j := m.job;
    if !OnItsLauncher(s, j, l) || s.db.jobs[j].user != s.db.launchers[l].user then None
    else
      match m
      case Answer(_) => if InState(s, j, Assigned) then Some(AnswerTaken) else None
      case RunningNow(_) => if InState(s, j, AnswerReady) then Some(Started) else None
      case Progress(_) => if InState(s, j, JobState.Running) && s.db.jobs[j].progress < 1000
        then Some(Progressed) else None
      case Result(_) => if InState(s, j, JobState.Running) then Some(ResultTaken) else None
      case Error(_) => if Busy(s, j) then Some(ErrorTaken) else None
      case CancelledNow(_) => if Busy(s, j) then Some(CancelTaken) else None
  }

  /** What a step means for job `j`. */
  function MarkOf(s: State, step: Step, j: JobId): Option<Mark>
    requires Enabled(s, step)
  {
    match step
    case CreateJob(k, _, _, _) => if k == j then Some(Submitted) else None
    case ClaimJob(k, _, _) => if k == j then Some(Taken) else None
    case ApplyMessage(l, _) => if s.handlers[l].msg.job == j then MessageMark(s, l, s.handlers[l].msg) else None
    case FailDisconnected(l, _) => if Busy(s, j) && OnItsLauncher(s, j, l) then Some(LauncherLost) else None
    case FailLaunchers(ids, _) =>
      if Busy(s, j) && s.db.jobs[j].launcher.Some? && s.db.jobs[j].launcher.value in ids
        then Some(LauncherLost) else None
    case FailJob(k, l, state, _) =>
      if k != j || !Busy(s, j) || !OnItsLauncher(s, j, l) then None
      else if state == Failed then Some(DeliveryFailed) else Some(ResetCancelled)
    case ExpireJobs(stale, _) => if j in stale then Some(Expired) else None
    case Kill(k, user, l, _) =>
      if k != j || j !in s.db.jobs || (user.Some? && s.db.jobs[j].user != user.value)
         || (l.Some? && s.db.jobs[j].launcher != l) then None
      else if InState(s, j, Queued) then Some(KilledInQueue)
      else if Busy(s, j) then Some(AskedToStop) else None
    case _ => None
  }

  /** The state a mark puts the job in; None leaves it. */
  function StateOf(mark: Mark): Option<JobState> {
    match mark
    case Submitted => Some(Queued)
    case Taken => Some(Assigned)
    case AnswerTaken => Some(AnswerReady)
    case Started => Some(JobState.Running)
    case Progressed => None
    case ResultTaken => Some(Succeeded)
    case ErrorTaken => Some(Failed)
    case CancelTaken => Some(Cancelled)
    case LauncherLost => Some(Failed)
    case DeliveryFailed => Some(Failed)
    case ResetCancelled => Some(Cancelled)
    case Expired => Some(Failed)
    case KilledInQueue => Some(Killed)
    case AskedToStop => None
  }

  /** A row before and after something happened to its job at time `now`. */
  predicate Changed(before: Job, mark: Mark, now: Time, after: Job) {
    && after.state == (if StateOf(mark).Some? then StateOf(mark).value else before.state)
    && after.user == before.user && after.app == before.app && after.created == before.created
    && after.updated == now
    && after.answered == (before.answered || mark == AnswerTaken)
    && after.progress == before.progress + (if mark == Progressed then 1 else 0)
    && after.attempts == before.attempts + (if mark == Taken then 1 else 0)
    && after.cancelRequested == (before.cancelRequested || mark == KilledInQueue || mark == AskedToStop)
    && (mark != Taken ==> after.launcher == before.launcher)
  }

  predicate Fresh(row: Job) {
    && row.state == Queued && row.launcher == None && !row.answered && row.attempts == 0 && row.progress == 0
    && !row.cancelRequested && row.created == row.updated
  }

  /** A message of launcher `l` is written exactly if the job is that launcher's, of the same user, and in the
      state in which the message is due; then its row has the state the message stands for and no other row
      changes. */
  lemma AcceptedMessages(db: Db, l: LauncherId, user: UserId, m: Message, now: Time)
    ensures var written := UpdateLauncherJob(db, l, user, m, now);
      written.Some? <==>
        && m.job in db.jobs && db.jobs[m.job].launcher == Some(l) && db.jobs[m.job].user == user
        && match m
           case Answer(j) => db.jobs[j].state == Assigned
           case RunningNow(j) => db.jobs[j].state == AnswerReady
           case Progress(j) => db.jobs[j].state == JobState.Running && db.jobs[j].progress < 1000
           case Result(j) => db.jobs[j].state == JobState.Running
           case Error(j) => db.jobs[j].state in {Assigned, AnswerReady, JobState.Running}
           case CancelledNow(j) => db.jobs[j].state in {Assigned, AnswerReady, JobState.Running}
    ensures var written := UpdateLauncherJob(db, l, user, m, now);
      written.Some? ==>
        && m.job in db.jobs && written.value.jobs.Keys == db.jobs.Keys
        && (forall j: JobId :: j in db.jobs && j != m.job ==> written.value.jobs[j] == db.jobs[j])
        && var before, after := db.jobs[m.job], written.value.jobs[m.job];
          && (m.Answer? ==> after == before.(state := AnswerReady, answered := true, updated := now))
          && (m.RunningNow? ==> after == before.(state := JobState.Running, updated := now))
          && (m.Progress? ==> after == before.(progress := before.progress + 1, updated := now))
          && (m.Result? ==> after == before.(state := Succeeded, updated := now))
          && (m.Error? ==> after == before.(state := Failed, updated := now))
          && (m.CancelledNow? ==> after == before.(state := Cancelled, updated := now))
  {
  }

  /** The row of `j` before and after a step, told by what the step means for the job. */
  predicate MarkedRow(s: State, step: Step, j: JobId)
    requires Enabled(s, step)
  {
    var t, mark := Apply(s, step), MarkOf(s, step, j);
    match mark
    case None => if j in s.db.jobs then j in t.db.jobs && t.db.jobs[j] == s.db.jobs[j] else j !in t.db.jobs
    case Some(Submitted) => j !in s.db.jobs && j in t.db.jobs && Fresh(t.db.jobs[j])
    case Some(m) => j in s.db.jobs && j in t.db.jobs && Changed(s.db.jobs[j], m, step.now, t.db.jobs[j])
  }

  lemma MessageChanges(s: State, l: LauncherId, m: Message, now: Time)
    requires l in s.db.launchers
    ensures var written := UpdateLauncherJob(s.db, l, s.db.launchers[l].user, m, now);
      && (written.Some? <==> MessageMark(s, l, m).Some?)
      && (written.Some? ==>
            && m.job in s.db.jobs && m.job in written.value.jobs
            && MessageMark(s, l, m) != Some(Submitted)
            && Changed(s.db.jobs[m.job], MessageMark(s, l, m).value, now, written.value.jobs[m.job]))
  {
    AcceptedMessages(s.db, l, s.db.launchers[l].user, m, now);
    hide UpdateLauncherJob;
  }

  lemma MessageMarks(s: State, step: Step, j: JobId)
    requires Enabled(s, step) && step.ApplyMessage?
    ensures MarkedRow(s, step, j)
  {
    var l := step.launcher;
    AcceptedMessages(s.db, l, s.db.launchers[l].user, s.handlers[l].msg, step.now);
    MessageChanges(s, l, s.handlers[l].msg, step.now);
    hide UpdateLauncherJob, MessageMark, Changed;
  }

  lemma KillMarks(s: State, step: Step, j: JobId)
    requires Enabled(s, step) && step.Kill?
    ensures MarkedRow(s, step, j)
  {
  }

  lemma FailureMarks(s: State, step: Step, j: JobId)
    requires Enabled(s, step) && step.FailJob?
    ensures MarkedRow(s, step, j)
  {
  }

  lemma LossMarks(s: State, step: Step, j: JobId)
    requires Enabled(s, step) && (step.FailDisconnected? || step.FailLaunchers?)
    ensures MarkedRow(s, step, j)
  {
  }

  lemma ExpiryMarks(s: State, step: Step, j: JobId)
    requires Enabled(s, step) && step.ExpireJobs?
    ensures MarkedRow(s, step, j)
  {
  }

  /** Every step changes the row of a job exactly as what it means for the job says, and no other row; a claim
      gives the job its launcher. */
  lemma StepMarks(s: State, step: Step, j: JobId)
    requires Enabled(s, step)
    ensures MarkedRow(s, step, j)
    ensures step.ClaimJob? && step.job == j ==>
      j in Apply(s, step).db.jobs && Apply(s, step).db.jobs[j].launcher == Some(step.launcher)
  {
    if step.ApplyMessage? {
      MessageMarks(s, step, j);
    } else if step.Kill? {
      KillMarks(s, step, j);
    } else if step.FailJob? {
      FailureMarks(s, step, j);
    } else if step.FailDisconnected? || step.FailLaunchers? {
      LossMarks(s, step, j);
    } else if step.ExpireJobs? {
      ExpiryMarks(s, step, j);
    } else {
      hide RequestKill, FailAssigned, DisconnectLaunchers, Expire, UpdateLauncherJob, Stale;
    }
  }

  // --- Rows of launchers ---

  /** What happened to the job ended it and left its launcher idle. */
  predicate LeavesIdle(mark: Mark) {
    mark in {ResultTaken, ErrorTaken, CancelTaken, DeliveryFailed, ResetCancelled, Expired}
  }

  predicate Frees(s: State, step: Step, j: JobId, l: LauncherId)
    requires Enabled(s, step)
  {
    MarkOf(s, step, j).Some? && LeavesIdle(MarkOf(s, step, j).value) && OnItsLauncher(s, j, l)
  }

  /** Whether a step tears launcher `l` down. */
  predicate TearsDown(step: Step, l: LauncherId) {
    (step.FailDisconnected? && step.launcher == l) || (step.FailLaunchers? && l in step.launchers)
  }

  /** The row of a launcher before and after a step: ready again when its job has ended, busy from a claim on,
      disconnected for good when it is torn down, and its heartbeats kept. */
  ghost predicate LauncherRow(s: State, step: Step, l: LauncherId)
    requires Enabled(s, step)
  {
    var t := Apply(s, step);
    if l !in s.db.launchers then (l in t.db.launchers <==> step.Connect? && step.launcher == l)
    else
      var row := s.db.launchers[l];
      && l in t.db.launchers
      && t.db.launchers[l] ==
         if TearsDown(step, l) then row.(status := LauncherStatus.Disconnected, disconnected := true)
         else if step.Heartbeat? && step.launcher == l then row.(status := step.status, lastHeartbeat := step.now)
         else if step.ClaimJob? && step.launcher == l then row.(status := LauncherStatus.Busy)
         else if !row.disconnected && exists j: JobId :: Frees(s, step, j, l)
         then row.(status := LauncherStatus.Ready)
         else row
  }

  lemma MessageFrees(s: State, step: Step, l: LauncherId)
    requires Enabled(s, step) && step.ApplyMessage?
    ensures LauncherRow(s, step, l)
  {
    var j := s.handlers[step.launcher].msg.job;
    assert Frees(s, step, j, l) || forall i: JobId :: !Frees(s, step, i, l);
  }

  lemma FailureFrees(s: State, step: Step, l: LauncherId)
    requires Enabled(s, step) && step.FailJob?
    ensures LauncherRow(s, step, l)
  {
    assert Frees(s, step, step.job, l) || forall i: JobId :: !Frees(s, step, i, l);
  }

  lemma ExpiryFrees(s: State, step: Step, l: LauncherId)
    requires Enabled(s, step) && step.ExpireJobs?
    ensures LauncherRow(s, step, l)
  {
    var stale := step.stale;
    assert forall j: JobId :: j in stale ==> j in s.db.jobs && !Terminal(s.db.jobs[j].state);
    hide Stale, Terminal;
    assert forall j: JobId :: Frees(s, step, j, l) ==> j in stale && s.db.jobs[j].launcher == Some(l);
    if j: JobId :| j in stale && j in s.db.jobs && s.db.jobs[j].launcher == Some(l) {
      assert Frees(s, step, j, l);
    }
  }

  lemma LossOnLauncher(s: State, step: Step, l: LauncherId)
    requires Enabled(s, step) && (step.FailDisconnected? || step.FailLaunchers?)
    ensures LauncherRow(s, step, l)
  {
    assert forall j: JobId :: !Frees(s, step, j, l);
  }

  /** Every step changes the row of a launcher as its meaning for the launcher and its jobs says. */
  lemma StepOnLauncher(s: State, step: Step, l: LauncherId)
    requires Enabled(s, step)
    ensures LauncherRow(s, step, l)
  {
    if step.ApplyMessage? {
      MessageFrees(s, step, l);
    } else if step.FailJob? {
      FailureFrees(s, step, l);
    } else if step.ExpireJobs? {
      ExpiryFrees(s, step, l);
    } else if step.FailDisconnected? || step.FailLaunchers? {
      LossOnLauncher(s, step, l);
    } else {
      hide FailAssigned, Expire, UpdateLauncherJob, Stale, RequestKill, Claimable, MessageMark, NewJob,
        DisconnectLaunchers;
      assert forall j: JobId :: !Frees(s, step, j, l);
    }
  }

  // --- Whole runs ---

  function Listed(mark: Option<Mark>): seq<Mark> {
    match mark
    case None => []
    case Some(m) => [m]
  }

  /** What happened to job `j` along a run. */
  ghost function History(s: State, steps: seq<Step>, t: State, j: JobId): seq<Mark>
    requires Run(s, steps, t)
    decreases |steps|
  {
    if steps == [] then [] else Listed(MarkOf(s, steps[0], j)) + History(Apply(s, steps[0]), steps[1..], t, j)
  }

  function Count(h: seq<Mark>, mark: Mark): nat {
    if h == [] then 0 else Count(h[..|h| - 1], mark) + if h[|h| - 1] == mark then 1 else 0
  }

  predicate FailureCause(mark: Mark) {
    mark == ErrorTaken || mark == LauncherLost || mark == DeliveryFailed || mark == Expired
  }

  /** The row tells what has happened. */
  predicate Tells(row: Job, h: seq<Mark>) {
    && (row.state == Succeeded <==> ResultTaken in h)
    && (row.state == Failed <==> exists m :: m in h && FailureCause(m))
    && (row.state == Cancelled <==> CancelTaken in h || ResetCancelled in h)
    && (row.state == Killed <==> KilledInQueue in h)
    && (row.answered <==> AnswerTaken in h)
    && row.progress == Count(h, Progressed) <= 1000
    && row.attempts == Count(h, Taken)
    && (row.cancelRequested <==> AskedToStop in h || KilledInQueue in h)
  }

  predicate HistoryTold(s: State, j: JobId, h: seq<Mark>) {
    if j in s.db.jobs then Tells(s.db.jobs[j], h) else h == []
  }

  // An ended job meets nothing any more.
  lemma EndedMeetsNothing(s: State, step: Step, j: JobId)
    requires Enabled(s, step) && j in s.db.jobs && Terminal(s.db.jobs[j].state)
    ensures MarkOf(s, step, j) == None
  {
  }

  lemma CountMore(h: seq<Mark>, m: Mark, mark: Mark)
    ensures Count(h + [m], mark) == Count(h, mark) + if m == mark then 1 else 0
  {
    assert (h + [m])[..|h|] == h;
  }

  lemma ProgressBound(s: State, step: Step, j: JobId)
    requires Enabled(s, step) && MarkOf(s, step, j) == Some(Progressed)
    ensures j in s.db.jobs && s.db.jobs[j].progress < 1000
  {
  }

  lemma RowTells(before: Job, m: Mark, now: Time, after: Job, h: seq<Mark>)
    requires Tells(before, h) && !Terminal(before.state) && m != Submitted && Changed(before, m, now, after)
    requires m == Progressed ==> before.progress < 1000
    ensures Tells(after, h + [m])
  {
    CountMore(h, m, Progressed);
    CountMore(h, m, Taken);
    hide Count;
    assert m in h + [m] && forall x :: x in h + [m] <==> x in h || x == m;
  }

  lemma FreshTells(row: Job)
    requires Fresh(row)
    ensures Tells(row, [Submitted])
  {
    assert [Submitted][..0] == [];
  }

  lemma StepTold(s: State, step: Step, j: JobId, h: seq<Mark>)
    requires Enabled(s, step) && HistoryTold(s, j, h)
    ensures HistoryTold(Apply(s, step), j, h + Listed(MarkOf(s, step, j)))
  {
    StepMarks(s, step, j);
    hide MarkOf, Apply, Enabled, Tells, Changed;
    var mark := MarkOf(s, step, j);
    if mark.None? {
      assert h + [] == h;
    } else if mark == Some(Submitted) {
      assert [] + [Submitted] == [Submitted];
      FreshTells(Apply(s, step).db.jobs[j]);
    } else {
      if Terminal(s.db.jobs[j].state) {
        EndedMeetsNothing(s, step, j);
      } else {
        if mark == Some(Progressed) {
          ProgressBound(s, step, j);
        }
        RowTells(s.db.jobs[j], mark.value, step.now, Apply(s, step).db.jobs[j], h);
      }
    }
  }

  lemma {:induction false} RunTold(s: State, steps: seq<Step>, t: State, j: JobId, h: seq<Mark>)
    requires Run(s, steps, t) && HistoryTold(s, j, h)
    ensures HistoryTold(t, j, h + History(s, steps, t, j))
    decreases |steps|
  {
    hide Enabled, Apply, MarkOf, HistoryTold, Listed;
    if steps == [] {
      assert h + [] == h;
    } else {
      var more := Listed(MarkOf(s, steps[0], j));
      StepTold(s, steps[0], j, h);
      RunTold(Apply(s, steps[0]), steps[1..], t, j, h + more);
      assert h + more + History(Apply(s, steps[0]), steps[1..], t, j) == h + History(s, steps, t, j);
    }
  }

  /** In every run a job is in the table exactly if something happened to it, and then its row tells what: it
      succeeded exactly if a result was taken, failed exactly if an error was taken, its launcher was lost, it
      could not be delivered or it expired, was cancelled exactly if its launcher said so or a reset did, and
      killed exactly if it was killed in the queue; answer, progress, attempts and the wish to stop likewise. */
  lemma RowsTellTheirHistory(steps: seq<Step>, t: State, j: JobId)
    requires Run(Init(), steps, t)
    ensures j in t.db.jobs ==> Tells(t.db.jobs[j], History(Init(), steps, t, j))
    ensures j !in t.db.jobs ==> History(Init(), steps, t, j) == []
  {
    hide Tells;
    assert [] + History(Init(), steps, t, j) == History(Init(), steps, t, j);
    RunTold(Init(), steps, t, j, []);
  }

  // --- Whose launcher ---

  /** A job that has been given a launcher got one of its own user that runs its application. */
  predicate Suited(db: Db, j: JobId) {
    j in db.jobs && db.jobs[j].launcher.Some? ==>
      var l := db.jobs[j].launcher.value;
      l in db.launchers && db.launchers[l].user == db.jobs[j].user && db.jobs[j].app in db.launchers[l].apps
  }

  lemma OwnerKept(s: State, step: Step, l: LauncherId)
    requires Enabled(s, step) && l in s.db.launchers
    ensures l in Apply(s, step).db.launchers
    ensures Apply(s, step).db.launchers[l].user == s.db.launchers[l].user
    ensures Apply(s, step).db.launchers[l].apps == s.db.launchers[l].apps
  {
    StepOnLauncher(s, step, l);
    hide Apply, Frees, Enabled;
  }

  lemma AssignmentKept(before: Job, m: Mark, now: Time, after: Job)
    requires Changed(before, m, now, after)
    ensures after.user == before.user && after.app == before.app && (m != Taken ==> after.launcher == before.launcher)
  {
  }

  lemma ClaimSuits(s: State, step: Step)
    requires Enabled(s, step) && step.ClaimJob?
    ensures Suited(Apply(s, step).db, step.job)
  {
  }

  lemma TakenByClaim(s: State, step: Step, j: JobId)
    requires Enabled(s, step) && MarkOf(s, step, j) == Some(Taken)
    ensures step.ClaimJob? && step.job == j
  {
  }

  lemma StepSuited(s: State, step: Step, j: JobId)
    requires Enabled(s, step) && Suited(s.db, j)
    ensures Suited(Apply(s, step).db, j)
  {
    StepMarks(s, step, j);
    var mark := MarkOf(s, step, j);
    if mark == Some(Taken) {
      TakenByClaim(s, step, j);
      ClaimSuits(s, step);
    } else if j in s.db.jobs {
      if mark.Some? && mark.value != Submitted {
        AssignmentKept(s.db.jobs[j], mark.value, step.now, Apply(s, step).db.jobs[j]);
      }
      if s.db.jobs[j].launcher.Some? {
        OwnerKept(s, step, s.db.jobs[j].launcher.value);
      }
      hide Apply, Enabled, Changed, MarkOf;
    } else {
      hide Apply, Enabled, Changed, MarkOf;
    }
  }

  lemma {:induction false} RunSuited(s: State, steps: seq<Step>, t: State, j: JobId)
    requires Run(s, steps, t) && Suited(s.db, j)
    ensures Suited(t.db, j)
    decreases |steps|
  {
    hide Enabled, Apply, Suited;
    if steps != [] {
      StepSuited(s, steps[0], j);
      RunSuited(Apply(s, steps[0]), steps[1..], t, j);
    }
  }

  /** In every run no launcher is ever given a job of another user or of an application it does not have. */
  lemma JobsRunAtTheirOwners(steps: seq<Step>, t: State, j: JobId, l: LauncherId)
    requires Run(Init(), steps, t) && j in t.db.jobs && t.db.jobs[j].launcher == Some(l)
    ensures l in t.db.launchers && t.db.launchers[l].user == t.db.jobs[j].user
    ensures t.db.jobs[j].app in t.db.launchers[l].apps
  {
    RunSuited(Init(), steps, t, j);
  }

  // --- What waiting clients are told ---

  /** The job has got its answer, or has ended. */
  predicate Settles(mark: Mark) {
    mark == AnswerTaken || LeavesIdle(mark) || mark == LauncherLost || mark == KilledInQueue
  }

  lemma MarkSettles(before: Job, m: Mark, now: Time, after: Job)
    requires Changed(before, m, now, after) && m != Submitted && !Terminal(before.state)
    ensures Settled(after) <==> before.answered || Settles(m)
  {
  }

  /** A step settles a job exactly if it takes the answer or ends it, and the job had no answer before; and every
      step that means anything for a job but its creation or claim announces it. */
  lemma SettlesExactlyWhen(s: State, step: Step, j: JobId)
    requires Enabled(s, step)
    ensures j in NewlySettled(s.db, Apply(s, step).db) <==>
      MarkOf(s, step, j).Some? && Settles(MarkOf(s, step, j).value) && !s.db.jobs[j].answered
    ensures MarkOf(s, step, j).Some? && MarkOf(s, step, j).value != Submitted && MarkOf(s, step, j).value != Taken ==>
      j in Announces(s, step)
  {
    if MarkOf(s, step, j).Some? && MarkOf(s, step, j).value != Submitted && MarkOf(s, step, j).value != Taken {
      MarkAnnounced(s, step, j);
    }
    StepMarks(s, step, j);
    if j in s.db.jobs && Terminal(s.db.jobs[j].state) {
      EndedMeetsNothing(s, step, j);
    }
    hide Announces, MarkOf, Apply, Enabled, Changed;
    var mark := MarkOf(s, step, j);
    if mark.Some? && mark.value != Submitted && !Terminal(s.db.jobs[j].state) {
      MarkSettles(s.db.jobs[j], mark.value, step.now, Apply(s, step).db.jobs[j]);
    }
  }

  lemma MarkAnnounced(s: State, step: Step, j: JobId)
    requires Enabled(s, step) && MarkOf(s, step, j).Some?
    requires MarkOf(s, step, j).value != Submitted && MarkOf(s, step, j).value != Taken
    ensures j in Announces(s, step)
  {
  }

  // --- The registry ---

  predicate SameEntry(a: Registry, b: Registry, l: LauncherId) {
    if l in a then l in b && b[l] == a[l] else l !in b
  }

  /** The registry entry of a launcher after a step: free when it registers, on its job when a claim is marked, free
      again after the last message of its job or a finished reset, marked while it is reset, gone when it is taken
      out; nothing else touches it. */
  lemma StepOnRegistry(s: State, step: Step, l: LauncherId)
    requires Enabled(s, step)
    ensures var before, after := s.registry, Apply(s, step).registry;
      match step
      case Register(x) =>
        if x == l then l in after && after[l] == LauncherRuntime(None, false) else SameEntry(before, after, l)
      case Deregister(x) => if x == l then l !in after else SameEntry(before, after, l)
      case RemoveLauncher(x) => if x == l then l !in after else SameEntry(before, after, l)
      case MarkClaimed =>
        if s.dispatcher.launcher == l && l in before
        then l in after && after[l] == before[l].(currentJob := Some(s.dispatcher.job))
        else SameEntry(before, after, l)
      case FinishMessage(x) =>
        var m := s.handlers[x].msg;
        if x == l && l in before && (m.Result? || m.Error? || m.CancelledNow?)
        then l in after && after[l] == before[l].(currentJob := None)
        else SameEntry(before, after, l)
      case ClearReset(x) =>
        if x == l && l in before then l in after && after[l] == LauncherRuntime(None, false)
        else SameEntry(before, after, l)
      case MarkResetting(x) =>
        if x == l then l in after && l in before && after[l] == before[l].(resetting := true)
        else SameEntry(before, after, l)
      case _ => SameEntry(before, after, l)
  {
    hide RequestKill, FailAssigned, DisconnectLaunchers, Expire, UpdateLauncherJob, Stale, Beat, Claim, Claimable;
  }
}
