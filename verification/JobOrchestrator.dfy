/** The orchestrator's tasks as code over the registry, the rows and the events. Run without interruption,
    each is a run of the protocol, and it leaves the event of every job it settled set. */
module JobOrchestrator {
  import opened Options
  import opened JobRecords
  import opened LauncherRegistry
  import opened JobProtocol
  import opened JobRuns
  import opened JobStore
  import opened JobEvents

  lemma RunOne(s: State, a: Step)
    requires Enabled(s, a)
    ensures Run(s, [a], Apply(s, a))
  {
    assert [a][1..] == [];
  }

  lemma RunMore(s: State, steps: seq<Step>, t: State, a: Step)
    requires Run(s, steps, t) && Enabled(t, a)
    ensures Run(s, steps + [a], Apply(t, a))
    decreases |steps|
  {
    hide Enabled, Apply;
    if steps == [] {
      assert steps + [a] == [a] && [a][1..] == [];
    } else {
      assert (steps + [a])[1..] == steps[1..] + [a];
      RunMore(Apply(s, steps[0]), steps[1..], t, a);
    }
  }

  lemma NoneIdle(db: Db)
    ensures forall j: JobId, l: LauncherId :: !Claimable(db, {}, j, l)
  {
  }

  // A round that finds no launcher, and one that finds no pair.
  lemma NothingClaimed(s: State)
    requires s.dispatcher == Free
    ensures Idle(s.registry) == {} ==> Run(s, [ReadIdle], s)
    ensures Idle(s.registry) != {} ==> Run(s, [ReadIdle, ClaimNothing], s)
  {
    RunOne(s, ReadIdle);
    var t := Apply(s, ReadIdle);
    if Idle(s.registry) != {} {
      RunMore(s, [ReadIdle], t, ClaimNothing);
      assert [ReadIdle] + [ClaimNothing] == [ReadIdle, ClaimNothing];
    }
  }

  lemma ClaimedAndMarked(s: State, j: JobId, l: LauncherId, now: Time)
    requires s.dispatcher == Free && Claimable(s.db, Idle(s.registry), j, l)
    ensures j in s.db.jobs && l in s.db.launchers && l in s.registry
    ensures Run(s, [ReadIdle, ClaimJob(j, l, now), MarkClaimed],
                s.(db := Claim(s.db, j, l, now), registry := Marked(s.registry, l, Some(j))))
    ensures NewlySettled(s.db, Claim(s.db, j, l, now)) == {}
    ensures Matches(Marked(s.registry, l, Some(j)), l, j)
  {
    ClaimSettlesNothing(s.db, j, l, now);
    RunOne(s, ReadIdle);
    var t := Apply(s, ReadIdle);
    RunMore(s, [ReadIdle], t, ClaimJob(j, l, now));
    RunMore(s, [ReadIdle] + [ClaimJob(j, l, now)], Apply(t, ClaimJob(j, l, now)), MarkClaimed);
    assert [ReadIdle] + [ClaimJob(j, l, now)] + [MarkClaimed] == [ReadIdle, ClaimJob(j, l, now), MarkClaimed];
  }

  lemma ClaimSettlesNothing(db: Db, j: JobId, l: LauncherId, now: Time)
    requires j in db.jobs && l in db.launchers
    ensures NewlySettled(db, Claim(db, j, l, now)) == {}
  {
  }

  lemma NothingSettles(db: Db)
    ensures NewlySettled(db, db) == {}
  {
  }

  /** The launcher is resetting and its job has ended, so a report of the reset is due. */
  predicate ResetDue(r: Registry, l: LauncherId) {
    l in r && r[l].resetting && r[l].currentJob == None
  }

  /** What a reset does to the rows: the launcher's current job, if it has one, is asked to stop. */
  function ResetRows(db: Db, r: Registry, l: LauncherId, user: Option<UserId>, now: Time): Db {
    if l in r && r[l].currentJob.Some? then RequestKill(db, r[l].currentJob.value, user, Some(l), now) else db
  }

  /** A reset changes no row but that of the launcher's current job, which it asks to stop if that job is the
      launcher's, visible to the user and not over. */
  lemma ResetAsksOneJob(db: Db, r: Registry, l: LauncherId, user: Option<UserId>, now: Time, j: JobId)
    requires j in db.jobs
    ensures var after := ResetRows(db, r, l, user, now);
      && after.jobs.Keys == db.jobs.Keys && after.launchers == db.launchers
      && after.jobs[j] ==
         if && l in r && r[l].currentJob == Some(j) && db.jobs[j].launcher == Some(l)
            && (user == None || user == Some(db.jobs[j].user))
         then
           match db.jobs[j].state
           case Queued => db.jobs[j].(cancelRequested := true, updated := now, state := Killed)
           case Assigned => db.jobs[j].(cancelRequested := true, updated := now)
           case AnswerReady => db.jobs[j].(cancelRequested := true, updated := now)
           case Running => db.jobs[j].(cancelRequested := true, updated := now)
           case _ => db.jobs[j]
         else db.jobs[j]
  {
  }

  class Orchestrator {
    const runtime: RuntimeRegistry
    const store: JobService
    const events: RegistryEvents
    ghost var handlers: map<LauncherId, Handler>

    ghost function Server(): State
      reads this, runtime, store
    {
      State(store.Rows(), runtime.launchers, Free, handlers)
    }

    /** Whoever waits for one of these jobs has been woken. */
    ghost predicate Woken(jobs: set<JobId>)
      reads this, events
    {
      forall j: JobId :: j in jobs && j in events.jobEvents ==> events.jobEvents[j] in events.fired
    }

    constructor ()
      ensures fresh(runtime) && fresh(store) && fresh(events)
      ensures Server() == Init() && events.Table() == EventTable(map[], map[], {}, 0)
    {
      runtime := new RuntimeRegistry();
      store := new JobService();
      events := new RegistryEvents();
      handlers := map[];
    }

    /** One round of the dispatch loop, under the assignment lock. */
    method DispatchNextJob(now: Time, lockedJobs: set<JobId>, lockedLaunchers: set<LauncherId>)
      returns (assignment: Option<(JobId, LauncherId)>, ghost steps: seq<Step>)
      modifies runtime, store
      ensures Run(old(Server()), steps, Server())
      ensures assignment.Some? ==>
        && NextPair(Unlocked(old(store.Rows()), lockedJobs, lockedLaunchers), Idle(old(runtime.launchers)),
                    assignment.value)
        && assignment.value.0 !in lockedJobs && assignment.value.1 !in lockedLaunchers
        && Matches(runtime.launchers, assignment.value.1, assignment.value.0)
      ensures assignment.None? ==>
        && Server() == old(Server())
        && forall j: JobId, l: LauncherId ::
            Claimable(store.Rows(), Idle(runtime.launchers), j, l) ==> j in lockedJobs || l in lockedLaunchers
      ensures NewlySettled(old(store.Rows()), store.Rows()) == {}
    {
      hide Claimable, NextPair, Unlocked, Run, NewlySettled, Apply, Marked, Claim, Matches;
      ghost var s := Server();
      NothingSettles(s.db);
      NothingClaimed(s);
      var idle := runtime.IdleLauncherIds();
      assignment := None;
      if idle == {} {
        steps := [ReadIdle];
        NoneIdle(store.Rows());
        return;
      }
      assignment := store.ClaimNextCompatibleJob(idle, now, lockedJobs, lockedLaunchers);
      if assignment.None? {
        steps := [ReadIdle, ClaimNothing];
        return;
      }
      var j, l := assignment.value.0, assignment.value.1;
      ClaimedAndMarked(s, j, l, now);
      runtime.MarkLauncherJob(l, Some(j));
      steps := [ReadIdle, ClaimJob(j, l, now), MarkClaimed];
    }

    // The three atomic parts of a launcher's job message.
    method MatchMessage(l: LauncherId, m: Message) returns (matches: bool)
      requires At(Server(), l, Listening)
      modifies this`handlers
      ensures Server() == Apply(old(Server()), Receive(l, m))
      ensures matches == Matches(runtime.launchers, l, m.job)
    {
      matches := runtime.LauncherMatchesJob(l, m.job);
      handlers := handlers[l := if matches then Matched(m) else Closing];
    }

    method CommitMessage(l: LauncherId, user: UserId, m: Message, now: Time) returns (found: bool)
      requires At(Server(), l, Matched(m)) && l in store.launchers && store.launchers[l].user == user
      modifies this`handlers, store, events
      ensures Server() == Apply(old(Server()), ApplyMessage(l, now))
      ensures found == UpdateLauncherJob(old(store.Rows()), l, user, m, now).Some?
      ensures Woken(NewlySettled(old(store.Rows()), store.Rows()))
    {
      hide UpdateLauncherJob, NewlySettled;
      found := store.UpdateJobOfLauncher(l, user, m, now);
      if found {
        events.SetJobEvent(m.job);
      }
      handlers := handlers[l := if found then Committed(m) else Closing];
    }

    method ConcludeMessage(l: LauncherId, m: Message)
      requires At(Server(), l, Committed(m))
      modifies this`handlers, runtime
      ensures Server() == Apply(old(Server()), FinishMessage(l))
    {
      if Final(m) {
        runtime.MarkLauncherJob(l, None);
      }
      handlers := handlers[l := Listening];
    }

    /** A launcher's job message; false is the policy violation that closes the connection. */
    method HandleLauncherJobEvent(l: LauncherId, user: UserId, m: Message, now: Time)
      returns (accepted: bool, ghost steps: seq<Step>)
      requires At(Server(), l, Listening) && l in store.launchers && store.launchers[l].user == user
      modifies this`handlers, runtime, store, events
      ensures Run(old(Server()), steps, Server())
      ensures At(Server(), l, if accepted then Listening else Closing)
      ensures accepted <==>
        && Matches(old(runtime.launchers), l, m.job)
        && UpdateLauncherJob(old(store.Rows()), l, user, m, now).Some?
      ensures runtime.launchers ==
        if accepted && (m.Result? || m.Error? || m.CancelledNow?)
        then Marked(old(runtime.launchers), l, None) else old(runtime.launchers)
      ensures Woken(NewlySettled(old(store.Rows()), store.Rows()))
    {
      hide UpdateLauncherJob, NewlySettled, Run, Woken;
      ghost var s := Server();
      RunOne(s, Receive(l, m));
      steps := [Receive(l, m)];
      accepted := MatchMessage(l, m);
      if !accepted {
        NothingSettles(s.db);
        assert Woken({}) by { NobodyToWake(); }
        return;
      }
      RunMore(s, steps, Server(), ApplyMessage(l, now));
      steps := steps + [ApplyMessage(l, now)];
      accepted := CommitMessage(l, user, m, now);
      if accepted {
        RunMore(s, steps, Server(), FinishMessage(l));
        steps := steps + [FinishMessage(l)];
        label L:
        ConcludeMessage(l, m);
        assert Woken(NewlySettled(s.db, store.Rows())) by { StillWoken@L(NewlySettled(s.db, store.Rows())); }
      }
    }

    lemma NobodyToWake()
      ensures Woken({})
    {
    }

    twostate lemma StillWoken(jobs: set<JobId>)
      requires old(Woken(jobs)) && unchanged(events)
      ensures Woken(jobs)
    {
    }

    method HandleWorkerResetDone(l: LauncherId) returns (accepted: bool, ghost steps: seq<Step>)
      requires At(Server(), l, Listening)
      modifies this`handlers, runtime
      ensures Run(old(Server()), steps, Server())
      ensures At(Server(), l, if accepted then Listening else Closing)
      ensures accepted <==> ResetDue(old(runtime.launchers), l)
      ensures runtime.launchers == if accepted then Cleared(old(runtime.launchers), l) else old(runtime.launchers)
      ensures accepted ==> l in Idle(runtime.launchers)
    {
      ghost var s := Server();
      ghost var t := Apply(s, ReceiveResetDone(l));
      RunOne(s, ReceiveResetDone(l));
      steps := [ReceiveResetDone(l)];
      var registry := runtime.launchers;
      accepted := l in registry && registry[l].resetting && registry[l].currentJob == None;
      if !accepted {
        handlers := handlers[l := Closing];
        return;
      }
      RunMore(s, steps, t, ClearReset(l));
      steps := steps + [ClearReset(l)];
      runtime.ClearLauncherWorker(l);
      handlers := handlers[l := Listening];
    }

    /** The locked part of a kill; `target` is the launcher to send the cancellation to. */
    method KillJob(j: JobId, user: Option<UserId>, l: Option<LauncherId>, now: Time)
      returns (found: bool, target: Option<LauncherId>, ghost steps: seq<Step>)
      modifies store, events
      ensures Run(old(Server()), steps, Server())
      ensures found == Killable(old(store.Rows()), j, user, l)
      ensures target.Some? ==> found && ActiveOn(store.Rows(), j, target.value)
      ensures found ==> j in store.jobs && (Active(store.jobs[j].state) ==> target == store.jobs[j].launcher)
      ensures store.Rows() == RequestKill(old(store.Rows()), j, user, l, now)
      ensures Woken(NewlySettled(old(store.Rows()), store.Rows()))
    {
      ghost var s := Server();
      RunOne(s, Kill(j, user, l, now));
      steps := [Kill(j, user, l, now)];
      found := store.KillJob(j, user, l, now);
      target := None;
      if found {
        events.SetJobEvent(j);
        if Active(store.jobs[j].state) {
          target := store.jobs[j].launcher;
        }
      }
    }

    /** A reset up to the message to the launcher: the mark, and the kill of the job it works on. */
    method ResetLauncherWorker(l: LauncherId, user: Option<UserId>, now: Time)
      returns (accepted: bool, ghost steps: seq<Step>)
      modifies runtime, store, events
      ensures Run(old(Server()), steps, Server())
      ensures accepted <==> l in old(runtime.launchers) && !old(runtime.launchers)[l].resetting
      ensures runtime.launchers == if accepted then Resetting(old(runtime.launchers), l) else old(runtime.launchers)
      ensures accepted ==> l !in Idle(runtime.launchers)
      ensures store.Rows() == if accepted
        then ResetRows(old(store.Rows()), old(runtime.launchers), l, user, now) else old(store.Rows())
      ensures Woken(NewlySettled(old(store.Rows()), store.Rows()))
    {
      ghost var s := Server();
      steps := [];
      accepted := runtime.MarkLauncherResetting(l);
      if !accepted {
        return;
      }
      RunOne(s, MarkResetting(l));
      steps := [MarkResetting(l)];
      ghost var t := Server();
      var job := runtime.launchers[l].currentJob;
      if job.Some? {
        RunMore(s, steps, t, Kill(job.value, user, Some(l), now));
        steps := steps + [Kill(job.value, user, Some(l), now)];
        var found, target, _ := KillJob(job.value, user, Some(l), now);
      }
    }

    /** The end of a connection: nothing of the launcher stays active. */
    method LauncherDisconnected(l: LauncherId, now: Time) returns (failed: set<JobId>, ghost steps: seq<Step>)
      requires Enabled(Server(), Drop(l))
      modifies this`handlers, runtime, store, events
      ensures Run(old(Server()), steps, Server())
      ensures At(Server(), l, Gone) && l !in runtime.launchers && forall j: JobId :: !ActiveOn(store.Rows(), j, l)
      ensures failed == ActiveOnAny(old(store.Rows()), {l})
      ensures Woken(NewlySettled(old(store.Rows()), store.Rows()))
    {
      ghost var s := Server();
      ghost var t := Apply(s, Drop(l));
      RunOne(s, Drop(l));
      RunMore(s, [Drop(l)], t, Deregister(l));
      t := Apply(t, Deregister(l));
      runtime.RemoveLauncher(l);
      RunMore(s, [Drop(l)] + [Deregister(l)], t, FailDisconnected(l, now));
      steps := [Drop(l)] + [Deregister(l)] + [FailDisconnected(l, now)];
      failed := store.DisconnectLaunchersAndFailJobs({l}, now);
      AnnounceAll(failed);
      handlers := handlers[l := Gone];
      assert handlers == s.handlers[l := Closing][l := Deregistered][l := Gone];
      assert Server() == Apply(t, FailDisconnected(l, now));
    }

    method AnnounceAll(jobs: set<JobId>)
      modifies events
      ensures events.jobEvents == old(events.jobEvents)
      ensures Woken(jobs)
    {
      var todo := jobs;
      while todo != {}
        invariant events.jobEvents == old(events.jobEvents)
        invariant Woken(jobs - todo)
        decreases |todo|
      {
        var j: JobId :| j in todo;
        events.SetJobEvent(j);
        todo := todo - {j};
      }
    }
  }
}
