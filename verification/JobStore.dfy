/** JobService as it works: rows updated in place, the affected jobs returned to be announced. */
module JobStore {
  import opened Options
  import opened JobRecords

  /** The jobs that are settled after a write and were not before it. */
  function NewlySettled(before: Db, after: Db): set<JobId> {
    set j | j in after.jobs && Settled(after.jobs[j]) && !(j in before.jobs && Settled(before.jobs[j]))
  }

  /** The jobs a disconnection takes down with it. */
  function ActiveOnAny(db: Db, ids: set<LauncherId>): set<JobId> {
    set j | j in db.jobs && Active(db.jobs[j].state) && db.jobs[j].launcher.Some? && db.jobs[j].launcher.value in ids
  }

  function StaleJobs(db: Db, now: Time): set<JobId> {
    set j | j in db.jobs && Stale(db.jobs[j], now)
  }

  // An open job is dropped after a day, an active one after two hours of silence.
  lemma AgeLimits(db: Db, now: Time)
    ensures forall j: JobId :: j in StaleJobs(db, now) <==>
      && j in db.jobs && db.jobs[j].state in {Queued, Assigned, AnswerReady, Running}
      && (now - db.jobs[j].created > 86400 || (db.jobs[j].state != Queued && now - db.jobs[j].updated > 7200))
  {
  }

  lemma StaleOnlySettle(db: Db, stale: set<JobId>, now: Time)
    ensures NewlySettled(db, Expire(db, stale, now)) <= stale
  {
  }

  // The order is strict and total, so the least pair found so far stays the least.
  lemma PrecedesOrder(db: Db, best: (JobId, LauncherId), p: (JobId, LauncherId), q: (JobId, LauncherId))
    requires {best.0, p.0, q.0} <= db.jobs.Keys && {best.1, p.1, q.1} <= db.launchers.Keys
    ensures !Precedes(db, p, p)
    ensures Precedes(db, p, best) && !Precedes(db, q, best) ==> !Precedes(db, q, p)
  {
  }

  /** The pair a round claims, field by field: among the queued jobs that an idle, ready launcher of their user
      runs, one of the oldest, the lowest number first; for it the launcher heard of last, then the one
      connected longest, then the lowest number. */
  lemma OldestJobFirst(db: Db, idle: set<LauncherId>, a: (JobId, LauncherId), j: JobId, l: LauncherId)
    requires NextPair(db, idle, a)
    requires j in db.jobs && l in db.launchers && l in idle && db.jobs[j].state == Queued
    requires db.launchers[l].user == db.jobs[j].user && db.jobs[j].app in db.launchers[l].apps
    requires db.launchers[l].status == Ready && !db.launchers[l].disconnected
    ensures a.0 in db.jobs && a.1 in db.launchers && a.1 in idle && db.jobs[a.0].state == Queued
    ensures db.launchers[a.1].user == db.jobs[a.0].user && db.jobs[a.0].app in db.launchers[a.1].apps
    ensures db.launchers[a.1].status == Ready && !db.launchers[a.1].disconnected
    ensures db.jobs[a.0].created <= db.jobs[j].created
    ensures db.jobs[a.0].created == db.jobs[j].created ==> a.0 <= j
    ensures a.0 == j ==> db.launchers[l].lastHeartbeat <= db.launchers[a.1].lastHeartbeat
    ensures a.0 == j && db.launchers[l].lastHeartbeat == db.launchers[a.1].lastHeartbeat ==>
      && db.launchers[a.1].connected <= db.launchers[l].connected
      && (db.launchers[a.1].connected == db.launchers[l].connected ==> a.1 <= l)
  {
    assert Claimable(db, idle, j, l);
    assert !Precedes(db, (j, l), a);
  }

  // What the query sees of the rows that are not locked.
  lemma SkipsLocked(db: Db, lockedJobs: set<JobId>, lockedLaunchers: set<LauncherId>, idle: set<LauncherId>)
    ensures forall j: JobId, l: LauncherId :: Claimable(Unlocked(db, lockedJobs, lockedLaunchers), idle, j, l) <==>
      Claimable(db, idle, j, l) && j !in lockedJobs && l !in lockedLaunchers
  {
  }

  function ClaimablePairs(db: Db, idle: set<LauncherId>): set<(JobId, LauncherId)> {
    set j: JobId, l: LauncherId | j in db.jobs && l in db.launchers && Claimable(db, idle, j, l) :: (j, l)
  }

  lemma PairsAreClaimable(db: Db, idle: set<LauncherId>)
    ensures forall j: JobId, l: LauncherId :: (j, l) in ClaimablePairs(db, idle) <==> Claimable(db, idle, j, l)
    ensures forall p: (JobId, LauncherId) :: p in ClaimablePairs(db, idle) ==>
      p.0 in db.jobs && p.1 in db.launchers && Claimable(db, idle, p.0, p.1)
  {
  }

  ghost predicate Least(db: Db, seen: set<(JobId, LauncherId)>, best: (JobId, LauncherId)) {
    && (forall p: (JobId, LauncherId) :: p in seen ==> p.0 in db.jobs && p.1 in db.launchers)
    && best in seen && forall p: (JobId, LauncherId) :: p in seen ==> !Precedes(db, p, best)
  }

  lemma LeastMember(db: Db, seen: set<(JobId, LauncherId)>, best: Option<(JobId, LauncherId)>)
    requires best.Some? ==> Least(db, seen, best.value)
    ensures best.Some? ==> best.value.0 in db.jobs && best.value.1 in db.launchers
  {
  }

  lemma LeastKept(db: Db, seen: set<(JobId, LauncherId)>, best: (JobId, LauncherId), p: (JobId, LauncherId))
    requires Least(db, seen, best) && p.0 in db.jobs && p.1 in db.launchers
    requires best.0 in db.jobs && best.1 in db.launchers && !Precedes(db, p, best)
    ensures Least(db, seen + {p}, best)
  {
    hide Precedes;
  }

  lemma LeastIsNext(db: Db, idle: set<LauncherId>, best: (JobId, LauncherId))
    requires Least(db, ClaimablePairs(db, idle), best)
    ensures NextPair(db, idle, best)
  {
    hide Precedes, Claimable;
    PairsAreClaimable(db, idle);
    forall j: JobId, l: LauncherId | Claimable(db, idle, j, l) ensures !Precedes(db, (j, l), best) {
      assert (j, l) in ClaimablePairs(db, idle);
    }
  }

  lemma LeastMoves(db: Db, seen: set<(JobId, LauncherId)>, best: Option<(JobId, LauncherId)>, p: (JobId, LauncherId))
    requires p.0 in db.jobs && p.1 in db.launchers
    requires if best.None? then seen == {} else Least(db, seen, best.value) && Precedes(db, p, best.value)
    ensures Least(db, seen + {p}, p)
  {
    hide Precedes;
    PrecedesOrder(db, p, p, p);
    if best.Some? {
      forall q: (JobId, LauncherId) | q in seen ensures !Precedes(db, q, p) {
        PrecedesOrder(db, best.value, p, q);
      }
    }
  }

  class JobService {
    var jobs: map<JobId, Job>
    var launchers: map<LauncherId, Launcher>

    function Rows(): Db
      reads this
    {
      Db(jobs, launchers)
    }

    constructor ()
      ensures Rows() == Db(map[], map[])
    {
      jobs, launchers := map[], map[];
    }

    method ReleaseLauncher(l: LauncherId)
      modifies this`launchers
      ensures Rows() == Release(old(Rows()), l)
    {
      if l in launchers && !launchers[l].disconnected {
        launchers := launchers[l := launchers[l].(status := Ready)];
      }
    }

    /** The first claimable pair in the order of the query, if there is one. */
    static method FirstPair(db: Db, idle: set<LauncherId>) returns (first: Option<(JobId, LauncherId)>)
      ensures first.Some? ==> NextPair(db, idle, first.value)
      ensures first.None? ==> forall j: JobId, l: LauncherId :: !Claimable(db, idle, j, l)
    {
      var pairs := ClaimablePairs(db, idle);
      PairsAreClaimable(db, idle);
      hide Claimable, Precedes, ClaimablePairs, Least;
      var todo := pairs;
      ghost var seen: set<(JobId, LauncherId)> := {};
      first := None;
      while todo != {}
        invariant seen + todo == pairs
        invariant if first.None? then seen == {} else Least(db, seen, first.value)
        decreases |todo|
      {
        var p: (JobId, LauncherId) :| p in todo;
        LeastMember(db, seen, first);
        if first.None? || Precedes(db, p, first.value) {
          LeastMoves(db, seen, first, p);
          first := Some(p);
        } else {
          LeastKept(db, seen, first.value, p);
        }
        seen, todo := seen + {p}, todo - {p};
      }
      if first.Some? {
        LeastIsNext(db, idle, first.value);
      }
    }

    /** The query skips the rows another transaction has locked. */
    method ClaimNextCompatibleJob(idle: set<LauncherId>, now: Time, lockedJobs: set<JobId>,
                                  lockedLaunchers: set<LauncherId>)
      returns (assignment: Option<(JobId, LauncherId)>)
      modifies this
      ensures assignment.Some? ==>
        && NextPair(Unlocked(old(Rows()), lockedJobs, lockedLaunchers), idle, assignment.value)
        && Claimable(old(Rows()), idle, assignment.value.0, assignment.value.1)
        && assignment.value.0 !in lockedJobs && assignment.value.1 !in lockedLaunchers
        && Rows() == Claim(old(Rows()), assignment.value.0, assignment.value.1, now)
      ensures assignment.None? ==>
        && Rows() == old(Rows())
        && forall j: JobId, l: LauncherId ::
            Claimable(Rows(), idle, j, l) ==> j in lockedJobs || l in lockedLaunchers
    {
      SkipsLocked(Rows(), lockedJobs, lockedLaunchers, idle);
      assignment := FirstPair(Unlocked(Rows(), lockedJobs, lockedLaunchers), idle);
      if assignment.Some? {
        var j, l := assignment.value.0, assignment.value.1;
        launchers := launchers[l := launchers[l].(status := Busy)];
        jobs := jobs[j := jobs[j].(launcher := Some(l), state := Assigned, attempts := jobs[j].attempts + 1,
                                   updated := now)];
      }
    }

    method UpdateJobOfLauncher(l: LauncherId, user: UserId, m: Message, now: Time) returns (found: bool)
      modifies this
      ensures found == UpdateLauncherJob(old(Rows()), l, user, m, now).Some?
      ensures Rows() == if found then UpdateLauncherJob(old(Rows()), l, user, m, now).value else old(Rows())
      ensures NewlySettled(old(Rows()), Rows()) <= if found then {m.job} else {}
    {
      if m.job !in jobs || jobs[m.job].launcher != Some(l) || jobs[m.job].user != user || !Expects(m, jobs[m.job]) {
        return false;
      }
      jobs := jobs[m.job := Written(m, jobs[m.job]).(updated := now)];
      if Final(m) && l in launchers && launchers[l].user == user {
        ReleaseLauncher(l);
      }
      return true;
    }

    method KillJob(j: JobId, user: Option<UserId>, l: Option<LauncherId>, now: Time) returns (found: bool)
      modifies this`jobs
      ensures found == Killable(old(Rows()), j, user, l)
      ensures Rows() == RequestKill(old(Rows()), j, user, l, now)
      ensures NewlySettled(old(Rows()), Rows()) <= if found then {j} else {}
    {
      if j !in jobs || (user.Some? && jobs[j].user != user.value) || (l.Some? && jobs[j].launcher != l) {
        return false;
      }
      if Terminal(jobs[j].state) {
        return true;
      }
      jobs := jobs[j := jobs[j].(cancelRequested := true, updated := now)];
      if jobs[j].state == Queued {
        jobs := jobs[j := jobs[j].(state := Killed)];
      }
      return true;
    }

    method FailAssignedJob(j: JobId, l: LauncherId, state: JobState, now: Time) returns (found: bool)
      requires state == Failed || state == Cancelled
      modifies this
      ensures found <==> ActiveOn(old(Rows()), j, l)
      ensures Rows() == FailAssigned(old(Rows()), j, l, state, now)
      ensures NewlySettled(old(Rows()), Rows()) <= if found then {j} else {}
    {
      if j !in jobs || jobs[j].launcher != Some(l) || !Active(jobs[j].state) {
        return false;
      }
      jobs := jobs[j := jobs[j].(state := state, updated := now)];
      ReleaseLauncher(l);
      return true;
    }

    method DisconnectLaunchersAndFailJobs(ids: set<LauncherId>, now: Time) returns (failed: set<JobId>)
      modifies this
      ensures failed == ActiveOnAny(old(Rows()), ids)
      ensures Rows() == DisconnectLaunchers(old(Rows()), ids, now)
      ensures NewlySettled(old(Rows()), Rows()) <= failed
    {
      launchers := map l | l in launchers ::
        if l in ids then launchers[l].(status := Disconnected, disconnected := true) else launchers[l];
      failed := ActiveOnAny(Rows(), ids);
      jobs := map j | j in jobs :: if j in failed then jobs[j].(state := Failed, updated := now) else jobs[j];
    }

    /** Fails every job of the set; `freed` are the launchers they were assigned to. */
    method FailRows(failed: set<JobId>, now: Time) returns (freed: set<LauncherId>)
      requires failed <= jobs.Keys
      modifies this`jobs
      ensures jobs.Keys == old(jobs).Keys
      ensures forall j: JobId :: j in jobs ==>
        jobs[j] == if j in failed then old(jobs)[j].(state := Failed, updated := now) else old(jobs)[j]
      ensures forall l: LauncherId :: l in freed <==> exists j: JobId :: j in failed && old(jobs)[j].launcher == Some(l)
    {
      ghost var before := jobs;
      var todo := failed;
      freed := {};
      while todo != {}
        invariant todo <= failed && jobs.Keys == before.Keys
        invariant forall j: JobId :: j in before ==>
          jobs[j] == if j in failed - todo then before[j].(state := Failed, updated := now) else before[j]
        invariant forall l: LauncherId :: l in freed <==> exists j: JobId ::
          j in failed - todo && before[j].launcher == Some(l)
        decreases |todo|
      {
        var j: JobId :| j in todo;
        if jobs[j].launcher.Some? {
          freed := freed + {jobs[j].launcher.value};
        }
        jobs := jobs[j := jobs[j].(state := Failed, updated := now)];
        todo := todo - {j};
      }
    }

    /** `locked` are the rows another transaction holds, which the query skips. */
    method ExpireStaleJobs(now: Time, locked: set<JobId>) returns (failed: set<JobId>)
      modifies this
      ensures forall j: JobId :: j in failed <==>
        && j in old(jobs) && j !in locked && old(jobs)[j].state in {Queued, Assigned, AnswerReady, Running}
        && (now - old(jobs)[j].created > 86400 || (old(jobs)[j].state != Queued && now - old(jobs)[j].updated > 7200))
      ensures Rows() == Expire(old(Rows()), failed, now)
      ensures NewlySettled(old(Rows()), Rows()) <= failed
    {
      failed := StaleJobs(Rows(), now) - locked;
      AgeLimits(Rows(), now);
      assert forall j: JobId :: j in failed ==> j in jobs && !Terminal(jobs[j].state);
      hide Stale, StaleJobs, NewlySettled, Terminal, Active;
      StaleOnlySettle(Rows(), failed, now);
      ghost var before := Rows();
      var freed := FailRows(failed, now);
      launchers := map l | l in launchers ::
        if l in freed && !launchers[l].disconnected then launchers[l].(status := Ready) else launchers[l];
      assert jobs == Expire(before, failed, now).jobs;
      assert launchers == Expire(before, failed, now).launchers;
    }

    method MarkHeartbeat(l: LauncherId, status: LauncherStatus, now: Time)
      modifies this`launchers
      ensures Rows() == Beat(old(Rows()), l, status, now)
    {
      if l in launchers {
        launchers := launchers[l := launchers[l].(status := status, lastHeartbeat := now)];
      }
    }
  }
}
