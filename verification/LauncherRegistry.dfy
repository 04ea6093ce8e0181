/** The in-memory registry of connected launchers. */
module LauncherRegistry {
  import opened Options
  import opened JobRecords

  datatype LauncherRuntime = LauncherRuntime(currentJob: Option<JobId>, resetting: bool)

  type Registry = map<LauncherId, LauncherRuntime>

  function Registered(r: Registry, l: LauncherId): Registry {
    r[l := LauncherRuntime(None, false)]
  }

  function Removed(r: Registry, l: LauncherId): Registry {
    r - {l}
  }

  function Marked(r: Registry, l: LauncherId, job: Option<JobId>): Registry {
    if l in r then r[l := r[l].(currentJob := job)] else r
  }

  function Cleared(r: Registry, l: LauncherId): Registry {
    if l in r then r[l := LauncherRuntime(None, false)] else r
  }

  function Resetting(r: Registry, l: LauncherId): Registry {
    if l in r then r[l := r[l].(resetting := true)] else r
  }

  function Idle(r: Registry): set<LauncherId> {
    set l | l in r && r[l].currentJob == None && !r[l].resetting
  }

  predicate Matches(r: Registry, l: LauncherId, j: JobId) {
    l in r && r[l].currentJob == Some(j)
  }

  /** What every change of the registry does to the launchers that may be given a job: an assignment and a
      reset take exactly that launcher away, the end of either gives it back, unless it is being reset. */
  lemma IdleAfter(r: Registry, l: LauncherId, j: JobId)
    ensures Idle(Registered(r, l)) == Idle(r) + {l}
    ensures Idle(Removed(r, l)) == Idle(Marked(r, l, Some(j))) == Idle(Resetting(r, l)) == Idle(r) - {l}
    ensures Idle(Marked(r, l, None)) == Idle(r) + if l in r && !r[l].resetting then {l} else {}
    ensures Idle(Cleared(r, l)) == Idle(r) + if l in r then {l} else {}
  {
    hide Matches;
    forall s: Registry ensures Idle(s) == set x | x in s && s[x].currentJob == None && !s[x].resetting {}
    assert Idle(Removed(r, l)) == Idle(r) - {l};
    assert Idle(Marked(r, l, Some(j))) == Idle(r) - {l};
    assert Idle(Resetting(r, l)) == Idle(r) - {l};
  }

  /** A launcher answers for one job at a time: right after a mark for that job, after anything that
      takes the mark away for none; a reset mark changes nothing, and neither does another launcher. */
  lemma MatchesAfter(r: Registry, l: LauncherId, x: LauncherId, j: JobId, k: JobId)
    ensures Matches(r, x, j) && Matches(r, x, k) ==> j == k
    ensures Matches(Marked(r, l, Some(j)), x, k) <==> if x == l then l in r && k == j else Matches(r, x, k)
    ensures Matches(Resetting(r, l), x, k) <==> Matches(r, x, k)
    ensures Matches(Marked(r, l, None), x, k) <==> x != l && Matches(r, x, k)
    ensures Matches(Cleared(r, l), x, k) <==> x != l && Matches(r, x, k)
    ensures Matches(Removed(r, l), x, k) <==> x != l && Matches(r, x, k)
    ensures Matches(r, x, k) ==> x !in Idle(r)
  {
  }

  /** The registry as the server keeps it: one object, updated under its lock. */
  class RuntimeRegistry {
    var launchers: Registry

    constructor ()
      ensures launchers == map[]
    {
      launchers := map[];
    }

    method RegisterLauncher(l: LauncherId)
      modifies this
      ensures launchers == Registered(old(launchers), l)
    {
      launchers := launchers[l := LauncherRuntime(None, false)];
    }

    method RemoveLauncher(l: LauncherId)
      modifies this
      ensures launchers == Removed(old(launchers), l)
    {
      launchers := launchers - {l};
    }

    method MarkLauncherJob(l: LauncherId, job: Option<JobId>)
      modifies this
      ensures launchers == Marked(old(launchers), l, job)
    {
      if l in launchers {
        launchers := launchers[l := launchers[l].(currentJob := job)];
      }
    }

    method ClearLauncherWorker(l: LauncherId)
      modifies this
      ensures launchers == Cleared(old(launchers), l)
    {
      if l in launchers {
        launchers := launchers[l := LauncherRuntime(None, false)];
      }
    }

    method MarkLauncherResetting(l: LauncherId) returns (accepted: bool)
      modifies this
      ensures accepted <==> l in old(launchers) && !old(launchers)[l].resetting
      ensures launchers == if accepted then Resetting(old(launchers), l) else old(launchers)
    {
      if l !in launchers || launchers[l].resetting {
        return false;
      }
      launchers := launchers[l := launchers[l].(resetting := true)];
      return true;
    }

    method LauncherMatchesJob(l: LauncherId, j: JobId) returns (matches: bool)
      ensures matches == Matches(launchers, l, j)
      ensures matches ==> l !in Idle(launchers) && forall k: JobId :: Matches(launchers, l, k) ==> k == j
    {
      return l in launchers && launchers[l].currentJob == Some(j);
    }

    method IdleLauncherIds() returns (ids: set<LauncherId>)
      ensures ids == Idle(launchers)
      ensures forall l: LauncherId :: l in ids <==>
        l in launchers && !launchers[l].resetting && forall j: JobId :: !Matches(launchers, l, j)
    {
      ids := set l | l in launchers && launchers[l].currentJob == None && !launchers[l].resetting;
      forall l: LauncherId | l in launchers && launchers[l].currentJob.Some?
        ensures Matches(launchers, l, launchers[l].currentJob.value)
      {
      }
    }
  }
}
