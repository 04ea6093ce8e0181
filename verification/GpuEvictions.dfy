/** What a lease leaves in place: evictions are no wider than they have to be. */
module GpuEvictions {
  import opened GpuResidency

  // Same model: same role and same key.
  predicate Other(r: Record, l: Lease) {
    r.role != l.role || r.key != l.key
  }

  /** Once a lease has looked at its devices, a model found there is to be removed exactly if it is another
      model and the two cannot stay together: they have one role, or one of them is exclusive. */
  lemma EvictsExactly(s: State, x: LeaseId, d: Device, p: Role)
    requires Reachable(s) && x in s.leases && s.leases[x].phase.Evicting?
    requires d in s.leases[x].devices && (d, p) in s.loaded
    ensures var l, r := s.leases[x], s.loaded[(d, p)];
      r in l.phase.pending <==> Other(r, l) && (r.role == l.role || r.exclusive || l.exclusive)
  {
    ReachableInv(s);
    assert LeaseSane(s.leases[x], s.loaded);
    assert s.loaded[(d, p)] in ResidentOn(s.loaded, s.leases[x].devices);
  }

  /** A co-resident eviction takes exactly the models of the other roles. */
  lemma CoEvictsExactly(s: State, x: LeaseId, d: Device, p: Role)
    requires Reachable(s) && x in s.leases && s.leases[x].phase.CoEvicting?
    requires d in s.leases[x].devices && (d, p) in s.loaded
    ensures s.loaded[(d, p)] in s.leases[x].phase.pending <==> p != s.leases[x].role
  {
    ReachableInv(s);
    var l := s.leases[x];
    var r := s.loaded[(d, p)];
    assert LeaseSane(l, s.loaded);
    assert r in ResidentOn(s.loaded, l.devices);
    if p != l.role {
      assert (d, l.role) in s.loaded && !r.exclusive;
    }
  }

  // --- Whole runs ---

  /** A lease for this role and these devices need not touch `r`. */
  predicate Harmless(role: Role, devices: seq<Device>, exclusive: bool, r: Record) {
    Meets(r, devices) ==> role != r.role && !exclusive && !r.exclusive
  }

  /** No lease that is still going on has to touch `r`, or is clearing its devices of others. */
  ghost predicate Spared(s: State, r: Record) {
    forall x: LeaseId :: Unfinished(s, x) ==>
      && Harmless(s.leases[x].role, s.leases[x].devices, s.leases[x].exclusive, r)
      && (Meets(r, s.leases[x].devices) ==> !s.leases[x].phase.CoEvicting?)
  }

  predicate Sparing(s: State, step: Step, r: Record)
    requires Enabled(s, step)
  {
    match step
    case Enter(_, q) => Harmless(q.role, q.devices, q.exclusive, r)
    case FindCoResidents(x) => !Meets(r, s.leases[x].devices)
    case _ => true
  }

  /** A run in which only such leases are entered and none asks for its devices to be cleared. */
  ghost predicate SparingRun(s: State, steps: seq<Step>, t: State, r: Record)
    decreases |steps|
  {
    if steps == [] then s == t
    else Enabled(s, steps[0]) && Sparing(s, steps[0], r) && SparingRun(Apply(s, steps[0]), steps[1..], t, r)
  }

  lemma StepSpared(s: State, step: Step, r: Record)
    requires Spared(s, r) && Enabled(s, step) && Sparing(s, step, r)
    ensures Spared(Apply(s, step), r)
  {
    hide Meets, Conflicts, CoResident, ResidentOn, Popped, Put, Unlocked;
    var t := Apply(s, step);
    forall x: LeaseId | Unfinished(t, x)
      ensures Harmless(t.leases[x].role, t.leases[x].devices, t.leases[x].exclusive, r)
      ensures Meets(r, t.leases[x].devices) ==> !t.leases[x].phase.CoEvicting?
    {
      assert x in s.leases ==> Unfinished(s, x);
    }
  }

  lemma StepStays(s: State, step: Step, r: Record, d: Device, p: Role)
    requires Inv(s) && Spared(s, r) && Enabled(s, step) && (d, p) in s.loaded && s.loaded[(d, p)] == r
    ensures (d, p) in Apply(s, step).loaded && Apply(s, step).loaded[(d, p)] == r
  {
    assert r.role == p && d in r.devices;
    hide LocksMatch, Compatible, Placed;
    match step
    case Evict(x, c) =>
      assert Unfinished(s, x);
      assert LeaseSane(s.leases[x], s.loaded) && PendingMeet(s.leases[x]);
      assert c != r;
    case Register(x) =>
      assert Unfinished(s, x);
      if d in s.leases[x].devices {
        assert Meets(r, s.leases[x].devices);
      }
    case _ => assert Apply(s, step).loaded == s.loaded;
  }

  lemma {:induction false} RunStays(s: State, steps: seq<Step>, t: State, r: Record, d: Device, p: Role)
    requires Inv(s) && Spared(s, r) && SparingRun(s, steps, t, r) && (d, p) in s.loaded && s.loaded[(d, p)] == r
    ensures Inv(t) && (d, p) in t.loaded && t.loaded[(d, p)] == r
    decreases |steps|
  {
    hide Inv, Spared, Sparing, Apply, Enabled;
    if steps != [] {
      StepInv(s, steps[0]);
      StepSpared(s, steps[0], r);
      StepStays(s, steps[0], r, d, p);
      RunStays(Apply(s, steps[0]), steps[1..], t, r, d, p);
    }
  }

  /** A resident model stays where it is through any number of other leases, on its devices too, as long as
      their roles are different and neither side is exclusive. */
  lemma ResidentStays(s: State, steps: seq<Step>, t: State, d: Device, p: Role)
    requires Reachable(s) && (d, p) in s.loaded
    requires Spared(s, s.loaded[(d, p)]) && SparingRun(s, steps, t, s.loaded[(d, p)])
    ensures (d, p) in t.loaded && t.loaded[(d, p)] == s.loaded[(d, p)]
  {
    ReachableInv(s);
    RunStays(s, steps, t, s.loaded[(d, p)], d, p);
  }

  /** One such lease after the other on one device: when the second model is in use the first is still there. */
  lemma BothStayResident(s: State, x: LeaseId, steps: seq<Step>, t: State, y: LeaseId, d: Device)
    requires Reachable(s) && x in s.leases && s.leases[x].phase.Active? && d in s.leases[x].devices
    requires Spared(Apply(s, Exit(x)), s.leases[x].phase.record)
    requires SparingRun(Apply(s, Exit(x)), steps, t, s.leases[x].phase.record)
    requires y in t.leases && t.leases[y].phase.Active? && d in t.leases[y].devices
    ensures (d, s.leases[x].role) in t.loaded && t.loaded[(d, s.leases[x].role)] == s.leases[x].phase.record
    ensures (d, t.leases[y].role) in t.loaded && t.loaded[(d, t.leases[y].role)] == t.leases[y].phase.record
  {
    ReachableInv(s);
    StepInv(s, Exit(x));
    assert LeaseSane(s.leases[x], s.loaded);
    RunStays(Apply(s, Exit(x)), steps, t, s.leases[x].phase.record, d, s.leases[x].role);
    assert LeaseSane(t.leases[y], t.loaded);
  }
}
