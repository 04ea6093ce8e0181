/** Every lease can be brought to its end: whoever holds the greatest device has nothing left to wait for. */
module GpuProgress {
  import opened GpuResidency
  import opened GpuReleases

  // Runs in which no lease is entered.
  const NONE: iset<Request> := iset{}

  predicate AllEnded(s: State) {
    forall x :: x in s.leases ==> s.leases[x].phase == Ended
  }

  function UnfinishedIn(s: State): set<LeaseId> {
    set x | x in s.leases && s.leases[x].phase != Ended
  }

  lemma Greatest(devices: set<Device>) returns (top: Device)
    requires devices != {}
    ensures top in devices && forall d :: d in devices ==> d <= top
    decreases devices
  {
    var d :| d in devices;
    var rest := devices - {d};
    top := d;
    if rest != {} {
      var t := Greatest(rest);
      top := if t > d then t else d;
    }
    assert devices == rest + {d};
  }

  /** What the lease still has to lock is free. */
  ghost predicate Clear(s: State, x: LeaseId) {
    && Unfinished(s, x)
    && forall i :: Got(s.leases[x]) <= i < |s.leases[x].devices| ==> s.leases[x].devices[i] !in s.holder
  }

  lemma SomeoneIsClear(s: State, x: LeaseId) returns (y: LeaseId)
    requires LocksMatch(s) && Unfinished(s, x)
    ensures Clear(s, y)
  {
    if s.holder == map[] {
      y := x;
    } else {
      var top := Greatest(s.holder.Keys);
      y := s.holder[top];
      assert Holds(s, y, top);
      var l := s.leases[y];
      var k :| 0 <= k < Got(l) && l.devices[k] == top;
      assert forall i :: Got(l) <= i < |l.devices| ==> l.devices[i] > top;
    }
  }

  /** `t` is `s` with lease `x` in phase `p`. */
  ghost predicate Moved(s: State, t: State, x: LeaseId, p: Phase) {
    x in s.leases && t.leases == s.leases[x := s.leases[x].(phase := p)]
  }

  lemma TakeAll(s: State, x: LeaseId) returns (steps: seq<Step>, t: State)
    requires LocksMatch(s) && Clear(s, x) && s.leases[x].phase.Acquiring?
    ensures RunOf(NONE, s, steps, t) && Moved(s, t, x, Acquiring(|s.leases[x].devices|))
  {
    var l := s.leases[x];
    var q := RequestOf(l);
    forall k | 0 <= k < l.phase.got ensures q.devices[k] in s.holder {
      assert Holds(s, x, q.devices[k]);
    }
    steps, t := AcquireRest(NONE, s, x, q, l.phase.got);
  }

  lemma {:induction false} EvictAll(s: State, x: LeaseId) returns (steps: seq<Step>, t: State)
    requires x in s.leases && s.leases[x].phase.Evicting?
    ensures RunOf(NONE, s, steps, t) && Moved(s, t, x, Evicting({}))
    decreases s.leases[x].phase.pending
  {
    var pending := s.leases[x].phase.pending;
    if r :| r in pending {
      var step := Evict(x, r);
      var rest: seq<Step>;
      OneStep(NONE, s, step);
      rest, t := EvictAll(Apply(s, step), x);
      RunConcat(NONE, s, [step], Apply(s, step), rest, t);
      steps := [step] + rest;
      assert Apply(s, step).leases[x := s.leases[x].(phase := Evicting({}))]
        == s.leases[x := s.leases[x].(phase := Evicting({}))];
    } else {
      assert pending == {};
      assert s.leases[x := s.leases[x]] == s.leases;
      steps, t := [], s;
    }
  }

  // From all locks to the end.
  lemma EndHolder(s: State, x: LeaseId) returns (steps: seq<Step>, t: State)
    requires x in s.leases && InProgress(s.leases[x])
    ensures RunOf(NONE, s, steps, t) && Moved(s, t, x, Ended)
  {
    hide RunOf, Enabled;
    var u := s;
    steps := [];
    assert RunOf(NONE, s, [], s) by { Nothing(s); }
    if s.leases[x].phase.Evicting? {
      var more: seq<Step>;
      more, u := EvictAll(s, x);
      Next(u, x);
      steps := Then(NONE, s, more, u, Register(x));
      u := Apply(u, Register(x));
    }
    Next(u, x);
    steps := Then(NONE, s, steps, u, Exit(x));
    t := Apply(u, Exit(x));
    assert t.leases == s.leases[x := s.leases[x].(phase := Ended)];
  }

  lemma Nothing(s: State)
    ensures RunOf(NONE, s, [], s)
  {
  }

  // What a lease that holds its locks can do next.
  lemma Next(s: State, x: LeaseId)
    requires x in s.leases
    ensures s.leases[x].phase == Evicting({}) ==> Enabled(s, Register(x))
    ensures s.leases[x].phase.Active? || s.leases[x].phase.CoEvicting? ==> Enabled(s, Exit(x))
    ensures s.leases[x].phase == Acquiring(|s.leases[x].devices|) ==> Enabled(s, FindConflicts(x))
  {
  }

  /** A lease whose remaining devices are free can run to its end while all others stand still. */
  lemma EndOne(s: State, x: LeaseId) returns (steps: seq<Step>, t: State)
    requires LocksMatch(s) && Clear(s, x)
    ensures RunOf(NONE, s, steps, t) && Moved(s, t, x, Ended)
  {
    hide RunOf, Enabled, LocksMatch;
    if s.leases[x].phase.Acquiring? {
      var first, u := TakeAll(s, x);
      Next(u, x);
      var second := Then(NONE, s, first, u, FindConflicts(x));
      var v := Apply(u, FindConflicts(x));
      var rest: seq<Step>;
      rest, t := EndHolder(v, x);
      RunConcat(NONE, s, second, v, rest, t);
      steps := second + rest;
      assert t.leases == s.leases[x := s.leases[x].(phase := Ended)];
    } else {
      steps, t := EndHolder(s, x);
    }
  }

  lemma {:induction false} EndAll(s: State) returns (steps: seq<Step>, t: State)
    requires Inv(s)
    ensures RunOf(NONE, s, steps, t) && AllEnded(t) && t.leases.Keys == s.leases.Keys && Inv(t)
    decreases UnfinishedIn(s)
  {
    hide RunOf, Inv;
    assert LocksMatch(s) by { HasLocks(s); }
    hide LocksMatch;
    if x :| x in UnfinishedIn(s) {
      var y := SomeoneIsClear(s, x);
      var first, u := EndOne(s, y);
      KeepsInv(s, first, u);
      assert UnfinishedIn(u) == UnfinishedIn(s) - {y};
      var rest: seq<Step>;
      rest, t := EndAll(u);
      RunConcat(NONE, s, first, u, rest, t);
      steps := first + rest;
    } else {
      assert forall x :: x in s.leases && s.leases[x].phase != Ended ==> x in UnfinishedIn(s);
      Nothing(s);
      steps, t := [], s;
    }
  }

  lemma HasLocks(s: State)
    requires Inv(s)
    ensures LocksMatch(s)
  {
  }

  lemma KeepsInv(s: State, steps: seq<Step>, t: State)
    requires Inv(s) && RunOf(NONE, s, steps, t)
    ensures Inv(t)
  {
    RunInv(s, steps, t);
  }

  // Whoever holds a device is not at its end.
  lemma HolderExists(s: State, d: Device)
    requires LocksMatch(s) && d in s.holder
    ensures s.holder[d] in s.leases && s.leases[s.holder[d]].phase != Ended
  {
    assert Holds(s, s.holder[d], d);
  }

  lemma EndedHoldNothing(s: State)
    requires LocksMatch(s) && AllEnded(s)
    ensures s.holder == map[]
  {
    forall d: Device ensures d !in s.holder {
      if d in s.holder {
        HolderExists(s, d);
      }
    }
  }

  /** From every reachable state some run that enters no lease ends every lease and frees every device. */
  lemma EveryLeaseCanEnd(s: State) returns (steps: seq<Step>, t: State)
    requires Reachable(s)
    ensures Run(s, steps, t) && forall i :: 0 <= i < |steps| ==> !steps[i].Enter?
    ensures t.leases.Keys == s.leases.Keys && AllEnded(t) && t.holder == map[]
  {
    hide Inv;
    ReachableInv(s);
    steps, t := EndAll(s);
    assert LocksMatch(t) by { HasLocks(t); }
    EndedHoldNothing(t);
  }
}
