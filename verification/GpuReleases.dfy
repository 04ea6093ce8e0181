/** When a model in use can be released: leases of one model with different device lists. */
module GpuReleases {
  import opened GpuResidency

  function RequestOf(l: Lease): Request {
    Request(l.role, l.key, l.devices, l.exclusive)
  }

  function RequestFor(r: Record): Request {
    Request(r.role, r.key, r.devices, r.exclusive)
  }

  /** Everything in the state stems from these requests. */
  ghost predicate Sourced(reqs: iset<Request>, s: State) {
    && (forall x: LeaseId :: x in s.leases ==> RequestOf(s.leases[x]) in reqs)
    && (forall x: LeaseId, r :: x in s.leases && r in Pending(s.leases[x].phase) ==> RequestFor(r) in reqs)
    && (forall k :: k in s.loaded ==> RequestFor(s.loaded[k]) in reqs)
  }

  /** Runs in which all leases are asked for by these requests. */
  ghost predicate RunOf(reqs: iset<Request>, s: State, steps: seq<Step>, t: State) {
    && Run(s, steps, t)
    && forall i :: 0 <= i < |steps| && steps[i].Enter? ==> steps[i].request in reqs
  }

  ghost predicate ReachableBy(reqs: iset<Request>, t: State) {
    exists steps: seq<Step> :: RunOf(reqs, Init(), steps, t)
  }

  lemma TableSourced(reqs: iset<Request>, s: State, step: Step)
    requires Sourced(reqs, s) && Enabled(s, step)
    ensures forall k :: k in Apply(s, step).loaded ==> RequestFor(Apply(s, step).loaded[k]) in reqs
  {
    hide Conflicts, CoResident, ResidentOn, Unlocked, Increasing;
    match step
    case Evict(_, _) =>
    case Register(x) => assert RequestOf(s.leases[x]) in reqs;
    case _ => assert Apply(s, step).loaded == s.loaded;
  }

  lemma FoundSourced(reqs: iset<Request>, s: State, devices: seq<Device>, r: Record)
    requires Sourced(reqs, s) && r in ResidentOn(s.loaded, devices)
    ensures RequestFor(r) in reqs
  {
  }

  lemma StepSourced(reqs: iset<Request>, s: State, step: Step)
    requires Sourced(reqs, s) && Enabled(s, step) && (step.Enter? ==> step.request in reqs)
    ensures Sourced(reqs, Apply(s, step))
  {
    hide Conflicts, CoResident, ResidentOn, Popped, Put, Unlocked, Increasing;
    TableSourced(reqs, s, step);
    if step.FindConflicts? || step.FindCoResidents? {
      forall r | r in ResidentOn(s.loaded, s.leases[step.lease].devices) ensures RequestFor(r) in reqs {
        FoundSourced(reqs, s, s.leases[step.lease].devices, r);
      }
    }
    var t := Apply(s, step);
    forall x: LeaseId, r | x in t.leases && r in Pending(t.leases[x].phase) ensures RequestFor(r) in reqs {
      if x in s.leases && r !in Pending(s.leases[x].phase) {
        assert x == step.lease;
      }
    }
  }

  lemma {:induction false} RunSourced(reqs: iset<Request>, s: State, steps: seq<Step>, t: State)
    requires Sourced(reqs, s) && RunOf(reqs, s, steps, t)
    ensures Sourced(reqs, t)
    decreases |steps|
  {
    hide Sourced, Apply, Enabled;
    if steps != [] {
      StepSourced(reqs, s, steps[0]);
      RunSourced(reqs, Apply(s, steps[0]), steps[1..], t);
    }
  }

  lemma BySourced(reqs: iset<Request>, t: State)
    requires ReachableBy(reqs, t)
    ensures Sourced(reqs, t) && Reachable(t)
  {
    var steps: seq<Step> :| RunOf(reqs, Init(), steps, t);
    RunSourced(reqs, Init(), steps, t);
  }

  // --- The condition ---

  predicate OneModel(a: Request, b: Request) {
    a.role == b.role && a.key == b.key
  }

  predicate Share(a: Request, b: Request) {
    exists d :: d in a.devices && d in b.devices
  }

  /** A model is asked for on two device lists, and another model on devices that meet the one list and
      avoid the other. */
  ghost predicate Crossing(reqs: iset<Request>) {
    exists a, b, c :: a in reqs && b in reqs && c in reqs && Crosses(a, b, c)
  }

  predicate Crosses(a: Request, b: Request, c: Request) {
    OneModel(a, b) && !OneModel(a, c) && Share(a, c) && !Share(b, c)
  }

  /** Some lease is about to release the model of a lease in progress. */
  predicate ReleasesUsed(s: State, x: LeaseId, r: Record, y: LeaseId) {
    && x in s.leases && r in Pending(s.leases[x].phase)
    && y in s.leases && InProgress(s.leases[y]) && SameModel(r, s.leases[y])
  }

  lemma ReleaseCrosses(reqs: iset<Request>, s: State, x: LeaseId, r: Record, y: LeaseId)
    requires Sourced(reqs, s) && Inv(s) && ReleasesUsed(s, x, r, y)
    ensures Crossing(reqs)
  {
    hide Compatible, Placed;
    var a, b, c := RequestFor(r), RequestOf(s.leases[y]), RequestOf(s.leases[x]);
    assert LeaseSane(s.leases[x], s.loaded) && PendingMeet(s.leases[x]);
    assert Meets(r, s.leases[x].devices);
    if x != y {
      HoldersAreApart(s, x, y);
    }
    assert Crosses(a, b, c);
  }

  // --- A run that releases a model in use ---

  lemma {:induction false} RunConcat(reqs: iset<Request>, s: State, a: seq<Step>, t: State, b: seq<Step>, u: State)
    requires RunOf(reqs, s, a, t) && RunOf(reqs, t, b, u)
    ensures RunOf(reqs, s, a + b, u)
    decreases |a|
  {
    hide Apply, Enabled;
    if a == [] {
      assert a + b == b;
    } else {
      RunConcat(reqs, Apply(s, a[0]), a[1..], t, b, u);
      assert (a + b)[1..] == a[1..] + b;
    }
  }

  lemma OneStep(reqs: iset<Request>, s: State, step: Step)
    requires Enabled(s, step) && (step.Enter? ==> step.request in reqs)
    ensures RunOf(reqs, s, [step], Apply(s, step))
  {
    hide Apply, Enabled;
    assert [step][1..] == [] && Run(Apply(s, step), [], Apply(s, step));
  }

  lemma Then(reqs: iset<Request>, s: State, a: seq<Step>, t: State, step: Step) returns (steps: seq<Step>)
    requires RunOf(reqs, s, a, t) && Enabled(t, step) && (step.Enter? ==> step.request in reqs)
    ensures RunOf(reqs, s, steps, Apply(t, step))
  {
    OneStep(reqs, t, step);
    RunConcat(reqs, s, a, t, [step], Apply(t, step));
    steps := a + [step];
  }

  function LeaseOf(q: Request, p: Phase): Lease {
    Lease(q.role, q.key, q.devices, q.exclusive, p)
  }

  /** `t` is `s` with lease `x` in phase `p`, its devices locked, and this table. */
  ghost predicate Holding(s: State, t: State, x: LeaseId, q: Request, p: Phase, loaded: Residency) {
    && t.leases == s.leases[x := LeaseOf(q, p)] && t.loaded == loaded
    && forall d :: d in t.holder <==> d in s.holder || d in q.devices
  }

  lemma {:induction false} AcquireRest(reqs: iset<Request>, s: State, x: LeaseId, q: Request, i: nat)
    returns (steps: seq<Step>, t: State)
    requires i <= |q.devices| && Increasing(q.devices) && x in s.leases && s.leases[x] == LeaseOf(q, Acquiring(i))
    requires forall k :: i <= k < |q.devices| ==> q.devices[k] !in s.holder
    requires forall k :: 0 <= k < i ==> q.devices[k] in s.holder
    ensures RunOf(reqs, s, steps, t) && Holding(s, t, x, q, Acquiring(|q.devices|), s.loaded)
    decreases |q.devices| - i
  {
    if i == |q.devices| {
      steps, t := [], s;
      assert s.leases[x := s.leases[x]] == s.leases;
    } else {
      var step := Acquire(x);
      var rest: seq<Step>;
      OneStep(reqs, s, step);
      rest, t := AcquireRest(reqs, Apply(s, step), x, q, i + 1);
      RunConcat(reqs, s, [step], Apply(s, step), rest, t);
      steps := [step] + rest;
      assert Apply(s, step).leases[x := LeaseOf(q, Acquiring(|q.devices|))]
        == s.leases[x := LeaseOf(q, Acquiring(|q.devices|))];
    }
  }

  // Enters, takes all locks and looks for conflicts.
  lemma Search(reqs: iset<Request>, s: State, x: LeaseId, q: Request) returns (steps: seq<Step>, t: State)
    requires q in reqs && Increasing(q.devices) && x !in s.leases && forall d :: d in q.devices ==> d !in s.holder
    ensures RunOf(reqs, s, steps, t)
    ensures var l := LeaseOf(q, Ended);
      Holding(s, t, x, q, Evicting(set r | r in ResidentOn(s.loaded, q.devices) && Conflicts(r, l)), s.loaded)
  {
    hide ResidentOn, Conflicts, RunOf, Increasing;
    var enter := Enter(x, q);
    OneStep(reqs, s, enter);
    var rest, u := AcquireRest(reqs, Apply(s, enter), x, q, 0);
    RunConcat(reqs, s, [enter], Apply(s, enter), rest, u);
    assert u.leases == s.leases[x := LeaseOf(q, Acquiring(|q.devices|))];
    steps := Then(reqs, s, [enter] + rest, u, FindConflicts(x));
    t := Apply(u, FindConflicts(x));
    SameConflicts(s.loaded, q, u.leases[x]);
    assert t.leases == s.leases[x := t.leases[x]];
  }

  lemma SameConflicts(loaded: Residency, q: Request, l: Lease)
    requires RequestOf(l) == q
    ensures (set r | r in ResidentOn(loaded, q.devices) && Conflicts(r, l))
      == (set r | r in ResidentOn(loaded, q.devices) && Conflicts(r, LeaseOf(q, Ended)))
  {
    hide ResidentOn;
  }

  // Where nothing conflicts, the model is registered.
  lemma Activate(reqs: iset<Request>, s: State, x: LeaseId, q: Request) returns (steps: seq<Step>, t: State, r: Record)
    requires q in reqs && Increasing(q.devices) && x !in s.leases && forall d :: d in q.devices ==> d !in s.holder
    requires forall c :: c in ResidentOn(s.loaded, q.devices) ==> !Conflicts(c, LeaseOf(q, Ended))
    ensures RunOf(reqs, s, steps, t) && RequestFor(r) == q && Holding(s, t, x, q, Active(r), Put(s.loaded, r))
  {
    var before, u := Search(reqs, s, x, q);
    assert u.leases[x].phase.pending == {};
    steps := Then(reqs, s, before, u, Register(x));
    t := Apply(u, Register(x));
    r := t.leases[x].phase.record;
  }

  lemma Leave(reqs: iset<Request>, s: State, x: LeaseId) returns (t: State)
    requires x in s.leases && s.leases[x].phase.Active? && LocksMatch(s)
    ensures Enabled(s, Exit(x)) && t == Apply(s, Exit(x)) && t.loaded == s.loaded && t.leases.Keys == s.leases.Keys
    ensures s.leases.Keys == {x} ==> t.holder == map[]
  {
    t := Apply(s, Exit(x));
    forall d: Device | d in s.holder && s.leases.Keys == {x} ensures s.holder[d] == x {
      assert Holds(s, s.holder[d], d);
    }
  }

  // One model loaded on `a`, then again on `b`, where it is in use.
  lemma LoadTwice(reqs: iset<Request>, a: Request, b: Request)
    returns (steps: seq<Step>, s: State, ra: Record, rb: Record)
    requires a in reqs && b in reqs && OneModel(a, b) && Increasing(a.devices) && Increasing(b.devices)
    ensures RunOf(reqs, Init(), steps, s) && RequestFor(ra) == a && RequestFor(rb) == b
    ensures s.leases.Keys == {0, 1} && s.leases[1] == LeaseOf(b, Active(rb))
    ensures s.loaded == Put(Put(map[], ra), rb)
    ensures forall d :: d in s.holder ==> d in b.devices
  {
    hide Put, LocksMatch, Increasing, RunOf;
    var first, s1: State;
    first, s1, ra := Activate(reqs, Init(), 0, a);
    AfterRun(reqs, first, s1);
    var s2 := Leave(reqs, s1, 0);
    var second := Then(reqs, Init(), first, s1, Exit(0));
    SameModelOnly(ra, b);
    var third: seq<Step>;
    third, s, rb := Activate(reqs, s2, 1, b);
    RunConcat(reqs, Init(), second, s2, third, s);
    steps := second + third;
  }

  lemma AfterRun(reqs: iset<Request>, steps: seq<Step>, s: State)
    requires RunOf(reqs, Init(), steps, s)
    ensures Inv(s)
  {
    assert Reachable(s);
    ReachableInv(s);
  }

  lemma SameModelOnly(ra: Record, b: Request)
    requires ra.role == b.role && ra.key == b.key
    ensures forall c :: c in ResidentOn(Put(map[], ra), b.devices) ==> c == ra && !Conflicts(c, LeaseOf(b, Ended))
  {
  }

  lemma StillThere(ra: Record, rb: Record, a: Request, b: Request, c: Request)
    requires RequestFor(ra) == a && RequestFor(rb) == b && Crosses(a, b, c)
    ensures var loaded := Put(Put(map[], ra), rb);
      && ra in ResidentOn(loaded, c.devices)
      && (forall r :: r in ResidentOn(loaded, c.devices) ==> r == ra)
  {
    var loaded := Put(Put(map[], ra), rb);
    var d :| d in a.devices && d in c.devices;
    assert d !in b.devices;
    assert (d, a.role) in loaded && loaded[(d, a.role)] == ra;
    forall k | k in loaded && k.0 in c.devices ensures loaded[k] == ra {
      assert k.0 !in b.devices;
    }
  }

  lemma StillBeside(loaded: Residency, ra: Record, rc: Record, devices: seq<Device>)
    requires Placed(loaded) && ra in ResidentOn(loaded, devices) && ra.role != rc.role
    ensures ra in ResidentOn(Put(loaded, rc), devices)
  {
    var k :| k in loaded && k.0 in devices && loaded[k] == ra;
    assert k.1 == ra.role;
    assert k in Put(loaded, rc) && Put(loaded, rc)[k] == ra;
  }

  /** Requests that cross can be served so that a lease releases a model another lease uses. */
  lemma CrossingReleases(reqs: iset<Request>, a: Request, b: Request, c: Request) returns (s: State, r: Record)
    requires a in reqs && b in reqs && c in reqs && Crosses(a, b, c)
    requires Increasing(a.devices) && Increasing(b.devices) && Increasing(c.devices)
    ensures ReachableBy(reqs, s) && ReleasesUsed(s, 2, r, 1)
  {
    hide Put, Increasing, RunOf, ResidentOn;
    var steps, t, ra, rb := LoadTwice(reqs, a, b);
    r := ra;
    StillThere(ra, rb, a, b, c);
    AfterRun(reqs, steps, t);
    var more: seq<Step>;
    if Conflicts(ra, LeaseOf(c, Ended)) {
      more, s := Search(reqs, t, 2, c);
      RunConcat(reqs, Init(), steps, t, more, s);
    } else {
      var u: State, rc: Record;
      more, u, rc := Activate(reqs, t, 2, c);
      RunConcat(reqs, Init(), steps, t, more, u);
      StillBeside(t.loaded, ra, rc, c.devices);
      var all := Then(reqs, Init(), steps + more, u, FindCoResidents(2));
      s := Apply(u, FindCoResidents(2));
    }
  }

  ghost predicate NeverReleasesUsed(reqs: iset<Request>) {
    forall s: State, x: LeaseId, r: Record, y: LeaseId :: ReachableBy(reqs, s) ==> !ReleasesUsed(s, x, r, y)
  }

  /** No run releases a model that is in use, exactly if the requests do not cross: no model is asked for on
      two device lists of which another model's devices meet one and avoid the other. */
  lemma SafeExactlyWhenNotCrossing(reqs: iset<Request>)
    requires forall q :: q in reqs ==> Increasing(q.devices)
    ensures NeverReleasesUsed(reqs) <==> !Crossing(reqs)
  {
    hide Crosses, ReleasesUsed, Increasing, ReachableBy, Sourced, Inv;
    if a, b, c :| a in reqs && b in reqs && c in reqs && Crosses(a, b, c) {
      var s, r := CrossingReleases(reqs, a, b, c);
    } else {
      forall s: State, x: LeaseId, r: Record, y: LeaseId | ReachableBy(reqs, s) ensures !ReleasesUsed(s, x, r, y) {
        BySourced(reqs, s);
        ReachableInv(s);
        if ReleasesUsed(s, x, r, y) {
          ReleaseCrosses(reqs, s, x, r, y);
        }
      }
    }
  }

  // --- One device list per model ---

  ghost predicate Uniform(reqs: iset<Request>) {
    forall a, b :: a in reqs && b in reqs && OneModel(a, b) ==> a.devices == b.devices
  }

  lemma PoppedWhole(loaded: Residency, r: Record)
    requires Placed(loaded) && Whole(loaded)
    ensures Whole(Popped(loaded, r))
  {
  }

  lemma PutWhole(loaded: Residency, r: Record, l: Lease)
    requires Placed(loaded) && Whole(loaded)
    requires r.role == l.role && r.devices == l.devices
    requires forall k :: k in loaded && k.0 in l.devices && k.1 == l.role ==> loaded[k].devices == l.devices
    ensures Whole(Put(loaded, r))
  {
    var after := Put(loaded, r);
    forall k, d: Device | k in after && d in after[k].devices ensures (d, k.1) in after && after[(d, k.1)] == after[k] {
      if !(k.1 == r.role && k.0 in r.devices) {
        assert after[k] == loaded[k] && loaded[(d, k.1)] == loaded[k];
      }
    }
  }

  lemma RegisterWhole(reqs: iset<Request>, s: State, x: LeaseId)
    requires Uniform(reqs) && Sourced(reqs, s) && Inv(s) && Whole(s.loaded) && Enabled(s, Register(x))
    ensures Whole(Apply(s, Register(x)).loaded)
  {
    hide Put, LocksMatch, Compatible, Whole;
    var l := s.leases[x];
    assert LeaseSane(l, s.loaded);
    forall k | k in s.loaded && k.0 in l.devices && k.1 == l.role ensures s.loaded[k].devices == l.devices {
      assert s.loaded[k] in ResidentOn(s.loaded, l.devices);
      assert OneModel(RequestFor(s.loaded[k]), RequestOf(l));
    }
    PutWhole(s.loaded, Record(l.role, l.key, l.devices, l.exclusive, s.next), l);
  }

  lemma {:induction false} RunWhole(reqs: iset<Request>, s: State, steps: seq<Step>, t: State)
    requires Uniform(reqs) && Sourced(reqs, s) && Inv(s) && Whole(s.loaded) && RunOf(reqs, s, steps, t)
    ensures Whole(t.loaded)
    decreases |steps|
  {
    if steps != [] {
      var step := steps[0];
      StepWhole(reqs, s, step);
      hide Uniform, Sourced, Inv, Whole, Apply, Enabled;
      StepSourced(reqs, s, step);
      StepInv(s, step);
      RunWhole(reqs, Apply(s, step), steps[1..], t);
    }
  }

  lemma StepWhole(reqs: iset<Request>, s: State, step: Step)
    requires Uniform(reqs) && Sourced(reqs, s) && Inv(s) && Whole(s.loaded) && Enabled(s, step)
    ensures Whole(Apply(s, step).loaded)
  {
    hide Uniform, Sourced, Whole, LocksMatch, Placed, Compatible, Popped, Put, Conflicts, CoResident, ResidentOn;
    match step
    case Evict(_, r) => PoppedWhole(s.loaded, r);
    case Register(x) => RegisterWhole(reqs, s, x);
    case _ => assert Apply(s, step).loaded == s.loaded;
  }

  /** If every model is asked for on one device list, records are on all of their devices
      or on none, and no model in use is ever released. */
  lemma UniformIsSafe(reqs: iset<Request>, s: State)
    requires Uniform(reqs) && ReachableBy(reqs, s)
    ensures Whole(s.loaded)
    ensures forall x: LeaseId, r: Record, y: LeaseId :: !ReleasesUsed(s, x, r, y)
  {
    hide Whole, ReleasesUsed, Sourced, Inv;
    var steps: seq<Step> :| RunOf(reqs, Init(), steps, s);
    assert Inv(Init()) && Sourced(reqs, Init()) && Whole(Init().loaded) by { Begin(reqs); }
    RunWhole(reqs, Init(), steps, s);
    BySourced(reqs, s);
    ReachableInv(s);
    forall x: LeaseId, r: Record, y: LeaseId ensures !ReleasesUsed(s, x, r, y) {
      if ReleasesUsed(s, x, r, y) {
        ReleaseCrosses(reqs, s, x, r, y);
        assert false;
      }
    }
  }

  lemma Begin(reqs: iset<Request>)
    ensures Inv(Init()) && Sourced(reqs, Init()) && Whole(Init().loaded)
  {
  }
}
