/** Which models are resident on which GPU: leases take per-device locks in order, evict what they
    conflict with, register their model and release. Every await is a point where others may run. */
module GpuResidency {

  type Device = nat
  type Role = nat
  type ModelKey = nat
  type LeaseId = nat

  /** A `LoadedGpuModel`; `id` is the identity of the object. */
  datatype Record = Record(role: Role, key: ModelKey, devices: seq<Device>, exclusive: bool, id: nat)

  // At most one record per device and role.
  type Residency = map<(Device, Role), Record>

  datatype Phase =
    | Acquiring(got: nat)            // holds the first `got` locks
    | Evicting(pending: set<Record>) // holds all locks, conflicting records still to remove
    | Active(record: Record)
    | CoEvicting(record: Record, pending: set<Record>)
    | Ended

  /** What a lease is constructed with, its device ids normalized. Nothing ties a model to one list. */
  datatype Request = Request(role: Role, key: ModelKey, devices: seq<Device>, exclusive: bool)

  datatype Lease = Lease(role: Role, key: ModelKey, devices: seq<Device>, exclusive: bool, phase: Phase)

  datatype State = State(leases: map<LeaseId, Lease>, holder: map<Device, LeaseId>, loaded: Residency, next: nat)

  datatype Step =
    | Enter(lease: LeaseId, request: Request)
    | Acquire(lease: LeaseId)
    | FindConflicts(lease: LeaseId)
    | Evict(lease: LeaseId, record: Record)
    | EvictFails(lease: LeaseId)
    | Register(lease: LeaseId)
    | FindCoResidents(lease: LeaseId)
    | FinishCoEviction(lease: LeaseId)
    | Exit(lease: LeaseId)

  predicate SameModel(r: Record, l: Lease) {
    r.role == l.role && r.key == l.key
  }

  /** What a lease must remove before it registers. */
  predicate Conflicts(r: Record, l: Lease) {
    !SameModel(r, l) && (r.role == l.role || r.exclusive || l.exclusive)
  }

  predicate CoResident(r: Record, l: Lease) {
    r.role != l.role && !r.exclusive
  }

  function ResidentOn(loaded: Residency, devices: seq<Device>): set<Record> {
    set k | k in loaded && k.0 in devices :: loaded[k]
  }

  function PoppedFrom(loaded: Residency, r: Record, devices: seq<Device>): Residency {
    map k | k in loaded && !(loaded[k] == r && k.1 == r.role && k.0 in devices) :: loaded[k]
  }

  function Popped(loaded: Residency, r: Record): Residency {
    PoppedFrom(loaded, r, r.devices)
  }

  function PutOn(loaded: Residency, r: Record, devices: seq<Device>): Residency {
    map k | k in loaded.Keys + (set d | d in devices :: (d, r.role)) ::
      if k.1 == r.role && k.0 in devices then r else loaded[k]
  }

  function Put(loaded: Residency, r: Record): Residency {
    PutOn(loaded, r, r.devices)
  }

  function Unlocked(holder: map<Device, LeaseId>, x: LeaseId): map<Device, LeaseId> {
    map d | d in holder && holder[d] != x :: holder[d]
  }

  function Init(): State {
    State(map[], map[], map[], 0)
  }

  function Pending(p: Phase): set<Record> {
    match p
    case Evicting(pending) => pending
    case CoEvicting(_, pending) => pending
    case _ => {}
  }

  predicate Enabled(s: State, step: Step) {
    match step
    case Enter(x, req) => x !in s.leases && Increasing(req.devices)
    case Acquire(x) =>
      && x in s.leases && s.leases[x].phase.Acquiring? && s.leases[x].phase.got < |s.leases[x].devices|
      && s.leases[x].devices[s.leases[x].phase.got] !in s.holder
    case FindConflicts(x) => x in s.leases && s.leases[x].phase == Acquiring(|s.leases[x].devices|)
    case Evict(x, r) => x in s.leases && r in Pending(s.leases[x].phase)
    case EvictFails(x) => x in s.leases && s.leases[x].phase.Evicting?
    case Register(x) => x in s.leases && s.leases[x].phase == Evicting({})
    case FindCoResidents(x) => x in s.leases && s.leases[x].phase.Active?
    case FinishCoEviction(x) => x in s.leases && s.leases[x].phase.CoEvicting? && s.leases[x].phase.pending == {}
    case Exit(x) => x in s.leases && (s.leases[x].phase.Active? || s.leases[x].phase.CoEvicting?)
  }

  function SetPhase(s: State, x: LeaseId, p: Phase): State
    requires x in s.leases
  {
    s.(leases := s.leases[x := s.leases[x].(phase := p)])
  }

  function Apply(s: State, step: Step): State
    requires Enabled(s, step)
  {
    match step
    case Enter(x, req) =>
      s.(leases := s.leases[x := Lease(req.role, req.key, req.devices, req.exclusive, Acquiring(0))])
    case Acquire(x) =>
      var l := s.leases[x];
      SetPhase(s, x, Acquiring(l.phase.got + 1)).(holder := s.holder[l.devices[l.phase.got] := x])
    case FindConflicts(x) =>
      var l := s.leases[x];
      SetPhase(s, x, Evicting(set r | r in ResidentOn(s.loaded, l.devices) && Conflicts(r, l)))
    case Evict(x, r) =>
      var rest := Pending(s.leases[x].phase) - {r};
      SetPhase(s, x, s.leases[x].phase.(pending := rest)).(loaded := Popped(s.loaded, r))
    case EvictFails(x) => SetPhase(s, x, Ended).(holder := Unlocked(s.holder, x))
    case Register(x) =>
      var l := s.leases[x];
      var r := Record(l.role, l.key, l.devices, l.exclusive, s.next);
      SetPhase(s, x, Active(r)).(loaded := Put(s.loaded, r), next := s.next + 1)
    case FindCoResidents(x) =>
      var l := s.leases[x];
      SetPhase(s, x, CoEvicting(l.phase.record, set r | r in ResidentOn(s.loaded, l.devices) && CoResident(r, l)))
    case FinishCoEviction(x) => SetPhase(s, x, Active(s.leases[x].phase.record))
    case Exit(x) => SetPhase(s, x, Ended).(holder := Unlocked(s.holder, x))
  }

  // --- The invariant ---

  predicate Increasing(devices: seq<Device>) {
    forall i, j :: 0 <= i < j < |devices| ==> devices[i] < devices[j]
  }

  function Got(l: Lease): nat {
    match l.phase
    case Acquiring(got) => got
    case Ended => 0
    case _ => |l.devices|
  }

  /** `x` holds the lock of `d`, according to where it stands. */
  predicate Holds(s: State, x: LeaseId, d: Device) {
    x in s.leases && Got(s.leases[x]) <= |s.leases[x].devices| && d in s.leases[x].devices[..Got(s.leases[x])]
  }

  ghost predicate LocksMatch(s: State) {
    && (forall x: LeaseId ::
        x in s.leases ==> Got(s.leases[x]) <= |s.leases[x].devices| && Increasing(s.leases[x].devices))
    && (forall x: LeaseId, d: Device :: Holds(s, x, d) <==> d in s.holder && s.holder[d] == x)
  }

  /** Records sit where they say. */
  ghost predicate Placed(loaded: Residency) {
    forall k :: k in loaded ==> loaded[k].role == k.1 && k.0 in loaded[k].devices
  }

  /** Records are on all of their devices or on none. */
  ghost predicate Whole(loaded: Residency) {
    forall k :: k in loaded ==>
      forall d: Device :: d in loaded[k].devices ==> (d, k.1) in loaded && loaded[(d, k.1)] == loaded[k]
  }

  /** Two records on one device are both non-exclusive. */
  ghost predicate Compatible(loaded: Residency) {
    forall d: Device, p: Role, q: Role :: (d, p) in loaded && (d, q) in loaded && p != q ==>
      !loaded[(d, p)].exclusive && !loaded[(d, q)].exclusive
  }

  predicate Meets(r: Record, devices: seq<Device>) {
    exists d :: d in r.devices && d in devices
  }

  predicate Owns(l: Lease, r: Record, loaded: Residency) {
    && r.role == l.role && r.key == l.key && r.devices == l.devices
    && forall d :: d in l.devices ==> (d, l.role) in loaded && loaded[(d, l.role)] == r
  }

  ghost predicate LeaseSane(l: Lease, loaded: Residency) {
    match l.phase
    case Evicting(pending) =>
      && (forall r :: r in pending ==> Conflicts(r, l))
      && (forall r :: r in ResidentOn(loaded, l.devices) && Conflicts(r, l) ==> r in pending)
    case Active(r) => Owns(l, r, loaded)
    case CoEvicting(r, pending) =>
      && Owns(l, r, loaded)
      && (forall c :: c in pending ==> CoResident(c, l))
      && (forall c :: c in ResidentOn(loaded, l.devices) && CoResident(c, l) ==> c in pending)
    case _ => true
  }

  ghost predicate PendingMeet(l: Lease) {
    forall r :: r in Pending(l.phase) ==> Meets(r, l.devices)
  }

  ghost predicate Inv(s: State) {
    && LocksMatch(s)
    && Placed(s.loaded)
    && Compatible(s.loaded)
    && (forall x: LeaseId :: x in s.leases ==> PendingMeet(s.leases[x]) && LeaseSane(s.leases[x], s.loaded))
  }

  // --- Locks ---

  // Two leases that both hold all their locks share no device.
  lemma HoldersAreApart(s: State, x: LeaseId, y: LeaseId)
    requires LocksMatch(s) && x in s.leases && y in s.leases && x != y
    requires Got(s.leases[x]) == |s.leases[x].devices| && Got(s.leases[y]) == |s.leases[y].devices|
    ensures forall d :: d in s.leases[x].devices ==> d !in s.leases[y].devices
  {
    forall d | d in s.leases[x].devices && d in s.leases[y].devices ensures false {
      assert Holds(s, x, d) && Holds(s, y, d);
    }
  }

  lemma AcquireLocks(s: State, x: LeaseId)
    requires LocksMatch(s) && Enabled(s, Acquire(x))
    ensures LocksMatch(Apply(s, Acquire(x)))
  {
    var t := Apply(s, Acquire(x));
    var l := s.leases[x];
    assert l.devices[..l.phase.got + 1] == l.devices[..l.phase.got] + [l.devices[l.phase.got]];
    forall y: LeaseId, d: Device ensures Holds(t, y, d) <==> d in t.holder && t.holder[d] == y {
      assert Holds(s, y, d) <==> d in s.holder && s.holder[d] == y;
    }
  }

  lemma UnlockLocks(s: State, x: LeaseId)
    requires LocksMatch(s) && x in s.leases
    ensures LocksMatch(SetPhase(s, x, Ended).(holder := Unlocked(s.holder, x)))
  {
    var t := SetPhase(s, x, Ended).(holder := Unlocked(s.holder, x));
    forall y: LeaseId, d: Device ensures Holds(t, y, d) <==> d in t.holder && t.holder[d] == y {
      assert Holds(s, y, d) <==> d in s.holder && s.holder[d] == y;
    }
  }

  // A phase change that neither takes nor gives up a lock.
  lemma KeepLocks(s: State, t: State, x: LeaseId, l: Lease)
    requires LocksMatch(s) && t.leases == s.leases[x := l] && t.holder == s.holder
    requires if x in s.leases
      then l.devices == s.leases[x].devices && Got(l) == Got(s.leases[x]) else Got(l) == 0 && Increasing(l.devices)
    ensures LocksMatch(t)
  {
    forall y: LeaseId, d: Device ensures Holds(t, y, d) <==> d in t.holder && t.holder[d] == y {
      assert Holds(s, y, d) <==> d in s.holder && s.holder[d] == y;
    }
  }

  lemma LocksStay(s: State, step: Step)
    requires LocksMatch(s) && Enabled(s, step)
    ensures LocksMatch(Apply(s, step))
  {
    hide LocksMatch, Conflicts, CoResident, ResidentOn, Popped, Put;
    match step
    case Acquire(x) => AcquireLocks(s, x);
    case EvictFails(x) => UnlockLocks(s, x);
    case Exit(x) => UnlockLocks(s, x);
    case _ => KeepLocks(s, Apply(s, step), step.lease, Apply(s, step).leases[step.lease]);
  }

  // --- Residency ---

  lemma PoppedKeeps(loaded: Residency, r: Record)
    requires Placed(loaded) && Compatible(loaded)
    ensures Placed(Popped(loaded, r)) && Compatible(Popped(loaded, r))
    ensures forall devices: seq<Device> :: ResidentOn(Popped(loaded, r), devices) == ResidentOn(loaded, devices) - {r}
  {
  }

  // Registering where nothing conflicts any more. The same model may be there with another device list.
  lemma PutKeeps(loaded: Residency, l: Lease, id: nat)
    requires Placed(loaded) && Compatible(loaded)
    requires forall r :: r in ResidentOn(loaded, l.devices) ==> !Conflicts(r, l)
    ensures var after := Put(loaded, Record(l.role, l.key, l.devices, l.exclusive, id));
      Placed(after) && Compatible(after)
  {
    forall k | k in loaded && k.0 in l.devices ensures !Conflicts(loaded[k], l) {
      assert loaded[k] in ResidentOn(loaded, l.devices);
    }
  }

  lemma ElsewhereUntouched(loaded: Residency, r: Record, devices: seq<Device>)
    requires forall d :: d in r.devices ==> d !in devices
    ensures ResidentOn(Put(loaded, r), devices) == ResidentOn(loaded, devices)
  {
  }

  // Evicting leaves every other lease in progress alone, whatever devices the record spans.
  lemma EvictSpares(s: State, x: LeaseId, r: Record, y: LeaseId)
    requires Inv(s) && Enabled(s, Evict(x, r)) && y in s.leases && y != x
    ensures LeaseSane(s.leases[y], Popped(s.loaded, r))
  {
    var l := s.leases[y];
    PoppedKeeps(s.loaded, r);
    assert LeaseSane(l, s.loaded);
    if l.phase.Active? || l.phase.CoEvicting? {
      HoldersAreApart(s, x, y);
      assert Meets(r, s.leases[x].devices);
      assert r != l.phase.record;
    }
  }

  lemma EvictOwn(s: State, x: LeaseId, r: Record)
    requires Inv(s) && Enabled(s, Evict(x, r))
    ensures var t := Apply(s, Evict(x, r)); LeaseSane(t.leases[x], t.loaded)
  {
    hide LocksMatch, Compatible, Meets, PendingMeet;
    PoppedKeeps(s.loaded, r);
    assert LeaseSane(s.leases[x], s.loaded);
  }

  lemma EvictInv(s: State, x: LeaseId, r: Record)
    requires Inv(s) && Enabled(s, Evict(x, r))
    ensures Inv(Apply(s, Evict(x, r)))
  {
    var t := Apply(s, Evict(x, r));
    LocksStay(s, Evict(x, r));
    PoppedKeeps(s.loaded, r);
    EvictOwn(s, x, r);
    forall y: LeaseId | y in t.leases && y != x ensures LeaseSane(t.leases[y], t.loaded) {
      EvictSpares(s, x, r, y);
    }
    hide LeaseSane, LocksMatch, Placed, Compatible, Popped, Conflicts, Meets;
  }

  lemma RegisterOwn(loaded: Residency, l: Lease, id: nat)
    ensures var r := Record(l.role, l.key, l.devices, l.exclusive, id);
      LeaseSane(l.(phase := Active(r)), Put(loaded, r))
  {
  }

  lemma RegisterInv(s: State, x: LeaseId)
    requires Inv(s) && Enabled(s, Register(x))
    ensures Inv(Apply(s, Register(x)))
  {
    hide LocksMatch, Placed, Compatible, Put, Conflicts, CoResident, Meets, ResidentOn, Owns;
    var t := Apply(s, Register(x));
    var l := s.leases[x];
    LocksStay(s, Register(x));
    assert LeaseSane(l, s.loaded);
    PutKeeps(s.loaded, l, s.next);
    RegisterOwn(s.loaded, l, s.next);
    hide LeaseSane;
    forall y: LeaseId | y in t.leases && y != x ensures LeaseSane(t.leases[y], t.loaded) {
      RegisterSpares(s, x, y);
    }
  }

  lemma RegisterSpares(s: State, x: LeaseId, y: LeaseId)
    requires Inv(s) && Enabled(s, Register(x)) && y in s.leases && y != x
    ensures LeaseSane(s.leases[y], Apply(s, Register(x)).loaded)
  {
    var l, m := s.leases[x], s.leases[y];
    var r := Record(l.role, l.key, l.devices, l.exclusive, s.next);
    assert LeaseSane(m, s.loaded);
    if Got(m) == |m.devices| {
      HoldersAreApart(s, x, y);
      ElsewhereUntouched(s.loaded, r, m.devices);
    }
  }

  // A phase change that leaves the table alone.
  lemma MoveInv(s: State, step: Step)
    requires Inv(s) && Enabled(s, step) && Apply(s, step).loaded == s.loaded
    requires var l := Apply(s, step).leases[step.lease]; PendingMeet(l) && LeaseSane(l, s.loaded)
    ensures Inv(Apply(s, step))
  {
    hide PendingMeet, LeaseSane, LocksMatch, Placed, Compatible, Conflicts, CoResident, ResidentOn, Popped, Put;
    LocksStay(s, step);
  }

  lemma ResidentMeets(loaded: Residency, devices: seq<Device>, r: Record)
    requires Placed(loaded) && r in ResidentOn(loaded, devices)
    ensures Meets(r, devices)
  {
    var k :| k in loaded && k.0 in devices && loaded[k] == r;
  }

  lemma FindInv(s: State, step: Step)
    requires Inv(s) && Enabled(s, step) && (step.FindConflicts? || step.FindCoResidents?)
    ensures Inv(Apply(s, step))
  {
    var x := step.lease;
    var l := Apply(s, step).leases[x];
    assert LeaseSane(s.leases[x], s.loaded);
    forall r | r in Pending(l.phase) ensures Meets(r, l.devices) {
      ResidentMeets(s.loaded, l.devices, r);
    }
    hide Meets, Placed, Conflicts, CoResident, ResidentOn;
    MoveInv(s, step);
  }

  /** Every step of every lease keeps the invariant. */
  lemma StepInv(s: State, step: Step)
    requires Inv(s) && Enabled(s, step)
    ensures Inv(Apply(s, step))
  {
    hide Conflicts, CoResident, ResidentOn, Popped, Put, Placed, Compatible, LocksMatch;
    match step
    case Evict(x, r) => EvictInv(s, x, r);
    case Register(x) => RegisterInv(s, x);
    case FindConflicts(_) => FindInv(s, step);
    case FindCoResidents(_) => FindInv(s, step);
    case FinishCoEviction(x) =>
      assert LeaseSane(s.leases[x], s.loaded);
      MoveInv(s, step);
    case _ => MoveInv(s, step);
  }

  // --- Whole runs ---

  ghost predicate Run(s: State, steps: seq<Step>, t: State)
    decreases |steps|
  {
    if steps == [] then s == t
    else Enabled(s, steps[0]) && Run(Apply(s, steps[0]), steps[1..], t)
  }

  lemma {:induction false} RunInv(s: State, steps: seq<Step>, t: State)
    requires Inv(s) && Run(s, steps, t)
    ensures Inv(t)
    decreases |steps|
  {
    if steps != [] {
      StepInv(s, steps[0]);
      RunInv(Apply(s, steps[0]), steps[1..], t);
    }
  }

  ghost predicate Reachable(t: State) {
    exists steps: seq<Step> :: Run(Init(), steps, t)
  }

  lemma ReachableInv(t: State)
    requires Reachable(t)
    ensures Inv(t)
  {
    var steps: seq<Step> :| Run(Init(), steps, t);
    RunInv(Init(), steps, t);
  }

  /** A lease that holds all its locks: its model is in use or about to be. */
  predicate InProgress(l: Lease) {
    l.phase.Evicting? || l.phase.Active? || l.phase.CoEvicting?
  }

  /** In every interleaving, distinct models on one device have different roles and none is exclusive. */
  lemma CoResidentsAreCompatible(s: State, d: Device, p: Role, q: Role)
    requires Reachable(s) && (d, p) in s.loaded && (d, q) in s.loaded && s.loaded[(d, p)] != s.loaded[(d, q)]
    ensures s.loaded[(d, p)].role != s.loaded[(d, q)].role
    ensures !s.loaded[(d, p)].exclusive && !s.loaded[(d, q)].exclusive
  {
    ReachableInv(s);
  }

  /** The model of an active lease is resident on all the lease's devices until the lease ends. */
  lemma ActiveStaysResident(s: State, x: LeaseId, d: Device)
    requires Reachable(s) && x in s.leases && (s.leases[x].phase.Active? || s.leases[x].phase.CoEvicting?)
    requires d in s.leases[x].devices
    ensures (d, s.leases[x].role) in s.loaded && s.loaded[(d, s.leases[x].role)] == s.leases[x].phase.record
  {
    ReachableInv(s);
    assert LeaseSane(s.leases[x], s.loaded);
  }

  /** What a lease is about to release is never the record of a lease in progress: if it is the same model at
      all, it was loaded for another device list. */
  lemma ReleasesOnlyUnused(s: State, x: LeaseId, r: Record, y: LeaseId)
    requires Reachable(s) && x in s.leases && r in Pending(s.leases[x].phase)
    requires y in s.leases && InProgress(s.leases[y])
    ensures SameModel(r, s.leases[y]) ==> r.devices != s.leases[y].devices
    ensures s.leases[y].phase.Active? || s.leases[y].phase.CoEvicting? ==> r != s.leases[y].phase.record
  {
    ReachableInv(s);
    assert LeaseSane(s.leases[x], s.loaded) && PendingMeet(s.leases[x]) && LeaseSane(s.leases[y], s.loaded);
    assert Meets(r, s.leases[x].devices);
    if y != x {
      HoldersAreApart(s, x, y);
    }
  }

  /** After a co-resident eviction the lease has its devices to itself. */
  lemma CoEvictionEmptiesDevices(s: State, x: LeaseId, d: Device, q: Role)
    requires Reachable(s) && x in s.leases && Enabled(s, FinishCoEviction(x))
    requires d in s.leases[x].devices && (d, q) in s.loaded
    ensures s.loaded[(d, q)] == s.leases[x].phase.record
  {
    ReachableInv(s);
    assert LeaseSane(s.leases[x], s.loaded);
    assert s.loaded[(d, q)] in ResidentOn(s.loaded, s.leases[x].devices);
  }

  // --- No deadlock ---

  predicate Unfinished(s: State, x: LeaseId) {
    x in s.leases && s.leases[x].phase != Ended
  }

  /** The lease can go on: take its next lock, or do whatever comes after its locks. */
  ghost predicate CanMove(s: State, x: LeaseId) {
    exists step: Step :: step.lease == x && !step.Enter? && !step.EvictFails? && Enabled(s, step)
  }

  predicate Blocked(s: State, x: LeaseId) {
    && x in s.leases && s.leases[x].phase.Acquiring? && s.leases[x].phase.got < |s.leases[x].devices|
    && s.leases[x].devices[s.leases[x].phase.got] in s.holder
  }

  function Wanted(s: State, x: LeaseId): Device
    requires Blocked(s, x)
  {
    s.leases[x].devices[s.leases[x].phase.got]
  }

  lemma MovesUnlessBlocked(s: State, x: LeaseId)
    requires Inv(s) && Unfinished(s, x) && !Blocked(s, x)
    ensures CanMove(s, x)
  {
    var p := s.leases[x].phase;
    if p.Acquiring? {
      assert Enabled(s, Acquire(x)) || Enabled(s, FindConflicts(x));
    } else if p.Evicting? {
      if r :| r in p.pending {
        assert Enabled(s, Evict(x, r));
      } else {
        assert Enabled(s, Register(x));
      }
    } else {
      assert Enabled(s, Exit(x));
    }
  }

  // Whoever holds what a blocked lease wants waits, if at all, for a greater device.
  lemma {:induction false} FollowHolders(s: State, x: LeaseId, bound: nat) returns (y: LeaseId)
    requires Inv(s) && Unfinished(s, x)
    requires Blocked(s, x) ==> Wanted(s, x) < bound
    requires forall z: LeaseId :: Blocked(s, z) ==> Wanted(s, z) < bound
    ensures CanMove(s, y) && Unfinished(s, y)
    decreases if Blocked(s, x) then bound - Wanted(s, x) else 0
  {
    y := x;
    if Blocked(s, x) {
      var z := s.holder[Wanted(s, x)];
      assert Holds(s, z, Wanted(s, x));
      y := FollowHolders(s, z, bound);
    } else {
      MovesUnlessBlocked(s, x);
    }
  }

  lemma WantedBound(s: State, pool: set<LeaseId>) returns (bound: nat)
    ensures forall z: LeaseId :: z in pool && Blocked(s, z) ==> Wanted(s, z) < bound
    decreases pool
  {
    bound := 0;
    if pool != {} {
      var z :| z in pool;
      bound := WantedBound(s, pool - {z});
      if Blocked(s, z) && bound <= Wanted(s, z) {
        bound := Wanted(s, z) + 1;
      }
    }
  }

  /** Leases over arbitrary device sets cannot deadlock: while some lease is unfinished, one can move. */
  lemma NoDeadlock(s: State, x: LeaseId)
    requires Reachable(s) && Unfinished(s, x)
    ensures exists y: LeaseId :: Unfinished(s, y) && CanMove(s, y)
  {
    ReachableInv(s);
    var bound := WantedBound(s, s.leases.Keys);
    var y := FollowHolders(s, x, bound);
  }
}
