/** The reference-counted wake-up events of waiting clients: who holds which event, and why no
    commit that answers or ends a job goes unnoticed. */
module JobEvents {
  import opened Options
  import opened JobRecords
  import opened JobProtocol
  import opened JobRuns
  import opened JobStore

  // Events are objects compared by identity; an identity is a number here.
  type EventId = nat
  type WaiterId = nat

  datatype EventTable = EventTable(
    events: map<JobId, EventId>,
    counts: map<JobId, nat>,
    fired: set<EventId>,
    next: EventId
  )

  function Lookup<K, V>(m: map<K, V>, k: K, default: V): V {
    if k in m then m[k] else default
  }

  function SetEvent(t: EventTable, j: JobId): EventTable {
    if j in t.events then t.(fired := t.fired + {t.events[j]}) else t
  }

  function PreparedTable(t: EventTable, j: JobId): EventTable {
    var u := if j in t.events then t
             else t.(events := t.events[j := t.next], counts := t.counts[j := 0], next := t.next + 1);
    u.(counts := u.counts[j := Lookup(u.counts, j, 0) + 1])
  }

  function ReleasedTable(t: EventTable, j: JobId, event: EventId): EventTable {
    var remaining := if Lookup(t.counts, j, 1) <= 1 then 0 else Lookup(t.counts, j, 1) - 1;
    if remaining == 0 then
      t.(counts := t.counts - {j}, events := if j in t.events && t.events[j] == event then t.events - {j} else t.events)
    else t.(counts := t.counts[j := remaining])
  }

  /** The event half of the registry, updated in place under the registry's lock. */
  class RegistryEvents {
    var jobEvents: map<JobId, EventId>
    var jobEventWaiters: map<JobId, nat>
    var fired: set<EventId>
    var next: EventId

    function Table(): EventTable
      reads this
    {
      EventTable(jobEvents, jobEventWaiters, fired, next)
    }

    constructor ()
      ensures Table() == EventTable(map[], map[], {}, 0)
    {
      jobEvents, jobEventWaiters, fired, next := map[], map[], {}, 0;
    }

    method SetJobEvent(j: JobId)
      modifies this`fired
      ensures Table() == SetEvent(old(Table()), j)
    {
      if j in jobEvents {
        fired := fired + {jobEvents[j]};
      }
    }

    method PrepareJobWait(j: JobId) returns (event: EventId)
      modifies this
      ensures Table() == PreparedTable(old(Table()), j)
      ensures j in jobEvents && event == jobEvents[j]
    {
      if j !in jobEvents {
        jobEvents := jobEvents[j := next];
        next := next + 1;
        jobEventWaiters := jobEventWaiters[j := 0];
      }
      jobEventWaiters := jobEventWaiters[j := Lookup(jobEventWaiters, j, 0) + 1];
      return jobEvents[j];
    }

    method ReleasePreparedJobEvent(j: JobId, event: EventId)
      modifies this
      ensures Table() == ReleasedTable(old(Table()), j, event)
    {
      var remaining: int := Lookup(jobEventWaiters, j, 1);
      remaining := remaining - 1;
      if remaining < 0 {
        remaining := 0;
      }
      if remaining == 0 {
        jobEventWaiters := jobEventWaiters - {j};
        if j in jobEvents && jobEvents[j] == event {
          jobEvents := jobEvents - {j};
        }
      } else {
        jobEventWaiters := jobEventWaiters[j := remaining];
      }
    }
  }

  // --- Waiting clients next to the server's own steps ---

  // Where one call of `wait_for_answer` stands.
  datatype Waiter =
    | Prepared(job: JobId, event: EventId) // registered, database not yet read
    | Waiting(job: JobId, event: EventId)  // saw neither answer nor end
    | Leaving(job: JobId, event: EventId)  // about to release

  /** `owed` has a job once for every commit after which its event is still to be set; `lost` are the jobs for
      which such a task was cancelled in between, with the event unset, and that nobody announced since. */
  datatype World = World(
    server: State,
    table: EventTable,
    waiters: map<WaiterId, Waiter>,
    owed: multiset<JobId>,
    lost: set<JobId>
  )

  datatype Action =
    | Serve(step: Step)
    | Announce(job: JobId)
    | CancelAnnouncement(job: JobId)
    | Prepare(waiter: WaiterId, job: JobId)
    | Read(waiter: WaiterId, user: Option<UserId>, patient: bool)
    | Wake(waiter: WaiterId)
    | GiveUp(waiter: WaiterId) // timed out or cancelled
    | LeaveTable(waiter: WaiterId)

  /** The jobs whose events are set afterwards by whoever takes `step`. */
  function Announces(s: State, step: Step): set<JobId>
    requires Enabled(s, step)
  {
    match step
    case ApplyMessage(l, now) =>
      if UpdateLauncherJob(s.db, l, s.db.launchers[l].user, s.handlers[l].msg, now).Some?
        then {s.handlers[l].msg.job} else {}
    case FailDisconnected(l, _) => ActiveOnAny(s.db, {l})
    case FailLaunchers(ids, _) => ActiveOnAny(s.db, ids)
    case Kill(j, user, l, _) =>
      if Killable(s.db, j, user, l) then {j} else {}
    case FailJob(j, l, _, _) => if ActiveOn(s.db, j, l) then {j} else {}
    case ExpireJobs(stale, _) => stale
    case _ => {}
  }

  ghost predicate Possible(w: World, a: Action) {
    match a
    case Serve(step) => Enabled(w.server, step)
    case Announce(_) => true
    case CancelAnnouncement(j) => j in w.owed
    case Prepare(x, _) => x !in w.waiters
    case Read(x, _, _) => x in w.waiters && w.waiters[x].Prepared?
    case Wake(x) => x in w.waiters && w.waiters[x].Waiting? && w.waiters[x].event in w.table.fired
    case GiveUp(x) => x in w.waiters && !w.waiters[x].Leaving?
    case LeaveTable(x) => x in w.waiters && w.waiters[x].Leaving?
  }

  /** What a waiter's read decides: it goes on waiting only for a job it can see, unanswered and unended. */
  predicate ShouldWait(db: Db, j: JobId, user: Option<UserId>, patient: bool) {
    j in db.jobs && (user.Some? ==> db.jobs[j].user == user.value) && !Settled(db.jobs[j]) && patient
  }

  /** Somebody waits for the job, and its event is not set. */
  predicate Unset(t: EventTable, j: JobId) {
    j in t.events && t.events[j] !in t.fired
  }

  ghost function After(w: World, a: Action): World
    requires Possible(w, a)
  {
    match a
    case Serve(step) => w.(server := Apply(w.server, step), owed := w.owed + multiset(Announces(w.server, step)))
    case Announce(j) => w.(table := SetEvent(w.table, j), owed := w.owed - multiset{j}, lost := w.lost - {j})
    case CancelAnnouncement(j) =>
      w.(owed := w.owed - multiset{j}, lost := w.lost + if Unset(w.table, j) then {j} else {})
    case Prepare(x, j) =>
      var t := PreparedTable(w.table, j);
      w.(table := t, waiters := w.waiters[x := Prepared(j, t.events[j])])
    case Read(x, user, patient) =>
      var job, event := w.waiters[x].job, w.waiters[x].event;
      w.(waiters := w.waiters[x := if ShouldWait(w.server.db, job, user, patient)
                              then Waiting(job, event) else Leaving(job, event)])
    case Wake(x) => w.(waiters := w.waiters[x := Leaving(w.waiters[x].job, w.waiters[x].event)])
    case GiveUp(x) => w.(waiters := w.waiters[x := Leaving(w.waiters[x].job, w.waiters[x].event)])
    case LeaveTable(x) =>
      w.(table := ReleasedTable(w.table, w.waiters[x].job, w.waiters[x].event), waiters := w.waiters - {x})
  }

  /** A waiting client goes on waiting exactly if it can see the job, the job is neither answered nor over, and it
      has been asked to wait. */
  lemma WaitsExactlyWhile(w: World, x: WaiterId, user: Option<UserId>, patient: bool)
    requires Possible(w, Read(x, user, patient))
    ensures var j := w.waiters[x].job;
      After(w, Read(x, user, patient)).waiters[x].Waiting? <==>
      && patient && j in w.server.db.jobs && (user == None || user == Some(w.server.db.jobs[j].user))
      && !w.server.db.jobs[j].answered && w.server.db.jobs[j].state !in {Succeeded, Failed, Cancelled, Killed}
  {
  }

  function Start(): World {
    World(Init(), EventTable(map[], map[], {}, 0), map[], multiset{}, {})
  }

  // --- Commits and their announcements ---

  /** No step answers or ends a job without announcing it. */
  lemma CommitsAreAnnounced(s: State, step: Step)
    requires Inv(s) && Enabled(s, step)
    ensures NewlySettled(s.db, Apply(s, step).db) <= Announces(s, step)
  {
    hide Inv;
  }

  // --- The counters ---

  function Outstanding(waiters: map<WaiterId, Waiter>, j: JobId): set<WaiterId> {
    set x | x in waiters && waiters[x].job == j
  }

  /** The map holds exactly the jobs somebody waits for, the counter is their number, and everybody
      holds the job's current event. */
  ghost predicate Counted(t: EventTable, waiters: map<WaiterId, Waiter>) {
    && t.events.Keys == t.counts.Keys
    && (forall j: JobId :: j in t.events ==> t.counts[j] == |Outstanding(waiters, j)| > 0 && t.events[j] < t.next)
    && (forall x: WaiterId ::
        x in waiters ==> waiters[x].job in t.events && t.events[waiters[x].job] == waiters[x].event)
    && (forall e: EventId :: e in t.fired ==> e < t.next)
  }

  lemma OutstandingAfter(waiters: map<WaiterId, Waiter>, x: WaiterId, to: Waiter)
    requires x in waiters ==> waiters[x].job == to.job
    ensures Outstanding(waiters[x := to], to.job) == Outstanding(waiters, to.job) + {x}
    ensures forall k: JobId :: k != to.job ==> Outstanding(waiters[x := to], k) == Outstanding(waiters, k)
    ensures forall k: JobId :: k != to.job ==> Outstanding(waiters - {x}, k) == Outstanding(waiters, k)
    ensures Outstanding(waiters - {x}, to.job) == Outstanding(waiters, to.job) - {x}
  {
  }

  function EventFor(t: EventTable, j: JobId): EventId {
    if j in t.events then t.events[j] else t.next
  }

  lemma PreparedIs(t: EventTable, j: JobId)
    ensures var u := PreparedTable(t, j);
      && u.events == t.events[j := EventFor(t, j)]
      && u.counts == t.counts[j := (if j in t.events then Lookup(t.counts, j, 0) else 0) + 1]
      && u.fired == t.fired && t.next <= u.next && (j !in t.events ==> u.next == t.next + 1)
  {
  }

  lemma PrepareCounted(t: EventTable, waiters: map<WaiterId, Waiter>, x: WaiterId, j: JobId)
    requires Counted(t, waiters) && x !in waiters
    ensures var u := PreparedTable(t, j); Counted(u, waiters[x := Prepared(j, u.events[j])])
  {
    PreparedIs(t, j);
    hide PreparedTable;
    var u := PreparedTable(t, j);
    var v := waiters[x := Prepared(j, u.events[j])];
    OutstandingAfter(waiters, x, v[x]);
    if j !in t.events {
      NobodyWaits(t, waiters, j);
    }
    assert x !in Outstanding(waiters, j);
    hide Outstanding;
  }

  lemma NobodyWaits(t: EventTable, waiters: map<WaiterId, Waiter>, j: JobId)
    requires Counted(t, waiters) && j !in t.events
    ensures Outstanding(waiters, j) == {}
  {
  }

  lemma LeaveCounted(t: EventTable, waiters: map<WaiterId, Waiter>, x: WaiterId)
    requires Counted(t, waiters) && x in waiters
    ensures Counted(ReleasedTable(t, waiters[x].job, waiters[x].event), waiters - {x})
  {
    var j := waiters[x].job;
    var u, v := ReleasedTable(t, j, waiters[x].event), waiters - {x};
    OutstandingAfter(waiters, x, waiters[x]);
    assert x in Outstanding(waiters, j);
    forall y: WaiterId | y in v ensures v[y].job in u.events {
      if v[y].job == j {
        assert y in Outstanding(v, j) && |Outstanding(waiters, j)| == |Outstanding(v, j)| + 1;
      }
    }
  }

  lemma MoveCounted(t: EventTable, waiters: map<WaiterId, Waiter>, x: WaiterId, to: Waiter)
    requires Counted(t, waiters) && x in waiters && to.job == waiters[x].job && to.event == waiters[x].event
    ensures Counted(t, waiters[x := to])
  {
    OutstandingAfter(waiters, x, to);
    assert x in Outstanding(waiters, to.job);
    assert Outstanding(waiters, to.job) + {x} == Outstanding(waiters, to.job);
  }

  lemma AfterCounted(w: World, a: Action)
    requires Counted(w.table, w.waiters) && Possible(w, a)
    ensures Counted(After(w, a).table, After(w, a).waiters)
  {
    hide Counted, Enabled, Apply, Announces, ShouldWait, PreparedTable, ReleasedTable;
    match a
    case Serve(_) =>
    case CancelAnnouncement(_) =>
    case Announce(j) => FireCounted(w.table, w.waiters, j);
    case Prepare(x, j) => PrepareCounted(w.table, w.waiters, x, j);
    case LeaveTable(x) => LeaveCounted(w.table, w.waiters, x);
    case Read(x, _, _) => MoveCounted(w.table, w.waiters, x, After(w, a).waiters[x]);
    case Wake(x) => MoveCounted(w.table, w.waiters, x, After(w, a).waiters[x]);
    case GiveUp(x) => MoveCounted(w.table, w.waiters, x, After(w, a).waiters[x]);
  }

  lemma FireCounted(t: EventTable, waiters: map<WaiterId, Waiter>, j: JobId)
    requires Counted(t, waiters)
    ensures Counted(SetEvent(t, j), waiters)
  {
  }

  // --- Nobody sleeps through a commit ---

  /** A waiting client whose job is settled by now has its event set, or somebody is about to set it. */
  ghost predicate Awake(w: World, x: WaiterId)
    requires x in w.waiters
  {
    var me := w.waiters[x];
    me.Waiting? ==>
      && me.job in w.server.db.jobs
      && (Settled(w.server.db.jobs[me.job]) ==> me.event in w.table.fired || me.job in w.owed || me.job in w.lost)
  }

  ghost predicate Sound(w: World) {
    && Inv(w.server) && Counted(w.table, w.waiters) && LostUnset(w.table, w.lost)
    && forall x: WaiterId :: x in w.waiters ==> Awake(w, x)
  }

  /** Different jobs have different events, and the event of a lost job is not set. */
  ghost predicate LostUnset(t: EventTable, lost: set<JobId>) {
    && (forall j: JobId, k: JobId :: j in t.events && k in t.events && t.events[j] == t.events[k] ==> j == k)
    && (forall j: JobId :: j in t.events && j in lost ==> t.events[j] !in t.fired)
  }

  lemma AfterLostUnset(w: World, a: Action)
    requires Counted(w.table, w.waiters) && LostUnset(w.table, w.lost) && Possible(w, a)
    ensures LostUnset(After(w, a).table, After(w, a).lost)
  {
    hide Enabled, Apply, Announces, ShouldWait, Outstanding, PreparedTable;
    match a
    case Prepare(_, j) => PreparedIs(w.table, j);
    case _ =>
  }

  lemma ServeAwake(w: World, step: Step, x: WaiterId)
    requires Inv(w.server) && Enabled(w.server, step) && x in w.waiters && Awake(w, x)
    ensures Awake(After(w, Serve(step)), x)
  {
    hide Inv, Enabled, Apply, Announces;
    var me := w.waiters[x];
    if me.Waiting? {
      StepAdvances(w.server, step, me.job);
      CommitsAreAnnounced(w.server, step);
      var after := Apply(w.server, step).db;
      if Settled(after.jobs[me.job]) && !Settled(w.server.db.jobs[me.job]) {
        assert me.job in NewlySettled(w.server.db, after);
      }
    }
  }

  // What happens to the events, or to another waiter, leaves this one awake.
  lemma OtherAwake(w: World, a: Action, x: WaiterId)
    requires Counted(w.table, w.waiters) && Possible(w, a) && !a.Serve? && !(a.Read? && a.waiter == x)
    requires x in w.waiters && Awake(w, x) && x in After(w, a).waiters
    ensures Awake(After(w, a), x)
  {
    hide Enabled, Apply, Announces, ShouldWait, Settled, Outstanding, PreparedTable, ReleasedTable;
    match a
    case Announce(j) =>
    case CancelAnnouncement(j) =>
    case Prepare(_, j) => PreparedIs(w.table, j);
    case LeaveTable(y) => ReleasedFires(w.table, w.waiters[y].job, w.waiters[y].event);
    case _ =>
  }

  lemma ReleasedFires(t: EventTable, j: JobId, e: EventId)
    ensures ReleasedTable(t, j, e).fired == t.fired
  {
  }

  // Who has just read the database waits only for a job that was not settled.
  lemma ReaderAwake(w: World, x: WaiterId, user: Option<UserId>, patient: bool)
    requires Possible(w, Read(x, user, patient))
    ensures Awake(After(w, Read(x, user, patient)), x)
  {
  }

  lemma AfterSound(w: World, a: Action)
    requires Sound(w) && Possible(w, a)
    ensures Sound(After(w, a))
  {
    hide Inv, Counted, LostUnset, Enabled, Apply, Announces, ShouldWait, Awake, PreparedTable, ReleasedTable;
    AfterCounted(w, a);
    AfterLostUnset(w, a);
    var v := After(w, a);
    if a.Serve? {
      StepInv(w.server, a.step);
    }
    forall x: WaiterId | x in v.waiters ensures Awake(v, x) {
      if a.Serve? {
        ServeAwake(w, a.step, x);
      } else if x in w.waiters && !(a.Read? && a.waiter == x) {
        OtherAwake(w, a, x);
      } else if a.Read? {
        ReaderAwake(w, x, a.user, a.patient);
      } else {
        assert v.waiters[x].Prepared?;
        NotWaiting(v, x);
      }
    }
  }

  lemma NotWaiting(w: World, x: WaiterId)
    requires x in w.waiters && !w.waiters[x].Waiting?
    ensures Awake(w, x)
  {
  }

  ghost predicate Happens(w: World, actions: seq<Action>, v: World)
    decreases |actions|
  {
    if actions == [] then w == v
    else Possible(w, actions[0]) && Happens(After(w, actions[0]), actions[1..], v)
  }

  lemma {:induction false} HappensSound(w: World, actions: seq<Action>, v: World)
    requires Sound(w) && Happens(w, actions, v)
    ensures Sound(v)
    decreases |actions|
  {
    if actions != [] {
      AfterSound(w, actions[0]);
      HappensSound(After(w, actions[0]), actions[1..], v);
    }
  }

  /** In every run: once nobody owes its announcement any more, a client waiting for a settled job can wake up
      if and only if the announcement was not lost. */
  lemma NoLostWakeUp(actions: seq<Action>, v: World, x: WaiterId)
    requires Happens(Start(), actions, v)
    requires x in v.waiters && v.waiters[x].Waiting? && v.waiters[x].job !in v.owed
    requires v.waiters[x].job in v.server.db.jobs && Settled(v.server.db.jobs[v.waiters[x].job])
    ensures Possible(v, Wake(x)) <==> v.waiters[x].job !in v.lost
  {
    hide Inv, Settled, Outstanding;
    StartSound();
    HappensSound(Start(), actions, v);
    assert Awake(v, x);
  }

  lemma StartSound()
    ensures Sound(Start())
  {
    InitInv();
  }

  lemma HappensMore(w: World, a: Action, rest: seq<Action>, v: World)
    requires Possible(w, a) && Happens(After(w, a), rest, v)
    ensures Happens(w, [a] + rest, v)
  {
    assert ([a] + rest)[1..] == rest;
  }

  // A queued job, and a client that waits for it.
  lemma OneWaits(now: Time) returns (w: World)
    ensures Happens(Start(), [Serve(CreateJob(0, 0, 0, now)), Prepare(0, 0), Read(0, None, true)], w)
    ensures w.server.db.jobs == map[0 := NewJob(0, 0, now)] && w.server.dispatcher == Free
    ensures w.owed == multiset{} && w.lost == {}
    ensures w.waiters == map[0 := Waiting(0, 0)] && w.table.events == map[0 := 0] && w.table.fired == {}
  {
    var a, b, c := Serve(CreateJob(0, 0, 0, now)), Prepare(0, 0), Read(0, None, true);
    var w1 := After(Start(), a);
    var w2 := After(w1, b);
    w := After(w2, c);
    assert w2.waiters[0] == Prepared(0, 0);
    assert Possible(w2, c);
    hide After, Possible, Start;
    HappensMore(w2, c, [], w);
    HappensMore(w1, b, [c], w);
    HappensMore(Start(), a, [b, c], w);
    assert [c] + [] == [c] && [b] + [c] == [b, c] && [a] + [b, c] == [a, b, c];
  }

  lemma {:induction false} HappensConcat(w: World, a: seq<Action>, u: World, b: seq<Action>, v: World)
    requires Happens(w, a, u) && Happens(u, b, v)
    ensures Happens(w, a + b, v)
    decreases |a|
  {
    hide Possible, After;
    if a == [] {
      assert a + b == b;
    } else {
      HappensConcat(After(w, a[0]), a[1..], u, b, v);
      assert (a + b)[1..] == a[1..] + b;
    }
  }

  lemma QueuedJobDies(s: State, now: Time)
    requires s.db.jobs == map[0 := NewJob(0, 0, now)] && s.dispatcher == Free
    ensures var step := Kill(0, None, None, now);
      && Enabled(s, step) && Announces(s, step) == {0}
      && Apply(s, step).db.jobs.Keys == {0} && Apply(s, step).db.jobs[0].state == Killed
  {
  }

  // Somebody kills the job and is cancelled before the announcement.
  lemma KilledSilently(w: World, now: Time) returns (v: World)
    requires w.server.db.jobs == map[0 := NewJob(0, 0, now)] && w.server.dispatcher == Free
    requires w.owed == multiset{} && w.table.events == map[0 := 0] && w.table.fired == {}
    ensures Happens(w, [Serve(Kill(0, None, None, now)), CancelAnnouncement(0)], v)
    ensures v.owed == multiset{} && v.waiters == w.waiters && v.table.fired == {}
    ensures v.server.db.jobs.Keys == {0} && v.server.db.jobs[0].state == Killed
  {
    hide Enabled, Announces, Apply;
    QueuedJobDies(w.server, now);
    var d, e := Serve(Kill(0, None, None, now)), CancelAnnouncement(0);
    var u := After(w, d);
    assert u.owed == multiset{0};
    v := After(u, e);
    assert Possible(w, d) && Possible(u, e);
    hide After, Possible;
    HappensMore(u, e, [], v);
    HappensMore(w, d, [e], v);
    assert [e] + [] == [e] && [d] + [e] == [d, e];
  }

  /** The exception is real: a kill whose announcement is cancelled leaves its waiter without an event. */
  lemma CancelledAnnouncementStrands(now: Time) returns (actions: seq<Action>, v: World)
    ensures Happens(Start(), actions, v) && v.owed == multiset{}
    ensures v.waiters.Keys == {0} && v.waiters[0].Waiting? && v.waiters[0].job == 0
    ensures 0 in v.server.db.jobs && Settled(v.server.db.jobs[0]) && !Possible(v, Wake(0))
  {
    hide After, Start, Happens;
    var w := OneWaits(now);
    v := KilledSilently(w, now);
    var first, rest := [Serve(CreateJob(0, 0, 0, now)), Prepare(0, 0), Read(0, None, true)],
                       [Serve(Kill(0, None, None, now)), CancelAnnouncement(0)];
    HappensConcat(Start(), first, w, rest, v);
    actions := first + rest;
  }

  /** In every run: the counter is the number of outstanding waiters, and the entry is gone exactly
      when there are none. */
  lemma CountersAreExact(actions: seq<Action>, v: World, j: JobId)
    requires Happens(Start(), actions, v)
    ensures j in v.table.events <==> Outstanding(v.waiters, j) != {}
    ensures j in v.table.counts <==> j in v.table.events
    ensures j in v.table.counts ==> v.table.counts[j] == |Outstanding(v.waiters, j)|
  {
    InitInv();
    HappensSound(Start(), actions, v);
  }

  /** In every run: the first waiter of a job gets an event that is not set. */
  lemma FirstEventIsFresh(actions: seq<Action>, v: World, x: WaiterId, j: JobId)
    requires Happens(Start(), actions, v) && x !in v.waiters && Outstanding(v.waiters, j) == {}
    ensures var u := After(v, Prepare(x, j)); u.waiters[x].event !in u.table.fired
  {
    InitInv();
    HappensSound(Start(), actions, v);
  }
}
