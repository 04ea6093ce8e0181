/** The record stream of a CAE run: a program that records and waits for the acknowledgement, a master
    that acknowledges and asks for the next item, watchdogs, a run timeout and aborts in between. */
module CaeRecordStream {
  import opened Options

  const MAX_RECORDED_BYTES: nat := 64 * 1024 * 1024

  type Name = string

  datatype Item =
    | Packet(sequence: nat, name: Name, byteLength: nat)
    | Complete(sequence: nat, recordSequences: seq<nat>)
    | Failure(sequence: nat)

  datatype Ack = Unanswered | Acknowledged | Expired | Dropped

  datatype Reason = RunTimeout | AckTimeout | Other

  // Where the task that executes the program stands.
  datatype Program = NotStarted | Running | Awaiting | Finishing | Raising(reason: Reason) | Ended

  // Where the call of `next` stands; the worker lets only one call in.
  datatype Caller = Idle | Checked(ack: Option<nat>) | Waiting

  datatype Run = Run(
    declared: set<Name>,
    closed: bool,
    firstNext: bool,
    pending: Option<nat>,
    queue: seq<Item>,
    sequence: nat,
    completed: seq<nat>,
    recordedBytes: nat,
    recordedNames: set<Name>,
    acks: seq<Ack>,          // of record i + 1 at index i
    program: Program,
    caller: Caller,
    delivered: seq<Item>     // what the master was handed, in order
  )

  datatype Step =
    | NextBegins(ack: Option<nat>)
    | NextAcknowledges
    | NextDelivers
    | NextCancelled
    | Record(name: Name, byteLength: nat)
    | ProgramAcknowledged
    | ProgramSeesExpiry
    | ProgramRaises
    | RunTimesOut
    | ProgramReturns
    | ProgramCompletes
    | ProgramFails
    | ProgramStops
    | WatchdogFires(sequence: nat)
    | FirstNextExpires
    | Abort

  function Start(declared: set<Name>): Run {
    Run(declared, false, false, None, [], 0, [], 0, {}, [], NotStarted, Idle, [])
  }

  predicate Enabled(r: Run, step: Step) {
    match step
    case NextBegins(_) => r.caller == Idle && !r.closed
    case NextAcknowledges => r.caller.Checked?
    case NextDelivers => r.caller == Waiting && r.queue != []
    case NextCancelled => r.caller != Idle
    case Record(_, _) => r.program == Running
    case ProgramAcknowledged => r.program == Awaiting && r.acks != [] && r.acks[|r.acks| - 1] == Acknowledged
    case ProgramSeesExpiry => r.program == Awaiting && r.acks != [] && r.acks[|r.acks| - 1] == Expired
    case ProgramRaises => r.program == Running || r.program == Finishing
    case RunTimesOut => r.program == Running || r.program == Awaiting
    case ProgramReturns => r.program == Running
    case ProgramCompletes => r.program == Finishing
    case ProgramFails => r.program.Raising?
    // Cancelling the task goes with closing the run.
    case ProgramStops => r.closed && r.program != NotStarted && r.program != Ended
    case WatchdogFires(n) => 1 <= n <= |r.acks| && r.acks[n - 1] == Unanswered
    case FirstNextExpires => !r.firstNext
    case Abort => true
  }

  /** Resolves the acknowledgement of record `n` unless that has happened already. */
  function Resolve(acks: seq<Ack>, n: nat, ack: Ack): seq<Ack> {
    if 1 <= n <= |acks| && acks[n - 1] == Unanswered then acks[n - 1 := ack] else acks
  }

  function DropPending(r: Run): Run {
    if r.pending.Some? then r.(acks := Resolve(r.acks, r.pending.value, Dropped), pending := None) else r
  }

  predicate Accepts(r: Run, name: Name, byteLength: nat) {
    name in r.declared && name !in r.recordedNames && byteLength <= MAX_RECORDED_BYTES - r.recordedBytes
  }

  function Apply(r: Run, step: Step): Run
    requires Enabled(r, step)
  {
    match step
    case NextBegins(ack) => r.(caller := Checked(ack))
    case NextAcknowledges =>
      if r.caller.ack != r.pending then DropPending(r).(closed := true, caller := Idle)
      else
        var q := if r.pending.Some?
          then r.(acks := Resolve(r.acks, r.pending.value, Acknowledged), pending := None) else r;
        q.(firstNext := true, program := if r.firstNext then r.program else Running, caller := Waiting)
    case NextDelivers =>
      var item, q := r.queue[0], r.(queue := r.queue[1..], caller := Idle);
      if item.Packet? then
        (if r.pending.Some?
         then q.(closed := true) else q.(pending := Some(item.sequence), delivered := r.delivered + [item]))
      else q.(closed := true, delivered := r.delivered + [item])
    case NextCancelled => r.(caller := Idle, closed := r.closed || r.caller == Waiting)
    case Record(name, byteLength) =>
      var q := if name in r.declared then r.(recordedNames := r.recordedNames + {name}) else r;
      if Accepts(r, name, byteLength) then
        q.(sequence := r.sequence + 1, recordedBytes := r.recordedBytes + byteLength,
           queue := r.queue + [Packet(r.sequence + 1, name, byteLength)],
           acks := r.acks + [Unanswered], program := Awaiting)
      else q.(program := Raising(Other))
    case ProgramAcknowledged => r.(completed := r.completed + [r.sequence], program := Running)
    case ProgramSeesExpiry => r.(program := Raising(AckTimeout))
    case ProgramRaises => r.(program := Raising(Other))
    case RunTimesOut => r.(program := Raising(RunTimeout))
    case ProgramReturns => r.(program := Finishing)
    case ProgramCompletes => r.(queue := r.queue + [Complete(r.sequence + 1, r.completed)], program := Ended)
    case ProgramFails =>
      var reason := r.program.reason;
      var q := if reason == RunTimeout then r else DropPending(r);
      q.(queue := q.queue + [Failure(r.sequence + 1)], program := Ended, closed := r.closed || reason == AckTimeout)
    case ProgramStops => r.(program := Ended)
    case WatchdogFires(n) =>
      r.(acks := r.acks[n - 1 := Expired], pending := if r.pending == Some(n) then None else r.pending, closed := true)
    case FirstNextExpires => r.(closed := true)
    case Abort => DropPending(r).(closed := true)
  }

  // --- The invariant ---

  /** The first `n` items are the records 1..n. */
  predicate Records(items: seq<Item>, n: nat) {
    n <= |items| && forall i :: 0 <= i < n ==> items[i].Packet? && items[i].sequence == i + 1
  }

  function OneTo(n: nat): (s: seq<nat>)
    ensures |s| == n && forall i :: 0 <= i < n ==> s[i] == i + 1
  {
    seq(n, (i: nat) => i + 1)
  }

  /** A terminal item after `n` records. */
  predicate Terminates(item: Item, n: nat) {
    match item
    case Packet(_, _, _) => false
    case Complete(sequence, records) => sequence == n + 1 && records == OneTo(n)
    case Failure(sequence) => sequence == n + 1
  }

  /** Everything produced so far: records 1..n and at most one terminal item numbered n + 1. */
  predicate IsStream(items: seq<Item>, n: nat) {
    Records(items, n) && (|items| == n || (|items| == n + 1 && Terminates(items[n], n)))
  }

  function LastAck(r: Run): Ack {
    if r.acks == [] then Acknowledged else r.acks[|r.acks| - 1]
  }

  predicate StreamSane(r: Run) {
    && IsStream(r.delivered + r.queue, r.sequence)
    && (r.program != Ended ==> |r.delivered| + |r.queue| == r.sequence)
    && (r.program == Ended && !r.closed ==> |r.delivered| <= r.sequence < |r.delivered| + |r.queue|)
    && r.recordedBytes <= MAX_RECORDED_BYTES
  }

  predicate AcksSane(r: Run) {
    && |r.acks| == r.sequence
    && (forall i :: 0 <= i < r.sequence - 1 ==> r.acks[i] == Acknowledged)
    && (|r.delivered| < r.sequence ==> |r.delivered| == r.sequence - 1 && LastAck(r) != Acknowledged)
    && (r.pending.Some? ==> r.pending.value == r.sequence == |r.delivered| > 0 && LastAck(r) != Acknowledged)
    && (r.caller == Waiting ==> r.pending.None? && r.firstNext)
  }

  predicate ProgramSane(r: Run) {
    (r.program == NotStarted <==> !r.firstNext) &&
    match r.program
    case NotStarted => r.sequence == 0 && r.completed == []
    case Awaiting =>
      && r.sequence > 0 && r.completed == OneTo(r.sequence - 1)
      && (LastAck(r) == Unanswered ==> r.pending == Some(r.sequence) || |r.delivered| < r.sequence)
      && (LastAck(r) == Dropped ==> r.closed)
    case Raising(_) => true
    case Ended => true
    case _ => LastAck(r) == Acknowledged && r.completed == OneTo(r.sequence)
  }

  predicate Inv(r: Run) {
    StreamSane(r) && AcksSane(r) && ProgramSane(r)
  }

  lemma DeliverInv(r: Run)
    requires Inv(r) && Enabled(r, NextDelivers)
    ensures Inv(Apply(r, NextDelivers))
    ensures r.pending.None? && Apply(r, NextDelivers).delivered == r.delivered + [r.queue[0]]
  {
    assert r.delivered + r.queue == r.delivered + [r.queue[0]] + r.queue[1..];
    assert (r.delivered + r.queue)[|r.delivered|] == r.queue[0];
  }

  lemma RecordInv(r: Run, name: Name, byteLength: nat)
    requires Inv(r) && Enabled(r, Record(name, byteLength))
    ensures Inv(Apply(r, Record(name, byteLength)))
  {
    var packet := Packet(r.sequence + 1, name, byteLength);
    assert r.delivered + (r.queue + [packet]) == r.delivered + r.queue + [packet];
  }

  lemma EndInv(r: Run, step: Step)
    requires Inv(r) && Enabled(r, step) && (step.ProgramCompletes? || step.ProgramFails?)
    ensures Inv(Apply(r, step))
  {
    var t := Apply(r, step);
    StreamEnds(r, t.queue[|r.queue|]);
    hide IsStream, Terminates;
    assert t.queue == r.queue + [t.queue[|r.queue|]];
  }

  lemma StreamEnds(r: Run, last: Item)
    requires StreamSane(r) && r.program != Ended && Terminates(last, r.sequence)
    ensures IsStream(r.delivered + (r.queue + [last]), r.sequence)
  {
    assert r.delivered + (r.queue + [last]) == r.delivered + r.queue + [last];
  }

  lemma ProgramAcknowledgedInv(r: Run)
    requires Inv(r) && Enabled(r, ProgramAcknowledged)
    ensures Inv(Apply(r, ProgramAcknowledged))
  {
    assert OneTo(r.sequence - 1) + [r.sequence] == OneTo(r.sequence);
  }

  lemma AcknowledgeInv(r: Run)
    requires Inv(r) && Enabled(r, NextAcknowledges)
    ensures Inv(Apply(r, NextAcknowledges))
  {
    hide IsStream;
  }

  lemma WatchdogInv(r: Run, n: nat)
    requires Inv(r) && Enabled(r, WatchdogFires(n))
    ensures Inv(Apply(r, WatchdogFires(n)))
  {
  }

  lemma QuietInv(r: Run, step: Step)
    requires Inv(r) && Enabled(r, step)
    requires step.NextBegins? || step.NextCancelled? || step.FirstNextExpires? || step.Abort? || step.ProgramStops? ||
      step.ProgramSeesExpiry? || step.ProgramRaises? || step.RunTimesOut? || step.ProgramReturns?
    ensures Inv(Apply(r, step))
  {
    hide IsStream, Records, Terminates, OneTo;
  }

  /** Every step of the program, the master and the watchdogs keeps the stream in shape. */
  lemma StepInv(r: Run, step: Step)
    requires Inv(r) && Enabled(r, step)
    ensures Inv(Apply(r, step))
  {
    hide Inv, Apply;
    match step
    case NextDelivers => DeliverInv(r);
    case Record(name, byteLength) => RecordInv(r, name, byteLength);
    case ProgramAcknowledged => ProgramAcknowledgedInv(r);
    case ProgramCompletes => EndInv(r, step);
    case ProgramFails => EndInv(r, step);
    case NextAcknowledges => AcknowledgeInv(r);
    case WatchdogFires(n) => WatchdogInv(r, n);
    case _ => QuietInv(r, step);
  }

  // --- Whole runs ---

  ghost predicate Happens(r: Run, steps: seq<Step>, t: Run)
    decreases |steps|
  {
    if steps == [] then r == t else Enabled(r, steps[0]) && Happens(Apply(r, steps[0]), steps[1..], t)
  }

  lemma {:induction false} HappensInv(r: Run, steps: seq<Step>, t: Run)
    requires Inv(r) && Happens(r, steps, t)
    ensures Inv(t)
    decreases |steps|
  {
    if steps != [] {
      StepInv(r, steps[0]);
      HappensInv(Apply(r, steps[0]), steps[1..], t);
    }
  }

  ghost predicate Reachable(t: Run) {
    exists declared: set<Name>, steps: seq<Step> :: Happens(Start(declared), steps, t)
  }

  lemma ReachableInv(t: Run)
    requires Reachable(t)
    ensures Inv(t)
  {
    var declared: set<Name>, steps: seq<Step> :| Happens(Start(declared), steps, t);
    HappensInv(Start(declared), steps, t);
  }

  /** With any acknowledgements, timeouts and watchdogs, the master is handed the records 1, 2, ... in
      order, without gap or repetition, and at most one terminal item after them, numbered n + 1. A
      complete item lists exactly the records 1..n. */
  lemma DeliveredIsStream(t: Run, k: nat)
    requires Reachable(t) && k < |t.delivered|
    ensures
      || (t.delivered[k].Packet? && t.delivered[k].sequence == k + 1)
      || (k == |t.delivered| - 1 && k == t.sequence && t.delivered[k] == Failure(k + 1))
      || (k == |t.delivered| - 1 && k == t.sequence && t.delivered[k].Complete? && t.delivered[k].sequence == k + 1
          && |t.delivered[k].recordSequences| == k
          && forall i :: 0 <= i < k ==> t.delivered[k].recordSequences[i] == i + 1)
  {
    ReachableInv(t);
    var all := t.delivered + t.queue;
    assert all[k] == t.delivered[k];
  }

  /** Record i + 1 is not even produced before record i is delivered and acknowledged; so at most one
      record is ever unacknowledged. */
  lemma StopAndWait(t: Run, i: nat)
    requires Reachable(t) && 1 <= i < t.sequence
    ensures i <= |t.acks| && t.acks[i - 1] == Acknowledged
    ensures i <= |t.delivered| && t.delivered[i - 1].Packet? && t.delivered[i - 1].sequence == i
  {
    ReachableInv(t);
    assert (t.delivered + t.queue)[i - 1] == t.delivered[i - 1];
  }

  lemma BytesWithinBudget(t: Run)
    requires Reachable(t)
    ensures t.recordedBytes <= MAX_RECORDED_BYTES
  {
    ReachableInv(t);
  }

  /** The guard against a second unacknowledged record never fires. */
  lemma NoSecondPending(t: Run)
    requires Reachable(t) && Enabled(t, NextDelivers)
    ensures t.pending.None?
  {
    ReachableInv(t);
  }

  /** After a terminal item the run is closed, nothing is left to hand out and `next` is refused. */
  lemma TerminalIsLast(t: Run)
    requires Reachable(t) && t.delivered != [] && !t.delivered[|t.delivered| - 1].Packet?
    ensures t.queue == [] && t.closed && forall ack: Option<nat> :: !Enabled(t, NextBegins(ack))
  {
    ReachableInv(t);
    DeliveredIsStream(t, |t.delivered| - 1);
  }

  /** Program and master never wait for each other: on an open run whose master waits with nothing
      queued, the program is neither over nor blocked on an acknowledgement. */
  lemma NoMutualWait(t: Run)
    requires Reachable(t) && t.caller == Waiting && t.queue == [] && !t.closed
    ensures t.program != NotStarted && t.program != Ended
    ensures t.program == Awaiting ==> Enabled(t, ProgramAcknowledged) || Enabled(t, ProgramSeesExpiry)
  {
    ReachableInv(t);
  }

  // --- The run as an object ---

  class CaeRun {
    const declared: set<Name>
    var closed: bool
    var firstNext: bool
    var pending: Option<nat>
    var queue: seq<Item>
    var sequence: nat
    var completed: seq<nat>
    var recordedBytes: nat
    var recordedNames: set<Name>
    var acks: seq<Ack>
    // Where its tasks stand and what has left the object.
    ghost var program: Program
    ghost var caller: Caller
    ghost var delivered: seq<Item>

    ghost function State(): Run
      reads this
    {
      Run(declared, closed, firstNext, pending, queue, sequence, completed, recordedBytes, recordedNames, acks,
          program, caller, delivered)
    }

    constructor (declared: set<Name>)
      ensures State() == Start(declared)
    {
      this.declared := declared;
      closed, firstNext, pending, queue, sequence, completed := false, false, None, [], 0, [];
      recordedBytes, recordedNames, acks, program, caller, delivered := 0, {}, [], NotStarted, Idle, [];
    }

    method ResolveAck(n: nat, ack: Ack)
      modifies this`acks
      ensures acks == Resolve(old(acks), n, ack)
    {
      if 1 <= n <= |acks| && acks[n - 1] == Unanswered {
        acks := acks[n - 1 := ack];
      }
    }

    /** Every record's acknowledgement that the master sends with `next`; false is a protocol error. */
    method Acknowledge(ack: Option<nat>) returns (accepted: bool)
      requires caller == Checked(ack)
      modifies this
      ensures State() == Apply(old(State()), NextAcknowledges)
      ensures accepted <==> caller == Waiting
    {
      accepted := ack == pending;
      if !accepted {
        AbortRun();
        caller := Idle;
        return;
      }
      if pending.Some? {
        var n := pending.value;
        pending := None;
        ResolveAck(n, Acknowledged);
      }
      if !firstNext {
        firstNext := true;
        program := Running;
      }
      caller := Waiting;
    }

    /** The rest of `next`; None is the error for a second unacknowledged record. */
    method Deliver() returns (item: Option<Item>)
      requires caller == Waiting && queue != []
      modifies this
      ensures State() == Apply(old(State()), NextDelivers)
      ensures delivered == old(delivered) + if item.Some? then [item.value] else []
      ensures Inv(old(State())) ==> item == Some(old(queue)[0])
    {
      var first := queue[0];
      queue := queue[1..];
      caller := Idle;
      match first {
        case Packet(n, _, _) =>
          if pending.Some? {
            closed := true;
            return None;
          }
          pending := Some(n);
        case _ =>
          closed := true;
      }
      delivered := delivered + [first];
      return Some(first);
    }

    /** Up to the wait for the acknowledgement; false is an error of the program. */
    method RecordValue(name: Name, byteLength: nat) returns (accepted: bool)
      requires program == Running
      modifies this
      ensures State() == Apply(old(State()), Record(name, byteLength))
      ensures accepted == Accepts(old(State()), name, byteLength)
    {
      if name !in declared || name in recordedNames {
        program := Raising(Other);
        return false;
      }
      recordedNames := recordedNames + {name};
      if byteLength > MAX_RECORDED_BYTES - recordedBytes {
        program := Raising(Other);
        return false;
      }
      sequence := sequence + 1;
      recordedBytes := recordedBytes + byteLength;
      acks := acks + [Unanswered];
      queue := queue + [Packet(sequence, name, byteLength)];
      program := Awaiting;
      return true;
    }

    method Fail(reason: Reason)
      requires program == Raising(reason)
      modifies this
      ensures State() == Apply(old(State()), ProgramFails)
    {
      if pending.Some? && reason != RunTimeout {
        ResolveAck(pending.value, Dropped);
        pending := None;
      }
      queue := queue + [Failure(sequence + 1)];
      program := Ended;
      if reason == AckTimeout {
        closed := true;
      }
    }

    method WatchRecordAck(n: nat)
      requires 1 <= n <= |acks|
      modifies this
      ensures State() == if Enabled(old(State()), WatchdogFires(n))
        then Apply(old(State()), WatchdogFires(n)) else old(State())
    {
      if acks[n - 1] != Unanswered {
        return;
      }
      if pending == Some(n) {
        pending := None;
      }
      acks := acks[n - 1 := Expired];
      closed := true;
    }

    method AbortRun()
      modifies this
      ensures State() == Apply(old(State()), Abort)
    {
      if pending.Some? {
        ResolveAck(pending.value, Dropped);
        pending := None;
      }
      closed := true;
    }
  }
}
