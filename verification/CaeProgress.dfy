/** From which states a CAE run can still end in order: nobody times out, aborts or leaves, and the master
    is handed a terminal item. */
module CaeProgress {
  import opened CaeRecordStream

  /** What the program and the master do when nothing goes wrong any more. */
  predicate Smooth(step: Step) {
    match step
    case NextCancelled => false
    case ProgramSeesExpiry => false
    case ProgramRaises => false
    case RunTimesOut => false
    case ProgramStops => false
    case WatchdogFires(_) => false
    case FirstNextExpires => false
    case Abort => false
    case _ => true
  }

  ghost predicate SmoothRun(r: Run, steps: seq<Step>, t: Run) {
    Happens(r, steps, t) && forall i :: 0 <= i < |steps| ==> Smooth(steps[i])
  }

  predicate EndedInOrder(t: Run) {
    t.delivered != [] && !t.delivered[|t.delivered| - 1].Packet?
  }

  ghost predicate CanEnd(r: Run) {
    exists steps: seq<Step>, t: Run :: SmoothRun(r, steps, t) && EndedInOrder(t)
  }

  /** A call of `next` is under way whose acknowledgement will be refused. */
  predicate WrongAck(r: Run) {
    r.caller.Checked? && r.caller.ack != r.pending
  }

  // --- What an open run has not seen ---

  /** Only a watchdog makes an acknowledgement expire, and it closes the run; whoever raises otherwise has no
      record unacknowledged. */
  predicate OpenSane(r: Run) {
    && (!r.closed ==> LastAck(r) != Expired && r.program != Raising(AckTimeout))
    && (r.program == Raising(Other) ==> LastAck(r) == Acknowledged)
  }

  lemma StepOpenSane(r: Run, step: Step)
    requires Inv(r) && OpenSane(r) && Enabled(r, step)
    ensures OpenSane(Apply(r, step))
  {
    hide IsStream, OneTo;
  }

  lemma {:induction false} RunOpenSane(r: Run, steps: seq<Step>, t: Run)
    requires Inv(r) && OpenSane(r) && Happens(r, steps, t)
    ensures Inv(t) && OpenSane(t)
    decreases |steps|
  {
    hide Inv, OpenSane, Apply, Enabled;
    if steps != [] {
      StepInv(r, steps[0]);
      StepOpenSane(r, steps[0]);
      RunOpenSane(Apply(r, steps[0]), steps[1..], t);
    }
  }

  lemma ReachableSane(t: Run)
    requires Reachable(t)
    ensures Inv(t) && OpenSane(t)
  {
    var declared: set<Name>, steps: seq<Step> :| Happens(Start(declared), steps, t);
    RunOpenSane(Start(declared), steps, t);
  }

  // --- A run to the end ---

  ghost predicate Good(r: Run) {
    Inv(r) && OpenSane(r) && !r.closed && !WrongAck(r)
  }

  lemma NoStep(r: Run)
    ensures SmoothRun(r, [], r)
  {
  }

  // One more step in front.
  lemma Before(r: Run, step: Step, rest: seq<Step>, t: Run)
    requires Enabled(r, step) && Smooth(step) && SmoothRun(Apply(r, step), rest, t)
    ensures SmoothRun(r, [step] + rest, t)
  {
    hide Apply, Enabled, Smooth;
    assert ([step] + rest)[1..] == rest;
  }

  lemma GoodStep(r: Run, step: Step)
    requires Good(r) && Enabled(r, step)
    requires !Apply(r, step).closed && !WrongAck(Apply(r, step))
    ensures Good(Apply(r, step))
  {
    hide Inv, OpenSane, Apply, Enabled;
    StepInv(r, step);
    StepOpenSane(r, step);
  }

  // On an open run the queue holds at most one record, in front.
  lemma QueueShape(r: Run)
    requires Inv(r) && !r.closed && r.queue != []
    ensures r.queue[0].Packet? <==> |r.delivered| < r.sequence
    ensures r.queue[0].Packet? ==> r.queue[0].sequence == r.sequence && |r.delivered| == r.sequence - 1
  {
    assert (r.delivered + r.queue)[|r.delivered|] == r.queue[0];
  }

  // The master is waiting and a terminal item is next.
  lemma HandsOutTerminal(r: Run) returns (steps: seq<Step>, t: Run)
    requires Good(r) && r.caller == Waiting && r.queue != [] && !r.queue[0].Packet?
    ensures SmoothRun(r, steps, t) && EndedInOrder(t)
  {
    hide Inv, OpenSane;
    t := Apply(r, NextDelivers);
    NoStep(t);
    Before(r, NextDelivers, [], t);
    steps := [NextDelivers] + [];
  }

  // The master is waiting and nothing is queued: what the program does next.
  function ProgramStep(r: Run): Step {
    match r.program
    case Running => ProgramReturns
    case Awaiting => ProgramAcknowledged
    case Finishing => ProgramCompletes
    case _ => ProgramFails
  }

  function ProgramRank(p: Program): nat {
    match p
    case Awaiting => 3
    case Running => 2
    case Finishing => 1
    case Raising(_) => 1
    case _ => 0
  }

  lemma ProgramMoves(r: Run)
    requires Good(r) && r.caller == Waiting && r.queue == []
    ensures Enabled(r, ProgramStep(r)) && Smooth(ProgramStep(r))
    ensures var u := Apply(r, ProgramStep(r));
      && Good(u) && u.caller == Waiting
      && if u.queue == [] then ProgramRank(u.program) < ProgramRank(r.program) else !u.queue[0].Packet?
  {
    assert r.delivered + [] == r.delivered;
    NoRecordWaits(r);
    hide IsStream;
    var u := Apply(r, ProgramStep(r));
    GoodStep(r, ProgramStep(r));
  }

  // With nothing queued and the master waiting, every record has been acknowledged or the program is raising.
  lemma NoRecordWaits(r: Run)
    requires Good(r) && r.caller == Waiting && r.queue == []
    ensures r.program != NotStarted && r.program != Ended && |r.delivered| == r.sequence
    ensures r.program == Awaiting ==> LastAck(r) == Acknowledged
    ensures r.program.Raising? ==> r.program.reason != AckTimeout
  {
    assert r.delivered + [] == r.delivered;
  }

  lemma {:induction false} WaitsForEnd(r: Run) returns (steps: seq<Step>, t: Run)
    requires Good(r) && r.caller == Waiting && (r.queue == [] || !r.queue[0].Packet?)
    ensures SmoothRun(r, steps, t) && EndedInOrder(t)
    decreases r.queue == [], ProgramRank(r.program)
  {
    hide Good, Apply, Enabled, ProgramStep, SmoothRun, EndedInOrder;
    if r.queue != [] {
      steps, t := HandsOutTerminal(r);
    } else {
      ProgramMoves(r);
      var rest: seq<Step>;
      rest, t := WaitsForEnd(Apply(r, ProgramStep(r)));
      Before(r, ProgramStep(r), rest, t);
      steps := [ProgramStep(r)] + rest;
    }
  }

  // A right acknowledgement lets the master wait.
  lemma Acknowledges(r: Run)
    requires Good(r) && r.caller.Checked?
    ensures Enabled(r, NextAcknowledges)
    ensures var u := Apply(r, NextAcknowledges);
      Good(u) && u.caller == Waiting && u.queue == r.queue && u.delivered == r.delivered
  {
    hide IsStream, OneTo;
    GoodStep(r, NextAcknowledges);
  }

  lemma Begins(r: Run)
    requires Good(r) && r.caller == CaeRecordStream.Idle
    ensures Enabled(r, NextBegins(r.pending))
    ensures var u := Apply(r, NextBegins(r.pending)); Good(u) && u.caller == Checked(r.pending) && u.queue == r.queue
  {
    hide IsStream, OneTo;
    GoodStep(r, NextBegins(r.pending));
  }

  // The record in front of the queue is handed out; what is left of the queue has none.
  lemma DeliversRecord(r: Run)
    requires Good(r) && r.caller == Waiting && r.queue != [] && r.queue[0].Packet?
    ensures Enabled(r, NextDelivers)
    ensures var u := Apply(r, NextDelivers);
      Good(u) && u.caller == CaeRecordStream.Idle && (u.queue == [] || !u.queue[0].Packet?)
  {
    QueueShape(r);
    DeliverInv(r);
    hide IsStream, OneTo;
    var u := Apply(r, NextDelivers);
    GoodStep(r, NextDelivers);
    if u.queue != [] {
      QueueShape(u);
    }
  }

  predicate FrontIsRecord(r: Run) {
    r.queue != [] && r.queue[0].Packet?
  }

  function CallerRank(c: Caller): nat {
    match c
    case Idle => 2
    case Checked(_) => 1
    case Waiting => 0
  }

  lemma {:induction false} RunsToEnd(r: Run) returns (steps: seq<Step>, t: Run)
    requires Good(r)
    ensures SmoothRun(r, steps, t) && EndedInOrder(t)
    decreases FrontIsRecord(r), CallerRank(r.caller)
  {
    hide Good, Apply, Enabled, SmoothRun, EndedInOrder;
    var step: Step;
    if r.caller == Waiting && !FrontIsRecord(r) {
      steps, t := WaitsForEnd(r);
      return;
    } else if r.caller == Waiting {
      DeliversRecord(r);
      step := NextDelivers;
    } else if r.caller.Checked? {
      Acknowledges(r);
      step := NextAcknowledges;
    } else {
      Begins(r);
      step := NextBegins(r.pending);
    }
    var rest: seq<Step>;
    rest, t := RunsToEnd(Apply(r, step));
    Before(r, step, rest, t);
    steps := [step] + rest;
  }

  // --- A refused acknowledgement ends it otherwise ---

  /** The wrong acknowledgement is still to be refused, or has been. */
  predicate Doomed(r: Run) {
    WrongAck(r) || (r.closed && r.caller == CaeRecordStream.Idle)
  }

  lemma DoomedStep(r: Run, step: Step)
    requires Inv(r) && OpenSane(r) && Doomed(r) && (WrongAck(r) ==> !r.closed) && Enabled(r, step) && Smooth(step)
    ensures var u := Apply(r, step); Doomed(u) && (WrongAck(u) ==> !u.closed) && u.delivered == r.delivered
  {
    hide IsStream, OneTo;
  }

  lemma {:induction false} DoomedRun(r: Run, steps: seq<Step>, t: Run)
    requires Inv(r) && OpenSane(r) && Doomed(r) && (WrongAck(r) ==> !r.closed) && SmoothRun(r, steps, t)
    ensures t.delivered == r.delivered
    decreases |steps|
  {
    hide Inv, OpenSane, Doomed, WrongAck, Apply, Enabled, Smooth;
    if steps != [] {
      DoomedStep(r, steps[0]);
      StepInv(r, steps[0]);
      StepOpenSane(r, steps[0]);
      DoomedRun(Apply(r, steps[0]), steps[1..], t);
    }
  }

  lemma OpenHasNotEnded(r: Run)
    requires Inv(r) && !r.closed && r.delivered != []
    ensures r.delivered[|r.delivered| - 1].Packet?
  {
    var all, last := r.delivered + r.queue, |r.delivered| - 1;
    assert all[last] == r.delivered[last];
    assert |r.delivered| <= r.sequence;
  }

  /** From every reachable open run some run without timeouts, watchdogs, aborts and departures hands out a
      terminal item, unless a `next` with a wrong acknowledgement is already under way; then none does. */
  lemma CanEndExactlyWhenAckIsRight(r: Run)
    requires Reachable(r) && !r.closed
    ensures CanEnd(r) <==> !WrongAck(r)
  {
    hide Inv, OpenSane, SmoothRun, EndedInOrder, WrongAck;
    ReachableSane(r);
    if !WrongAck(r) {
      var steps, t := RunsToEnd(r);
    } else {
      forall steps: seq<Step>, t: Run | SmoothRun(r, steps, t) ensures !EndedInOrder(t) {
        DoomedRun(r, steps, t);
        NotInOrder(r, t);
      }
    }
  }

  lemma NotInOrder(r: Run, t: Run)
    requires Inv(r) && !r.closed && t.delivered == r.delivered
    ensures !EndedInOrder(t)
  {
    if r.delivered != [] {
      OpenHasNotEnded(r);
    }
  }
}
