/** The call handshake between a master that keeps one call outstanding and the worker's session, over
    two ordered channels. Requests and results may be followed by attachment parts. */
module CallHandshake {
  import opened Options

  type CallId = nat

  datatype Request = CallSent(id: CallId, parts: nat) | RequestPart(id: CallId) | Ack(id: CallId)

  datatype Reply = ResultSent(id: CallId, parts: nat) | ResultPart(id: CallId) | ErrorSent(id: CallId, busy: bool)

  // Where the worker's session loop stands.
  datatype Session =
    | Ready
    | Taken(id: CallId)                      // off the queue, guard not yet set
    | Dispatching(id: CallId)
    | SendingResult(id: CallId, left: nat)
    | AwaitingAck(id: CallId)

  datatype Worker = Worker(
    callInProgress: bool,
    incoming: Option<(CallId, nat)>,         // a call and its missing parts
    queue: seq<CallId>,
    ackSeen: bool,
    session: Session
  )

  datatype Master =
    | Idle
    | Sending(id: CallId, left: nat)
    | Waiting(id: CallId)
    | Receiving(id: CallId, left: nat)
    | Acking(id: CallId)                     // acknowledged, call not yet resolved

  datatype Outcome = Outcome(id: CallId, ok: bool)

  /** The last three fields are history: calls started, handled by the worker, resolved in the master. */
  datatype State = State(
    master: Master,
    toWorker: seq<Request>,
    toMaster: seq<Reply>,
    worker: Worker,
    started: seq<CallId>,
    handled: seq<Outcome>,
    resolved: seq<Outcome>
  )

  datatype Step =
    | StartCall(id: CallId, parts: nat)
    | SendPart
    | WorkerReceives
    | TakeCall
    | BeginCall
    | DispatchFails
    | DispatchReturns(parts: nat)
    | SendResultPart
    | WaitForAck
    | FinishCall
    | MasterReceives
    | ResolveCall

  function Init(): State {
    State(Idle, [], [], Worker(false, None, [], false, Ready), [], [], [])
  }

  predicate Enabled(s: State, step: Step) {
    match step
    case StartCall(_, _) => s.master == Idle
    case SendPart => s.master.Sending?
    case WorkerReceives => s.toWorker != []
    case TakeCall => s.worker.session == Ready && s.worker.queue != []
    case BeginCall => s.worker.session.Taken?
    case DispatchFails => s.worker.session.Dispatching?
    case DispatchReturns(_) => s.worker.session.Dispatching?
    case SendResultPart => s.worker.session.SendingResult? && s.worker.session.left > 0
    case WaitForAck => s.worker.session.SendingResult? && s.worker.session.left == 0
    case FinishCall => s.worker.session.AwaitingAck? && s.worker.ackSeen
    case MasterReceives => s.toMaster != [] && !s.master.Acking?
    case ResolveCall => s.master.Acking?
  }

  predicate Busy(w: Worker) {
    w.callInProgress || w.incoming.Some? || w.queue != []
  }

  predicate AwaitsAckOf(w: Worker, id: CallId) {
    (w.session.SendingResult? || w.session.AwaitingAck?) && w.session.id == id
  }

  function Reject(s: State, w: Worker, id: CallId, busy: bool): State {
    s.(worker := w, toMaster := s.toMaster + [ErrorSent(id, busy)])
  }

  function OnRequest(s: State, r: Request): State {
    var w := s.worker;
    match r
    case CallSent(id, parts) =>
      if Busy(w) then Reject(s, w, id, true)
      else if parts == 0 then s.(worker := w.(queue := w.queue + [id]))
      else s.(worker := w.(incoming := Some((id, parts))))
    case RequestPart(id) =>
      if w.incoming.None? || w.incoming.value.0 != id then Reject(s, w.(incoming := None), id, false)
      else if w.incoming.value.1 <= 1 then s.(worker := w.(incoming := None, queue := w.queue + [id]))
      else s.(worker := w.(incoming := Some((id, w.incoming.value.1 - 1))))
    case Ack(id) =>
      // The guard is released here, before the waiting session runs again.
      if AwaitsAckOf(w, id) then s.(worker := w.(callInProgress := false, ackSeen := true)) else s
  }

  function Acknowledge(s: State, id: CallId): State {
    s.(toWorker := s.toWorker + [Ack(id)], master := Acking(id))
  }

  function EndCall(s: State, ok: bool): State {
    if s.master == Idle then s else s.(master := Idle, resolved := s.resolved + [Outcome(s.master.id, ok)])
  }

  function OnReply(s: State, r: Reply): State {
    match r
    case ErrorSent(_, _) => EndCall(s, false)
    case ResultSent(id, parts) =>
      if s.master == Idle || s.master.id != id then EndCall(s, false)
      else if parts == 0 then Acknowledge(s, id)
      else s.(master := Receiving(id, parts))
    case ResultPart(id) =>
      if !s.master.Receiving? then s
      else if s.master.id != id then EndCall(s, false)
      else if s.master.left <= 1 then Acknowledge(s, id)
      else s.(master := Receiving(id, s.master.left - 1))
  }

  function Apply(s: State, step: Step): State
    requires Enabled(s, step)
  {
    var w := s.worker;
    match step
    case StartCall(id, parts) =>
      s.(toWorker := s.toWorker + [CallSent(id, parts)], started := s.started + [id],
         master := if parts == 0 then Waiting(id) else Sending(id, parts))
    case SendPart =>
      var id, left := s.master.id, s.master.left;
      s.(toWorker := s.toWorker + [RequestPart(id)], master := if left <= 1 then Waiting(id) else Sending(id, left - 1))
    case WorkerReceives => OnRequest(s.(toWorker := s.toWorker[1..]), s.toWorker[0])
    case TakeCall => s.(worker := w.(session := Taken(w.queue[0]), queue := w.queue[1..]))
    case BeginCall => s.(worker := w.(session := Dispatching(w.session.id), callInProgress := true))
    case DispatchFails =>
      // The error goes out and the guard comes down without a pause in between.
      s.(worker := w.(session := Ready, callInProgress := false),
         toMaster := s.toMaster + [ErrorSent(w.session.id, false)],
         handled := s.handled + [Outcome(w.session.id, false)])
    case DispatchReturns(parts) =>
      s.(worker := w.(session := SendingResult(w.session.id, parts), ackSeen := false),
         toMaster := s.toMaster + [ResultSent(w.session.id, parts)],
                     handled := s.handled + [Outcome(w.session.id, true)])
    case SendResultPart =>
      s.(worker := w.(session := SendingResult(w.session.id, w.session.left - 1)),
         toMaster := s.toMaster + [ResultPart(w.session.id)])
    case WaitForAck => s.(worker := w.(session := AwaitingAck(w.session.id)))
    case FinishCall => s.(worker := w.(session := Ready, callInProgress := false))
    case MasterReceives => OnReply(s.(toMaster := s.toMaster[1..]), s.toMaster[0])
    case ResolveCall => EndCall(s, true)
  }

  // --- Where the one call is ---

  function RequestParts(id: CallId, n: nat): (r: seq<Request>)
    ensures |r| == n && forall i :: 0 <= i < n ==> r[i] == RequestPart(id)
  {
    seq(n, _ => RequestPart(id))
  }

  function ResultParts(id: CallId, n: nat): (r: seq<Reply>)
    ensures |r| == n && forall i :: 0 <= i < n ==> r[i] == ResultPart(id)
  {
    seq(n, _ => ResultPart(id))
  }

  predicate AckUnderway(s: State) {
    s.toWorker != [] && s.toWorker[0].Ack?
  }

  /** What is on its way to the worker behind the last acknowledgement. */
  function Behind(s: State): seq<Request> {
    if AckUnderway(s) then s.toWorker[1..] else s.toWorker
  }

  /** The whole result has been sent; the session waits for the acknowledgement, or is about to. */
  predicate AllSent(w: Worker) {
    w.session.AwaitingAck? || (w.session.SendingResult? && w.session.left == 0)
  }

  /** The session is done with the previous call, or will be as soon as it sees the acknowledgement. */
  predicate PreviousDone(s: State) {
    s.worker.session == Ready || (AllSent(s.worker) && (s.worker.ackSeen || AckUnderway(s)))
  }

  predicate GuardSane(s: State) {
    var w := s.worker;
    && (w.session == Ready || w.session.Taken? ==> !w.callInProgress)
    && (w.session.Dispatching? ==> w.callInProgress)
    && (w.session.SendingResult? || w.session.AwaitingAck? ==> w.callInProgress == !w.ackSeen)
    && (w.session.SendingResult? && w.ackSeen ==> AllSent(w))
    && (AckUnderway(s) ==> AllSent(w) && AwaitsAckOf(w, s.toWorker[0].id) && !w.ackSeen)
  }

  predicate NothingInWorker(s: State) {
    s.worker.incoming.None? && s.worker.queue == []
  }

  /** The call is being transmitted, `left` parts are still to be sent. */
  predicate Outgoing(s: State, id: CallId, left: nat) {
    var b := Behind(s);
    && s.toMaster == [] && PreviousDone(s) && s.worker.queue == []
    && (|| (&& s.worker.incoming.None? && b != [] && b[0] == CallSent(id, |b| - 1 + left)
            && b[1..] == RequestParts(id, |b| - 1))
        || (&& !AckUnderway(s) && s.worker.incoming == Some((id, |b| + left)) && |b| + left > 0
            && b == RequestParts(id, |b|)))
  }

  predicate Queued(s: State, id: CallId) {
    s.toMaster == [] && PreviousDone(s) && s.toWorker == [] && s.worker.incoming.None? && s.worker.queue == [id]
  }

  /** The session works on the call, or has answered it. */
  predicate InSession(s: State, id: CallId) {
    && s.toWorker == [] && NothingInWorker(s)
    && match s.worker.session
       case Ready => s.toMaster == [ErrorSent(id, false)]
       case Taken(x) => x == id && s.toMaster == []
       case Dispatching(x) => x == id && s.toMaster == []
       case SendingResult(x, left) =>
         x == id && !s.worker.ackSeen && s.toMaster != [] && s.toMaster[0] == ResultSent(id, |s.toMaster| - 1 + left)
         && s.toMaster[1..] == ResultParts(id, |s.toMaster| - 1)
       case AwaitingAck(x) =>
         x == id && !s.worker.ackSeen && s.toMaster != [] && s.toMaster[0] == ResultSent(id, |s.toMaster| - 1)
         && s.toMaster[1..] == ResultParts(id, |s.toMaster| - 1)
  }

  predicate Incoming(s: State, id: CallId, left: nat) {
    && left > 0 && s.toWorker == [] && NothingInWorker(s)
    && s.toMaster == ResultParts(id, |s.toMaster|)
    && match s.worker.session
       case SendingResult(x, more) => x == id && !s.worker.ackSeen && |s.toMaster| + more == left
       case AwaitingAck(x) => x == id && !s.worker.ackSeen && |s.toMaster| == left
       case _ => false
  }

  predicate Placed(s: State) {
    match s.master
    case Idle => Behind(s) == [] && NothingInWorker(s) && s.toMaster == [] && PreviousDone(s)
    case Sending(id, left) => left > 0 && Outgoing(s, id, left)
    case Waiting(id) => Outgoing(s, id, 0) || Queued(s, id) || InSession(s, id)
    case Receiving(id, left) => Incoming(s, id, left)
    case Acking(_) => Behind(s) == [] && NothingInWorker(s) && s.toMaster == [] && PreviousDone(s)
  }

  function Ids(outcomes: seq<Outcome>): (ids: seq<CallId>)
    ensures |ids| == |outcomes| && forall i :: 0 <= i < |ids| ==> ids[i] == outcomes[i].id
  {
    seq(|outcomes|, i requires 0 <= i < |outcomes| => outcomes[i].id)
  }

  /** The worker has answered the outstanding call, and this is the answer under way. */
  function Answered(s: State): seq<Outcome> {
    match s.master
    case Waiting(id) =>
      if s.toMaster == [] then [] else [Outcome(id, s.toMaster[0].ResultSent?)]
    case Receiving(id, _) => [Outcome(id, true)]
    case Acking(id) => [Outcome(id, true)]
    case _ => []
  }

  predicate Recorded(s: State) {
    && s.handled == s.resolved + Answered(s)
    && s.started == Ids(s.resolved) + if s.master == Idle then [] else [s.master.id]
  }

  predicate Inv(s: State) {
    GuardSane(s) && Placed(s) && Recorded(s)
  }

  lemma InitInv()
    ensures Inv(Init())
  {
  }

  lemma StartCallInv(s: State, id: CallId, parts: nat)
    requires Inv(s) && Enabled(s, StartCall(id, parts))
    ensures Inv(Apply(s, StartCall(id, parts)))
  {
  }

  lemma SendPartInv(s: State)
    requires Inv(s) && Enabled(s, SendPart)
    ensures Inv(Apply(s, SendPart))
  {
    var t := Apply(s, SendPart);
    var id := s.master.id;
    assert Behind(t) == Behind(s) + [RequestPart(id)];
    if s.worker.incoming.None? {
      assert Behind(t)[1..] == Behind(s)[1..] + [RequestPart(id)];
    }
  }

  lemma CallReceivedInv(s: State)
    requires Inv(s) && s.toWorker != [] && s.toWorker[0].CallSent?
    ensures Inv(Apply(s, WorkerReceives))
    ensures !Busy(s.worker)
  {
    var t := Apply(s, WorkerReceives);
    assert Behind(s)[1..] == s.toWorker[1..];
    assert t.toWorker != [] ==> t.toWorker[0].RequestPart?;
  }

  lemma PartReceivedInv(s: State)
    requires Inv(s) && s.toWorker != [] && s.toWorker[0].RequestPart?
    ensures Inv(Apply(s, WorkerReceives))
    ensures s.worker.incoming.Some? && s.worker.incoming.value.0 == s.toWorker[0].id
  {
    var t := Apply(s, WorkerReceives);
    assert t.toWorker != [] ==> t.toWorker[0].RequestPart?;
  }

  lemma AckReceivedInv(s: State)
    requires Inv(s) && s.toWorker != [] && s.toWorker[0].Ack?
    ensures Inv(Apply(s, WorkerReceives))
  {
  }

  lemma WorkerReceivesInv(s: State)
    requires Inv(s) && Enabled(s, WorkerReceives)
    ensures Inv(Apply(s, WorkerReceives))
  {
    hide Inv, Apply;
    match s.toWorker[0]
    case CallSent(_, _) => CallReceivedInv(s);
    case RequestPart(_) => PartReceivedInv(s);
    case Ack(_) => AckReceivedInv(s);
  }

  lemma SessionInv(s: State, step: Step)
    requires Inv(s) && Enabled(s, step)
    requires step.TakeCall? || step.BeginCall? || step.DispatchFails? || step.WaitForAck? || step.FinishCall?
    ensures Inv(Apply(s, step))
  {
  }

  lemma ResultSentInv(s: State, step: Step)
    requires Inv(s) && Enabled(s, step) && (step.DispatchReturns? || step.SendResultPart?)
    ensures Inv(Apply(s, step))
  {
  }

  lemma MasterReceivesInv(s: State)
    requires Inv(s) && Enabled(s, MasterReceives)
    ensures Inv(Apply(s, MasterReceives))
  {
    match s.toMaster[0]
    case ErrorSent(_, _) =>
    case ResultSent(_, _) => ResultReceivedInv(s);
    case ResultPart(_) => PartOfResultReceivedInv(s);
  }

  lemma ResultReceivedInv(s: State)
    requires Inv(s) && s.toMaster != [] && s.toMaster[0].ResultSent? && !s.master.Acking?
    ensures Inv(Apply(s, MasterReceives))
  {
  }

  lemma PartOfResultReceivedInv(s: State)
    requires Inv(s) && s.toMaster != [] && s.toMaster[0].ResultPart? && !s.master.Acking?
    ensures Inv(Apply(s, MasterReceives))
  {
  }

  lemma ResolveCallInv(s: State)
    requires Inv(s) && Enabled(s, ResolveCall)
    ensures Inv(Apply(s, ResolveCall))
  {
  }

  /** Every step of either side keeps the handshake in shape. */
  lemma StepInv(s: State, step: Step)
    requires Inv(s) && Enabled(s, step)
    ensures Inv(Apply(s, step))
  {
    hide Inv, Apply;
    match step
    case StartCall(id, parts) => StartCallInv(s, id, parts);
    case SendPart => SendPartInv(s);
    case WorkerReceives => WorkerReceivesInv(s);
    case MasterReceives => MasterReceivesInv(s);
    case ResolveCall => ResolveCallInv(s);
    case DispatchReturns(_) => ResultSentInv(s, step);
    case SendResultPart => ResultSentInv(s, step);
    case _ => SessionInv(s, step);
  }

  // --- Whole runs ---

  ghost predicate Run(s: State, steps: seq<Step>, t: State)
    decreases |steps|
  {
    if steps == [] then s == t else Enabled(s, steps[0]) && Run(Apply(s, steps[0]), steps[1..], t)
  }

  lemma {:induction false} RunInv(s: State, steps: seq<Step>, t: State)
    requires Inv(s) && Run(s, steps, t)
    ensures Inv(t)
    decreases |steps|
  {
    if steps != [] {
      StepInv(s, steps[0]);
      RunInv(Apply(s, steps[0]), steps[1..], t);
    }
  }

  ghost predicate Reachable(t: State) {
    exists steps: seq<Step> :: Run(Init(), steps, t)
  }

  lemma ReachableInv(t: State)
    requires Reachable(t)
    ensures Inv(t)
  {
    var steps: seq<Step> :| Run(Init(), steps, t);
    InitInv();
    RunInv(Init(), steps, t);
  }

  /** A call that reaches the worker never finds it busy: the acknowledgement before it has cleared the guard. */
  lemma NeverBusy(t: State)
    requires Reachable(t) && t.toWorker != [] && t.toWorker[0].CallSent?
    ensures !Busy(t.worker)
  {
    ReachableInv(t);
  }

  /** So the master is never sent a busy error, and every reply it is sent is for its own call. */
  lemma RepliesAreOwn(t: State, k: nat)
    requires Reachable(t) && k < |t.toMaster|
    ensures t.master != Idle && t.toMaster[k].id == t.master.id
    ensures t.toMaster[k].ErrorSent? ==> !t.toMaster[k].busy
  {
    ReachableInv(t);
    if k > 0 {
      assert t.toMaster[1..][k - 1] == t.toMaster[k];
    }
  }

  /** Calls are resolved in the order they were started, each with what the worker made of it. */
  lemma ResolvedAsHandled(t: State, k: nat)
    requires Reachable(t) && k < |t.resolved|
    ensures k < |t.started| && t.resolved[k].id == t.started[k]
    ensures k < |t.handled| && t.resolved[k] == t.handled[k]
    ensures |t.resolved| <= |t.started| <= |t.resolved| + 1
  {
    ReachableInv(t);
  }

  // --- Every call is resolved ---

  /** While a call is outstanding somebody can move. */
  lemma NeverStuck(t: State)
    requires Reachable(t) && t.master != Idle
    ensures exists step: Step :: !step.StartCall? && Enabled(t, step)
  {
    ReachableInv(t);
    var step := SomeStep(t);
  }

  lemma SomeStep(t: State) returns (step: Step)
    requires Inv(t) && t.master != Idle
    ensures !step.StartCall? && Enabled(t, step)
  {
    if t.toWorker != [] {
      step := WorkerReceives;
    } else if t.master.Acking? {
      step := ResolveCall;
    } else if t.toMaster != [] {
      step := MasterReceives;
    } else if t.master.Sending? {
      step := SendPart;
    } else {
      match t.worker.session
      case Ready => step := TakeCall;
      case Taken(_) => step := BeginCall;
      case Dispatching(_) => step := DispatchFails;
      case SendingResult(_, left) => step := if left > 0 then SendResultPart else WaitForAck;
      case AwaitingAck(_) => step := FinishCall;
    }
  }

  function SessionWork(session: Session): nat {
    match session
    case Ready => 0
    case Taken(_) => 3
    case Dispatching(_) => 2
    case SendingResult(_, left) => 2 + 2 * left
    case AwaitingAck(_) => 1
  }

  function MasterWork(master: Master): nat {
    match master
    case Idle => 0
    case Sending(_, left) => 10 + 6 * left
    case Acking(_) => 1
    case _ => 10
  }

  /** Calls the worker has not answered yet, and what is left to do for the others. */
  function Unanswered(s: State): int {
    |s.started| - |s.handled|
  }

  function Work(s: State): nat {
    5 * |s.toWorker| + |s.toMaster| + 4 * |s.worker.queue| + SessionWork(s.worker.session) + MasterWork(s.master)
  }

  /** Every step but the start of a call brings the end nearer. */
  lemma EveryStepProgresses(t: State, step: Step)
    requires Reachable(t) && Enabled(t, step) && !step.StartCall?
    ensures Nearer(Apply(t, step), t)
  {
    ReachableInv(t);
    StepProgresses(t, step);
  }

  predicate Nearer(u: State, t: State) {
    && 0 <= Unanswered(u) <= Unanswered(t)
    && (Unanswered(u) < Unanswered(t) || Work(u) < Work(t))
  }

  lemma StepProgresses(t: State, step: Step)
    requires Inv(t) && Enabled(t, step) && !step.StartCall?
    ensures Nearer(Apply(t, step), t)
  {
    hide Inv, Apply, Enabled, Answered, Unanswered, Work;
    StepInv(t, step);
    CountsAgree(t);
    CountsAgree(Apply(t, step));
    if step.WorkerReceives? || step.MasterReceives? {
      ReceivesProgress(t, step);
    } else {
      OwnProgress(t, step);
    }
  }

  lemma OwnProgress(t: State, step: Step)
    requires Enabled(t, step) && !step.StartCall? && !step.WorkerReceives? && !step.MasterReceives?
    requires t.master.Sending? ==> t.master.left > 0
    ensures var u := Apply(t, step);
      Unanswered(u) < Unanswered(t) || (Unanswered(u) == Unanswered(t) && Work(u) < Work(t))
  {
  }

  lemma CountsAgree(s: State)
    requires Inv(s)
    ensures 0 <= Unanswered(s) <= 1
    ensures s.master.Sending? ==> s.master.left > 0
  {
  }

  lemma ReceivesProgress(t: State, step: Step)
    requires Inv(t) && Enabled(t, step) && (step.WorkerReceives? || step.MasterReceives?)
    ensures Work(Apply(t, step)) < Work(t) && Unanswered(Apply(t, step)) == Unanswered(t)
  {
    if step.WorkerReceives? && t.toWorker[0].RequestPart? {
      assert t.worker.incoming.Some? && t.worker.incoming.value.0 == t.toWorker[0].id;
    }
  }

  // An idle master has every call resolved that was started.
  lemma IdleIsResolved(t: State)
    requires Inv(t) && t.master == Idle
    ensures Ids(t.resolved) == t.started
  {
  }

  predicate StartsNothing(steps: seq<Step>) {
    forall i :: 0 <= i < |steps| ==> !steps[i].StartCall?
  }

  lemma {:induction false} SameCalls(s: State, steps: seq<Step>, t: State)
    requires Run(s, steps, t) && StartsNothing(steps)
    ensures t.started == s.started
    decreases |steps|
  {
    if steps != [] {
      SameCalls(Apply(s, steps[0]), steps[1..], t);
    }
  }

  /** From every reachable state the outstanding call can be brought to its end: some run that starts no
      other call reaches an idle master, with all started calls resolved in order. */
  lemma CanBeResolved(t: State) returns (steps: seq<Step>, u: State)
    requires Reachable(t)
    ensures Run(t, steps, u) && StartsNothing(steps)
    ensures u.master == Idle && u.started == t.started && Ids(u.resolved) == t.started
  {
    ReachableInv(t);
    steps, u := Finish(t);
    SameCalls(t, steps, u);
    RunInv(t, steps, u);
    IdleIsResolved(u);
  }

  lemma {:induction false} Finish(t: State) returns (steps: seq<Step>, u: State)
    requires Inv(t)
    ensures Run(t, steps, u) && StartsNothing(steps) && u.master == Idle
    decreases Unanswered(t), Work(t)
  {
    hide Inv, Apply, Enabled, Unanswered, Work;
    if t.master == Idle {
      steps, u := [], t;
    } else {
      var step := SomeStep(t);
      StepInv(t, step);
      StepProgresses(t, step);
      var rest: seq<Step>;
      rest, u := Finish(Apply(t, step));
      steps := [step] + rest;
      assert steps[1..] == rest;
    }
  }

  /** A run that never ends. */
  ghost predicate Endless(run: nat -> State, steps: nat -> Step) {
    && run(0) == Init()
    && forall i: nat :: Enabled(run(i), steps(i)) && run(i + 1) == Apply(run(i), steps(i))
  }

  lemma {:induction false} EndlessInv(run: nat -> State, steps: nat -> Step, i: nat)
    requires Endless(run, steps)
    ensures Inv(run(i))
  {
    hide Inv, Apply, Enabled;
    if i == 0 {
      InitInv();
    } else {
      EndlessInv(run, steps, i - 1);
      StepInv(run(i - 1), steps(i - 1));
      assert run(i - 1 + 1) == run(i);
    }
  }

  /** In every endless run, whatever the order of its steps, every call that is started is resolved. */
  lemma {:induction false} EveryCallIsResolved(run: nat -> State, steps: nat -> Step, i: nat) returns (k: nat)
    requires Endless(run, steps)
    ensures i <= k && run(k).master == Idle
    ensures run(k).started == run(i).started && Ids(run(k).resolved) == run(k).started
    decreases Unanswered(run(i)), Work(run(i))
  {
    hide Inv, Apply, Unanswered, Work;
    EndlessInv(run, steps, i);
    if run(i).master == Idle {
      IdleIsResolved(run(i));
      k := i;
    } else {
      StepProgresses(run(i), steps(i));
      SameCalls(run(i), [steps(i)], run(i + 1));
      k := EveryCallIsResolved(run, steps, i + 1);
    }
  }
}
