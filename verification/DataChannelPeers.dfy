/** The worker's end of the data channel: calls, their attachments, and what a sender's chunks become. */
module DataChannelPeers {
  import opened Options
  import opened BinaryFrames
  import opened Attachments

  type Payload = string

  const CHUNK_KIND: string := "attachment.chunk"

  datatype Metadata = Metadata(id: string, size: int)

  datatype CallMessage = CallMessage(id: string, callType: string, payload: Payload, attachments: seq<Metadata>)

  /** A call as the session's queue gets it. */
  datatype Call = Call(message: CallMessage, attachments: seq<Attachment>)

  datatype Incoming = Incoming(message: CallMessage, table: Table)

  datatype ErrorCode = InvalidCall | WorkerBusy | InvalidAttachment

  datatype Worker = Worker(
    callInProgress: bool,
    incoming: Option<Incoming>,
    queue: seq<Call>,
    errors: seq<(string, ErrorCode)>
  )

  function MetadataOf(attachments: seq<Attachment>): seq<Metadata> {
    seq(|attachments|, i requires 0 <= i < |attachments| => Metadata(attachments[i].id, |attachments[i].data|))
  }

  /** The checks on declared attachments. */
  predicate Declarable(ms: seq<Metadata>, limit: Option<nat>) {
    && (forall i :: 0 <= i < |ms| ==> ms[i].id != "" && ms[i].size >= 0 && Within(ms[i].size, limit))
    && (forall i, j :: 0 <= i < j < |ms| ==> ms[i].id != ms[j].id)
  }

  function EmptyTable(ms: seq<Metadata>, limit: Option<nat>): Table
    requires Declarable(ms, limit)
  {
    seq(|ms|, i requires 0 <= i < |ms| => File(ms[i].id, ms[i].size, [], 0, false))
  }

  // --- The worker ---

  const WORKER_LIMIT: Option<nat> := Some(ATTACHMENT_MAX_BYTES)

  function Reject(w: Worker, id: string, code: ErrorCode): Worker {
    w.(errors := w.errors + [(id, code)])
  }

  predicate Busy(w: Worker) {
    w.callInProgress || w.incoming.Some? || w.queue != []
  }

  function OnCall(w: Worker, jobId: string, m: CallMessage): Worker {
    if m.id == "" || m.callType == "" then Reject(w, if m.id == "" then jobId else m.id, InvalidCall)
    else if Busy(w) then Reject(w, m.id, WorkerBusy)
    else if m.attachments == [] then w.(queue := w.queue + [Call(m, [])])
    else if Declarable(m.attachments, WORKER_LIMIT)
      then w.(incoming := Some(Incoming(m, EmptyTable(m.attachments, WORKER_LIMIT))))
    else Reject(w, m.id, InvalidAttachment)
  }

  /** The table after a binary message; None is an error. */
  function Next(codec: Codec, callId: string, t: Table, raw: Bytes, limit: Option<nat>): Option<Table> {
    match DecodeFrame(codec, raw)
    case None => None
    case Some(f) => if f.header.kind != CHUNK_KIND || f.header.callId != callId then None else Accept(t, f, limit)
  }

  function OnBinary(codec: Codec, w: Worker, jobId: string, raw: Bytes): Worker {
    if w.incoming.None? then Reject(w, jobId, InvalidAttachment)
    else
      var call := w.incoming.value;
      var next := if |raw| > MESSAGE_MAX_BYTES
        then None else Next(codec, call.message.id, call.table, raw, WORKER_LIMIT);
      if next.None? then Reject(w.(incoming := None), call.message.id, InvalidAttachment)
      else if AllComplete(next.value)
        then w.(incoming := None, queue := w.queue + [Call(call.message, Assembled(next.value))])
      else w.(incoming := Some(Incoming(call.message, next.value)))
  }

  /** The worker's connection state, changed by its message handler. */
  class WorkerJobPeerState {
    const codec: Codec
    const jobId: string
    var callInProgress: bool
    var incomingCall: Option<Incoming>
    var callQueue: seq<Call>
    var errorsSent: seq<(string, ErrorCode)>

    function State(): Worker
      reads this
    {
      Worker(callInProgress, incomingCall, callQueue, errorsSent)
    }

    constructor (codec: Codec, jobId: string)
      ensures State() == Worker(false, None, [], []) && this.codec == codec && this.jobId == jobId
    {
      this.codec, this.jobId := codec, jobId;
      callInProgress, incomingCall, callQueue, errorsSent := false, None, [], [];
    }

    method SendJobError(id: string, code: ErrorCode)
      modifies this`errorsSent
      ensures State() == Reject(old(State()), id, code)
    {
      errorsSent := errorsSent + [(id, code)];
    }

    method ReceiveJobCall(m: CallMessage)
      modifies this
      ensures State() == OnCall(old(State()), jobId, m)
    {
      if m.id == "" || m.callType == "" {
        SendJobError(if m.id == "" then jobId else m.id, InvalidCall);
        return;
      }
      if callInProgress || incomingCall.Some? || callQueue != [] {
        SendJobError(m.id, WorkerBusy);
        return;
      }
      if m.attachments == [] {
        callQueue := callQueue + [Call(m, [])];
        return;
      }
      var table := DeclareFiles(m.attachments);
      if table.None? {
        SendJobError(m.id, InvalidAttachment);
        return;
      }
      incomingCall := Some(Incoming(m, table.value));
    }

    /** One pass over the metadata; None is the error of the first bad entry. */
    static method DeclareFiles(ms: seq<Metadata>) returns (table: Option<Table>)
      ensures table == if Declarable(ms, WORKER_LIMIT) then Some(EmptyTable(ms, WORKER_LIMIT)) else None
    {
      var files: Table := [];
      for i := 0 to |ms|
        invariant Declarable(ms[..i], WORKER_LIMIT) && files == EmptyTable(ms[..i], WORKER_LIMIT)
      {
        var m := ms[i];
        assert forall k :: 0 <= k < i ==> files[k].id == ms[k].id;
        if m.id == "" || Position(files, m.id) < |files| || m.size < 0 || m.size > ATTACHMENT_MAX_BYTES {
          return None;
        }
        files := files + [File(m.id, m.size, [], 0, false)];
      }
      assert ms[..|ms|] == ms;
      return Some(files);
    }

    method ReceiveBinary(raw: Bytes)
      modifies this
      ensures State() == OnBinary(codec, old(State()), jobId, raw)
    {
      if incomingCall.None? {
        SendJobError(jobId, InvalidAttachment);
        return;
      }
      var call := incomingCall.value;
      incomingCall := None;
      if |raw| > MESSAGE_MAX_BYTES {
        SendJobError(call.message.id, InvalidAttachment);
        return;
      }
      var next := Next(codec, call.message.id, call.table, raw, WORKER_LIMIT);
      if next.None? {
        SendJobError(call.message.id, InvalidAttachment);
      } else if AllComplete(next.value) {
        callQueue := callQueue + [Call(call.message, Assembled(next.value))];
      } else {
        incomingCall := Some(Incoming(call.message, next.value));
      }
    }
  }

  // --- Soundness: whatever is received ---

  datatype Event =
    | CallArrives(message: CallMessage)
    | BinaryArrives(raw: Bytes)
    | SessionTakes
    | SessionSetsBusy(busy: bool)

  function Handle(codec: Codec, jobId: string, w: Worker, e: Event): Worker {
    match e
    case CallArrives(m) => OnCall(w, jobId, m)
    case BinaryArrives(raw) => OnBinary(codec, w, jobId, raw)
    case SessionTakes => if w.queue == [] then w else w.(queue := w.queue[1..])
    case SessionSetsBusy(busy) => w.(callInProgress := busy)
  }

  function HandleAll(codec: Codec, jobId: string, w: Worker, events: seq<Event>): Worker
    decreases |events|
  {
    if events == [] then w else HandleAll(codec, jobId, Handle(codec, jobId, w, events[0]), events[1..])
  }

  predicate TableMatches(t: Table, ms: seq<Metadata>) {
    |t| == |ms| && forall i :: 0 <= i < |ms| ==> t[i].id == ms[i].id && t[i].size == ms[i].size
  }

  /** A queued call has exactly the attachments it declared, each of exactly its declared size. */
  predicate AsDeclared(c: Call) {
    && Declarable(c.message.attachments, WORKER_LIMIT)
    && |c.attachments| == |c.message.attachments|
    && forall i :: 0 <= i < |c.attachments| ==>
        c.attachments[i].id == c.message.attachments[i].id && |c.attachments[i].data| == c.message.attachments[i].size
  }

  predicate WorkerSane(w: Worker) {
    && (forall i :: 0 <= i < |w.queue| ==> AsDeclared(w.queue[i]))
    && (w.incoming.Some? ==>
          && Declarable(w.incoming.value.message.attachments, WORKER_LIMIT)
          && TableMatches(w.incoming.value.table, w.incoming.value.message.attachments)
          && TableSane(w.incoming.value.table))
  }

  lemma BinarySane(codec: Codec, jobId: string, w: Worker, raw: Bytes)
    requires WorkerSane(w)
    ensures WorkerSane(OnBinary(codec, w, jobId, raw))
  {
    hide Accept, TableSane, DecodeFrame, AllComplete, Assembled;
    if w.incoming.Some? {
      var call := w.incoming.value;
      var next := Next(codec, call.message.id, call.table, raw, WORKER_LIMIT);
      if next.Some? {
        AcceptedIsNext(call.table, DecodeFrame(codec, raw).value, WORKER_LIMIT);
        if AllComplete(next.value) {
          CompleteIsDeclared(next.value);
        }
      }
    }
  }

  lemma HandleSane(codec: Codec, jobId: string, w: Worker, e: Event)
    requires WorkerSane(w)
    ensures WorkerSane(Handle(codec, jobId, w, e))
  {
    hide OnBinary;
    if e.BinaryArrives? {
      BinarySane(codec, jobId, w, e.raw);
    }
  }

  /** For any messages whatever: every call that reaches the queue is as declared. */
  lemma {:induction false} QueuedCallsAreAsDeclared(codec: Codec, jobId: string, w: Worker, events: seq<Event>)
    requires WorkerSane(w)
    ensures WorkerSane(HandleAll(codec, jobId, w, events))
    decreases |events|
  {
    if events != [] {
      HandleSane(codec, jobId, w, events[0]);
      QueuedCallsAreAsDeclared(codec, jobId, Handle(codec, jobId, w, events[0]), events[1..]);
    }
  }

  // --- Delivery: what a sender sends ---

  /** The frame of every chunk can be encoded and is no larger than a message may be. */
  predicate Transmittable(codec: Codec, frames: seq<Frame>) {
    forall i :: 0 <= i < |frames| ==>
      Fits(codec, frames[i].header) && |EncodeFrame(codec, frames[i].header, frames[i].body)| <= MESSAGE_MAX_BYTES
  }

  predicate ChunksOfCall(frames: seq<Frame>, callId: string) {
    forall i :: 0 <= i < |frames| ==> frames[i].header.kind == CHUNK_KIND && frames[i].header.callId == callId
  }

  function Wire(codec: Codec, frames: seq<Frame>): (events: seq<Event>)
    requires Transmittable(codec, frames)
    ensures |events| == |frames|
  {
    seq(|frames|, i requires 0 <= i < |frames| => BinaryArrives(EncodeFrame(codec, frames[i].header, frames[i].body)))
  }

  lemma NextIsAccept(codec: Codec, callId: string, t: Table, f: Frame, limit: Option<nat>)
    requires Lawful(codec) && Fits(codec, f.header) && f.header.kind == CHUNK_KIND && f.header.callId == callId
    ensures Next(codec, callId, t, EncodeFrame(codec, f.header, f.body), limit) == Accept(t, f, limit)
  {
    hide DecodeFrame, EncodeFrame, Accept;
    FrameRoundTrip(codec, f.header, f.body);
  }

  lemma {:induction false} WireDelivers(codec: Codec, jobId: string, w: Worker, frames: seq<Frame>)
    requires Lawful(codec) && w.incoming.Some? && Transmittable(codec, frames) && frames != []
    requires ChunksOfCall(frames, w.incoming.value.message.id)
    requires var end := Feed(w.incoming.value.table, frames, WORKER_LIMIT); end.Some? && AllComplete(end.value)
    ensures HandleAll(codec, jobId, w, Wire(codec, frames)) ==
      w.(incoming := None,
         queue := w.queue
           + [Call(w.incoming.value.message, Assembled(Feed(w.incoming.value.table, frames, WORKER_LIMIT).value))])
    decreases |frames|
  {
    hide DecodeFrame, EncodeFrame, Assembled, Fits;
    var call, f := w.incoming.value, frames[0];
    NextIsAccept(codec, call.message.id, call.table, f, WORKER_LIMIT);
    var events := Wire(codec, frames);
    var after := Handle(codec, jobId, w, events[0]);
    assert events[1..] == Wire(codec, frames[1..]);
    if |frames| == 1 {
      assert frames[1..] == [];
    } else {
      assert frames[1..][0] == frames[1];
      AcceptingIsIncomplete(Accept(call.table, f, WORKER_LIMIT).value, frames[1], WORKER_LIMIT);
      WireDelivers(codec, jobId, after, frames[1..]);
    }
  }

  lemma {:induction false} AllChunksBelong(callId: string, attachments: seq<Attachment>)
    ensures ChunksOfCall(AllChunks(callId, attachments), callId)
    ensures attachments != [] ==> AllChunks(callId, attachments) != []
    decreases |attachments|
  {
    if attachments != [] {
      AllChunksBelong(callId, attachments[1..]);
      if attachments[0].data != [] {
        ChunksBelong(callId, attachments[0].id, attachments[0].data, 0, 0);
      }
    }
  }

  lemma {:induction false} ChunksBelong(callId: string, id: string, data: Bytes, offset: nat, index: nat)
    requires offset < |data|
    ensures ChunksOfCall(ChunksFrom(callId, id, data, offset, index), callId)
    ensures ChunksFrom(callId, id, data, offset, index) != []
    decreases |data| - offset
  {
    if offset + CHUNK_SIZE < |data| {
      ChunksBelong(callId, id, data, offset + CHUNK_SIZE, index + 1);
    }
  }

  /** An idle worker that is sent a call and the chunks of its attachments, empty ones included, queues
      the call exactly once, with identical bytes in declared order, and reports no error. */
  lemma CallIsDelivered(codec: Codec, jobId: string, w: Worker, id: string, callType: string, payload: Payload,
                        attachments: seq<Attachment>)
    requires Lawful(codec) && !Busy(w) && id != "" && callType != ""
    requires Sendable(attachments, WORKER_LIMIT) && Transmittable(codec, AllChunks(id, attachments))
    ensures var m := CallMessage(id, callType, payload, MetadataOf(attachments));
      HandleAll(codec, jobId, w, [CallArrives(m)] + Wire(codec, AllChunks(id, attachments)))
        == w.(queue := [Call(m, attachments)])
  {
    var m := CallMessage(id, callType, payload, MetadataOf(attachments));
    var frames := AllChunks(id, attachments);
    var events := [CallArrives(m)] + Wire(codec, frames);
    assert events[1..] == Wire(codec, frames);
    var after := Handle(codec, jobId, w, events[0]);
    AllChunksBelong(id, attachments);
    if attachments != [] {
      TransferRebuilds(attachments, id, WORKER_LIMIT);
      assert EmptyTable(m.attachments, WORKER_LIMIT) == Declared(attachments);
      hide AllChunks, Feed, Assembled, Declared;
      WireDelivers(codec, jobId, after, frames);
    } else {
      assert events[1..] == [];
    }
  }
}
