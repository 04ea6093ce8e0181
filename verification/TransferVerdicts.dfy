/** Which message leads to what at either end of the data channel, told field by field. */
module TransferVerdicts {
  import opened Options
  import opened BinaryFrames
  import opened Attachments
  import opened DataChannelPeers
  import opened ResultDelivery

  // --- What is sent ---

  lemma {:induction false} ChunkAt(callId: string, id: string, data: Bytes, offset: nat, index: nat, k: nat)
    requires offset < |data| && k < |ChunksFrom(callId, id, data, offset, index)|
    ensures var frames := ChunksFrom(callId, id, data, offset, index);
      var from, final := offset + 16384 * k, k == |frames| - 1;
      && from < |data| && (from + 16384 >= |data| <==> final)
      && frames[k].header == Header("attachment.chunk", callId, id, index + k, final)
      && frames[k].body == if final then data[from..] else data[from..from + 16384]
    decreases k
  {
    assert forall i: nat, b: bool :: ChunkHeader(callId, id, i, b) == Header("attachment.chunk", callId, id, i, b);
    hide ChunkHeader;
    var frames := ChunksFrom(callId, id, data, offset, index);
    if offset + CHUNK_SIZE < |data| {
      var rest := ChunksFrom(callId, id, data, offset + CHUNK_SIZE, index + 1);
      assert frames[1..] == rest && |rest| > 0;
      if k > 0 {
        ChunkAt(callId, id, data, offset + CHUNK_SIZE, index + 1, k - 1);
        assert frames[k] == rest[k - 1];
      }
    }
  }

  /** The chunks of an attachment: numbered from 0, of 16 KiB each except the last, which alone is marked final and
      ends the data; empty data is one empty chunk. */
  lemma ChunksAre(callId: string, a: Attachment, k: nat)
    requires k < |ChunksOf(callId, a)|
    ensures var frames := ChunksOf(callId, a);
      var from, final := 16384 * k, k == |frames| - 1;
      && from <= |a.data| && (from + 16384 >= |a.data| <==> final)
      && frames[k].header == Header("attachment.chunk", callId, a.id, k, final)
      && frames[k].body == if final then a.data[from..] else a.data[from..from + 16384]
  {
    if a.data != [] {
      ChunkAt(callId, a.id, a.data, 0, 0, k);
    }
  }

  // --- What a chunk does to the files ---

  predicate Takes(file: File, f: Frame, limit: Option<nat>) {
    && file.id == f.header.attachmentId && !file.complete && f.header.index == |file.chunks|
    && file.receivedSize + |f.body| <= file.size
    && (limit.Some? ==> file.receivedSize + |f.body| <= limit.value)
    && (f.header.final ==> file.receivedSize + |f.body| == file.size)
  }

  /** A chunk is taken exactly if some file has its id and takes it; that file is then complete exactly if the chunk
      was the final one. */
  lemma TakenExactlyWhen(t: Table, f: Frame, limit: Option<nat>)
    requires TableSane(t)
    ensures Accept(t, f, limit).Some? <==> exists i :: 0 <= i < |t| && Takes(t[i], f, limit)
    ensures forall i :: 0 <= i < |t| && Takes(t[i], f, limit) ==>
      Accept(t, f, limit) == Some(t[i := File(t[i].id, t[i].size, t[i].chunks + [f.body],
                                              t[i].receivedSize + |f.body|, f.header.final)])
  {
    forall i | 0 <= i < |t| && Takes(t[i], f, limit) ensures Position(t, f.header.attachmentId) == i {
      PositionIs(t, i);
    }
  }

  // --- The worker ---

  /** Attachments a call may declare: distinct non-empty ids, sizes of 0 up to 20 MiB. */
  predicate Acceptable(ms: seq<Metadata>) {
    && (forall i :: 0 <= i < |ms| ==> ms[i].id != "" && 0 <= ms[i].size <= 20971520)
    && (forall i, j :: 0 <= i < j < |ms| ==> ms[i].id != ms[j].id)
  }

  /** A call is refused for want of an id or type, while the worker is occupied, or for its attachments, with one
      error each; otherwise it is queued, or awaited if it has attachments. Nothing else changes. */
  lemma CallVerdict(w: Worker, jobId: string, m: CallMessage)
    ensures var u := OnCall(w, jobId, m);
      if m.id == "" then u == w.(errors := w.errors + [(jobId, InvalidCall)])
      else if m.callType == "" then u == w.(errors := w.errors + [(m.id, InvalidCall)])
      else if w.callInProgress || w.incoming != None || w.queue != []
      then u == w.(errors := w.errors + [(m.id, WorkerBusy)])
      else if !Acceptable(m.attachments) then u == w.(errors := w.errors + [(m.id, InvalidAttachment)])
      else if m.attachments == [] then u == w.(queue := [Call(m, [])])
      else
        && u == w.(incoming := u.incoming) && u.incoming.Some? && u.incoming.value.message == m
        && |u.incoming.value.table| == |m.attachments|
        && forall i :: 0 <= i < |m.attachments| ==>
            u.incoming.value.table[i] == File(m.attachments[i].id, m.attachments[i].size, [], 0, false)
  {
    assert Declarable(m.attachments, WORKER_LIMIT) <==> Acceptable(m.attachments);
  }

  // What a worker that is busy with a call answers to a message.
  function Refusal(jobId: string, e: Event): seq<(string, ErrorCode)> {
    match e
    case CallArrives(m) =>
      if m.id == "" then [(jobId, InvalidCall)]
      else if m.callType == "" then [(m.id, InvalidCall)] else [(m.id, WorkerBusy)]
    case BinaryArrives(_) => [(jobId, InvalidAttachment)]
    case _ => []
  }

  function Refusals(jobId: string, events: seq<Event>): seq<(string, ErrorCode)> {
    if events == [] then [] else Refusal(jobId, events[0]) + Refusals(jobId, events[1..])
  }

  lemma ErrorsMore(a: seq<(string, ErrorCode)>, b: seq<(string, ErrorCode)>, c: seq<(string, ErrorCode)>)
    ensures a + b + c == a + (b + c)
  {
  }

  lemma BusyAnswer(codec: Codec, jobId: string, w: Worker, e: Event)
    requires w.callInProgress && w.incoming == None && w.queue == [] && e != SessionSetsBusy(false)
    ensures Handle(codec, jobId, w, e) == w.(errors := w.errors + Refusal(jobId, e))
  {
    assert w.errors + [] == w.errors;
  }

  /** While the session is busy with a call, from one setting of the guard to the next, nothing is queued or awaited:
      every call that arrives is answered with exactly one error, and so is every chunk. */
  lemma {:induction false} BusyWorkerOnlyRefuses(codec: Codec, jobId: string, w: Worker, events: seq<Event>)
    requires w.callInProgress && w.incoming == None && w.queue == []
    requires forall i :: 0 <= i < |events| ==> events[i] != SessionSetsBusy(false)
    ensures HandleAll(codec, jobId, w, events) == w.(errors := w.errors + Refusals(jobId, events))
    decreases |events|
  {
    if events == [] {
      assert w.errors + [] == w.errors;
    } else {
      hide Handle, Refusal;
      BusyAnswer(codec, jobId, w, events[0]);
      BusyWorkerOnlyRefuses(codec, jobId, Handle(codec, jobId, w, events[0]), events[1..]);
      ErrorsMore(w.errors, Refusal(jobId, events[0]), Refusals(jobId, events[1..]));
    }
  }

  /** The frame in a binary message is a chunk of the call, and fits one of its files. */
  predicate IsNextChunk(codec: Codec, raw: Bytes, callId: string, t: Table, limit: Option<nat>) {
    && DecodeFrame(codec, raw).Some?
    && DecodeFrame(codec, raw).value.header.kind == "attachment.chunk"
    && DecodeFrame(codec, raw).value.header.callId == callId
    && exists i :: 0 <= i < |t| && Takes(t[i], DecodeFrame(codec, raw).value, limit)
  }

  lemma NextExactlyWhen(codec: Codec, callId: string, t: Table, raw: Bytes, limit: Option<nat>)
    requires TableSane(t)
    ensures Next(codec, callId, t, raw, limit).Some? <==> IsNextChunk(codec, raw, callId, t, limit)
    ensures Next(codec, callId, t, raw, limit).Some? ==>
      Next(codec, callId, t, raw, limit) == Accept(t, DecodeFrame(codec, raw).value, limit)
  {
    hide DecodeFrame, Accept, Takes;
    if DecodeFrame(codec, raw).Some? {
      TakenExactlyWhen(t, DecodeFrame(codec, raw).value, limit);
    }
  }

  /** A binary message of at most 1 MiB that is the next chunk of a file of the awaited call is added to it, and the
      call is queued when every file is complete. Anything else drops the awaited call, if there is one, and is
      answered with exactly one error. */
  lemma BinaryVerdict(codec: Codec, w: Worker, jobId: string, raw: Bytes)
    requires WorkerSane(w)
    ensures var u := OnBinary(codec, w, jobId, raw);
      if w.incoming == None then u == w.(errors := w.errors + [(jobId, InvalidAttachment)])
      else
        var message, t := w.incoming.value.message, w.incoming.value.table;
        if |raw| <= 1048576 && IsNextChunk(codec, raw, message.id, t, Some(20971520)) then
          var next := Accept(t, DecodeFrame(codec, raw).value, Some(20971520));
          && next.Some? && u.errors == w.errors && u.callInProgress == w.callInProgress
          && if (forall i :: 0 <= i < |next.value| ==> next.value[i].complete)
             then u.incoming == None && u.queue == w.queue + [Call(message, Assembled(next.value))]
             else u.queue == w.queue && u.incoming == Some(Incoming(message, next.value))
        else u == w.(incoming := None, errors := w.errors + [(message.id, InvalidAttachment)])
  {
    hide DecodeFrame, Accept, IsNextChunk, Assembled, Next;
    if w.incoming.Some? {
      NextExactlyWhen(codec, w.incoming.value.message.id, w.incoming.value.table, raw, WORKER_LIMIT);
    }
  }

  // --- The master ---

  // The pending call fails, if there is one.
  function Failed(m: Master): Master {
    match m.pending
    case None => m
    case Some(id) => Master(None, None, m.acks, m.ends + [CallEnd.Rejected(id)])
  }

  /** The attachments a result may declare: distinct non-empty ids and sizes that are not negative. */
  predicate Announceable(ms: seq<Metadata>) {
    && (forall i :: 0 <= i < |ms| ==> ms[i].id != "" && ms[i].size >= 0)
    && (forall i, j :: 0 <= i < j < |ms| ==> ms[i].id != ms[j].id)
  }

  /** A result for another call or with bad attachments fails the pending call, once and without acknowledgement; one
      without attachments resolves it and is acknowledged; any other is awaited. */
  lemma ResultVerdict(m: Master, r: ResultMessage)
    ensures var u := OnResult(m, r);
      if m.pending != Some(r.id) || !Announceable(r.attachments) then u == Failed(m)
      else if r.attachments == []
      then u == Master(None, None, m.acks + [r.id], m.ends + [Resolved(r.id, r.payload, [])])
      else
        && u.pending == m.pending && u.acks == m.acks && u.ends == m.ends
        && u.response.Some? && u.response.value.message == r
        && |u.response.value.table| == |r.attachments|
        && forall i :: 0 <= i < |r.attachments| ==>
            u.response.value.table[i] == File(r.attachments[i].id, r.attachments[i].size, [], 0, false)
  {
    assert Declarable(r.attachments, MASTER_LIMIT) <==> Announceable(r.attachments);
    assert Assembled([]) == [];
  }

  /** A frame that is no chunk, or that no result waits for, changes nothing; the next chunk of a file of the pending
      result is added, and the last one resolves the call; anything else fails it. */
  lemma ChunkVerdict(codec: Codec, m: Master, raw: Bytes)
    requires m.response.Some? ==> TableSane(m.response.value.table)
    ensures var u := OnResultBinary(codec, m, raw);
      if DecodeFrame(codec, raw) == None then u == Failed(m)
      else if DecodeFrame(codec, raw).value.header.kind != "attachment.chunk" || m.response == None then u == m
      else if m.pending == None then u == Failed(m)
      else
        var r, t := m.response.value.message, m.response.value.table;
        if IsNextChunk(codec, raw, m.pending.value, t, None) then
          var next := Accept(t, DecodeFrame(codec, raw).value, None);
          && next.Some?
          && if (forall i :: 0 <= i < |next.value| ==> next.value[i].complete)
             then u == Master(None, None, m.acks + [r.id], m.ends + [Resolved(r.id, r.payload, Assembled(next.value))])
             else u == m.(response := Some(Response(r, next.value)))
        else u == Failed(m)
  {
    hide DecodeFrame, Accept, Assembled, Takes, TableSane, IsNextChunk;
    if m.response.Some? && m.pending.Some? {
      NextExactlyWhen(codec, m.pending.value, m.response.value.table, raw, MASTER_LIMIT);
    }
  }
}
