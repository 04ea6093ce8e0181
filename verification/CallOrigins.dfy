/** Where the bytes of a queued call come from, for any messages whatever. */
module CallOrigins {
  import opened Options
  import opened BinaryFrames
  import opened Attachments
  import opened DataChannelPeers

  /** The frames for one attachment, in order. */
  function Parts(frames: seq<Frame>, id: string): seq<Frame> {
    if frames == [] then []
    else
      var last := frames[|frames| - 1];
      Parts(frames[..|frames| - 1], id) + if last.header.attachmentId == id then [last] else []
  }

  function Bodies(parts: seq<Frame>): seq<Bytes> {
    seq(|parts|, k requires 0 <= k < |parts| => parts[k].body)
  }

  /** The parts are numbered from 0 without gap or repetition; if they are `whole` the last is final, and
      no other is. */
  predicate Contiguous(parts: seq<Frame>, whole: bool) {
    && (whole ==> parts != [])
    && forall k :: 0 <= k < |parts| ==>
        && parts[k].header.index == k
        && (parts[k].header.final <==> whole && k == |parts| - 1)
  }

  predicate TableFrom(t: Table, frames: seq<Frame>) {
    forall i :: 0 <= i < |t| ==>
      && t[i].chunks == Bodies(Parts(frames, t[i].id))
      && Contiguous(Parts(frames, t[i].id), t[i].complete)
  }

  lemma PartsMore(frames: seq<Frame>, f: Frame, id: string)
    ensures Parts(frames + [f], id) == Parts(frames, id) + if f.header.attachmentId == id then [f] else []
  {
    assert (frames + [f])[..|frames|] == frames;
  }

  lemma BodiesMore(parts: seq<Frame>, f: Frame)
    ensures Bodies(parts + [f]) == Bodies(parts) + [f.body]
  {
  }

  /** An accepted chunk extends the parts of its own file and of no other. */
  lemma AcceptGathers(t: Table, frames: seq<Frame>, f: Frame, limit: Option<nat>)
    requires Distinct(t) && TableFrom(t, frames) && Accept(t, f, limit).Some?
    ensures TableFrom(Accept(t, f, limit).value, frames + [f])
  {
    hide Parts, Bodies;
    var u, p := Accept(t, f, limit).value, Position(t, f.header.attachmentId);
    forall i | 0 <= i < |u|
      ensures u[i].chunks == Bodies(Parts(frames + [f], u[i].id))
      ensures Contiguous(Parts(frames + [f], u[i].id), u[i].complete)
    {
      var parts := Parts(frames, t[i].id);
      PartsMore(frames, f, t[i].id);
      if i == p {
        BodiesMore(parts, f);
        assert |Bodies(parts)| == |parts| by { BodiesLength(parts); }
      } else {
        assert t[i].id != t[p].id;
        assert parts + [] == parts;
      }
    }
  }

  lemma BodiesLength(parts: seq<Frame>)
    ensures |Bodies(parts)| == |parts|
  {
  }

  // --- The messages of a call ---

  /** A binary message that is a chunk of this call. */
  predicate IsChunk(codec: Codec, callId: string, e: Event) {
    e.BinaryArrives? ==>
      && |e.raw| <= MESSAGE_MAX_BYTES
      && match DecodeFrame(codec, e.raw)
         case None => false
         case Some(f) => f.header.kind == CHUNK_KIND && f.header.callId == callId
  }

  /** The frames among the messages. */
  function FramesIn(codec: Codec, events: seq<Event>): seq<Frame> {
    if events == [] then []
    else
      var last := events[|events| - 1];
      FramesIn(codec, events[..|events| - 1])
      + if last.BinaryArrives? && DecodeFrame(codec, last.raw).Some? then [DecodeFrame(codec, last.raw).value] else []
  }

  predicate OnlyChunks(codec: Codec, callId: string, events: seq<Event>) {
    forall i :: 0 <= i < |events| ==> IsChunk(codec, callId, events[i])
  }

  /** The call arrived at position `p`, and until position `q` every binary message was a chunk of it; each
      attachment is the bodies of its chunks, numbered from 0 to the final one. */
  predicate CameIn(codec: Codec, past: seq<Event>, c: Call, p: nat, q: nat) {
    && p < q <= |past| && past[p] == CallArrives(c.message)
    && OnlyChunks(codec, c.message.id, past[p + 1..q])
    && |c.attachments| == |c.message.attachments|
    && forall i :: 0 <= i < |c.attachments| ==>
        var parts := Parts(FramesIn(codec, past[p + 1..q]), c.message.attachments[i].id);
        && c.attachments[i].id == c.message.attachments[i].id
        && Contiguous(parts, true)
        && c.attachments[i].data == Join(Bodies(parts))
  }

  ghost predicate HasOrigin(codec: Codec, past: seq<Event>, c: Call) {
    exists p: nat, q: nat :: CameIn(codec, past, c, p, q)
  }

  predicate ComingIn(codec: Codec, past: seq<Event>, call: Incoming, p: nat) {
    && p < |past| && past[p] == CallArrives(call.message)
    && OnlyChunks(codec, call.message.id, past[p + 1..])
    && Distinct(call.table)
    && |call.table| == |call.message.attachments|
    && (forall i :: 0 <= i < |call.table| ==> call.table[i].id == call.message.attachments[i].id)
    && TableFrom(call.table, FramesIn(codec, past[p + 1..]))
  }

  ghost predicate Known(codec: Codec, past: seq<Event>, w: Worker) {
    && (forall i :: 0 <= i < |w.queue| ==> HasOrigin(codec, past, w.queue[i]))
    && (w.incoming.Some? ==> exists p: nat :: ComingIn(codec, past, w.incoming.value, p))
  }

  lemma PastGrows(codec: Codec, past: seq<Event>, e: Event, c: Call)
    requires HasOrigin(codec, past, c)
    ensures HasOrigin(codec, past + [e], c)
  {
    var p: nat, q: nat :| CameIn(codec, past, c, p, q);
    assert (past + [e])[p + 1..q] == past[p + 1..q];
    assert CameIn(codec, past + [e], c, p, q);
  }

  lemma FramesMore(codec: Codec, events: seq<Event>, e: Event)
    ensures FramesIn(codec, events + [e]) == FramesIn(codec, events)
      + if e.BinaryArrives? && DecodeFrame(codec, e.raw).Some? then [DecodeFrame(codec, e.raw).value] else []
  {
    assert (events + [e])[..|events|] == events;
  }

  // Other events do not touch a call that is coming in.
  lemma StillComingIn(codec: Codec, past: seq<Event>, e: Event, call: Incoming, p: nat)
    requires ComingIn(codec, past, call, p) && !e.BinaryArrives?
    ensures ComingIn(codec, past + [e], call, p)
  {
    hide Parts, Bodies, FramesIn, DecodeFrame;
    assert (past + [e])[p + 1..] == past[p + 1..] + [e];
    FramesMore(codec, past[p + 1..], e);
    assert FramesIn(codec, past[p + 1..]) + [] == FramesIn(codec, past[p + 1..]);
  }

  lemma ChunkComesIn(codec: Codec, past: seq<Event>, raw: Bytes, call: Incoming, p: nat)
    requires ComingIn(codec, past, call, p) && |raw| <= MESSAGE_MAX_BYTES
    requires Next(codec, call.message.id, call.table, raw, WORKER_LIMIT).Some?
    ensures ComingIn(codec, past + [BinaryArrives(raw)],
                     Incoming(call.message, Next(codec, call.message.id, call.table, raw, WORKER_LIMIT).value), p)
  {
    hide TableFrom, Position, FramesIn, DecodeFrame;
    var e, f := BinaryArrives(raw), DecodeFrame(codec, raw).value;
    assert (past + [e])[p + 1..] == past[p + 1..] + [e];
    FramesMore(codec, past[p + 1..], e);
    AcceptGathers(call.table, FramesIn(codec, past[p + 1..]), f, WORKER_LIMIT);
  }

  lemma CompleteCameIn(codec: Codec, past: seq<Event>, call: Incoming, p: nat)
    requires ComingIn(codec, past, call, p) && AllComplete(call.table)
    ensures HasOrigin(codec, past, Call(call.message, Assembled(call.table)))
  {
    hide Join, FramesIn, Parts, Bodies, IsChunk;
    assert past[p + 1..|past|] == past[p + 1..];
    assert CameIn(codec, past, Call(call.message, Assembled(call.table)), p, |past|);
  }

  lemma BinaryKnown(codec: Codec, jobId: string, past: seq<Event>, w: Worker, raw: Bytes)
    requires Known(codec, past, w)
    ensures Known(codec, past + [BinaryArrives(raw)], OnBinary(codec, w, jobId, raw))
  {
    hide ComingIn, HasOrigin, Next, Assembled, AllComplete;
    var e := BinaryArrives(raw);
    forall i | 0 <= i < |w.queue| ensures HasOrigin(codec, past + [e], w.queue[i]) {
      PastGrows(codec, past, e, w.queue[i]);
    }
    if w.incoming.Some? && |raw| <= MESSAGE_MAX_BYTES {
      var call := w.incoming.value;
      var p: nat :| ComingIn(codec, past, call, p);
      var next := Next(codec, call.message.id, call.table, raw, WORKER_LIMIT);
      if next.Some? {
        ChunkComesIn(codec, past, raw, call, p);
        if AllComplete(next.value) {
          CompleteCameIn(codec, past + [e], Incoming(call.message, next.value), p);
        }
      }
    }
  }

  lemma CallKnown(codec: Codec, jobId: string, past: seq<Event>, w: Worker, m: CallMessage)
    requires Known(codec, past, w)
    ensures Known(codec, past + [CallArrives(m)], OnCall(w, jobId, m))
  {
    hide HasOrigin, ComingIn;
    var e := CallArrives(m);
    forall i | 0 <= i < |w.queue| ensures HasOrigin(codec, past + [e], w.queue[i]) {
      PastGrows(codec, past, e, w.queue[i]);
    }
    if w.incoming.Some? {
      var p: nat :| ComingIn(codec, past, w.incoming.value, p);
      StillComingIn(codec, past, e, w.incoming.value, p);
    }
    if m.attachments == [] {
      Arrived(codec, past, m);
    } else if Declarable(m.attachments, WORKER_LIMIT) {
      Awaited(codec, past, m);
    }
  }

  lemma Arrived(codec: Codec, past: seq<Event>, m: CallMessage)
    requires m.attachments == []
    ensures HasOrigin(codec, past + [CallArrives(m)], Call(m, []))
  {
    assert CameIn(codec, past + [CallArrives(m)], Call(m, []), |past|, |past| + 1);
  }

  lemma Awaited(codec: Codec, past: seq<Event>, m: CallMessage)
    requires Declarable(m.attachments, WORKER_LIMIT)
    ensures ComingIn(codec, past + [CallArrives(m)], Incoming(m, EmptyTable(m.attachments, WORKER_LIMIT)), |past|)
  {
    assert (past + [CallArrives(m)])[|past| + 1..] == [];
  }

  lemma HandleKnown(codec: Codec, jobId: string, past: seq<Event>, w: Worker, e: Event)
    requires Known(codec, past, w)
    ensures Known(codec, past + [e], Handle(codec, jobId, w, e))
  {
    hide HasOrigin, ComingIn, OnCall, OnBinary;
    match e
    case CallArrives(m) => CallKnown(codec, jobId, past, w, m);
    case BinaryArrives(raw) => BinaryKnown(codec, jobId, past, w, raw);
    case _ =>
      forall i | 0 <= i < |w.queue| ensures HasOrigin(codec, past + [e], w.queue[i]) {
        PastGrows(codec, past, e, w.queue[i]);
      }
      if w.incoming.Some? {
        var p: nat :| ComingIn(codec, past, w.incoming.value, p);
        StillComingIn(codec, past, e, w.incoming.value, p);
      }
  }

  lemma {:induction false} RunKnown(codec: Codec, jobId: string, past: seq<Event>, w: Worker, events: seq<Event>)
    requires Known(codec, past, w)
    ensures Known(codec, past + events, HandleAll(codec, jobId, w, events))
    decreases |events|
  {
    hide Known, Handle;
    if events == [] {
      assert past + events == past;
    } else {
      HandleKnown(codec, jobId, past, w, events[0]);
      RunKnown(codec, jobId, past + [events[0]], Handle(codec, jobId, w, events[0]), events[1..]);
      assert past + [events[0]] + events[1..] == past + events;
    }
  }

  /** In every run from a new worker a queued call arrived as a message, after which only its own chunks
      came in until it was complete; each attachment is the concatenation of the bodies of its chunks,
      numbered 0, 1, ... up to the final one. */
  lemma QueuedCallsHaveOrigin(codec: Codec, jobId: string, events: seq<Event>)
    ensures forall i :: 0 <= i < |HandleAll(codec, jobId, Worker(false, None, [], []), events).queue| ==>
      HasOrigin(codec, events, HandleAll(codec, jobId, Worker(false, None, [], []), events).queue[i])
  {
    hide HasOrigin, ComingIn, Handle;
    var w := Worker(false, None, [], []);
    RunKnown(codec, jobId, [], w, events);
    assert [] + events == events;
  }
}
