/** The master's end of the data channel: results, their attachments, and the acknowledgement. */
module ResultDelivery {
  import opened Options
  import opened BinaryFrames
  import opened Attachments
  import opened DataChannelPeers

  datatype ResultMessage = ResultMessage(id: string, payload: Payload, attachments: seq<Metadata>)

  datatype Response = Response(message: ResultMessage, table: Table)

  /** How a pending call ended. */
  datatype CallEnd = Resolved(id: string, payload: Payload, files: seq<Attachment>) | Rejected(id: string)

  datatype Master = Master(pending: Option<string>, response: Option<Response>, acks: seq<string>, ends: seq<CallEnd>)

  const MASTER_LIMIT: Option<nat> := None

  /** Any protocol error ends the pending call. */
  function RejectPending(m: Master): Master {
    if m.pending.None? then m else Master(None, None, m.acks, m.ends + [Rejected(m.pending.value)])
  }

  function Resolve(m: Master, r: ResultMessage, t: Table): Master {
    Master(None, None, m.acks + [r.id], m.ends + [Resolved(r.id, r.payload, Assembled(t))])
  }

  function OnResult(m: Master, r: ResultMessage): Master {
    if m.pending != Some(r.id) || !Declarable(r.attachments, MASTER_LIMIT) then RejectPending(m)
    else if r.attachments == [] then Resolve(m, r, [])
    else m.(response := Some(Response(r, EmptyTable(r.attachments, MASTER_LIMIT))))
  }

  /** Frames that are no chunks, or that nobody waits for, are ignored once they decode. */
  predicate Ignored(codec: Codec, m: Master, raw: Bytes) {
    DecodeFrame(codec, raw).Some? && (DecodeFrame(codec, raw).value.header.kind != CHUNK_KIND || m.response.None?)
  }

  function OnResultBinary(codec: Codec, m: Master, raw: Bytes): Master {
    if Ignored(codec, m, raw) then m
    else if m.response.None? || m.pending.None? then RejectPending(m)
    else
      var r := m.response.value;
      var next := Next(codec, m.pending.value, r.table, raw, MASTER_LIMIT);
      if next.None? then RejectPending(m)
      else if AllComplete(next.value) then Resolve(m, r.message, next.value)
      else m.(response := Some(Response(r.message, next.value)))
  }

  class GpStationJobPeer {
    const codec: Codec
    var pendingCall: Option<string>
    var response: Option<Response>
    var acksSent: seq<string>
    // How the calls made so far have ended.
    var ends: seq<CallEnd>

    function State(): Master
      reads this
    {
      Master(pendingCall, response, acksSent, ends)
    }

    constructor (codec: Codec)
      ensures State() == Master(None, None, [], []) && this.codec == codec
    {
      this.codec := codec;
      pendingCall, response, acksSent, ends := None, None, [], [];
    }

    /** The start of a call; false while another one is in progress. */
    method BeginCall(id: string) returns (started: bool)
      modifies this
      ensures started == old(State()).pending.None?
      ensures State() == if started then old(State()).(pending := Some(id), response := None) else old(State())
    {
      if pendingCall.Some? {
        return false;
      }
      pendingCall, response := Some(id), None;
      return true;
    }

    method RejectPendingCall()
      modifies this
      ensures State() == RejectPending(old(State()))
    {
      if pendingCall.None? {
        return;
      }
      ends := ends + [Rejected(pendingCall.value)];
      pendingCall, response := None, None;
    }

    method ResolvePendingCall(r: ResultMessage, t: Table)
      modifies this
      ensures State() == Resolve(old(State()), r, t)
    {
      acksSent := acksSent + [r.id];
      pendingCall, response := None, None;
      ends := ends + [Resolved(r.id, r.payload, Assembled(t))];
    }

    method HandleResult(r: ResultMessage)
      modifies this
      ensures State() == OnResult(old(State()), r)
    {
      if pendingCall != Some(r.id) {
        RejectPendingCall();
        return;
      }
      if !Declarable(r.attachments, MASTER_LIMIT) {
        RejectPendingCall();
        return;
      }
      var table := EmptyTable(r.attachments, MASTER_LIMIT);
      response := Some(Response(r, table));
      if r.attachments == [] {
        ResolvePendingCall(r, table);
      }
    }

    method HandleBinaryMessage(raw: Bytes)
      modifies this
      ensures State() == OnResultBinary(codec, old(State()), raw)
    {
      var f := DecodeFrame(codec, raw);
      if f.None? {
        RejectPendingCall();
        return;
      }
      if f.value.header.kind != CHUNK_KIND || response.None? {
        return;
      }
      if pendingCall.None? || f.value.header.callId != pendingCall.value {
        RejectPendingCall();
        return;
      }
      var next := Accept(response.value.table, f.value, MASTER_LIMIT);
      if next.None? {
        RejectPendingCall();
      } else if AllComplete(next.value) {
        ResolvePendingCall(response.value.message, next.value);
      } else {
        response := Some(Response(response.value.message, next.value));
      }
    }
  }

  // --- What the worker's result becomes ---

  function HandleFrames(codec: Codec, m: Master, frames: seq<Frame>): Master
    requires Encodable(codec, frames)
    decreases |frames|
  {
    if frames == [] then m
    else HandleFrames(codec, OnResultBinary(codec, m, EncodeFrame(codec, frames[0].header, frames[0].body)),
                      frames[1..])
  }

  predicate Encodable(codec: Codec, frames: seq<Frame>) {
    forall i :: 0 <= i < |frames| ==> Fits(codec, frames[i].header)
  }

  lemma {:induction false} FramesResolve(codec: Codec, m: Master, frames: seq<Frame>)
    requires Lawful(codec) && Encodable(codec, frames) && frames != []
    requires m.response.Some? && m.pending == Some(m.response.value.message.id)
    requires ChunksOfCall(frames, m.pending.value)
    requires var end := Feed(m.response.value.table, frames, MASTER_LIMIT); end.Some? && AllComplete(end.value)
    ensures HandleFrames(codec, m, frames) ==
      Resolve(m, m.response.value.message, Feed(m.response.value.table, frames, MASTER_LIMIT).value)
    decreases |frames|
  {
    hide DecodeFrame, EncodeFrame, Assembled, Fits;
    var r, f := m.response.value, frames[0];
    FrameRoundTrip(codec, f.header, f.body);
    NextIsAccept(codec, m.pending.value, r.table, f, MASTER_LIMIT);
    if |frames| == 1 {
      assert frames[1..] == [];
    } else {
      assert frames[1..][0] == frames[1];
      AcceptingIsIncomplete(Accept(r.table, f, MASTER_LIMIT).value, frames[1], MASTER_LIMIT);
      FramesResolve(codec, OnResultBinary(codec, m, EncodeFrame(codec, f.header, f.body)), frames[1..]);
    }
  }

  /** A result and the chunks of its attachments end the pending call exactly once, with identical bytes
      in declared order, and with one acknowledgement. */
  lemma ResultIsDelivered(codec: Codec, m: Master, id: string, payload: Payload, attachments: seq<Attachment>)
    requires Lawful(codec) && m.pending == Some(id) && m.response.None?
    requires Sendable(attachments, MASTER_LIMIT) && Encodable(codec, AllChunks(id, attachments))
    ensures HandleFrames(codec, OnResult(m, ResultMessage(id, payload, MetadataOf(attachments))),
                         AllChunks(id, attachments))
      == Master(None, None, m.acks + [id], m.ends + [Resolved(id, payload, attachments)])
  {
    var r := ResultMessage(id, payload, MetadataOf(attachments));
    AllChunksBelong(id, attachments);
    if attachments != [] {
      TransferRebuilds(attachments, id, MASTER_LIMIT);
      assert EmptyTable(r.attachments, MASTER_LIMIT) == Declared(attachments);
      hide AllChunks, Feed, Assembled, Declared;
      FramesResolve(codec, OnResult(m, r), AllChunks(id, attachments));
    } else {
      assert Assembled([]) == attachments;
    }
  }
}
