/** Where the bytes of a resolved result come from, for any results and frames whatever. */
module ResultOrigins {
  import opened Options
  import opened BinaryFrames
  import opened Attachments
  import opened DataChannelPeers
  import opened ResultDelivery
  import opened CallOrigins

  datatype MasterEvent =
    | CallBegins(id: string)
    | ResultArrives(result: ResultMessage)
    | FrameArrives(raw: Bytes)
    | CallFails

  function Began(m: Master, id: string): Master {
    if m.pending.Some? then m else m.(pending := Some(id), response := None)
  }

  function HandleOne(codec: Codec, m: Master, e: MasterEvent): Master {
    match e
    case CallBegins(id) => Began(m, id)
    case ResultArrives(r) => OnResult(m, r)
    case FrameArrives(raw) => OnResultBinary(codec, m, raw)
    case CallFails => RejectPending(m)
  }

  function HandleEvents(codec: Codec, m: Master, events: seq<MasterEvent>): Master
    decreases |events|
  {
    if events == [] then m else HandleEvents(codec, HandleOne(codec, m, events[0]), events[1..])
  }

  // --- Where an end comes from ---

  /** The chunk this event is, if it is one. */
  function ChunkOf(codec: Codec, e: MasterEvent): Option<Frame> {
    if !e.FrameArrives? then None
    else
      match DecodeFrame(codec, e.raw)
      case None => None
      case Some(f) => if f.header.kind == CHUNK_KIND then Some(f) else None
  }

  function Listed(chunk: Option<Frame>): seq<Frame> {
    if chunk.Some? then [chunk.value] else []
  }

  function ChunksIn(codec: Codec, events: seq<MasterEvent>): seq<Frame> {
    if events == [] then []
    else ChunksIn(codec, events[..|events| - 1]) + Listed(ChunkOf(codec, events[|events| - 1]))
  }

  /** No further result, no failure, and no chunk of anything else. */
  predicate Undisturbed(codec: Codec, id: string, events: seq<MasterEvent>) {
    forall i :: 0 <= i < |events| ==>
      && !events[i].ResultArrives? && !events[i].CallFails?
      && (ChunkOf(codec, events[i]).Some? ==> ChunkOf(codec, events[i]).value.header.callId == id)
  }

  /** The files are the declared attachments, each of exactly its declared size and built from its chunks,
      numbered 0, 1, ... up to the final one. */
  predicate BuiltFrom(files: seq<Attachment>, declared: seq<Metadata>, chunks: seq<Frame>) {
    && |files| == |declared|
    && forall i :: 0 <= i < |files| ==>
        && files[i].id == declared[i].id && |files[i].data| == declared[i].size
        && Contiguous(Parts(chunks, declared[i].id), true)
        && files[i].data == Join(Bodies(Parts(chunks, declared[i].id)))
  }

  /** The result arrived at position `p`, and until position `q` nothing else disturbed it. */
  predicate ResolvedBy(codec: Codec, past: seq<MasterEvent>, end: CallEnd, p: nat, q: nat) {
    && end.Resolved? && p < q <= |past| && past[p].ResultArrives?
    && past[p].result.id == end.id && past[p].result.payload == end.payload
    && Declarable(past[p].result.attachments, MASTER_LIMIT)
    && Undisturbed(codec, end.id, past[p + 1..q])
    && BuiltFrom(end.files, past[p].result.attachments, ChunksIn(codec, past[p + 1..q]))
  }

  ghost predicate HasSource(codec: Codec, past: seq<MasterEvent>, end: CallEnd) {
    exists p: nat, q: nat :: ResolvedBy(codec, past, end, p, q)
  }

  predicate Arriving(codec: Codec, past: seq<MasterEvent>, r: Response, p: nat) {
    && p < |past| && past[p] == ResultArrives(r.message)
    && Declarable(r.message.attachments, MASTER_LIMIT)
    && Undisturbed(codec, r.message.id, past[p + 1..])
    && TableSane(r.table) && TableMatches(r.table, r.message.attachments)
    && TableFrom(r.table, ChunksIn(codec, past[p + 1..]))
  }

  ghost predicate Sourced(codec: Codec, past: seq<MasterEvent>, m: Master) {
    && (forall i :: 0 <= i < |m.ends| && m.ends[i].Resolved? ==> HasSource(codec, past, m.ends[i]))
    && (m.response.Some? ==>
          && m.pending == Some(m.response.value.message.id)
          && exists p: nat :: Arriving(codec, past, m.response.value, p))
  }

  // --- Every event ---

  lemma SourceStays(codec: Codec, past: seq<MasterEvent>, e: MasterEvent, end: CallEnd)
    requires HasSource(codec, past, end)
    ensures HasSource(codec, past + [e], end)
  {
    hide BuiltFrom, Undisturbed;
    var p: nat, q: nat :| ResolvedBy(codec, past, end, p, q);
    assert (past + [e])[p + 1..q] == past[p + 1..q];
    assert ResolvedBy(codec, past + [e], end, p, q);
  }

  lemma EndsStay(codec: Codec, past: seq<MasterEvent>, e: MasterEvent, m: Master)
    requires Sourced(codec, past, m)
    ensures forall i :: 0 <= i < |m.ends| && m.ends[i].Resolved? ==> HasSource(codec, past + [e], m.ends[i])
  {
    hide HasSource;
    forall i | 0 <= i < |m.ends| && m.ends[i].Resolved? ensures HasSource(codec, past + [e], m.ends[i]) {
      SourceStays(codec, past, e, m.ends[i]);
    }
  }

  lemma ChunksMore(codec: Codec, events: seq<MasterEvent>, e: MasterEvent)
    ensures ChunksIn(codec, events + [e]) == ChunksIn(codec, events) + Listed(ChunkOf(codec, e))
  {
    assert (events + [e])[..|events|] == events;
  }

  lemma StillArriving(codec: Codec, past: seq<MasterEvent>, e: MasterEvent, r: Response, p: nat)
    requires Arriving(codec, past, r, p) && ChunkOf(codec, e).None? && !e.ResultArrives? && !e.CallFails?
    ensures Arriving(codec, past + [e], r, p)
  {
    hide ChunkOf, ChunksIn, TableFrom, TableSane, TableMatches, Declarable;
    assert (past + [e])[p + 1..] == past[p + 1..] + [e];
    ChunksMore(codec, past[p + 1..], e);
    assert ChunksIn(codec, past[p + 1..]) + [] == ChunksIn(codec, past[p + 1..]);
  }

  lemma ChunkArrives(codec: Codec, past: seq<MasterEvent>, raw: Bytes, r: Response, p: nat)
    requires Arriving(codec, past, r, p)
    requires Next(codec, r.message.id, r.table, raw, MASTER_LIMIT).Some?
    ensures Arriving(codec, past + [FrameArrives(raw)],
                     Response(r.message, Next(codec, r.message.id, r.table, raw, MASTER_LIMIT).value), p)
  {
    hide TableFrom, TableSane, Position, ChunksIn, DecodeFrame, Declarable, Accept;
    var e, f := FrameArrives(raw), DecodeFrame(codec, raw).value;
    assert (past + [e])[p + 1..] == past[p + 1..] + [e];
    ChunksMore(codec, past[p + 1..], e);
    AcceptedIsNext(r.table, f, MASTER_LIMIT);
    assert Distinct(r.table) by { SaneIsDistinct(r.table); }
    AcceptGathers(r.table, ChunksIn(codec, past[p + 1..]), f, MASTER_LIMIT);
  }

  lemma SaneIsDistinct(t: Table)
    requires TableSane(t)
    ensures Distinct(t)
  {
  }

  lemma CompleteIsSourced(codec: Codec, past: seq<MasterEvent>, r: Response, p: nat)
    requires Arriving(codec, past, r, p) && AllComplete(r.table)
    ensures HasSource(codec, past, Resolved(r.message.id, r.message.payload, Assembled(r.table)))
  {
    hide Join, ChunksIn, Parts, Bodies, Undisturbed, Declarable, TableSane;
    assert past[p + 1..|past|] == past[p + 1..];
    CompleteIsDeclared(r.table);
    assert ResolvedBy(codec, past, Resolved(r.message.id, r.message.payload, Assembled(r.table)), p, |past|);
  }

  lemma FrameSourced(codec: Codec, past: seq<MasterEvent>, m: Master, raw: Bytes)
    requires Sourced(codec, past, m)
    ensures Sourced(codec, past + [FrameArrives(raw)], OnResultBinary(codec, m, raw))
  {
    hide Arriving, HasSource, Next, Assembled, AllComplete, DecodeFrame;
    var e := FrameArrives(raw);
    EndsStay(codec, past, e, m);
    if m.response.Some? {
      var r := m.response.value;
      var p: nat :| Arriving(codec, past, r, p);
      if Ignored(codec, m, raw) {
        StillArriving(codec, past, e, r, p);
      } else {
        var next := Next(codec, r.message.id, r.table, raw, MASTER_LIMIT);
        if next.Some? {
          ChunkArrives(codec, past, raw, r, p);
          if AllComplete(next.value) {
            CompleteIsSourced(codec, past + [e], Response(r.message, next.value), p);
          }
        }
      }
    }
  }

  lemma ResultSourced(codec: Codec, past: seq<MasterEvent>, m: Master, r: ResultMessage)
    requires Sourced(codec, past, m)
    ensures Sourced(codec, past + [ResultArrives(r)], OnResult(m, r))
  {
    hide Arriving, HasSource, Assembled, Declarable;
    var e := ResultArrives(r);
    EndsStay(codec, past, e, m);
    if Declarable(r.attachments, MASTER_LIMIT) {
      ResultBegins(codec, past, r);
      if r.attachments == [] {
        assert EmptyTable([], MASTER_LIMIT) == [] by { NothingDeclared(); }
        CompleteIsSourced(codec, past + [e], Response(r, []), |past|);
      }
    }
  }

  lemma NothingDeclared()
    ensures Declarable([], MASTER_LIMIT) && EmptyTable([], MASTER_LIMIT) == []
  {
  }

  lemma ResultBegins(codec: Codec, past: seq<MasterEvent>, r: ResultMessage)
    requires Declarable(r.attachments, MASTER_LIMIT)
    ensures Arriving(codec, past + [ResultArrives(r)], Response(r, EmptyTable(r.attachments, MASTER_LIMIT)), |past|)
  {
    assert (past + [ResultArrives(r)])[|past| + 1..] == [];
    assert Join([]) == [] by { JoinNothing(); }
  }

  lemma EventSourced(codec: Codec, past: seq<MasterEvent>, m: Master, e: MasterEvent)
    requires Sourced(codec, past, m)
    ensures Sourced(codec, past + [e], HandleOne(codec, m, e))
  {
    hide HasSource, Arriving, OnResult, OnResultBinary;
    match e
    case ResultArrives(r) => ResultSourced(codec, past, m, r);
    case FrameArrives(raw) => FrameSourced(codec, past, m, raw);
    case CallFails => EndsStay(codec, past, e, m);
    case CallBegins(_) =>
      EndsStay(codec, past, e, m);
      if m.response.Some? {
        var p: nat :| Arriving(codec, past, m.response.value, p);
        StillArriving(codec, past, e, m.response.value, p);
      }
  }

  lemma {:induction false} EventsSourced(codec: Codec, past: seq<MasterEvent>, m: Master, events: seq<MasterEvent>)
    requires Sourced(codec, past, m)
    ensures Sourced(codec, past + events, HandleEvents(codec, m, events))
    decreases |events|
  {
    hide Sourced, HandleOne;
    if events == [] {
      assert past + events == past;
    } else {
      EventSourced(codec, past, m, events[0]);
      EventsSourced(codec, past + [events[0]], HandleOne(codec, m, events[0]), events[1..]);
      assert past + [events[0]] + events[1..] == past + events;
    }
  }

  /** In every run of a new master, whatever results and frames arrive: a resolved call has the attachments
      its result declared, each of exactly its declared size and built from its own chunks, numbered 0, 1, ...
      up to the final one, that arrived after the result. */
  lemma ResolvedResultsHaveSource(codec: Codec, events: seq<MasterEvent>, i: nat)
    requires i < |HandleEvents(codec, Master(None, None, [], []), events).ends|
    requires HandleEvents(codec, Master(None, None, [], []), events).ends[i].Resolved?
    ensures HasSource(codec, events, HandleEvents(codec, Master(None, None, [], []), events).ends[i])
  {
    hide HasSource, Arriving, HandleOne;
    EventsSourced(codec, [], Master(None, None, [], []), events);
    assert [] + events == events;
  }
}
