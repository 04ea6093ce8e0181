/** Attachments in chunks: cutting data up, framing it, and putting it together again. */
module Attachments {
  import opened Options
  import opened BinaryFrames

  const CHUNK_SIZE: nat := 16 * 1024
  const MESSAGE_MAX_BYTES: nat := 1024 * 1024
  const ATTACHMENT_MAX_BYTES: nat := 20 * 1024 * 1024

  datatype Attachment = Attachment(id: string, data: Bytes)

  function ChunkHeader(callId: string, id: string, index: nat, final: bool): Header {
    Header("attachment.chunk", callId, id, index, final)
  }

  /** The chunks of `data` from `offset` on, numbered from `index`. */
  function ChunksFrom(callId: string, id: string, data: Bytes, offset: nat, index: nat): seq<Frame>
    requires offset < |data|
    decreases |data| - offset
  {
    if offset + CHUNK_SIZE >= |data| then [Frame(ChunkHeader(callId, id, index, true), data[offset..])]
    else
      [Frame(ChunkHeader(callId, id, index, false), data[offset..offset + CHUNK_SIZE])]
      + ChunksFrom(callId, id, data, offset + CHUNK_SIZE, index + 1)
  }

  /** What is sent for one attachment; an empty one is one empty chunk. */
  function ChunksOf(callId: string, a: Attachment): seq<Frame> {
    if a.data == [] then [Frame(ChunkHeader(callId, a.id, 0, true), [])] else ChunksFrom(callId, a.id, a.data, 0, 0)
  }

  function AllChunks(callId: string, attachments: seq<Attachment>): seq<Frame> {
    if attachments == [] then [] else ChunksOf(callId, attachments[0]) + AllChunks(callId, attachments[1..])
  }

  /** A data channel: what has been sent on it, in order. */
  class Channel {
    var sent: seq<Frame>

    constructor ()
      ensures sent == []
    {
      sent := [];
    }

    method Send(f: Frame)
      modifies this
      ensures sent == old(sent) + [f]
    {
      sent := sent + [f];
    }
  }

  function Rest(callId: string, id: string, data: Bytes, offset: nat, index: nat): seq<Frame> {
    if offset < |data| then ChunksFrom(callId, id, data, offset, index) else []
  }

  lemma RestStep(callId: string, id: string, data: Bytes, offset: nat, index: nat)
    requires offset < |data|
    ensures var end := if offset + CHUNK_SIZE <= |data| then offset + CHUNK_SIZE else |data|;
      Rest(callId, id, data, offset, index) ==
        [Frame(ChunkHeader(callId, id, index, end == |data|), data[offset..end])]
        + Rest(callId, id, data, offset + CHUNK_SIZE, index + 1)
  {
    assert data[offset..|data|] == data[offset..];
    if offset + CHUNK_SIZE >= |data| {
      var f := Frame(ChunkHeader(callId, id, index, true), data[offset..]);
      assert [f] + [] == [f];
    }
  }

  lemma SentMore(sent: seq<Frame>, f: Frame, rest: seq<Frame>)
    ensures sent + [f] + rest == sent + ([f] + rest)
  {
  }

  /** The sender of request attachments, in the master. */
  method SendRequestAttachment(channel: Channel, callId: string, a: Attachment)
    modifies channel
    ensures channel.sent == old(channel.sent) + ChunksOf(callId, a)
  {
    if a.data == [] {
      channel.Send(Frame(ChunkHeader(callId, a.id, 0, true), []));
      return;
    }
    ghost var goal := channel.sent + ChunksOf(callId, a);
    var index, offset := 0, 0;
    hide ChunksFrom;
    while offset < |a.data|
      invariant channel.sent + Rest(callId, a.id, a.data, offset, index) == goal
      decreases |a.data| - offset
    {
      hide Rest;
      var end := if offset + CHUNK_SIZE <= |a.data| then offset + CHUNK_SIZE else |a.data|;
      RestStep(callId, a.id, a.data, offset, index);
      var f := Frame(ChunkHeader(callId, a.id, index, end == |a.data|), a.data[offset..end]);
      SentMore(channel.sent, f, Rest(callId, a.id, a.data, offset + CHUNK_SIZE, index + 1));
      channel.Send(f);
      index, offset := index + 1, offset + CHUNK_SIZE;
    }
  }

  /** The sender of result attachments, in the worker: it slices and finds the last chunk differently. */
  method SendAttachment(channel: Channel, callId: string, a: Attachment)
    modifies channel
    ensures channel.sent == old(channel.sent) + ChunksOf(callId, a)
  {
    if a.data == [] {
      channel.Send(Frame(ChunkHeader(callId, a.id, 0, true), []));
      return;
    }
    ghost var goal := channel.sent + ChunksOf(callId, a);
    var index, offset := 0, 0;
    hide ChunksFrom;
    while offset < |a.data|
      invariant channel.sent + Rest(callId, a.id, a.data, offset, index) == goal
      decreases |a.data| - offset
    {
      hide Rest;
      var chunk := if offset + CHUNK_SIZE <= |a.data| then a.data[offset..offset + CHUNK_SIZE] else a.data[offset..];
      var final := offset + CHUNK_SIZE >= |a.data|;
      RestStep(callId, a.id, a.data, offset, index);
      var f := Frame(ChunkHeader(callId, a.id, index, final), chunk);
      SentMore(channel.sent, f, Rest(callId, a.id, a.data, offset + CHUNK_SIZE, index + 1));
      channel.Send(f);
      index, offset := index + 1, offset + CHUNK_SIZE;
    }
  }

  // --- Putting files together ---

  datatype File = File(id: string, size: nat, chunks: seq<Bytes>, receivedSize: nat, complete: bool)

  // In declared order.
  type Table = seq<File>

  function Join(chunks: seq<Bytes>): Bytes {
    if chunks == [] then [] else Join(chunks[..|chunks| - 1]) + chunks[|chunks| - 1]
  }

  /** The position of a file, or the number of files. */
  function Position(t: Table, id: string): (i: nat)
    ensures i <= |t| && (i < |t| ==> t[i].id == id)
    ensures forall k :: 0 <= k < i ==> t[k].id != id
  {
    if t == [] || t[0].id == id then 0 else 1 + Position(t[1..], id)
  }

  predicate Distinct(t: Table) {
    forall i, j :: 0 <= i < j < |t| ==> t[i].id != t[j].id
  }

  /** No limit, or at most `limit.value` bytes in an attachment. */
  predicate Within(size: nat, limit: Option<nat>) {
    limit.Some? ==> size <= limit.value
  }

  /** One chunk; None is a protocol error. Only the worker limits the size. */
  function Accept(t: Table, f: Frame, limit: Option<nat>): Option<Table> {
    var i := Position(t, f.header.attachmentId);
    if i == |t| || t[i].complete || f.header.index != |t[i].chunks| then None
    else
      var size := t[i].receivedSize + |f.body|;
      if size > t[i].size || !Within(size, limit) || (f.header.final && size != t[i].size) then None
      else Some(t[i := t[i].(chunks := t[i].chunks + [f.body], receivedSize := size, complete := f.header.final)])
  }

  predicate AllComplete(t: Table) {
    forall i :: 0 <= i < |t| ==> t[i].complete
  }

  function Assembled(t: Table): seq<Attachment> {
    seq(|t|, i requires 0 <= i < |t| => Attachment(t[i].id, Join(t[i].chunks)))
  }

  function Declared(attachments: seq<Attachment>): Table {
    seq(|attachments|,
        i requires 0 <= i < |attachments| => File(attachments[i].id, |attachments[i].data|, [], 0, false))
  }

  // --- Whatever arrives ---

  predicate FileSane(f: File) {
    && f.receivedSize == |Join(f.chunks)| <= f.size
    && (f.complete ==> f.receivedSize == f.size)
  }

  predicate TableSane(t: Table) {
    Distinct(t) && forall i :: 0 <= i < |t| ==> FileSane(t[i])
  }

  lemma JoinMore(chunks: seq<Bytes>, b: Bytes)
    ensures Join(chunks + [b]) == Join(chunks) + b
  {
    assert (chunks + [b])[..|chunks|] == chunks;
  }

  /** An accepted chunk is the next one of its file: its index is the number of chunks so far, and it
      changes nothing else. */
  lemma AcceptedIsNext(t: Table, f: Frame, limit: Option<nat>)
    requires TableSane(t) && Accept(t, f, limit).Some?
    ensures var u := Accept(t, f, limit).value; var i := Position(t, f.header.attachmentId);
      && TableSane(u) && |u| == |t| && i < |t| && f.header.index == |t[i].chunks|
      && u[i].chunks == t[i].chunks + [f.body]
      && (forall k :: 0 <= k < |t| ==> u[k].id == t[k].id && u[k].size == t[k].size)
      && (forall k :: 0 <= k < |t| && k != i ==> u[k] == t[k])
  {
  }

  /** A complete table takes nothing more, so nothing is delivered before the last chunk. */
  lemma AcceptingIsIncomplete(t: Table, f: Frame, limit: Option<nat>)
    requires Accept(t, f, limit).Some?
    ensures !AllComplete(t)
  {
    assert !t[Position(t, f.header.attachmentId)].complete;
  }

  lemma CompleteIsDeclared(t: Table)
    requires TableSane(t) && AllComplete(t)
    ensures |Assembled(t)| == |t|
    ensures forall i :: 0 <= i < |t| ==> Assembled(t)[i].id == t[i].id && |Assembled(t)[i].data| == t[i].size
  {
  }

  // --- What a well-behaved sender achieves ---

  function Feed(t: Table, frames: seq<Frame>, limit: Option<nat>): Option<Table>
    decreases |frames|
  {
    if frames == [] then Some(t)
    else if Accept(t, frames[0], limit).Some? then Feed(Accept(t, frames[0], limit).value, frames[1..], limit) else None
  }

  lemma PositionIs(t: Table, i: nat)
    requires Distinct(t) && i < |t|
    ensures Position(t, t[i].id) == i
  {
  }

  function Received(a: Attachment, chunks: seq<Bytes>): File {
    File(a.id, |a.data|, chunks, |a.data|, true)
  }

  // From `offset` on, the rest of one attachment fills its file.
  lemma {:induction false} FileFills(t: Table, i: nat, callId: string, a: Attachment, offset: nat, limit: Option<nat>)
    returns (chunks: seq<Bytes>)
    requires Distinct(t) && i < |t| && Within(|a.data|, limit) && offset < |a.data|
    requires t[i] == File(a.id, |a.data|, t[i].chunks, offset, false) && Join(t[i].chunks) == a.data[..offset]
    ensures Feed(t, ChunksFrom(callId, a.id, a.data, offset, |t[i].chunks|), limit) == Some(t[i := Received(a, chunks)])
    ensures Join(chunks) == a.data
    decreases |a.data| - offset
  {
    PositionIs(t, i);
    var frames := ChunksFrom(callId, a.id, a.data, offset, |t[i].chunks|);
    var f := frames[0];
    chunks := t[i].chunks + [f.body];
    JoinMore(t[i].chunks, f.body);
    var u := Accept(t, f, limit).value;
    if offset + CHUNK_SIZE >= |a.data| {
      assert a.data[..offset] + f.body == a.data;
      assert frames[1..] == [];
    } else {
      assert a.data[..offset] + f.body == a.data[..offset + CHUNK_SIZE];
      assert frames[1..] == ChunksFrom(callId, a.id, a.data, offset + CHUNK_SIZE, |chunks|);
      chunks := FileFills(u, i, callId, a, offset + CHUNK_SIZE, limit);
      assert u[i := Received(a, chunks)] == t[i := Received(a, chunks)];
    }
  }

  // The first `i` files are complete with the right data, the others untouched.
  predicate FilledUpTo(t: Table, attachments: seq<Attachment>, i: nat) {
    && |t| == |attachments| && i <= |t|
    && (forall k ::
        0 <= k < i ==> t[k].id == attachments[k].id && t[k].complete && Join(t[k].chunks) == attachments[k].data)
    && (forall k :: i <= k < |t| ==> t[k] == File(attachments[k].id, |attachments[k].data|, [], 0, false))
  }

  /** Attachments a caller may send. */
  predicate Sendable(attachments: seq<Attachment>, limit: Option<nat>) {
    && (forall i, j :: 0 <= i < j < |attachments| ==> attachments[i].id != attachments[j].id)
    && (forall i :: 0 <= i < |attachments| ==> attachments[i].id != "" && Within(|attachments[i].data|, limit))
  }

  lemma JoinNothing()
    ensures Join([]) == []
  {
  }

  lemma EmptyFills(t: Table, i: nat, callId: string, a: Attachment, limit: Option<nat>)
    requires Distinct(t) && i < |t| && a.data == [] && t[i] == File(a.id, 0, [], 0, false)
    ensures Feed(t, ChunksOf(callId, a), limit) == Some(t[i := Received(a, [[]])]) && Join([[]]) == []
  {
    PositionIs(t, i);
    assert t[i].chunks + [[]] == [[]];
    JoinMore([], []);
    var frames := ChunksOf(callId, a);
    assert Accept(t, frames[0], limit) == Some(t[i := Received(a, [[]])]) && frames[1..] == [];
  }

  lemma OneFills(t: Table, attachments: seq<Attachment>, i: nat, callId: string, limit: Option<nat>) returns (u: Table)
    requires Sendable(attachments, limit) && i < |attachments| && FilledUpTo(t, attachments, i)
    ensures Feed(t, ChunksOf(callId, attachments[i]), limit) == Some(u) && FilledUpTo(u, attachments, i + 1)
  {
    hide Join, Position, ChunksFrom;
    var a := attachments[i];
    assert Distinct(t);
    var chunks: seq<Bytes>;
    if a.data == [] {
      EmptyFills(t, i, callId, a, limit);
      chunks := [[]];
    } else {
      assert Join([]) == [] by { JoinNothing(); }
      chunks := FileFills(t, i, callId, a, 0, limit);
    }
    u := t[i := Received(a, chunks)];
  }

  lemma {:induction false} FeedConcat(t: Table, a: seq<Frame>, b: seq<Frame>, limit: Option<nat>)
    requires Feed(t, a, limit).Some?
    ensures Feed(t, a + b, limit) == Feed(Feed(t, a, limit).value, b, limit)
    decreases |a|
  {
    if a == [] {
      assert a + b == b;
    } else {
      assert (a + b)[1..] == a[1..] + b;
      FeedConcat(Accept(t, a[0], limit).value, a[1..], b, limit);
    }
  }

  lemma {:induction false} AllFill(t: Table, attachments: seq<Attachment>, i: nat, callId: string, limit: Option<nat>)
    returns (u: Table)
    requires Sendable(attachments, limit) && FilledUpTo(t, attachments, i)
    ensures Feed(t, AllChunks(callId, attachments[i..]), limit) == Some(u) && FilledUpTo(u, attachments, |attachments|)
    decreases |attachments| - i
  {
    if i == |attachments| {
      u := t;
    } else {
      assert attachments[i..][0] == attachments[i] && attachments[i..][1..] == attachments[i + 1..];
      var v := OneFills(t, attachments, i, callId, limit);
      u := AllFill(v, attachments, i + 1, callId, limit);
      FeedConcat(t, ChunksOf(callId, attachments[i]), AllChunks(callId, attachments[i + 1..]), limit);
    }
  }

  /** All chunks of sendable attachments rebuild them: identical bytes, in declared order. */
  lemma TransferRebuilds(attachments: seq<Attachment>, callId: string, limit: Option<nat>)
    requires Sendable(attachments, limit)
    ensures var end := Feed(Declared(attachments), AllChunks(callId, attachments), limit);
      end.Some? && AllComplete(end.value) && Assembled(end.value) == attachments
  {
    assert attachments[0..] == attachments;
    var u := AllFill(Declared(attachments), attachments, 0, callId, limit);
    assert Assembled(u) == attachments;
  }
}
