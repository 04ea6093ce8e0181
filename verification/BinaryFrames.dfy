/** The binary frames of the data channel: a four-byte length, a header, a body. */
module BinaryFrames {
  import opened Options

  type Byte = n: int | 0 <= n < 256 witness 0

  type Bytes = seq<Byte>

  datatype Header = Header(kind: string, callId: string, attachmentId: string, index: int, final: bool)

  /** How headers become bytes. JSON itself is not modelled: it is any encoding with these laws. */
  datatype Codec = Codec(encode: Header -> Bytes, decode: Bytes -> Option<Header>)

  const LENGTH_LIMIT: int := 0x1_0000_0000

  ghost predicate Lawful(c: Codec) {
    forall h: Header :: |c.encode(h)| > 0 && c.decode(c.encode(h)) == Some(h)
  }

  /** The header's length can be written in four bytes. */
  predicate Fits(c: Codec, h: Header) {
    |c.encode(h)| < LENGTH_LIMIT
  }

  function BigEndian(n: int): (b: Bytes)
    requires 0 <= n < LENGTH_LIMIT
    ensures |b| == 4
  {
    [n / 0x100_0000, n / 0x1_0000 % 0x100, n / 0x100 % 0x100, n % 0x100]
  }

  function FromBigEndian(b: Bytes): (n: int)
    requires |b| == 4
    ensures 0 <= n < LENGTH_LIMIT
  {
    (((b[0] as int) * 0x100 + b[1]) * 0x100 + b[2]) * 0x100 + b[3]
  }

  lemma LengthRoundTrip(n: int)
    requires 0 <= n < LENGTH_LIMIT
    ensures FromBigEndian(BigEndian(n)) == n
    ensures var b := BigEndian(n); n == b[0] as int * 16777216 + b[1] as int * 65536 + b[2] as int * 256 + b[3] as int
  {
    assert n / 0x100 / 0x100 == n / 0x1_0000 && n / 0x1_0000 / 0x100 == n / 0x100_0000;
    assert n / 0x1_0000 == n / 0x100_0000 * 0x100 + n / 0x1_0000 % 0x100;
    assert n / 0x100 == n / 0x1_0000 * 0x100 + n / 0x100 % 0x100;
  }

  lemma BytesRoundTrip(b: Bytes)
    requires |b| == 4
    ensures BigEndian(FromBigEndian(b)) == b
  {
    var n := FromBigEndian(b);
    var top: int := (b[0] as int) * 0x100 + b[1];
    assert n / 0x100 == top * 0x100 + b[2] && n % 0x100 == b[3];
    assert n / 0x100 / 0x100 == top && n / 0x100 % 0x100 == b[2];
    assert top / 0x100 == b[0] && top % 0x100 == b[1];
    assert n / 0x100 / 0x100 == n / 0x1_0000 && n / 0x1_0000 / 0x100 == n / 0x100_0000;
  }

  function EncodeFrame(c: Codec, h: Header, body: Bytes): Bytes
    requires Fits(c, h)
  {
    BigEndian(|c.encode(h)|) + c.encode(h) + body
  }

  datatype Frame = Frame(header: Header, body: Bytes)

  /** None stands for every way of rejecting a frame. */
  function DecodeFrame(c: Codec, frame: Bytes): Option<Frame> {
    if |frame| < 4 then None
    else
      var length := FromBigEndian(frame[..4]);
      if length <= 0 || |frame| < 4 + length then None
      else
        match c.decode(frame[4..4 + length])
        case None => None
        case Some(h) => Some(Frame(h, frame[4 + length..]))
  }

  /** What is framed is read back unchanged. */
  lemma FrameRoundTrip(c: Codec, h: Header, body: Bytes)
    requires Lawful(c) && Fits(c, h)
    ensures DecodeFrame(c, EncodeFrame(c, h, body)) == Some(Frame(h, body))
  {
    var header := c.encode(h);
    var frame := EncodeFrame(c, h, body);
    LengthRoundTrip(|header|);
    assert frame[..4] == BigEndian(|header|);
    assert frame[4..4 + |header|] == header;
    assert frame[4 + |header|..] == body;
  }

  predicate IsFrame(c: Codec, frame: Bytes, header: Bytes, f: Frame) {
    0 < |header| < LENGTH_LIMIT && c.decode(header) == Some(f.header) && frame == BigEndian(|header|) + header + f.body
  }

  lemma IsFrameDecodes(c: Codec, frame: Bytes, header: Bytes, f: Frame)
    requires IsFrame(c, frame, header, f)
    ensures DecodeFrame(c, frame) == Some(f)
  {
    LengthRoundTrip(|header|);
    assert frame[..4] == BigEndian(|header|);
    assert frame[4..4 + |header|] == header;
    assert frame[4 + |header|..] == f.body;
  }

  lemma DecodedIsFrame(c: Codec, frame: Bytes) returns (header: Bytes)
    requires DecodeFrame(c, frame).Some?
    ensures IsFrame(c, frame, header, DecodeFrame(c, frame).value)
  {
    var length := FromBigEndian(frame[..4]);
    header := frame[4..4 + length];
    BytesRoundTrip(frame[..4]);
    assert frame == frame[..4] + header + frame[4 + length..];
  }

  /** A frame is accepted exactly if it consists of its length, its header and its body, and nothing else. */
  lemma AcceptedFrameShape(c: Codec, frame: Bytes, f: Frame)
    ensures DecodeFrame(c, frame) == Some(f) <==> exists header: Bytes :: IsFrame(c, frame, header, f)
  {
    hide IsFrame, DecodeFrame;
    if DecodeFrame(c, frame) == Some(f) {
      var header := DecodedIsFrame(c, frame);
    }
    forall header: Bytes | IsFrame(c, frame, header, f) ensures DecodeFrame(c, frame) == Some(f) {
      IsFrameDecodes(c, frame, header, f);
    }
  }
}
