/** The gateway's frame format as `write_message`, `read_header` and
    `read_packet` produce and consume it: a four-byte big-endian length,
    then that many payload bytes. Reading is modelled on the bytes still
    unread in the socket, and returns the bytes left after the frame. */
module Framing {
  import opened Base

  /** Size of the length prefix. */
  const HEADER_LEN: nat := 4

  /** 256^k: the number of values `k` bytes can hold. */
  function Pow256(k: nat): nat {
    if k == 0 then 1 else 0x100 * Pow256(k - 1)
  }

  /** The `k` bytes of `n`, most significant first (big-endian), keeping the
      low `8 * k` bits of `n`. */
  function ToBigEndian(n: nat, k: nat): (r: seq<byte>)
    ensures |r| == k
  {
    if k == 0 then [] else ToBigEndian(n / 0x100, k - 1) + [(n % 0x100) as byte]
  }

  /** The value of big-endian bytes. */
  function FromBigEndian(b: seq<byte>): (n: nat)
    ensures n < Pow256(|b|)
  {
    if b == [] then 0 else FromBigEndian(b[..|b| - 1]) * 0x100 + b[|b| - 1] as int
  }

  /** Reading back `k` big-endian bytes gives every value that fits in them. */
  lemma {:induction false} BigEndianRoundTrip(n: nat, k: nat)
    requires n < Pow256(k)
    ensures FromBigEndian(ToBigEndian(n, k)) == n
  {
    if k > 0 {
      var b := ToBigEndian(n, k);
      assert n / 0x100 < Pow256(k - 1);
      BigEndianRoundTrip(n / 0x100, k - 1);
      assert b[..k - 1] == ToBigEndian(n / 0x100, k - 1);
    }
  }

  /** Every byte sequence is the big-endian encoding of its own value. */
  lemma {:induction false} BigEndianBytesRoundTrip(b: seq<byte>)
    ensures ToBigEndian(FromBigEndian(b), |b|) == b
  {
    if b != [] {
      var init := b[..|b| - 1];
      var n := FromBigEndian(b);
      assert n / 0x100 == FromBigEndian(init) && n % 0x100 == b[|b| - 1] as int;
      BigEndianBytesRoundTrip(init);
      assert b == init + [b[|b| - 1]];
    }
  }

  /** `write_u32::<BigEndian>`: the four bytes of `n`, most significant first. */
  function U32ToBytes(n: nat): (r: seq<byte>)
    requires n < TWO_TO_32
    ensures |r| == HEADER_LEN
  {
    ToBigEndian(n, HEADER_LEN)
  }

  /** `read_u32::<BigEndian>` over a filled four-byte buffer. */
  function BytesToU32(b: seq<byte>): (n: nat)
    requires |b| == HEADER_LEN
    ensures n < TWO_TO_32
  {
    assert Pow256(HEADER_LEN) == TWO_TO_32;
    FromBigEndian(b)
  }

  /** Reading back a written length gives the length. */
  lemma U32RoundTrip(n: nat)
    requires n < TWO_TO_32
    ensures BytesToU32(U32ToBytes(n)) == n
  {
    assert Pow256(HEADER_LEN) == TWO_TO_32;
    BigEndianRoundTrip(n, HEADER_LEN);
  }

  /** Every four-byte header is the encoding of the length it reads as, so the
      header encoding is a bijection between `u32` values and four-byte buffers. */
  lemma BytesRoundTrip(b: seq<byte>)
    requires |b| == HEADER_LEN
    ensures U32ToBytes(BytesToU32(b)) == b
  {
    BigEndianBytesRoundTrip(b);
  }

  /** `data.len() as u32`: the length keeps only its low 32 bits. */
  function LengthField(len: nat): (r: nat)
    ensures r < TWO_TO_32
    ensures len < TWO_TO_32 ==> r == len
  {
    len % TWO_TO_32
  }

  /** The bytes `write_message` puts on the socket for an encoded message:
      the length prefix, then the message bytes. */
  function EncodeFrame(data: seq<byte>): (frame: seq<byte>)
    ensures |frame| == HEADER_LEN + |data|
    ensures frame[HEADER_LEN..] == data
  {
    U32ToBytes(LengthField(|data|)) + data
  }

  /** `read_header`: fails unless four bytes are available; otherwise yields
      the big-endian length and the bytes after the header. */
  function DecodeHeader(s: seq<byte>): (r: Result<(nat, seq<byte>)>)
    ensures r.Ok? <==> |s| >= HEADER_LEN
    ensures r.Err? ==> r.error == UnexpectedEof
    ensures r.Ok? ==> r.value.0 < TWO_TO_32 && s == U32ToBytes(r.value.0) + r.value.1
  {
    if |s| < HEADER_LEN then Err(UnexpectedEof)
    else
      BytesRoundTrip(s[..HEADER_LEN]);
      Ok((BytesToU32(s[..HEADER_LEN]), s[HEADER_LEN..]))
  }

  /** The framing split of `read_packet`: read the header, then exactly that
      many bytes (`read_exact`). A successful read consumed precisely one
      written frame: the input starts with the encoding of the payload. */
  function DecodeFrame(s: seq<byte>): (r: Result<(seq<byte>, seq<byte>)>)
    ensures r.Err? ==> r.error == UnexpectedEof
    ensures r.Ok? ==> s == EncodeFrame(r.value.0) + r.value.1
  {
    var (size, body) :- DecodeHeader(s);
    if |body| < size then Err(UnexpectedEof)
    else
      assert s == U32ToBytes(size) + body[..size] + body[size..];
      Ok((body[..size], body[size..]))
  }

  /** What a reader gets from a frame written for `data`, whatever its size:
      a payload of `data.len() as u32` bytes, the rest of `data` being left
      in the stream. */
  lemma FrameDecodesTruncatedLength(data: seq<byte>, rest: seq<byte>)
    ensures DecodeFrame(EncodeFrame(data) + rest)
         == Ok((data[..LengthField(|data|)], data[LengthField(|data|)..] + rest))
  {
    var len := LengthField(|data|);
    var s := EncodeFrame(data) + rest;
    U32RoundTrip(len);
    assert s[..HEADER_LEN] == U32ToBytes(len);
    assert s[HEADER_LEN..] == data + rest;
    assert (data + rest)[..len] == data[..len];
    assert (data + rest)[len..] == data[len..] + rest;
  }

  /** Frame round trip: a payload shorter than 2^32 bytes is read back
      exactly, and the bytes written after it are left unread. */
  lemma FrameRoundTrip(data: seq<byte>, rest: seq<byte>)
    requires |data| < TWO_TO_32
    ensures DecodeFrame(EncodeFrame(data) + rest) == Ok((data, rest))
  {
    FrameDecodesTruncatedLength(data, rest);
    assert data[..|data|] == data;
  }

  /** A payload of 2^32 bytes or more is not read back: the wrapped length
      makes the reader return a shorter payload. */
  lemma OversizeFrameMisread(data: seq<byte>, rest: seq<byte>)
    requires |data| >= TWO_TO_32
    ensures DecodeFrame(EncodeFrame(data) + rest).Ok?
    ensures |DecodeFrame(EncodeFrame(data) + rest).value.0| < |data|
  {
    FrameDecodesTruncatedLength(data, rest);
  }

  /** Truncation: any proper prefix of a written frame fails to decode; the
      reader never returns part of a payload. */
  lemma TruncatedFrameFails(data: seq<byte>, k: nat)
    requires |data| < TWO_TO_32
    requires k < HEADER_LEN + |data|
    ensures DecodeFrame(EncodeFrame(data)[..k]) == Err(UnexpectedEof)
  {
    var s := EncodeFrame(data)[..k];
    if k >= HEADER_LEN {
      assert s[..HEADER_LEN] == U32ToBytes(|data|);
      U32RoundTrip(|data|);
    }
  }

  /** The bytes of several frames written one after another. */
  function EncodeFrames(payloads: seq<seq<byte>>): seq<byte>
  {
    if payloads == [] then []
    else EncodeFrame(payloads[0]) + EncodeFrames(payloads[1..])
  }

  /** Successive `read_packet` calls over a byte stream, as the read loop of
      `process_messages` makes them: the payloads read, in order, until the
      stream is exhausted or a read fails, and the bytes that failing read
      started on. Every payload before the failure has been read (and
      dispatched by the loop); apart from a payload that is not UTF-8, which
      this model does not check, a read only fails at the end of the
      stream. */
  function ReadFrames(s: seq<byte>): (r: (seq<seq<byte>>, seq<byte>))
    ensures s == EncodeFrames(r.0) + r.1
    ensures r.1 == [] || DecodeFrame(r.1).Err?
    decreases |s|
  {
    if s == [] then ([], [])
    else
      var frame := DecodeFrame(s);
      if frame.Err? then ([], s)
      else
        var payload, rest := frame.value.0, frame.value.1;
        var more := ReadFrames(rest);
        EncodeFramesCons(payload, more.0, more.1);
        ([payload] + more.0, more.1)
  }

  /** The frames of `[payload] + more` are the frame of `payload`, then the
      frames of `more`. */
  lemma EncodeFramesCons(payload: seq<byte>, more: seq<seq<byte>>, tail: seq<byte>)
    ensures EncodeFrames([payload] + more) + tail == EncodeFrame(payload) + (EncodeFrames(more) + tail)
  {
    assert ([payload] + more)[1..] == more;
  }

  /** Frames are read in the order they were written, each exactly once,
      and a trailing partial frame is left unread without losing the frames
      before it. */
  lemma {:induction false} StreamRoundTrip(payloads: seq<seq<byte>>, tail: seq<byte>)
    requires forall i :: 0 <= i < |payloads| ==> |payloads[i]| < TWO_TO_32
    requires tail == [] || DecodeFrame(tail).Err?
    ensures ReadFrames(EncodeFrames(payloads) + tail) == (payloads, tail)
  {
    if payloads != [] {
      var rest := EncodeFrames(payloads[1..]) + tail;
      assert EncodeFrames(payloads) + tail == EncodeFrame(payloads[0]) + rest;
      FrameRoundTrip(payloads[0], rest);
      StreamRoundTrip(payloads[1..], tail);
      assert [payloads[0]] + payloads[1..] == payloads;
    } else {
      assert EncodeFrames(payloads) + tail == tail;
    }
  }

  /** A stream that ends one byte into a second frame, as when the gateway
      closes mid-frame: the complete frame before it is still read. */
  lemma FrameBeforePartialKept(payload: seq<byte>, stray: byte)
    requires |payload| < TWO_TO_32
    ensures ReadFrames(EncodeFrame(payload) + [stray]) == ([payload], [stray])
  {
    assert EncodeFrames([payload]) == EncodeFrame(payload);
    StreamRoundTrip([payload], [stray]);
  }
}
