/**
 * The local SFU source (src/sfu.rs): bytes arrive on a non-blocking Unix
 * socket in reads of at most one message size, are gathered in a buffer,
 * and each complete 25-byte server message is decoded into a header that
 * mixes little-endian and big-endian integers.
 *
 * `LocalSource.ProcessOneMessage` follows the code as written, which appends
 * the whole zero-filled 25-byte read buffer even when fewer bytes arrived;
 * `LocalSource.ProcessOneMessageFixed` appends only the bytes read, and
 * `FramesOfStream` shows that it cuts the stream into its 25-byte messages.
 */
module Sfu {
  import opened Base

  const SERVER_MESSAGE_SIZE: nat := 25

  // ---------------------------------------------------------------------------
  // Byte order

  function Pow256(k: nat): (p: nat)
    ensures p >= 1
  {
    if k == 0 then 1 else 256 * Pow256(k - 1)
  }

  lemma Widths()
    ensures Pow256(1) == TWO_8 && Pow256(2) == TWO_16 && Pow256(4) == TWO_32 && Pow256(8) == TWO_64
  {
    assert Pow256(2) == 256 * 256;
    assert Pow256(4) == 256 * 256 * Pow256(2);
    assert Pow256(8) == 256 * 256 * 256 * 256 * Pow256(4);
  }

  /** `read_u*::<LittleEndian>`: the first byte is the least significant. */
  function LittleEndian(s: seq<byte>): nat {
    if |s| == 0 then 0 else s[0] + 256 * LittleEndian(s[1..])
  }

  /** `read_u*::<BigEndian>`: the last byte is the least significant. */
  function BigEndian(s: seq<byte>): nat {
    if |s| == 0 then 0 else BigEndian(s[..|s| - 1]) * 256 + s[|s| - 1]
  }

  /** The `k` bytes of `v` in little-endian order. */
  function ToLittleEndian(v: nat, k: nat): (s: seq<byte>)
    ensures |s| == k
  {
    if k == 0 then [] else [v % 256] + ToLittleEndian(v / 256, k - 1)
  }

  /** The `k` bytes of `v` in big-endian order. */
  function ToBigEndian(v: nat, k: nat): (s: seq<byte>)
    ensures |s| == k
  {
    if k == 0 then [] else ToBigEndian(v / 256, k - 1) + [v % 256]
  }

  /** `k` bytes read either way denote a number below 256^k. */
  lemma {:induction false} OrderBounds(s: seq<byte>)
    ensures LittleEndian(s) < Pow256(|s|)
    ensures BigEndian(s) < Pow256(|s|)
    decreases |s|
  {
    if |s| > 0 {
      OrderBounds(s[1..]);
      OrderBounds(s[..|s| - 1]);
    }
  }

  lemma {:induction false} LittleEndianRoundTrip(v: nat, k: nat)
    requires v < Pow256(k)
    ensures LittleEndian(ToLittleEndian(v, k)) == v
    decreases k
  {
    if k > 0 {
      LittleEndianRoundTrip(v / 256, k - 1);
      assert ToLittleEndian(v, k)[1..] == ToLittleEndian(v / 256, k - 1);
    }
  }

  lemma {:induction false} BigEndianRoundTrip(v: nat, k: nat)
    requires v < Pow256(k)
    ensures BigEndian(ToBigEndian(v, k)) == v
    decreases k
  {
    if k > 0 {
      BigEndianRoundTrip(v / 256, k - 1);
      var s := ToBigEndian(v, k);
      assert s[..|s| - 1] == ToBigEndian(v / 256, k - 1);
    }
  }

  /** A byte put below `v` splits off again as the remainder and the quotient by 256. */
  lemma LowByte(b: byte, v: nat)
    ensures (b + 256 * v) % 256 == b && (b + 256 * v) / 256 == v
    ensures (v * 256 + b) % 256 == b && (v * 256 + b) / 256 == v
  {
  }

  lemma {:induction false} LittleEndianBytes(s: seq<byte>)
    ensures ToLittleEndian(LittleEndian(s), |s|) == s
    decreases |s|
  {
    if |s| > 0 {
      LittleEndianBytes(s[1..]);
      LowByte(s[0], LittleEndian(s[1..]));
      Cons(s);
    }
  }

  lemma {:induction false} BigEndianBytes(s: seq<byte>)
    ensures ToBigEndian(BigEndian(s), |s|) == s
    decreases |s|
  {
    if |s| > 0 {
      BigEndianBytes(s[..|s| - 1]);
      LowByte(s[|s| - 1], BigEndian(s[..|s| - 1]));
      Snoc(s, s[..|s| - 1], []);
    }
  }

  // ---------------------------------------------------------------------------
  // The server message header

  /** The fields `process_server_message` reads. */
  datatype Header = Header(typ: U8, room: U64, user: U64, seqNum: U16, timestamp: U32, len: U16)

  /**
   * `process_server_message`: type byte 0, room and user little-endian at
   * 1..9 and 9..17, sequence number big-endian at 17..19, timestamp
   * big-endian at 19..23, payload length little-endian at 23..25. The
   * payload itself is not read. A buffer shorter than 25 bytes makes the
   * slicing panic, so it is excluded here.
   */
  function ProcessServerMessage(buffer: seq<byte>): Header
    requires |buffer| >= SERVER_MESSAGE_SIZE
  {
    Widths();
    OrderBounds(buffer[1..9]);
    OrderBounds(buffer[9..17]);
    OrderBounds(buffer[17..19]);
    OrderBounds(buffer[19..23]);
    OrderBounds(buffer[23..25]);
    Header(buffer[0], LittleEndian(buffer[1..9]), LittleEndian(buffer[9..17]),
           BigEndian(buffer[17..19]), BigEndian(buffer[19..23]), LittleEndian(buffer[23..25]))
  }

  /** The 25 bytes a header is sent as. */
  function EncodeHeader(h: Header): (s: seq<byte>)
    ensures |s| == SERVER_MESSAGE_SIZE
  {
    [h.typ as byte] + ToLittleEndian(h.room, 8) + ToLittleEndian(h.user, 8)
    + ToBigEndian(h.seqNum, 2) + ToBigEndian(h.timestamp, 4) + ToLittleEndian(h.len, 2)
  }

  /** Decoding reads back every field of an encoded header. */
  lemma DecodeEncodeHeader(h: Header)
    ensures ProcessServerMessage(EncodeHeader(h)) == h
  {
    var s := EncodeHeader(h);
    var a, b, c, d, e := ToLittleEndian(h.room, 8), ToLittleEndian(h.user, 8),
      ToBigEndian(h.seqNum, 2), ToBigEndian(h.timestamp, 4), ToLittleEndian(h.len, 2);
    assert s == [h.typ as byte] + a + b + c + d + e;
    assert s[23..25] == e;
    assert s[19..23] == d;
    assert s[17..19] == c;
    assert s[9..17] == b;
    assert s[1..9] == a;
    LittleEndianRoundTrip(h.room, 8);
    LittleEndianRoundTrip(h.user, 8);
    BigEndianRoundTrip(h.seqNum, 2);
    BigEndianRoundTrip(h.timestamp, 4);
    LittleEndianRoundTrip(h.len, 2);
  }

  /** The header determines the first 25 bytes exactly, and nothing after them is read. */
  lemma EncodeDecodeHeader(buffer: seq<byte>)
    requires |buffer| >= SERVER_MESSAGE_SIZE
    ensures EncodeHeader(ProcessServerMessage(buffer)) == buffer[..SERVER_MESSAGE_SIZE]
    ensures ProcessServerMessage(buffer) == ProcessServerMessage(buffer[..SERVER_MESSAGE_SIZE])
  {
    LittleEndianBytes(buffer[1..9]);
    LittleEndianBytes(buffer[9..17]);
    BigEndianBytes(buffer[17..19]);
    BigEndianBytes(buffer[19..23]);
    LittleEndianBytes(buffer[23..25]);
    var prefix := buffer[..SERVER_MESSAGE_SIZE];
    assert prefix[1..9] == buffer[1..9] && prefix[9..17] == buffer[9..17] && prefix[17..19] == buffer[17..19];
    assert prefix[19..23] == buffer[19..23] && prefix[23..25] == buffer[23..25];
    assert prefix
      == [buffer[0]] + buffer[1..9] + buffer[9..17] + buffer[17..19] + buffer[19..23] + buffer[23..25];
  }

  // ---------------------------------------------------------------------------
  // Reassembling messages from reads

  function Zeros(k: nat): (s: seq<byte>)
    ensures |s| == k && forall i :: 0 <= i < k ==> s[i] == 0
  {
    seq(k, i => 0)
  }

  /** `vec![0; SERVER_MESSAGE_SIZE]` after `read` stored `incoming` at its front. */
  function Chunk(incoming: seq<byte>): (c: seq<byte>)
    requires |incoming| <= SERVER_MESSAGE_SIZE
    ensures |c| == SERVER_MESSAGE_SIZE
  {
    incoming + Zeros(SERVER_MESSAGE_SIZE - |incoming|)
  }

  /** What one call produces: the header it decoded, if any, and the buffer it leaves. */
  datatype Step = Step(frame: Option<Header>, buffer: seq<byte>)

  /** Whether a read stays within what the code can take: at most a chunk, into a buffer of at most a message. */
  predicate Fits(buffer: seq<byte>, read: Option<seq<byte>>) {
    read.Some? ==> |read.value| <= SERVER_MESSAGE_SIZE && |buffer| <= SERVER_MESSAGE_SIZE
  }

  /**
   * `process_one_message` as written: on a read of `n` bytes, with `need`
   * bytes missing from the buffer, a short read appends the whole chunk,
   * zeros included; otherwise the chunk is split at `need`, its front
   * completes the message that is decoded, and its back becomes the buffer.
   * A failed read changes nothing.
   */
  function AsWrittenStep(buffer: seq<byte>, read: Option<seq<byte>>): Step
    requires Fits(buffer, read)
  {
    if read.None? then Step(None, buffer)
    else
      var chunk, need := Chunk(read.value), SERVER_MESSAGE_SIZE - |buffer|;
      if |read.value| < need then Step(None, buffer + chunk)
      else Step(Some(ProcessServerMessage(buffer + chunk[..need])), chunk[need..])
  }

  /** The corrected step: only the `n` bytes that arrived are used. */
  function FixedStep(buffer: seq<byte>, read: Option<seq<byte>>): Step
    requires Fits(buffer, read)
  {
    if read.None? then Step(None, buffer)
    else
      var bytes, need := read.value, SERVER_MESSAGE_SIZE - |buffer|;
      if |bytes| < need then Step(None, buffer + bytes)
      else Step(Some(ProcessServerMessage(buffer + bytes[..need])), bytes[need..])
  }

  /** `LocalSource`: the socket is the environment; the buffer is the state. */
  class LocalSource {
    var buffer: seq<byte>

    /** `LocalSource::connect` once the socket is open: an empty buffer. */
    constructor ()
      ensures buffer == []
    {
      buffer := [];
    }

    /** `for_each(|x| self.buffer.push(x))`: pushes the bytes one at a time. */
    method PushAll(bytes: seq<byte>)
      modifies this
      ensures buffer == old(buffer) + bytes
    {
      var i := 0;
      while i < |bytes|
        invariant i <= |bytes| && buffer == old(buffer) + bytes[..i]
      {
        buffer := buffer + [bytes[i]];
        assert bytes[..i + 1] == bytes[..i] + [bytes[i]];
        i := i + 1;
      }
    }

    /**
     * `process_one_message`, as written: `read` is what the socket read
     * returned, the bytes that arrived or an error. Returns the header it
     * decoded, if any. The code asserts that the buffer holds at most one
     * message before it looks at a successful read.
     */
    method ProcessOneMessage(read: Option<seq<byte>>) returns (frame: Option<Header>)
      requires Fits(buffer, read)
      modifies this
      ensures Step(frame, buffer) == AsWrittenStep(old(buffer), read)
    {
      frame := None;
      if read.Some? {
        var chunk := Chunk(read.value);
        var n, k := |read.value|, |buffer|;
        var need := SERVER_MESSAGE_SIZE - k;
        if n < need {
          PushAll(chunk);
        } else {
          var next := chunk[need..];
          chunk := chunk[..need];
          PushAll(chunk);
          frame := Some(ProcessServerMessage(buffer));
          buffer := next;
        }
      }
    }

    /** The corrected `process_one_message`: pushes only the bytes read, and keeps the buffer short of a message. */
    method ProcessOneMessageFixed(read: Option<seq<byte>>) returns (frame: Option<Header>)
      requires |buffer| < SERVER_MESSAGE_SIZE
      requires read.Some? ==> |read.value| <= SERVER_MESSAGE_SIZE
      modifies this
      ensures Step(frame, buffer) == FixedStep(old(buffer), read)
      ensures |buffer| < SERVER_MESSAGE_SIZE
    {
      frame := None;
      if read.Some? {
        var bytes := read.value;
        var need := SERVER_MESSAGE_SIZE - |buffer|;
        if |bytes| < need {
          PushAll(bytes);
        } else {
          PushAll(bytes[..need]);
          frame := Some(ProcessServerMessage(buffer));
          buffer := bytes[need..];
        }
      }
    }
  }

  // ---------------------------------------------------------------------------
  // What the step as written does to the buffer

  /**
   * A failed read changes nothing; a short read grows the buffer by a whole
   * message, which would break the code's assertion on the next successful
   * read if the buffer had not been empty (from `connect`'s empty buffer it
   * always is, see `AsWrittenBufferSizes`); a completing read decodes
   * exactly 25 bytes and leaves as many bytes as the buffer held.
   */
  lemma AsWrittenLengths(buffer: seq<byte>, read: Option<seq<byte>>)
    requires Fits(buffer, read)
    ensures read.None? ==> AsWrittenStep(buffer, read) == Step(None, buffer)
    ensures read.Some? && |read.value| < SERVER_MESSAGE_SIZE - |buffer| ==>
      AsWrittenStep(buffer, read).frame.None?
      && |AsWrittenStep(buffer, read).buffer| == |buffer| + SERVER_MESSAGE_SIZE
    ensures read.Some? && |read.value| < SERVER_MESSAGE_SIZE - |buffer| && |buffer| > 0 ==>
      !Fits(AsWrittenStep(buffer, read).buffer, read)
    ensures read.Some? && |read.value| >= SERVER_MESSAGE_SIZE - |buffer| ==>
      var need := SERVER_MESSAGE_SIZE - |buffer|;
      AsWrittenStep(buffer, read).frame == Some(ProcessServerMessage(buffer + Chunk(read.value)[..need]))
      && |buffer + Chunk(read.value)[..need]| == SERVER_MESSAGE_SIZE
      && |AsWrittenStep(buffer, read).buffer| == |buffer|
  {
  }

  /**
   * A message that arrives in two reads, 13 bytes and then 12, is misread:
   * the first read pads the buffer with zeros to a full message, and the
   * second decodes those zeros in place of the message's last 12 bytes.
   * Whenever one of those bytes is non-zero the header is wrong.
   */
  lemma SplitReadMisdecoded(message: seq<byte>)
    requires |message| == SERVER_MESSAGE_SIZE
    requires exists i :: 13 <= i < SERVER_MESSAGE_SIZE && message[i] != 0
    ensures var first := AsWrittenStep([], Some(message[..13]));
      first.frame.None? && Fits(first.buffer, Some(message[13..]))
      && AsWrittenStep(first.buffer, Some(message[13..])).frame != Some(ProcessServerMessage(message))
  {
    var padded := message[..13] + Zeros(12);
    ShortReadPads(message[..13]);
    FullBufferDecodesItself(padded, message[13..]);
    var i :| 13 <= i < SERVER_MESSAGE_SIZE && message[i] != 0;
    assert padded[i] == 0;
    HeaderDeterminesMessage(padded, message);
  }

  /** A short read into an empty buffer leaves the read bytes followed by zeros, and decodes nothing. */
  lemma ShortReadPads(incoming: seq<byte>)
    requires |incoming| < SERVER_MESSAGE_SIZE
    ensures AsWrittenStep([], Some(incoming)) == Step(None, Chunk(incoming))
  {
    assert [] + Chunk(incoming) == Chunk(incoming);
  }

  /**
   * Into a buffer already a message long, any read decodes the buffer itself
   * and leaves the new padded chunk in its place.
   */
  lemma FullBufferDecodesItself(buffer: seq<byte>, incoming: seq<byte>)
    requires |buffer| == SERVER_MESSAGE_SIZE && |incoming| <= SERVER_MESSAGE_SIZE
    ensures AsWrittenStep(buffer, Some(incoming)) == Step(Some(ProcessServerMessage(buffer)), Chunk(incoming))
  {
    assert buffer + Chunk(incoming)[..0] == buffer;
    assert Chunk(incoming)[0..] == Chunk(incoming);
  }

  /**
   * Starting from an empty or a full buffer, the buffer is again empty or a
   * message long after any read of at most a chunk, so the code's assertion
   * holds on every call that follows `connect`.
   */
  lemma AsWrittenBufferSizes(buffer: seq<byte>, read: Option<seq<byte>>)
    requires |buffer| == 0 || |buffer| == SERVER_MESSAGE_SIZE
    requires read.Some? ==> |read.value| <= SERVER_MESSAGE_SIZE
    ensures Fits(buffer, read)
    ensures |AsWrittenStep(buffer, read).buffer| == 0 || |AsWrittenStep(buffer, read).buffer| == SERVER_MESSAGE_SIZE
  {
  }

  /** Two different messages never decode to the same header. */
  lemma HeaderDeterminesMessage(a: seq<byte>, b: seq<byte>)
    requires |a| == SERVER_MESSAGE_SIZE && |b| == SERVER_MESSAGE_SIZE && a != b
    ensures ProcessServerMessage(a) != ProcessServerMessage(b)
  {
    EncodeDecodeHeader(a);
    EncodeDecodeHeader(b);
    assert a[..SERVER_MESSAGE_SIZE] == a && b[..SERVER_MESSAGE_SIZE] == b;
  }

  /** The corrected step reads the same two pieces back as the message. */
  lemma SplitReadReassembled(message: seq<byte>)
    requires |message| == SERVER_MESSAGE_SIZE
    ensures var first := FixedStep([], Some(message[..13]));
      first.frame.None? && Fits(first.buffer, Some(message[13..]))
      && FixedStep(first.buffer, Some(message[13..])) == Step(Some(ProcessServerMessage(message)), [])
  {
    assert FixedStep([], Some(message[..13])) == Step(None, message[..13]);
    assert message[..13] + message[13..][..12] == message;
  }

  // ---------------------------------------------------------------------------
  // The corrected step cuts the byte stream into messages

  /** The messages a byte stream holds, in order: one per complete 25 bytes. */
  function Frames(stream: seq<byte>): seq<Header>
    decreases |stream|
  {
    if |stream| < SERVER_MESSAGE_SIZE then []
    else [ProcessServerMessage(stream)] + Frames(stream[SERVER_MESSAGE_SIZE..])
  }

  /** The bytes of a stream after its last complete message. */
  function Leftover(stream: seq<byte>): seq<byte>
    decreases |stream|
  {
    if |stream| < SERVER_MESSAGE_SIZE then stream else Leftover(stream[SERVER_MESSAGE_SIZE..])
  }

  /** The bytes a sequence of reads delivered, failed reads contributing none. */
  function Received(arrivals: seq<Option<seq<byte>>>): seq<byte> {
    if |arrivals| == 0 then []
    else (if arrivals[0].Some? then arrivals[0].value else []) + Received(arrivals[1..])
  }

  predicate ChunkSized(arrivals: seq<Option<seq<byte>>>) {
    forall i :: 0 <= i < |arrivals| && arrivals[i].Some? ==> |arrivals[i].value| <= SERVER_MESSAGE_SIZE
  }

  lemma StepKeepsShort(buffer: seq<byte>, read: Option<seq<byte>>)
    requires |buffer| < SERVER_MESSAGE_SIZE && Fits(buffer, read)
    ensures |FixedStep(buffer, read).buffer| < SERVER_MESSAGE_SIZE
  {
  }

  lemma ChunkSizedTail(arrivals: seq<Option<seq<byte>>>)
    requires |arrivals| > 0 && ChunkSized(arrivals)
    ensures ChunkSized(arrivals[1..])
  {
    forall i | 0 <= i < |arrivals[1..]| && arrivals[1..][i].Some?
      ensures |arrivals[1..][i].value| <= SERVER_MESSAGE_SIZE
    {
      assert arrivals[1..][i] == arrivals[i + 1];
    }
  }

  /** The headers a sequence of calls decoded, and the buffer it left. */
  datatype Run = Run(frames: seq<Header>, buffer: seq<byte>)

  function Decodes(frame: Option<Header>): seq<Header> {
    if frame.Some? then [frame.value] else []
  }

  /** The corrected step applied to each read in turn. */
  function FixedRun(buffer: seq<byte>, arrivals: seq<Option<seq<byte>>>): Run
    requires |buffer| < SERVER_MESSAGE_SIZE && ChunkSized(arrivals)
    decreases |arrivals|
  {
    if |arrivals| == 0 then Run([], buffer)
    else
      var s := FixedStep(buffer, arrivals[0]);
      StepKeepsShort(buffer, arrivals[0]);
      ChunkSizedTail(arrivals);
      var rest := FixedRun(s.buffer, arrivals[1..]);
      Run(Decodes(s.frame) + rest.frames, rest.buffer)
  }

  /**
   * The step as written applied to each read in turn. From an empty or a
   * full buffer it is defined for every sequence of chunk-sized reads: the
   * assertion never fails, and the buffer left is empty or a message long.
   */
  function AsWrittenRun(buffer: seq<byte>, arrivals: seq<Option<seq<byte>>>): (r: Run)
    requires |buffer| == 0 || |buffer| == SERVER_MESSAGE_SIZE
    requires ChunkSized(arrivals)
    ensures |r.buffer| == 0 || |r.buffer| == SERVER_MESSAGE_SIZE
    ensures |r.frames| <= |arrivals|
    decreases |arrivals|
  {
    if |arrivals| == 0 then Run([], buffer)
    else
      AsWrittenBufferSizes(buffer, arrivals[0]);
      var s := AsWrittenStep(buffer, arrivals[0]);
      ChunkSizedTail(arrivals);
      var rest := AsWrittenRun(s.buffer, arrivals[1..]);
      Run(Decodes(s.frame) + rest.frames, rest.buffer)
  }

  /** One corrected step takes the stream's next message, if it is complete, and keeps the rest. */
  lemma StepFrames(buffer: seq<byte>, read: Option<seq<byte>>, rest: seq<byte>)
    requires |buffer| < SERVER_MESSAGE_SIZE && Fits(buffer, read)
    ensures var bytes := if read.Some? then read.value else [];
      var s := FixedStep(buffer, read);
      Frames(buffer + bytes + rest) == Decodes(s.frame) + Frames(s.buffer + rest)
      && Leftover(buffer + bytes + rest) == Leftover(s.buffer + rest)
  {
    var bytes := if read.Some? then read.value else [];
    var s := FixedStep(buffer, read);
    var stream := buffer + bytes + rest;
    var need := SERVER_MESSAGE_SIZE - |buffer|;
    if |bytes| < need {
      assert stream == s.buffer + rest;
      assert Decodes(s.frame) + Frames(s.buffer + rest) == Frames(s.buffer + rest);
    } else {
      var front, back := buffer + bytes[..need], bytes[need..] + rest;
      assert bytes == bytes[..need] + bytes[need..];
      Associative(buffer, bytes, rest);
      Associative(buffer, bytes[..need], bytes[need..]);
      Associative(buffer + bytes[..need], bytes[need..], rest);
      assert stream == front + back;
      assert |front| == SERVER_MESSAGE_SIZE;
      assert stream[..SERVER_MESSAGE_SIZE] == front;
      assert stream[SERVER_MESSAGE_SIZE..] == s.buffer + rest;
      EncodeDecodeHeader(stream);
      EncodeDecodeHeader(buffer + bytes[..need]);
    }
  }

  /**
   * The corrected `process_one_message`, called once per read: the headers
   * it decodes are exactly the messages of the bytes received, in order, and
   * what is left in the buffer is the unfinished tail.
   */
  lemma {:induction false} FramesOfStream(buffer: seq<byte>, arrivals: seq<Option<seq<byte>>>)
    requires |buffer| < SERVER_MESSAGE_SIZE && ChunkSized(arrivals)
    ensures FixedRun(buffer, arrivals).frames == Frames(buffer + Received(arrivals))
    ensures FixedRun(buffer, arrivals).buffer == Leftover(buffer + Received(arrivals))
    decreases |arrivals|
  {
    if |arrivals| == 0 {
      assert buffer + Received(arrivals) == buffer;
    } else {
      var bytes := if arrivals[0].Some? then arrivals[0].value else [];
      var s := FixedStep(buffer, arrivals[0]);
      StepKeepsShort(buffer, arrivals[0]);
      var tail := arrivals[1..];
      ChunkSizedTail(arrivals);
      FramesOfStream(s.buffer, tail);
      StepFrames(buffer, arrivals[0], Received(tail));
      var rest := FixedRun(s.buffer, tail);
      assert FixedRun(buffer, arrivals) == Run(Decodes(s.frame) + rest.frames, rest.buffer);
      assert Received(arrivals) == bytes + Received(tail);
      Associative(buffer, bytes, Received(tail));
    }
  }
}
