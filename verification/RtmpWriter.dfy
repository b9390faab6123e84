/** The RTMP chunk writer, what it puts on the wire, and what the reader makes of it. */
module RtmpWriter {
  import opened Bytes
  import opened OptionValue
  import opened RtmpChunk

  /** The writer's argument widths: csid and type are bytes, timestamp and stream id are 32 bits. */
  predicate Writable(m: Message) {
    m.csid < 256 && m.msgType < 256 && m.timestamp < U32 && m.streamId < U32
  }

  /** Messages whose header fields survive the wire. */
  predicate Faithful(m: Message) {
    2 <= m.csid <= 63 && m.timestamp < EXTENDED && |m.payload| < U24
  }

  function Header(m: Message): (s: seq<byte>)
    requires Writable(m)
    ensures |s| == 12
  {
    [m.csid % 64] + BigEndian(m.timestamp, 3) + BigEndian(|m.payload|, 3) + [m.msgType]
    + LittleEndian(m.streamId, 4)
  }

  /** The chunk that carries the payload from `sent` on. */
  function ChunkBytes(m: Message, sent: nat, chunkSize: nat): seq<byte>
    requires Writable(m) && sent <= |m.payload|
  {
    (if sent == 0 then Header(m) else [192 + m.csid % 64])
    + m.payload[sent..Min(sent + chunkSize, |m.payload|)]
  }

  /** Everything the writer emits once `sent` payload bytes are out. */
  function EncodeFrom(m: Message, sent: nat, chunkSize: nat): seq<byte>
    requires Writable(m) && sent <= |m.payload| && chunkSize > 0
    decreases |m.payload| - sent
  {
    if sent == |m.payload| then []
    else ChunkBytes(m, sent, chunkSize) + EncodeFrom(m, Min(sent + chunkSize, |m.payload|), chunkSize)
  }

  function Encode(m: Message, chunkSize: nat): seq<byte>
    requires Writable(m) && chunkSize > 0
  {
    EncodeFrom(m, 0, chunkSize)
  }

  /** The writing side of a connection. */
  class ChunkWriter {
    var output: seq<byte>

    constructor ()
      ensures output == []
    {
      output := [];
    }

    /** The header in front of a chunk: twelve bytes for the first, one for the others. */
    method ChunkHeader(m: Message, first: bool) returns (header: seq<byte>)
      requires Writable(m)
      ensures header == if first then Header(m) else [192 + m.csid % 64]
    {
      if !first { return [192 + m.csid % 64]; }
      header := [m.csid % 64];
      header := header + BigEndian(m.timestamp, 3);
      header := header + BigEndian(|m.payload|, 3);
      header := header + [m.msgType];
      header := header + LittleEndian(m.streamId, 4);
    }

    /** write_rtmp_message: a full header and the first chunk, then one-byte headers. */
    method WriteRtmpMessage(m: Message, chunkSize: nat)
      requires Writable(m) && chunkSize > 0
      modifies this
      ensures output == old(output) + Encode(m, chunkSize)
    {
      var n := |m.payload|;
      var sent := 0;
      ghost var left := Encode(m, chunkSize);
      while sent < n
        invariant 0 <= sent <= n
        invariant left == EncodeFrom(m, sent, chunkSize)
        invariant output + left == old(output) + Encode(m, chunkSize)
      {
        var header := ChunkHeader(m, sent == 0);
        var end := if sent + chunkSize <= n then sent + chunkSize else n;
        var chunk := header + m.payload[sent..end];
        ghost var rest := EncodeFrom(m, end, chunkSize);
        assert left == chunk + rest by { EncodeFromUnfolds(m, sent, chunkSize); }
        SplitWritten(output, chunk, rest);
        output := output + chunk;
        left := rest;
        sent := end;
      }
    }
  }

  lemma EncodeFromUnfolds(m: Message, sent: nat, chunkSize: nat)
    requires Writable(m) && sent < |m.payload| && chunkSize > 0
    ensures EncodeFrom(m, sent, chunkSize) ==
            ChunkBytes(m, sent, chunkSize) + EncodeFrom(m, Min(sent + chunkSize, |m.payload|), chunkSize)
  {
  }

  lemma SplitWritten(a: seq<byte>, b: seq<byte>, c: seq<byte>)
    ensures a + (b + c) == a + b + c
  {
  }

  function CeilDiv(n: nat, d: nat): nat
    requires d > 0
  {
    (n + d - 1) / d
  }

  /** A non-empty message occupies twelve header bytes, its payload, and one byte per extra chunk. */
  lemma EncodedLength(m: Message, chunkSize: nat)
    requires Writable(m) && chunkSize > 0
    ensures |Encode(m, chunkSize)| ==
            if m.payload == [] then 0 else 12 + |m.payload| + (CeilDiv(|m.payload|, chunkSize) - 1)
  {
    EncodedLengthFrom(m, 0, chunkSize);
  }

  lemma {:induction false} EncodedLengthFrom(m: Message, sent: nat, chunkSize: nat)
    requires Writable(m) && sent <= |m.payload| && chunkSize > 0
    ensures var left := |m.payload| - sent;
            |EncodeFrom(m, sent, chunkSize)| ==
            left + CeilDiv(left, chunkSize) + (if sent == 0 && left > 0 then 11 else 0)
    decreases |m.payload| - sent
  {
    hide CeilDiv;
    var left := |m.payload| - sent;
    if left > 0 {
      EncodedLengthFrom(m, Min(sent + chunkSize, |m.payload|), chunkSize);
      CeilDivStep(left, chunkSize);
    } else {
      CeilDivSmall(0, chunkSize);
    }
  }

  lemma CeilDivSmall(n: nat, d: nat)
    requires d > 0 && n <= d
    ensures CeilDiv(n, d) == if n == 0 then 0 else 1
  {
    if n == 0 {
      ModUnique(d - 1, d, 0, d - 1);
    } else {
      ModUnique(n + d - 1, d, 1, n - 1);
    }
  }

  /** One chunk fewer after taking up to `d` bytes. */
  lemma CeilDivStep(n: nat, d: nat)
    requires d > 0 && n > 0
    ensures CeilDiv(n, d) == 1 + CeilDiv(n - Min(n, d), d)
  {
    if n <= d {
      CeilDivSmall(n, d);
      CeilDivSmall(0, d);
    } else {
      var q, r := (n - 1) / d, (n - 1) % d;
      assert n - 1 == d * q + r;
      assert n + d - 1 == d * (q + 1) + r;
      ModUnique(n + d - 1, d, q + 1, r);
      ModUnique(n - d + d - 1, d, q, r);
    }
  }

  // ---------------------------------------------------------------- reading what was written

  /** The chunk stream once the first `sent` payload bytes of `m` have been read. */
  function Progress(m: Message, sent: nat): ChunkState
    requires sent <= |m.payload|
  {
    ChunkState(m.msgType, |m.payload|, m.timestamp, m.streamId, m.payload[..sent])
  }

  lemma HeaderDecodes(m: Message, tail: seq<byte>)
    requires Writable(m)
    ensures var s := Header(m) + tail;
            && s[0] == m.csid % 64
            && FromBigEndian(s[1..4]) == m.timestamp % U24
            && FromBigEndian(s[4..7]) == |m.payload| % U24
            && s[7] == m.msgType
            && FromLittleEndian(s[8..12]) == m.streamId
            && s[12..] == tail
  {
    var s := Header(m) + tail;
    Widths();
    assert s[1..4] == BigEndian(m.timestamp, 3);
    assert s[4..7] == BigEndian(|m.payload|, 3);
    assert s[8..12] == LittleEndian(m.streamId, 4);
    BigEndianRoundTrip(m.timestamp, 3);
    BigEndianRoundTrip(|m.payload|, 3);
    LittleEndianRoundTrip(m.streamId, 4);
  }

  /** A first chunk resets its stream to the 24-bit fields of the header, whatever was buffered. */
  lemma FirstChunkRead(m: Message, body: seq<byte>, states: States, chunkSize: nat)
    requires Writable(m) && m.csid % 64 >= 2 && m.timestamp % U24 != EXTENDED
    ensures ReadChunk(Header(m) + body, states, chunkSize) ==
            ReadPayload(m.csid % 64,
                        ChunkState(m.msgType, |m.payload| % U24, m.timestamp % U24, m.streamId, []),
                        body, states, chunkSize)
  {
    var s := Header(m) + body;
    HeaderDecodes(m, body);
    assert ParseBasic(s) == Some(BasicHeader(0, m.csid % 64, 1));
    var h := s[1..];
    assert h[..3] == s[1..4] && h[3..6] == s[4..7] && h[6] == s[7] && h[7..11] == s[8..12];
    assert s[1 + 11..] == body;
  }

  /** A continuation chunk changes nothing but the payload buffer. */
  lemma NextChunkRead(csid: nat, body: seq<byte>, states: States, chunkSize: nat)
    requires 2 <= csid <= 63 && csid in states
    ensures ReadChunk([192 + csid] + body, states, chunkSize)
            == ReadPayload(csid, states[csid], body, states, chunkSize)
  {
    var s := [192 + csid] + body;
    assert ParseBasic(s) == Some(BasicHeader(3, csid, 1));
    assert s[1..] == body && s[1 + 0..] == body;
  }

  lemma PieceRead(m: Message, sent: nat, chunkSize: nat, tail: seq<byte>, states: States)
    requires sent < |m.payload| && chunkSize > 0
    ensures var end := Min(sent + chunkSize, |m.payload|);
            ReadPayload(m.csid, Progress(m, sent), m.payload[sent..end] + tail, states, chunkSize) ==
            if end == |m.payload| then Done(m, tail, states[m.csid := Progress(m, 0)])
            else More(tail, states[m.csid := Progress(m, end)])
  {
    var end := Min(sent + chunkSize, |m.payload|);
    var piece := m.payload[sent..end];
    assert (piece + tail)[..|piece|] == piece && (piece + tail)[|piece|..] == tail;
    assert m.payload[..sent] + piece == m.payload[..end];
    assert m.payload[..|m.payload|] == m.payload;
  }

  /** Reading one written chunk of a faithful message advances its stream by that chunk, and hands the
      message out at the last one. */
  lemma WrittenChunkRead(m: Message, sent: nat, chunkSize: nat, tail: seq<byte>, states: States)
    requires Writable(m) && Faithful(m) && sent < |m.payload| && chunkSize > 0
    requires sent > 0 ==> m.csid in states && states[m.csid] == Progress(m, sent)
    ensures var end := Min(sent + chunkSize, |m.payload|);
            ReadChunk(ChunkBytes(m, sent, chunkSize) + tail, states, chunkSize) ==
            if end == |m.payload| then Done(m, tail, states[m.csid := Progress(m, 0)])
            else More(tail, states[m.csid := Progress(m, end)])
  {
    hide ReadPayload, ReadChunk, Header;
    var body := m.payload[sent..Min(sent + chunkSize, |m.payload|)] + tail;
    if sent == 0 {
      assert ChunkBytes(m, sent, chunkSize) + tail == Header(m) + body;
      assert m.csid % 64 == m.csid && |m.payload| % U24 == |m.payload| && m.timestamp % U24 == m.timestamp;
      assert Progress(m, 0).data == [];
      FirstChunkRead(m, body, states, chunkSize);
    } else {
      assert ChunkBytes(m, sent, chunkSize) + tail == [192 + m.csid] + body;
      NextChunkRead(m.csid, body, states, chunkSize);
    }
    PieceRead(m, sent, chunkSize, tail, states);
  }

  /** The same at the level of messages: either the message comes out, or the reader goes on behind
      the chunk. */
  lemma WrittenChunkPassed(m: Message, sent: nat, chunkSize: nat, tail: seq<byte>, states: States)
    requires Writable(m) && Faithful(m) && sent < |m.payload| && chunkSize > 0
    requires sent > 0 ==> m.csid in states && states[m.csid] == Progress(m, sent)
    ensures var end := Min(sent + chunkSize, |m.payload|);
            ReadMessage(ChunkBytes(m, sent, chunkSize) + tail, states, chunkSize) ==
            if end == |m.payload| then MessageRead(Received(m), tail, states[m.csid := Progress(m, 0)])
            else ReadMessage(tail, states[m.csid := Progress(m, end)], chunkSize)
  {
    WrittenChunkRead(m, sent, chunkSize, tail, states);
  }

  lemma EncodeFromStep(m: Message, sent: nat, chunkSize: nat, tail: seq<byte>)
    requires Writable(m) && sent < |m.payload| && chunkSize > 0
    ensures EncodeFrom(m, sent, chunkSize) + tail ==
            ChunkBytes(m, sent, chunkSize) + (EncodeFrom(m, Min(sent + chunkSize, |m.payload|), chunkSize) + tail)
  {
  }

  lemma {:induction false} WrittenRestRead(m: Message, sent: nat, chunkSize: nat, tail: seq<byte>, states: States)
    requires Writable(m) && Faithful(m) && sent < |m.payload| && chunkSize > 0
    requires sent > 0 ==> m.csid in states && states[m.csid] == Progress(m, sent)
    ensures ReadMessage(EncodeFrom(m, sent, chunkSize) + tail, states, chunkSize) ==
            MessageRead(Received(m), tail, states[m.csid := Progress(m, 0)])
    decreases |m.payload| - sent
  {
    var end := Min(sent + chunkSize, |m.payload|);
    var rest := EncodeFrom(m, end, chunkSize) + tail;
    EncodeFromStep(m, sent, chunkSize, tail);
    if end == |m.payload| {
      assert rest == tail;
      WrittenChunkPassed(m, sent, chunkSize, tail, states);
    } else {
      var after := states[m.csid := Progress(m, end)];
      assert after[m.csid := Progress(m, 0)] == states[m.csid := Progress(m, 0)];
      WrittenRestRead(m, end, chunkSize, tail, after);
      WrittenChunkPassed(m, sent, chunkSize, rest, states);
    }
  }

  /** Round trip: a faithful message is read back whole, leaving the rest of the input untouched and
      its buffer empty, whatever the reader had buffered before. */
  lemma WrittenMessageRead(m: Message, chunkSize: nat, tail: seq<byte>, states: States)
    requires Writable(m) && Faithful(m) && m.payload != [] && chunkSize > 0
    ensures ReadMessage(Encode(m, chunkSize) + tail, states, chunkSize) ==
            MessageRead(Received(m), tail, states[m.csid := Progress(m, 0)])
  {
    WrittenRestRead(m, 0, chunkSize, tail, states);
  }
}
