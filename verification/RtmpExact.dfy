/** Exactly which messages survive a write followed by a read. */
module RtmpExact {
  import opened Bytes
  import opened OptionValue
  import opened RtmpChunk
  import opened RtmpWriter

  function Minus(a: nat, b: nat): nat { if a > b then a - b else 0 }

  function BufferedOn(states: States, csid: nat): nat {
    if csid in states then |states[csid].data| else 0
  }

  /** The bytes of both headers at the front of `s`. */
  function HeaderSize(s: seq<byte>, states: States): (n: nat)
    requires s != []
    ensures n >= 1
  {
    match ParseBasic(s)
    case None => 1
    case Some(basic) =>
      var before := if basic.csid in states then states[basic.csid] else DEFAULT_STATE;
      match ParseMessageHeader(basic.fmt, s[basic.size..], before)
      case None => 1
      case Some((_, size)) => basic.size + size
  }

  lemma CeilDivMonotone(a: nat, b: nat, d: nat)
    requires d > 0 && a <= b
    ensures CeilDiv(a, d) <= CeilDiv(b, d)
    decreases b
  {
    if b > 0 {
      CeilDivStep(b, d);
      if a > 0 {
        CeilDivStep(a, d);
        CeilDivMonotone(a - Min(a, d), b - Min(b, d), d);
      } else {
        CeilDivSmall(0, d);
      }
    }
  }

  /** What one chunk does to the buffers, and what it costs. */
  lemma ChunkCost(s: seq<byte>, states: States, chunkSize: nat)
    requires Buffered(states) && chunkSize > 0 && s != []
    ensures var r := ReadChunk(s, states, chunkSize);
            && (r.Done? ==>
                 var used := |s| - |r.rest|;
                 var left := Minus(|r.msg.payload|, BufferedOn(states, r.msg.csid));
                 left <= chunkSize && HeaderSize(s, states) + left <= used)
            && (r.More? ==>
                 var used := |s| - |r.rest|;
                 && HeaderSize(s, states) + chunkSize <= used
                 && forall csid :: BufferedOn(r.states, csid) <= BufferedOn(states, csid) + chunkSize)
  {
    if ParseBasic(s).Some? {
      var basic := ParseBasic(s).value;
      var before := if basic.csid in states then states[basic.csid] else DEFAULT_STATE;
      var header := ParseMessageHeader(basic.fmt, s[basic.size..], before);
      if header.Some? {
        HeaderKeepsBuffered(basic.fmt, s[basic.size..], before);
        assert |header.value.0.data| <= |before.data|;
      }
    }
  }

  /** No way of chunking is cheaper than the writer's: whatever the bytes, a message costs its missing
      payload bytes, a header byte for every chunk they need, and the rest of the first header. */
  lemma {:induction false} MessageCost(s: seq<byte>, states: States, chunkSize: nat)
    requires Buffered(states) && chunkSize > 0 && s != []
    requires ReadMessage(s, states, chunkSize).outcome.Received?
    ensures var r := ReadMessage(s, states, chunkSize);
            var left := Minus(|r.outcome.msg.payload|, BufferedOn(states, r.outcome.msg.csid));
            HeaderSize(s, states) - 1 + left + CeilDiv(left, chunkSize) <= |s| - |r.rest|
    decreases |s|
  {
    hide ReadChunk, ReadMessage, HeaderSize, CeilDiv, BufferedOn, Minus;
    ReadMessageUnfolds(s, states, chunkSize);
    ReadChunkOnAnyBytes(s, states, chunkSize);
    ChunkCost(s, states, chunkSize);
    var first := ReadChunk(s, states, chunkSize);
    var r := ReadMessage(s, states, chunkSize);
    var msg := r.outcome.msg;
    var left := Minus(|msg.payload|, BufferedOn(states, msg.csid));
    if first.Done? {
      CeilDivSmall(left, chunkSize);
    } else {
      NothingToRead(first.states, chunkSize);
      ReadMessageUnfolds(first.rest, first.states, chunkSize);
      MessageCost(first.rest, first.states, chunkSize);
      var later := Minus(|msg.payload|, BufferedOn(first.states, msg.csid));
      LeftShrinks(|msg.payload|, BufferedOn(states, msg.csid), BufferedOn(first.states, msg.csid), chunkSize);
      CeilDivMonotone(left, later + chunkSize, chunkSize);
      CeilDivStep(later + chunkSize, chunkSize);
    }
  }

  lemma LeftShrinks(n: nat, before: nat, after: nat, chunkSize: nat)
    requires after <= before + chunkSize
    ensures Minus(n, before) <= Minus(n, after) + chunkSize
  {
  }

  /** The message as its header fields come out of the wire. */
  function OnTheWire(m: Message): Message {
    m.(csid := m.csid % 64, timestamp := m.timestamp % U24)
  }

  lemma {:induction false} SameEncoding(m: Message, sent: nat, chunkSize: nat)
    requires Writable(m) && sent <= |m.payload| && chunkSize > 0
    ensures Writable(OnTheWire(m))
    ensures EncodeFrom(OnTheWire(m), sent, chunkSize) == EncodeFrom(m, sent, chunkSize)
    decreases |m.payload| - sent
  {
    Widths();
    BigEndianModulo(m.timestamp, 3);
    assert Header(OnTheWire(m)) == Header(m);
    if sent < |m.payload| {
      SameEncoding(m, Min(sent + chunkSize, |m.payload|), chunkSize);
    }
  }

  lemma SameEncodedMessage(m: Message, chunkSize: nat)
    requires Writable(m) && chunkSize > 0
    ensures Writable(OnTheWire(m)) && Encode(OnTheWire(m), chunkSize) == Encode(m, chunkSize)
  {
    SameEncoding(m, 0, chunkSize);
  }

  /** A first chunk whose csid or timestamp field reads as an escape has a longer header than the
      writer gave it. */
  lemma EscapedHeaderSize(m: Message, body: seq<byte>, chunkSize: nat)
    requires Writable(m) && (m.csid % 64 < 2 || m.timestamp % U24 == EXTENDED)
    ensures HeaderSize(Header(m) + body, map[]) > 12 || ReadChunk(Header(m) + body, map[], chunkSize).Broken?
  {
    var s := Header(m) + body;
    HeaderDecodes(m, body);
    if m.csid % 64 >= 2 {
      assert s[1..][..3] == s[1..4];
    }
  }

  lemma BrokenIsNoMessage(s: seq<byte>, states: States, chunkSize: nat)
    requires ReadChunk(s, states, chunkSize).Broken?
    ensures ReadMessage(s, states, chunkSize).outcome == UnexpectedEof
  {
  }

  lemma EncodeStartsWithHeader(m: Message, chunkSize: nat) returns (body: seq<byte>)
    requires Writable(m) && m.payload != [] && chunkSize > 0
    ensures Encode(m, chunkSize) == Header(m) + body
  {
    var end := Min(chunkSize, |m.payload|);
    body := m.payload[..end] + EncodeFrom(m, end, chunkSize);
    EncodeFromUnfolds(m, 0, chunkSize);
  }

  /** An escaped header leaves too few bytes for the payload. */
  lemma EscapedNeverRead(m: Message, chunkSize: nat)
    requires Writable(m) && m.payload != [] && chunkSize > 0
    requires m.csid % 64 < 2 || m.timestamp % U24 == EXTENDED
    ensures ReadMessage(Encode(m, chunkSize), map[], chunkSize).outcome != Received(m)
  {
    hide ReadMessage, ReadChunk, HeaderSize, CeilDiv, Encode, Header;
    var s := Encode(m, chunkSize);
    var body := EncodeStartsWithHeader(m, chunkSize);
    EscapedHeaderSize(m, body, chunkSize);
    EncodedLength(m, chunkSize);
    if ReadChunk(s, map[], chunkSize).Broken? {
      BrokenIsNoMessage(s, map[], chunkSize);
    } else if ReadMessage(s, map[], chunkSize).outcome == Received(m) {
      MessageCost(s, map[], chunkSize);
    }
  }

  /** A received message has an addressable csid and a payload whose length fits 24 bits. */
  lemma ReceivedFitsHeader(s: seq<byte>, chunkSize: nat)
    ensures var outcome := ReadMessage(s, map[], chunkSize).outcome;
            outcome.Received? ==> 2 <= outcome.msg.csid && |outcome.msg.payload| < U24
  {
    hide ReadMessage, Addressed;
    ReadMessageOnAnyBytes(s, map[], chunkSize);
  }

  lemma OnTheWireIs(m: Message)
    requires Writable(m) && 2 <= m.csid && |m.payload| < U24
    requires !(m.csid % 64 < 2 || m.timestamp % U24 == EXTENDED)
    ensures OnTheWire(m) == m <==> Faithful(m)
    ensures Writable(OnTheWire(m)) && Faithful(OnTheWire(m)) && OnTheWire(m).payload == m.payload
  {
  }

  /** Round trip, exactly: a fresh reader gets back the very message that was written if and only if
      its csid is in 2..63, its timestamp is below 0xFFFFFF and its length fits 24 bits. */
  lemma RoundTripIffFaithful(m: Message, chunkSize: nat)
    requires Writable(m) && m.payload != [] && chunkSize > 0
    ensures ReadMessage(Encode(m, chunkSize), map[], chunkSize).outcome == Received(m) <==> Faithful(m)
  {
    hide ReadMessage, Encode, EncodeFrom, OnTheWire;
    var s := Encode(m, chunkSize);
    ReceivedFitsHeader(s, chunkSize);
    if |m.payload| < U24 && 2 <= m.csid {
      if m.csid % 64 < 2 || m.timestamp % U24 == EXTENDED {
        EscapedNeverRead(m, chunkSize);
      } else {
        OnTheWireIs(m);
        SameEncodedMessage(m, chunkSize);
        WrittenMessageRead(OnTheWire(m), chunkSize, [], map[]);
        assert s + [] == s;
      }
    }
  }
}
