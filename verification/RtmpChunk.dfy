/** The RTMP chunk stream: the reassembling reader (Adobe RTMP 1.0, sections 5.3.1.1, 5.3.1.2 and 5.4.1). */
module RtmpChunk {
  import opened Bytes
  import opened OptionValue

  const EXTENDED: nat := 0xFFFFFF
  const MSG_SET_CHUNK_SIZE: nat := 1
  const MSG_AMF0_COMMAND: nat := 20

  /** What the reader remembers of one chunk stream. */
  datatype ChunkState = ChunkState(
    msgType: nat, msgLength: nat, timestamp: nat, streamId: nat, data: seq<byte>)

  datatype Message = Message(
    csid: nat, msgType: nat, timestamp: nat, streamId: nat, payload: seq<byte>)

  type States = map<nat, ChunkState>

  const DEFAULT_STATE := ChunkState(0, 0, 0, 0, [])

  // ---------------------------------------------------------------- reader

  datatype BasicHeader = BasicHeader(fmt: nat, csid: nat, size: nat)

  /** Format and chunk stream id, or None when the stream ends inside them. */
  function ParseBasic(s: seq<byte>): (h: Option<BasicHeader>)
    requires s != []
    ensures h.Some? ==> 0 < h.value.size <= |s| && h.value.fmt <= 3 && 2 <= h.value.csid
  {
    var fmt, low := s[0] / 64, s[0] % 64;
    if low == 0 then
      if |s| < 2 then None else Some(BasicHeader(fmt, 64 + (s[1] as nat), 2))
    else if low == 1 then
      if |s| < 3 then None else Some(BasicHeader(fmt, 64 + (s[1] as nat) + (s[2] as nat) * 256, 3))
    else
      Some(BasicHeader(fmt, low, 1))
  }

  /** How many message header bytes a format carries before an extended timestamp. */
  function FixedSize(fmt: nat): nat {
    match fmt case 0 => 11 case 1 => 7 case 2 => 3 case _ => 0
  }

  /** The timestamp field at the front of a format 0, 1 or 2 header, with its total size. */
  function ParseTime(s: seq<byte>, fixed: nat): (r: Option<(nat, nat)>)
    requires 3 <= fixed <= |s|
    ensures r.Some? ==> fixed <= r.value.1 <= |s|
  {
    var short := FromBigEndian(s[..3]);
    if short != EXTENDED then Some((short, fixed))
    else if |s| < fixed + 4 then None
    else Some((FromBigEndian(s[fixed..fixed + 4]), fixed + 4))
  }

  /** The chunk stream's state after a message header, with the header's size; a header that starts a
      message discards what was buffered. None when the stream ends inside the header. */
  function ParseMessageHeader(fmt: nat, s: seq<byte>, st: ChunkState): (r: Option<(ChunkState, nat)>)
    ensures r.Some? ==> r.value.1 <= |s|
  {
    if fmt >= 3 then Some((st, 0))
    else if |s| < FixedSize(fmt) then None
    else
      match ParseTime(s, FixedSize(fmt))
      case None => None
      case Some((time, size)) =>
        Some((
          if fmt == 0 then
            ChunkState(s[6], FromBigEndian(s[3..6]), time, FromLittleEndian(s[7..11]), [])
          else if fmt == 1 then
            st.(timestamp := (st.timestamp + time) % U32, msgLength := FromBigEndian(s[3..6]), msgType := s[6],
                data := [])
          else
            st.(timestamp := (st.timestamp + time) % U32, data := []),
          size))
  }

  /** The outcome of reading one chunk. `Closed` is an end of stream at a chunk boundary, `Broken` one
      inside a chunk. */
  datatype ChunkRead =
    | Closed
    | Broken(states: States)
    | More(rest: seq<byte>, states: States)
    | Done(msg: Message, rest: seq<byte>, states: States)

  function Min(a: nat, b: nat): nat { if a < b then a else b }

  function ReadChunk(s: seq<byte>, states: States, chunkSize: nat): (r: ChunkRead)
    ensures r.More? || r.Done? ==> |r.rest| < |s|
  {
    if s == [] then Closed else
    match ParseBasic(s)
    case None => Broken(states)
    case Some(basic) =>
      var before := if basic.csid in states then states[basic.csid] else DEFAULT_STATE;
      match ParseMessageHeader(basic.fmt, s[basic.size..], before)
      case None => Broken(states[basic.csid := before])
      case Some((st, size)) => ReadPayload(basic.csid, st, s[basic.size + size..], states, chunkSize)
  }

  /** The payload part of a chunk, given the stream's state after the headers. */
  function ReadPayload(csid: nat, st: ChunkState, s: seq<byte>, states: States, chunkSize: nat): (r: ChunkRead)
    ensures r.More? || r.Done? ==> |r.rest| <= |s|
  {
    var needed := if st.msgLength > |st.data| then st.msgLength - |st.data| else 0;
    var n := Min(needed, chunkSize);
    if |s| < n then Broken(states[csid := st])
    else
      var data := st.data + s[..n];
      if |data| >= st.msgLength then
        Done(Message(csid, st.msgType, st.timestamp, st.streamId, data), s[n..], states[csid := st.(data := [])])
      else
        More(s[n..], states[csid := st.(data := data)])
  }

  datatype Outcome = EndOfStream | UnexpectedEof | Received(msg: Message)

  datatype MessageRead = MessageRead(outcome: Outcome, rest: seq<byte>, states: States)

  /** Reads chunks until one completes a message. */
  function ReadMessage(s: seq<byte>, states: States, chunkSize: nat): (r: MessageRead)
    ensures r.outcome.Received? ==> |r.rest| < |s|
    decreases |s|
  {
    match ReadChunk(s, states, chunkSize)
    case Closed => MessageRead(EndOfStream, [], states)
    case Broken(after) => MessageRead(UnexpectedEof, [], after)
    case More(rest, after) => ReadMessage(rest, after, chunkSize)
    case Done(msg, rest, after) => MessageRead(Received(msg), rest, after)
  }

  /** Reading a message starts with one chunk. */
  lemma ReadMessageUnfolds(s: seq<byte>, states: States, chunkSize: nat)
    ensures ReadMessage(s, states, chunkSize) ==
            match ReadChunk(s, states, chunkSize)
            case Closed => MessageRead(EndOfStream, [], states)
            case Broken(after) => MessageRead(UnexpectedEof, [], after)
            case More(rest, after) => ReadMessage(rest, after, chunkSize)
            case Done(msg, rest, after) => MessageRead(Received(msg), rest, after)
  {
  }

  /** The reading side of a connection: the unread input and the chunk streams, both updated in place. */
  class ChunkReader {
    var input: seq<byte>
    var chunkStates: States

    constructor (input: seq<byte>)
      ensures this.input == input && chunkStates == map[]
    {
      this.input, chunkStates := input, map[];
    }

    /** read_exact: all `n` bytes, or None with the input used up. */
    method ReadExact(n: nat) returns (bytes: Option<seq<byte>>)
      modifies this`input
      ensures bytes == if n <= |old(input)| then Some(old(input)[..n]) else None
      ensures input == if n <= |old(input)| then old(input)[n..] else []
    {
      if n <= |input| {
        bytes := Some(input[..n]);
        input := input[n..];
      } else {
        bytes := None;
        input := [];
      }
    }

    method ReadBasicHeader() returns (h: Option<BasicHeader>)
      requires input != []
      modifies this`input
      ensures h == ParseBasic(old(input))
      ensures input == if h.Some? then old(input)[h.value.size..] else []
    {
      var first := ReadExact(1);
      var fmt, csid := first.value[0] / 64, first.value[0] % 64;
      if csid == 0 {
        var b := ReadExact(1);
        if b.None? { return None; }
        return Some(BasicHeader(fmt, 64 + (b.value[0] as nat), 2));
      } else if csid == 1 {
        var b1 := ReadExact(1);
        if b1.None? { return None; }
        var b2 := ReadExact(1);
        if b2.None? { return None; }
        return Some(BasicHeader(fmt, 64 + (b1.value[0] as nat) + (b2.value[0] as nat) * 256, 3));
      }
      h := Some(BasicHeader(fmt, csid, 1));
    }

    /** Reads the fields of a message header in order and updates the chunk stream's entry. */
    method ReadMessageHeader(fmt: nat, csid: nat) returns (ok: bool)
      requires csid in chunkStates && fmt <= 3
      modifies this
      ensures var parsed := ParseMessageHeader(fmt, old(input), old(chunkStates)[csid]);
              && ok == parsed.Some?
              && (ok ==> && input == old(input)[parsed.value.1..]
                         && chunkStates == old(chunkStates)[csid := parsed.value.0])
              && (!ok ==> input == [] && chunkStates == old(chunkStates))
    {
      ghost var s := input;
      if fmt == 3 { return true; }
      var field := ReadExact(3);
      if field.None? { return false; }
      var time := FromBigEndian(field.value);
      var length, msgType, streamId := 0, 0, 0;
      if fmt < 2 {
        var lengthField := ReadExact(3);
        if lengthField.None? { return false; }
        length := FromBigEndian(lengthField.value);
        assert lengthField.value == s[3..6];
        var typeField := ReadExact(1);
        if typeField.None? { return false; }
        msgType := typeField.value[0];
        if fmt == 0 {
          var idField := ReadExact(4);
          if idField.None? { return false; }
          streamId := FromLittleEndian(idField.value);
          assert idField.value == s[7..11];
        }
      }
      assert input == s[FixedSize(fmt)..];
      if time == EXTENDED {
        var extended := ReadExact(4);
        if extended.None? { return false; }
        time := FromBigEndian(extended.value);
        assert extended.value == s[FixedSize(fmt)..FixedSize(fmt) + 4];
      }
      var st := chunkStates[csid];
      if fmt == 0 {
        st := ChunkState(msgType, length, time, streamId, []);
      } else {
        st := st.(timestamp := (st.timestamp + time) % U32, data := []);
        if fmt == 1 { st := st.(msgLength := length, msgType := msgType); }
      }
      chunkStates := chunkStates[csid := st];
      ok := true;
    }

    /** The payload part of one pass: appends to the buffer and, when the message is complete, takes it. */
    method ReadChunkPayload(csid: nat, chunkSize: nat) returns (outcome: Option<Outcome>)
      requires csid in chunkStates
      modifies this
      ensures AgreesWith(ReadPayload(csid, old(chunkStates)[csid], old(input), old(chunkStates), chunkSize), outcome)
    {
      ghost var states := chunkStates;
      var st := chunkStates[csid];
      var needed := if st.msgLength > |st.data| then st.msgLength - |st.data| else 0;
      var toRead := Min(needed, chunkSize);
      var bytes := ReadExact(toRead);
      if bytes.None? {
        assert states[csid := st] == states;
        return Some(UnexpectedEof);
      }
      var data := st.data + bytes.value;
      chunkStates := chunkStates[csid := st.(data := data)];
      if |data| >= st.msgLength {
        chunkStates := chunkStates[csid := st.(data := [])];
        assert chunkStates == states[csid := st.(data := [])];
        return Some(Received(Message(csid, st.msgType, st.timestamp, st.streamId, data)));
      }
      outcome := None;
    }

    /** The reader stands where `r` says, and `outcome` is what `r` returns, None meaning one more pass. */
    ghost predicate AgreesWith(r: ChunkRead, outcome: Option<Outcome>)
      reads this
    {
      match r
      case Closed => outcome == Some(EndOfStream) && input == []
      case Broken(after) => outcome == Some(UnexpectedEof) && input == [] && chunkStates == after
      case More(rest, after) => outcome == None && input == rest && chunkStates == after
      case Done(msg, rest, after) => outcome == Some(Received(msg)) && input == rest && chunkStates == after
    }

    /** One pass of the read loop: a whole chunk. */
    method ReadOneChunk(chunkSize: nat) returns (outcome: Option<Outcome>)
      modifies this
      ensures AgreesWith(ReadChunk(old(input), old(chunkStates), chunkSize), outcome)
      ensures old(input) == [] ==> chunkStates == old(chunkStates)
    {
      if input == [] { return Some(EndOfStream); }
      ghost var s, states := input, chunkStates;
      var basic := ReadBasicHeader();
      if basic.None? { return Some(UnexpectedEof); }
      var csid := basic.value.csid;
      if csid !in chunkStates { chunkStates := chunkStates[csid := DEFAULT_STATE]; }
      ghost var before := chunkStates[csid];
      assert chunkStates == states[csid := before];
      var ok := ReadMessageHeader(basic.value.fmt, csid);
      if !ok { return Some(UnexpectedEof); }
      ghost var header := ParseMessageHeader(basic.value.fmt, s[basic.value.size..], before).value;
      assert input == s[basic.value.size + header.1..];
      assert chunkStates == states[csid := header.0];
      ghost var here := chunkStates;
      PayloadIgnoresEntry(csid, header.0, input, states, chunkSize);
      outcome := ReadChunkPayload(csid, chunkSize);
    }

    /** read_rtmp_message: loops over chunks until a message is complete or the input ends. */
    method ReadRtmpMessage(chunkSize: nat) returns (outcome: Outcome)
      modifies this
      ensures MessageRead(outcome, input, chunkStates) == ReadMessage(old(input), old(chunkStates), chunkSize)
    {
      var done: Option<Outcome> := None;
      while done.None?
        invariant done.None? ==>
          ReadMessage(input, chunkStates, chunkSize) == ReadMessage(old(input), old(chunkStates), chunkSize)
        invariant done.Some? ==>
          MessageRead(done.value, input, chunkStates) == ReadMessage(old(input), old(chunkStates), chunkSize)
        decreases if done.None? then |input| + 1 else 0
      {
        done := ReadOneChunk(chunkSize);
      }
      outcome := done.value;
    }
  }

  /** The payload part overwrites the addressed entry, so it does not matter what was there. */
  lemma PayloadIgnoresEntry(csid: nat, st: ChunkState, s: seq<byte>, states: States, chunkSize: nat)
    ensures ReadPayload(csid, st, s, states[csid := st], chunkSize) == ReadPayload(csid, st, s, states, chunkSize)
  {
    var needed := if st.msgLength > |st.data| then st.msgLength - |st.data| else 0;
    var data := st.data + s[..Min(|s|, Min(needed, chunkSize))];
    assert states[csid := st][csid := st.(data := data)] == states[csid := st.(data := data)];
    assert states[csid := st][csid := st.(data := [])] == states[csid := st.(data := [])];
  }

  // ---------------------------------------------------------------- reader on arbitrary bytes

  /** Every chunk stream buffers nothing, or less than its announced 24-bit length. */
  ghost predicate Buffered(states: States) {
    forall csid :: csid in states ==>
      && states[csid].msgLength < U24
      && (states[csid].data == [] || |states[csid].data| < states[csid].msgLength)
  }

  lemma HeaderKeepsBuffered(fmt: nat, s: seq<byte>, st: ChunkState)
    requires st.msgLength < U24 && (st.data == [] || |st.data| < st.msgLength)
    requires ParseMessageHeader(fmt, s, st).Some?
    ensures var after := ParseMessageHeader(fmt, s, st).value.0;
            after.msgLength < U24 && (after.data == [] || |after.data| < after.msgLength)
  {
    Widths();
    if fmt < 2 { BigEndianBound(s[3..6]); }
  }

  lemma PayloadOnAnyBytes(csid: nat, st: ChunkState, s: seq<byte>, states: States, chunkSize: nat)
    requires Buffered(states) && st.msgLength < U24 && (st.data == [] || |st.data| < st.msgLength)
    ensures var r := ReadPayload(csid, st, s, states, chunkSize);
            && !r.Closed?
            && Buffered(r.states)
            && (r.More? || r.Done? ==> |r.rest| <= |s| && r.rest == s[|s| - |r.rest|..])
            && (r.Done? ==> r.msg.csid == csid && csid in r.states && |r.msg.payload| == r.states[csid].msgLength
                            && r.states[csid].data == [])
            && r.states - {csid} == states - {csid}
  {
    var r := ReadPayload(csid, st, s, states, chunkSize);
    StoreOne(states, csid, r.states[csid]);
    assert r.states == states[csid := r.states[csid]];
    hide Buffered;
  }

  lemma StoreOne(states: States, csid: nat, st: ChunkState)
    ensures states[csid := st] - {csid} == states - {csid}
    ensures Buffered(states) && st.msgLength < U24 && (st.data == [] || |st.data| < st.msgLength) ==>
              Buffered(states[csid := st])
  {
  }

  /** One chunk, whatever its bytes: the buffers stay in order, only the stream addressed by the basic header
      changes, a completed message is that stream's and has exactly its announced length, and at least one
      byte is used. A basic header that is cut off changes nothing. */
  lemma ReadChunkOnAnyBytes(s: seq<byte>, states: States, chunkSize: nat)
    requires Buffered(states) && s != []
    ensures var r := ReadChunk(s, states, chunkSize);
            && !r.Closed?
            && Buffered(r.states)
            && (r.More? || r.Done? ==> |r.rest| < |s| && r.rest == s[|s| - |r.rest|..])
            && match ParseBasic(s)
               case None => r == Broken(states)
               case Some(basic) =>
                 && 2 <= basic.csid && r.states - {basic.csid} == states - {basic.csid}
                 && (r.Done? ==> r.msg.csid == basic.csid && Taken(r.msg, r.states))
  {
    hide ReadPayload, ParseMessageHeader;
    if ParseBasic(s).Some? {
      var basic := ParseBasic(s).value;
      var before := if basic.csid in states then states[basic.csid] else DEFAULT_STATE;
      var header := ParseMessageHeader(basic.fmt, s[basic.size..], before);
      if header.Some? {
        HeaderKeepsBuffered(basic.fmt, s[basic.size..], before);
        PayloadOnAnyBytes(basic.csid, header.value.0, s[basic.size + header.value.1..], states, chunkSize);
      }
    }
  }

  /** The message has its stream's announced length, and the stream's buffer has been emptied. */
  predicate Taken(m: Message, states: States) {
    m.csid in states && |m.payload| == states[m.csid].msgLength && states[m.csid].data == []
  }

  /** The chunk streams that the chunks of one message read address, in order. */
  function Addressed(s: seq<byte>, states: States, chunkSize: nat): (csids: seq<nat>)
    decreases |s|
  {
    if s == [] || ParseBasic(s).None? then []
    else
      var r := ReadChunk(s, states, chunkSize);
      [ParseBasic(s).value.csid] + if r.More? then Addressed(r.rest, r.states, chunkSize) else []
  }

  /** Reading a message from any bytes ends, keeps the buffers in order, changes only the streams its chunks
      address, and hands out only a payload of exactly the announced length, on the stream the last of those
      chunks addressed. */
  lemma {:induction false} ReadMessageOnAnyBytes(s: seq<byte>, states: States, chunkSize: nat)
    requires Buffered(states)
    ensures var r, csids := ReadMessage(s, states, chunkSize), Addressed(s, states, chunkSize);
            && Buffered(r.states)
            && (forall csid :: csid !in csids ==> SameEntry(r.states, states, csid))
            && (r.outcome.Received? ==>
                 var m := r.outcome.msg;
                 && |r.rest| < |s| && r.rest == s[|s| - |r.rest|..]
                 && csids != [] && m.csid == csids[|csids| - 1] && 2 <= m.csid
                 && Taken(m, r.states) && |m.payload| < U24)
    decreases |s|
  {
    hide ReadChunk, ReadMessage, ParseBasic;
    ReadMessageUnfolds(s, states, chunkSize);
    if s != [] {
      ReadChunkOnAnyBytes(s, states, chunkSize);
      ChangesOne(s, states, chunkSize);
      var r := ReadChunk(s, states, chunkSize);
      if r.More? {
        ReadMessageOnAnyBytes(r.rest, r.states, chunkSize);
        var csids, later := Addressed(s, states, chunkSize), Addressed(r.rest, r.states, chunkSize);
        assert csids[0] == ParseBasic(s).value.csid && csids[1..] == later;
        forall csid | csid !in csids
          ensures SameEntry(ReadMessage(s, states, chunkSize).states, states, csid)
        {
          assert csid != csids[0];
          assert csid !in later by { NotBehind(csids, csid); }
          assert SameEntry(r.states, states, csid);
          assert SameEntry(ReadMessage(r.rest, r.states, chunkSize).states, r.states, csid);
        }
      }
    } else {
      NothingToRead(states, chunkSize);
    }
  }

  lemma NotBehind(csids: seq<nat>, csid: nat)
    requires csids != [] && csid !in csids
    ensures csid != csids[0] && csid !in csids[1..]
  {
  }

  /** The chunk stream is as it was. */
  predicate SameEntry(after: States, before: States, csid: nat) {
    (csid in after <==> csid in before) && (csid in after ==> after[csid] == before[csid])
  }

  lemma ChangesOne(s: seq<byte>, states: States, chunkSize: nat)
    requires Buffered(states) && s != []
    ensures forall csid :: (ParseBasic(s).Some? ==> csid != ParseBasic(s).value.csid) ==>
              SameEntry(ReadChunk(s, states, chunkSize).states, states, csid)
  {
    ReadChunkOnAnyBytes(s, states, chunkSize);
    hide ReadChunk, ParseBasic;
    var after := ReadChunk(s, states, chunkSize).states;
    if ParseBasic(s).Some? {
      OneApart(after, states, ParseBasic(s).value.csid);
    }
  }

  lemma OneApart(after: States, before: States, addressed: nat)
    requires after - {addressed} == before - {addressed}
    ensures forall csid :: csid != addressed ==> SameEntry(after, before, csid)
  {
    forall csid | csid != addressed
      ensures SameEntry(after, before, csid)
    {
      assert csid in after <==> csid in after - {addressed};
      assert csid in before <==> csid in before - {addressed};
      if csid in after {
        assert after[csid] == (after - {addressed})[csid] && before[csid] == (before - {addressed})[csid];
      }
    }
  }

  lemma NothingToRead(states: States, chunkSize: nat)
    ensures ReadChunk([], states, chunkSize) == Closed
  {
  }
}
