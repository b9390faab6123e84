/** What the reader makes of all four header formats: messages whose headers give a whole time, or a delta with
    a new length and type, or a delta alone, in any of the three forms of a basic header and with extended
    timestamps. The encoder is written from the format, not from the reader. */
module RtmpDelta {
  import opened Bytes
  import opened OptionValue
  import opened Seqs
  import opened RtmpChunk
  import opened RtmpSession

  /** Formats 0, 1 and 2. */
  datatype Head =
    | Absolute(time: nat, msgType: nat, streamId: nat)
    | Changed(time: nat, msgType: nat)
    | Repeated(time: nat)

  /** A message on chunk stream `csid`, whose basic headers have `form` bytes. */
  datatype Item = Item(csid: nat, form: nat, head: Head, payload: seq<byte>)

  predicate Addressable(csid: nat, form: nat) {
    || (form == 1 && 2 <= csid <= 63)
    || (form == 2 && 64 <= csid <= 319)
    || (form == 3 && 64 <= csid <= 65599)
  }

  predicate Encodable(i: Item) {
    && Addressable(i.csid, i.form) && |i.payload| < U24 && i.head.time < U32
    && (i.head.Repeated? || i.head.msgType < 256)
    && (i.head.Absolute? ==> i.head.streamId < U32)
  }

  function Fmt(head: Head): nat {
    match head case Absolute(_, _, _) => 0 case Changed(_, _) => 1 case Repeated(_) => 2
  }

  /** The basic header in one, two or three bytes. */
  function BasicBytes(fmt: nat, csid: nat, form: nat): seq<byte>
    requires fmt < 4 && Addressable(csid, form)
  {
    if form == 1 then [64 * fmt + csid]
    else if form == 2 then [64 * fmt, csid - 64]
    else [64 * fmt + 1, (csid - 64) % 256, (csid - 64) / 256]
  }

  /** The 24-bit time field, and the 32-bit one behind the header when that does not suffice. */
  function TimeField(time: nat): seq<byte> {
    if time < EXTENDED then Big3(time) else [255, 255, 255]
  }

  function Extension(time: nat): seq<byte> {
    if time < EXTENDED then [] else Big4(time)
  }

  function HeadBytes(head: Head, n: nat): seq<byte>
    requires head.Repeated? || head.msgType < 256
  {
    match head
    case Absolute(time, msgType, streamId) =>
      TimeField(time) + Big3(n) + [msgType] + Little4(streamId) + Extension(time)
    case Changed(time, msgType) => TimeField(time) + Big3(n) + [msgType] + Extension(time)
    case Repeated(time) => TimeField(time) + Extension(time)
  }

  /** The payload from `sent` on, in chunks behind format 3 headers. */
  function Pieces(i: Item, sent: nat, chunkSize: nat): seq<byte>
    requires Encodable(i) && sent <= |i.payload| && chunkSize > 0
    decreases |i.payload| - sent
  {
    if sent == |i.payload| then []
    else
      var end := Min(sent + chunkSize, |i.payload|);
      BasicBytes(3, i.csid, i.form) + (i.payload[sent..end] + Pieces(i, end, chunkSize))
  }

  function ItemBytes(i: Item, chunkSize: nat): seq<byte>
    requires Encodable(i) && chunkSize > 0
  {
    var end := Min(chunkSize, |i.payload|);
    BasicBytes(Fmt(i.head), i.csid, i.form)
    + (HeadBytes(i.head, |i.payload|) + (i.payload[..end] + Pieces(i, end, chunkSize)))
  }

  // ---------------------------------------------------------------- what a run of items should be read as

  /** The time of the last message on the stream: what its last whole time was, plus all deltas since. */
  function TimeOn(items: seq<Item>, csid: nat): nat {
    if items == [] then 0
    else
      var before, i := items[..|items| - 1], items[|items| - 1];
      if i.csid != csid then TimeOn(before, csid)
      else if i.head.Absolute? then i.head.time
      else TimeOn(before, csid) + i.head.time
  }

  /** The type and length last announced on the stream, and the stream id last given. */
  function TypeOn(items: seq<Item>, csid: nat): nat {
    if items == [] then 0
    else
      var i := items[|items| - 1];
      if i.csid == csid && !i.head.Repeated? then i.head.msgType else TypeOn(items[..|items| - 1], csid)
  }

  function LengthOn(items: seq<Item>, csid: nat): nat {
    if items == [] then 0
    else
      var i := items[|items| - 1];
      if i.csid == csid && !i.head.Repeated? then |i.payload| else LengthOn(items[..|items| - 1], csid)
  }

  function StreamOn(items: seq<Item>, csid: nat): nat {
    if items == [] then 0
    else
      var i := items[|items| - 1];
      if i.csid == csid && i.head.Absolute? then i.head.streamId else StreamOn(items[..|items| - 1], csid)
  }

  /** The message an item is read as, behind the items before it. */
  function MessageOf(before: seq<Item>, i: Item): Message {
    var all := before + [i];
    Message(i.csid, TypeOn(all, i.csid), TimeOn(all, i.csid) % U32, StreamOn(all, i.csid), i.payload)
  }

  function Messages(before: seq<Item>, items: seq<Item>): seq<Message>
    decreases |items|
  {
    if items == [] then [] else [MessageOf(before, items[0])] + Messages(before + [items[0]], items[1..])
  }

  /** A message that repeats the announced length has that length. None changes the chunk size. */
  predicate Sound(before: seq<Item>, items: seq<Item>)
    decreases |items|
  {
    items == [] || (
      && Encodable(items[0])
      && (items[0].head.Repeated? ==> |items[0].payload| == LengthOn(before, items[0].csid))
      && MessageOf(before, items[0]).msgType != MSG_SET_CHUNK_SIZE
      && Sound(before + [items[0]], items[1..]))
  }

  function RunBytes(before: seq<Item>, items: seq<Item>, chunkSize: nat): seq<byte>
    requires Sound(before, items) && chunkSize > 0
    decreases |items|
  {
    if items == [] then []
    else ItemBytes(items[0], chunkSize) + RunBytes(before + [items[0]], items[1..], chunkSize)
  }

  // ---------------------------------------------------------------- headers

  lemma BasicRead(fmt: nat, csid: nat, form: nat, tail: seq<byte>)
    requires fmt < 4 && Addressable(csid, form)
    ensures var b := BasicBytes(fmt, csid, form);
            && |b| == form && b + tail != [] && (b + tail)[form..] == tail
            && ParseBasic(b + tail) == Some(BasicHeader(fmt, csid, form))
  {
    var b := BasicBytes(fmt, csid, form);
    assert (b + tail)[..form] == b;
    ModUnique(b[0], 64, fmt, b[0] - 64 * fmt);
    if form == 3 {
      assert csid - 64 == (csid - 64) % 256 + (csid - 64) / 256 * 256;
    }
  }

  lemma TimeRead(time: nat, middle: seq<byte>, tail: seq<byte>)
    requires time < U32
    ensures var s := TimeField(time) + middle + Extension(time) + tail;
            ParseTime(s, 3 + |middle|) == Some((time, 3 + |middle| + |Extension(time)|))
  {
    var field, ext := TimeField(time), Extension(time);
    var s := field + middle + ext + tail;
    WrittenOutRead(time);
    WrittenOutRead(EXTENDED);
    hide FromBigEndian;
    assert s[..3] == field;
    if time < EXTENDED {
      SmallModulo(time, U24);
    } else {
      assert Big3(EXTENDED) == [255, 255, 255];
      SmallModulo(EXTENDED, U24);
      SmallModulo(time, U32);
      assert s[3 + |middle|..3 + |middle| + 4] == ext;
    }
  }

  /** The stream's state after a header with `n` announced. */
  function Became(st: ChunkState, head: Head, n: nat): ChunkState {
    match head
    case Absolute(time, msgType, streamId) => ChunkState(msgType, n, time, streamId, [])
    case Changed(time, msgType) => ChunkState(msgType, n, (st.timestamp + time) % U32, st.streamId, [])
    case Repeated(time) => ChunkState(st.msgType, st.msgLength, (st.timestamp + time) % U32, st.streamId, [])
  }

  /** The bytes between the time field and its extension. */
  function Middle(head: Head, n: nat): seq<byte>
    requires head.Repeated? || head.msgType < 256
  {
    match head
    case Absolute(_, msgType, streamId) => Big3(n) + [msgType] + Little4(streamId)
    case Changed(_, msgType) => Big3(n) + [msgType]
    case Repeated(_) => []
  }

  lemma HeadParts(head: Head, n: nat, tail: seq<byte>)
    requires head.Repeated? || head.msgType < 256
    ensures HeadBytes(head, n) == TimeField(head.time) + Middle(head, n) + Extension(head.time)
    ensures |Middle(head, n)| + 3 == FixedSize(Fmt(head)) && |TimeField(head.time)| == 3
    ensures |HeadBytes(head, n)| == FixedSize(Fmt(head)) + |Extension(head.time)|
  {
    hide TimeField, Extension;
    assert |TimeField(head.time)| == 3 by { TimeFieldSize(head.time); }
    if head.Absolute? {
      Assoc(TimeField(head.time), Big3(n), [head.msgType]);
      Assoc(TimeField(head.time), Big3(n) + [head.msgType], Little4(head.streamId));
    } else if head.Changed? {
      Assoc(TimeField(head.time), Big3(n), [head.msgType]);
    } else {
      Empty(TimeField(head.time));
    }
  }

  lemma TimeFieldSize(time: nat)
    ensures |TimeField(time)| == 3
  {
  }

  /** The fields behind the time field are read back. */
  lemma MiddleRead(head: Head, n: nat, tail: seq<byte>)
    requires n < U24 && !head.Repeated? && head.msgType < 256 && (head.Absolute? ==> head.streamId < U32)
    ensures var s := TimeField(head.time) + Middle(head, n) + tail;
            && |s| >= FixedSize(Fmt(head)) && FromBigEndian(s[3..6]) == n && s[6] == head.msgType
            && (head.Absolute? ==> FromLittleEndian(s[7..11]) == head.streamId)
  {
    TimeFieldSize(head.time);
    WrittenOutRead(n);
    SmallModulo(n, U24);
    var s := TimeField(head.time) + Middle(head, n) + tail;
    hide TimeField, FromBigEndian, FromLittleEndian;
    assert s[3..6] == Big3(n);
    if head.Absolute? {
      WrittenOutRead(head.streamId);
      SmallModulo(head.streamId, U32);
      assert s[7..11] == Little4(head.streamId);
    }
  }

  lemma HeadRead(head: Head, n: nat, st: ChunkState, tail: seq<byte>)
    requires n < U24 && head.time < U32 && (head.Repeated? || head.msgType < 256)
    requires head.Absolute? ==> head.streamId < U32
    ensures var b := HeadBytes(head, n);
            && ParseMessageHeader(Fmt(head), b + tail, st) == Some((Became(st, head, n), |b|))
            && (b + tail)[|b|..] == tail
  {
    var b, field, middle, ext := HeadBytes(head, n), TimeField(head.time), Middle(head, n), Extension(head.time);
    HeadParts(head, n, tail);
    TimeRead(head.time, middle, tail);
    if !head.Repeated? { MiddleRead(head, n, ext + tail); }
    Front(b, tail);
    hide HeadBytes, TimeField, Middle, Extension, ParseTime, FromBigEndian, FromLittleEndian;
    Assoc(field + middle, ext, tail);
  }

  // ---------------------------------------------------------------- payloads

  /** One piece of a payload: the next bytes up to `end` are appended, and the last piece hands it out. */
  lemma PieceRead(
    csid: nat, st: ChunkState, payload: seq<byte>, sent: nat, tail: seq<byte>, states: States, chunkSize: nat)
    requires chunkSize > 0 && sent <= |payload| == st.msgLength && st.data == payload[..sent]
    ensures var end := Min(sent + chunkSize, |payload|);
            ReadPayload(csid, st, payload[sent..end] + tail, states, chunkSize) ==
              if end == |payload|
              then Done(Message(csid, st.msgType, st.timestamp, st.streamId, payload), tail,
                        states[csid := st.(data := [])])
              else More(tail, states[csid := st.(data := payload[..end])])
  {
    var end := Min(sent + chunkSize, |payload|);
    Front(payload[sent..end], tail);
    assert payload[..sent] + payload[sent..end] == payload[..end];
    if end == |payload| { assert payload[..end] == payload; }
  }

  /** A continuation chunk leaves its stream's header fields alone. */
  lemma ContinuationRead(csid: nat, form: nat, s: seq<byte>, states: States, chunkSize: nat)
    requires Addressable(csid, form) && csid in states
    ensures ReadChunk(BasicBytes(3, csid, form) + s, states, chunkSize) ==
              ReadPayload(csid, states[csid], s, states, chunkSize)
  {
    BasicRead(3, csid, form, s);
    hide ParseBasic, BasicBytes, ReadPayload;
    assert s[0..] == s;
    var b := BasicBytes(3, csid, form);
    assert (b + s)[form + 0..] == s;
  }

  lemma PiecesStep(i: Item, sent: nat, tail: seq<byte>, chunkSize: nat)
    requires Encodable(i) && chunkSize > 0 && sent < |i.payload|
    ensures var end := Min(sent + chunkSize, |i.payload|);
            Pieces(i, sent, chunkSize) + tail ==
              BasicBytes(3, i.csid, i.form) + (i.payload[sent..end] + (Pieces(i, end, chunkSize) + tail))
  {
    hide BasicBytes;
    var end := Min(sent + chunkSize, |i.payload|);
    var piece, more := i.payload[sent..end], Pieces(i, end, chunkSize);
    Assoc(BasicBytes(3, i.csid, i.form), piece + more, tail);
    Assoc(piece, more, tail);
  }

  lemma NoPieces(i: Item, tail: seq<byte>, chunkSize: nat)
    requires Encodable(i) && chunkSize > 0
    ensures Pieces(i, |i.payload|, chunkSize) + tail == tail
  {
    Empty(tail);
  }

  lemma DoneIsReceived(s: seq<byte>, states: States, chunkSize: nat, m: Message, rest: seq<byte>, after: States)
    requires ReadChunk(s, states, chunkSize) == Done(m, rest, after)
    ensures ReadMessage(s, states, chunkSize) == MessageRead(Received(m), rest, after)
  {
    hide ReadChunk;
  }

  lemma MoreGoesOn(s: seq<byte>, states: States, chunkSize: nat, rest: seq<byte>, after: States)
    requires ReadChunk(s, states, chunkSize) == More(rest, after)
    ensures ReadMessage(s, states, chunkSize) == ReadMessage(rest, after, chunkSize)
  {
    hide ReadChunk;
  }

  /** One continuation chunk of an item. */
  lemma NextPieceRead(i: Item, sent: nat, tail: seq<byte>, states: States, chunkSize: nat)
    requires Encodable(i) && chunkSize > 0 && sent < |i.payload| && i.csid in states
    requires states[i.csid].msgLength == |i.payload| && states[i.csid].data == i.payload[..sent]
    ensures var st, end := states[i.csid], Min(sent + chunkSize, |i.payload|);
            ReadChunk(Pieces(i, sent, chunkSize) + tail, states, chunkSize) ==
              if end == |i.payload|
              then Done(Message(i.csid, st.msgType, st.timestamp, st.streamId, i.payload), tail,
                        states[i.csid := st.(data := [])])
              else More(Pieces(i, end, chunkSize) + tail, states[i.csid := st.(data := i.payload[..end])])
  {
    var end := Min(sent + chunkSize, |i.payload|);
    var more := Pieces(i, end, chunkSize) + tail;
    PiecesStep(i, sent, tail, chunkSize);
    NoPieces(i, tail, chunkSize);
    ContinuationRead(i.csid, i.form, i.payload[sent..end] + more, states, chunkSize);
    PieceRead(i.csid, states[i.csid], i.payload, sent, more, states, chunkSize);
    hide ReadChunk, ReadPayload, BasicBytes, Pieces;
  }

  lemma {:induction false} RestRead(
    i: Item, sent: nat, tail: seq<byte>, states: States, chunkSize: nat)
    requires Encodable(i) && chunkSize > 0 && sent < |i.payload| && i.csid in states
    requires states[i.csid].msgLength == |i.payload| && states[i.csid].data == i.payload[..sent]
    ensures var st := states[i.csid];
            ReadMessage(Pieces(i, sent, chunkSize) + tail, states, chunkSize) ==
              MessageRead(Received(Message(i.csid, st.msgType, st.timestamp, st.streamId, i.payload)), tail,
                          states[i.csid := st.(data := [])])
    decreases |i.payload| - sent
  {
    hide ReadMessage, ReadChunk, Pieces;
    var st, end := states[i.csid], Min(sent + chunkSize, |i.payload|);
    NextPieceRead(i, sent, tail, states, chunkSize);
    var s := Pieces(i, sent, chunkSize) + tail;
    if end < |i.payload| {
      var states' := states[i.csid := st.(data := i.payload[..end])];
      MoreGoesOn(s, states, chunkSize, Pieces(i, end, chunkSize) + tail, states');
      RestRead(i, end, tail, states', chunkSize);
      assert states'[i.csid := st.(data := [])] == states[i.csid := st.(data := [])];
    } else {
      var m := Message(i.csid, st.msgType, st.timestamp, st.streamId, i.payload);
      DoneIsReceived(s, states, chunkSize, m, tail, states[i.csid := st.(data := [])]);
    }
  }

  function StateAt(states: States, csid: nat): ChunkState {
    if csid in states then states[csid] else DEFAULT_STATE
  }

  lemma HeaderChunkRead(i: Item, s: seq<byte>, states: States, chunkSize: nat)
    requires Encodable(i)
    ensures ReadChunk(BasicBytes(Fmt(i.head), i.csid, i.form) + (HeadBytes(i.head, |i.payload|) + s), states, chunkSize)
            == ReadPayload(i.csid, Became(StateAt(states, i.csid), i.head, |i.payload|), s, states, chunkSize)
  {
    var basic, head := BasicBytes(Fmt(i.head), i.csid, i.form), HeadBytes(i.head, |i.payload|);
    var all := basic + (head + s);
    BasicRead(Fmt(i.head), i.csid, i.form, head + s);
    HeadRead(i.head, |i.payload|, StateAt(states, i.csid), s);
    Assoc(basic, head, s);
    Front(basic + head, s);
    assert |basic + head| == i.form + |head|;
    hide ParseBasic, ParseMessageHeader, BasicBytes, HeadBytes, ReadPayload, Became, Encodable, Addressable;
    assert all[i.form..] == head + s && all[i.form + |head|..] == s;
  }

  lemma ItemStep(i: Item, tail: seq<byte>, chunkSize: nat)
    requires Encodable(i) && chunkSize > 0
    ensures var end := Min(chunkSize, |i.payload|);
            ItemBytes(i, chunkSize) + tail ==
              BasicBytes(Fmt(i.head), i.csid, i.form)
              + (HeadBytes(i.head, |i.payload|) + (i.payload[..end] + (Pieces(i, end, chunkSize) + tail)))
  {
    hide BasicBytes, HeadBytes, Pieces;
    var basic, head := BasicBytes(Fmt(i.head), i.csid, i.form), HeadBytes(i.head, |i.payload|);
    var end := Min(chunkSize, |i.payload|);
    var piece, more := i.payload[..end], Pieces(i, end, chunkSize);
    Assoc(basic, head + (piece + more), tail);
    Assoc(head, piece + more, tail);
    Assoc(piece, more, tail);
  }

  /** The first chunk of an item. */
  lemma FirstPieceRead(i: Item, tail: seq<byte>, states: States, chunkSize: nat)
    requires Encodable(i) && chunkSize > 0
    requires i.head.Repeated? ==> |i.payload| == StateAt(states, i.csid).msgLength
    ensures var st, end := Became(StateAt(states, i.csid), i.head, |i.payload|), Min(chunkSize, |i.payload|);
            ReadChunk(ItemBytes(i, chunkSize) + tail, states, chunkSize) ==
              if end == |i.payload|
              then Done(Message(i.csid, st.msgType, st.timestamp, st.streamId, i.payload), tail, states[i.csid := st])
              else More(Pieces(i, end, chunkSize) + tail, states[i.csid := st.(data := i.payload[..end])])
  {
    var st, end := Became(StateAt(states, i.csid), i.head, |i.payload|), Min(chunkSize, |i.payload|);
    assert st.msgLength == |i.payload| && st.data == [] && st.(data := []) == st;
    assert i.payload[0..end] == i.payload[..end] && i.payload[..0] == [];
    var more := Pieces(i, end, chunkSize) + tail;
    ItemStep(i, tail, chunkSize);
    NoPieces(i, tail, chunkSize);
    HeaderChunkRead(i, i.payload[..end] + more, states, chunkSize);
    PieceRead(i.csid, st, i.payload, 0, more, states, chunkSize);
    hide ReadChunk, ReadPayload, BasicBytes, HeadBytes, Pieces, ItemBytes, Became;
  }

  /** One item, read back: the message has the item's payload and the stream's fields as the header left them. */
  lemma ItemRead(i: Item, tail: seq<byte>, states: States, chunkSize: nat)
    requires Encodable(i) && chunkSize > 0
    requires i.head.Repeated? ==> |i.payload| == StateAt(states, i.csid).msgLength
    ensures var st := Became(StateAt(states, i.csid), i.head, |i.payload|);
            ReadMessage(ItemBytes(i, chunkSize) + tail, states, chunkSize) ==
              MessageRead(Received(Message(i.csid, st.msgType, st.timestamp, st.streamId, i.payload)), tail,
                          states[i.csid := st])
  {
    var st, end := Became(StateAt(states, i.csid), i.head, |i.payload|), Min(chunkSize, |i.payload|);
    assert st.msgLength == |i.payload| && st.(data := []) == st;
    hide ReadMessage, ReadChunk, Pieces, ItemBytes, Became;
    FirstPieceRead(i, tail, states, chunkSize);
    var s := ItemBytes(i, chunkSize) + tail;
    if end < |i.payload| {
      var states' := states[i.csid := st.(data := i.payload[..end])];
      MoreGoesOn(s, states, chunkSize, Pieces(i, end, chunkSize) + tail, states');
      RestRead(i, end, tail, states', chunkSize);
      assert states'[i.csid := st] == states[i.csid := st];
    } else {
      var m := Message(i.csid, st.msgType, st.timestamp, st.streamId, i.payload);
      DoneIsReceived(s, states, chunkSize, m, tail, states[i.csid := st]);
    }
  }

  // ---------------------------------------------------------------- runs

  /** The reader's streams are what the items so far make of them. */
  ghost predicate Summarizes(states: States, before: seq<Item>) {
    forall csid :: StateAt(states, csid) == Summary(before, csid)
  }

  function Summary(before: seq<Item>, csid: nat): ChunkState {
    ChunkState(TypeOn(before, csid), LengthOn(before, csid), TimeOn(before, csid) % U32, StreamOn(before, csid), [])
  }

  lemma AddTimes(a: nat, b: nat)
    ensures (a % U32 + b) % U32 == (a + b) % U32
  {
    var q, rest := a / U32, a % U32;
    var q', rest' := (rest + b) / U32, (rest + b) % U32;
    assert a + b == U32 * (q + q') + rest' by { assert a == U32 * q + rest && rest + b == U32 * q' + rest'; }
    ModUnique(a + b, U32, q + q', rest');
  }

  /** What one more item does to the summaries of a stream. */
  lemma SummaryStep(before: seq<Item>, i: Item, csid: nat)
    ensures var all := before + [i];
            && TimeOn(all, csid) ==
               (if i.csid != csid then TimeOn(before, csid)
                else if i.head.Absolute? then i.head.time else TimeOn(before, csid) + i.head.time)
            && TypeOn(all, csid) ==
               (if i.csid == csid && !i.head.Repeated? then i.head.msgType else TypeOn(before, csid))
            && LengthOn(all, csid) ==
               (if i.csid == csid && !i.head.Repeated? then |i.payload| else LengthOn(before, csid))
            && StreamOn(all, csid) ==
               (if i.csid == csid && i.head.Absolute? then i.head.streamId else StreamOn(before, csid))
  {
    var all := before + [i];
    assert all[..|all| - 1] == before && all[|all| - 1] == i;
  }

  lemma Summarized(before: seq<Item>, i: Item, states: States)
    requires Summarizes(states, before) && Encodable(i)
    requires i.head.Repeated? ==> |i.payload| == LengthOn(before, i.csid)
    ensures var st := Became(StateAt(states, i.csid), i.head, |i.payload|);
            && Summarizes(states[i.csid := st], before + [i])
            && MessageOf(before, i) == Message(i.csid, st.msgType, st.timestamp, st.streamId, i.payload)
  {
    hide TimeOn, TypeOn, LengthOn, StreamOn;
    var st := Became(StateAt(states, i.csid), i.head, |i.payload|);
    SummaryStep(before, i, i.csid);
    OwnSummary(before, i, StateAt(states, i.csid));
    hide Became;
    forall csid
      ensures StateAt(states[i.csid := st], csid) == Summary(before + [i], csid)
    {
      SummaryStep(before, i, csid);
      assert csid != i.csid ==> StateAt(states[i.csid := st], csid) == StateAt(states, csid);
    }
  }

  lemma OwnSummary(before: seq<Item>, i: Item, was: ChunkState)
    requires was == Summary(before, i.csid) && Encodable(i)
    requires i.head.Repeated? ==> |i.payload| == LengthOn(before, i.csid)
    ensures Became(was, i.head, |i.payload|) == Summary(before + [i], i.csid)
  {
    hide TimeOn, TypeOn, LengthOn, StreamOn, Addressable;
    SummaryStep(before, i, i.csid);
    AddTimes(TimeOn(before, i.csid), i.head.time);
    if i.head.Absolute? { SmallModulo(i.head.time, U32); }
  }

  lemma {:induction false} RunRead(before: seq<Item>, items: seq<Item>, states: States, chunkSize: nat)
    requires Sound(before, items) && Summarizes(states, before) && chunkSize > 0
    ensures SessionRun(RunBytes(before, items, chunkSize), states, chunkSize)
            == Transcript(Messages(before, items), true)
    decreases |items|
  {
    if items == [] {
      EmptyRun(states, chunkSize);
    } else {
      var i := items[0];
      var tail := RunBytes(before + [i], items[1..], chunkSize);
      Summarized(before, i, states);
      assert StateAt(states, i.csid).msgLength == LengthOn(before, i.csid);
      ItemRead(i, tail, states, chunkSize);
      hide ReadMessage, ItemBytes, Became, Summarizes, Encodable, MessageOf;
      var st := Became(StateAt(states, i.csid), i.head, |i.payload|);
      RunRead(before + [i], items[1..], states[i.csid := st], chunkSize);
      assert NextChunkSize(chunkSize, MessageOf(before, i)) == chunkSize;
    }
  }

  /** Any run of messages in formats 0, 1 and 2 on any chunk streams, in any form of basic header, in chunks of
      any size, is read back by a fresh session to exactly those messages: payloads intact; each time the sum,
      modulo 2^32, of its stream's last whole time and the deltas since; type and length its own in formats 0
      and 1 and the previous ones in format 2; the stream id that of the last format 0. */
  lemma DeltasAreSummed(items: seq<Item>, chunkSize: nat)
    requires Sound([], items) && chunkSize > 0
    ensures SessionRun(RunBytes([], items, chunkSize), map[], chunkSize) == Transcript(Messages([], items), true)
  {
    assert Summarizes(map[], []);
    RunRead([], items, map[], chunkSize);
  }
}
