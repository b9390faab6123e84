/** The RTMP session loop, and what it delivers when a sender interleaves the chunks of many messages
    and changes the chunk size as it goes. */
module RtmpSession {
  import opened Bytes
  import opened OptionValue
  import opened RtmpChunk
  import opened RtmpWriter

  const DEFAULT_CHUNK_SIZE: nat := 128

  /** The chunk size in force after a message: a Set Chunk Size message with a positive value changes it. */
  function NextChunkSize(chunkSize: nat, m: Message): (next: nat)
    ensures chunkSize > 0 ==> next > 0
  {
    if m.msgType == MSG_SET_CHUNK_SIZE && |m.payload| >= 4 && FromBigEndian(m.payload[..4]) > 0
    then FromBigEndian(m.payload[..4])
    else chunkSize
  }

  /** The messages a session hands on, and whether its input ended between two chunks. */
  datatype Transcript = Transcript(messages: seq<Message>, clean: bool)

  function Deliver(m: Message, later: Transcript): Transcript {
    later.(messages := [m] + later.messages)
  }

  function SessionRun(s: seq<byte>, states: States, chunkSize: nat): Transcript
    decreases |s|
  {
    var r := ReadMessage(s, states, chunkSize);
    match r.outcome
    case EndOfStream => Transcript([], true)
    case UnexpectedEof => Transcript([], false)
    case Received(m) => Deliver(m, SessionRun(r.rest, r.states, NextChunkSize(chunkSize, m)))
  }

  /** A transcript cut short after its first command that cannot be answered: the first `answered` commands
      can be, the next cannot. None if every reply can be written. */
  function Served(t: Transcript, answered: Option<nat>): (r: Transcript)
    ensures r.messages <= t.messages
    ensures answered.None? ==> r == t
    decreases |t.messages|
  {
    if t.messages == [] then t
    else if Unanswered(t.messages[0], answered) then Transcript([t.messages[0]], false)
    else Deliver(t.messages[0], Served(t.(messages := t.messages[1..]), Answer(t.messages[0], answered)))
  }

  /** Writing the reply to this message fails. */
  predicate Unanswered(m: Message, answered: Option<nat>) {
    m.msgType == MSG_AMF0_COMMAND && answered == Some(0)
  }

  function Answer(m: Message, answered: Option<nat>): Option<nat>
    requires !Unanswered(m, answered)
  {
    if m.msgType == MSG_AMF0_COMMAND && answered.Some? then Some(answered.value - 1) else answered
  }

  function Commands(ms: seq<Message>): nat {
    if ms == [] then 0 else (if ms[0].msgType == MSG_AMF0_COMMAND then 1 else 0) + Commands(ms[1..])
  }

  /** The session is cut short exactly if there are more commands than can be answered; it then ends with the
      first one that cannot. */
  lemma {:induction false} ServedCut(t: Transcript, answered: nat)
    ensures var r := Served(t, Some(answered));
            if Commands(t.messages) <= answered then r == t
            else
              && !r.clean && r.messages != [] && r.messages[|r.messages| - 1].msgType == MSG_AMF0_COMMAND
              && Commands(r.messages) == answered + 1
    decreases |t.messages|
  {
    if t.messages != [] {
      var m, rest := t.messages[0], t.(messages := t.messages[1..]);
      if m.msgType != MSG_AMF0_COMMAND {
        ServedCut(rest, answered);
      } else if answered > 0 {
        ServedCut(rest, answered - 1);
      } else {
        assert Served(t, Some(0)).messages == [m] && Commands([m]) == 1 + Commands([m][1..]);
      }
    }
  }

  /** The connection's state in the source: the reader's streams and the incoming chunk size. */
  class Session {
    const reader: ChunkReader
    var inChunkSize: nat
    var delivered: seq<Message>

    constructor (input: seq<byte>)
      ensures fresh(reader) && reader.input == input && reader.chunkStates == map[]
      ensures inChunkSize == 128 && delivered == []
    {
      reader := new ChunkReader(input);
      inChunkSize, delivered := DEFAULT_CHUNK_SIZE, [];
    }

    /** Set Chunk Size takes effect; every other message is only handed on. A command whose reply cannot be
        written is an error. */
    method Handle(msg: Message, answered: Option<nat>) returns (ok: bool)
      modifies this
      ensures inChunkSize == NextChunkSize(old(inChunkSize), msg)
      ensures delivered == old(delivered) + [msg] && ok == !Unanswered(msg, answered)
    {
      delivered := delivered + [msg];
      if msg.msgType == MSG_SET_CHUNK_SIZE {
        if |msg.payload| >= 4 {
          var newSize := FromBigEndian(msg.payload[..4]);
          if newSize > 0 { inChunkSize := newSize; }
        }
      }
      ok := msg.msgType != MSG_AMF0_COMMAND || answered != Some(0);
    }

    /** What is still to come of the session. */
    ghost function Remaining(): Transcript
      reads this, reader
    {
      SessionRun(reader.input, reader.chunkStates, inChunkSize)
    }

    /** One pass of the connection loop: reads a message and handles it. */
    method ServeOne(answered: Option<nat>) returns (outcome: Outcome, ok: bool)
      modifies this, reader
      ensures match outcome
              case EndOfStream => old(Remaining()) == Transcript([], true) && delivered == old(delivered)
              case UnexpectedEof => old(Remaining()) == Transcript([], false) && delivered == old(delivered)
              case Received(m) =>
                && old(Remaining()) == Deliver(m, Remaining())
                && delivered == old(delivered) + [m] && ok == !Unanswered(m, answered)
                && |reader.input| < |old(reader.input)|
    {
      outcome := reader.ReadRtmpMessage(inChunkSize);
      ok := true;
      if outcome.Received? { ok := Handle(outcome.msg, answered); }
    }

    /** One pass in terms of what is served: the end of the session, or one message further. */
    method Advance(answered: Option<nat>) returns (done: bool, clean: bool, left: Option<nat>)
      modifies this, reader
      ensures var served := Served(old(Remaining()), answered);
              if done then delivered == old(delivered) + served.messages && clean == served.clean
              else
                && |reader.input| < |old(reader.input)| && |delivered| == |old(delivered)| + 1
                && delivered[..|old(delivered)|] == old(delivered)
                && served == Deliver(delivered[|old(delivered)|], Served(Remaining(), left))
    {
      hide ReadMessage, SessionRun, NextChunkSize;
      var outcome, ok := ServeOne(answered);
      done, clean, left := !outcome.Received? || !ok, outcome == EndOfStream, answered;
      if outcome.Received? {
        ServedUnfolds(outcome.msg, Remaining(), answered);
        if ok { left := Answer(outcome.msg, answered); }
      } else {
        assert delivered + [] == delivered;
      }
    }

    /** The connection loop: until the input ends or a reply cannot be written, applying Set Chunk Size
        between messages. */
    method Serve(answered: Option<nat>) returns (clean: bool)
      modifies this, reader
      ensures var served := Served(old(Remaining()), answered);
              delivered == old(delivered) + served.messages && clean == served.clean
    {
      hide Served, SessionRun, Deliver;
      ghost var whole := Served(Remaining(), answered);
      ghost var rest := whole;
      var left, done := answered, false;
      clean := false;
      while !done
        invariant !done ==> rest == Served(Remaining(), left)
        invariant !done ==> old(delivered) + whole.messages == delivered + rest.messages && whole.clean == rest.clean
        invariant done ==> delivered == old(delivered) + whole.messages && whole.clean == clean
        decreases !done, |reader.input|
      {
        ghost var before := delivered;
        done, clean, left := Advance(left);
        if !done {
          ghost var later := Served(Remaining(), left);
          Further(before, delivered, rest, later);
          rest := later;
        }
      }
    }
  }

  lemma Further(before: seq<Message>, after: seq<Message>, rest: Transcript, later: Transcript)
    requires |after| == |before| + 1 && after[..|before|] == before && rest == Deliver(after[|before|], later)
    ensures before + rest.messages == after + later.messages && rest.clean == later.clean
  {
  }

  lemma ServedUnfolds(m: Message, later: Transcript, answered: Option<nat>)
    ensures Served(Deliver(m, later), answered) ==
            if Unanswered(m, answered) then Transcript([m], false)
            else Deliver(m, Served(later, Answer(m, answered)))
  {
    var t := Deliver(m, later);
    assert t.messages[0] == m && t.(messages := t.messages[1..]) == later;
  }

  // ---------------------------------------------------------------- a sender that interleaves chunks

  /** Begin a message on an idle chunk stream, or send the next chunk of the one in progress there. */
  datatype Event = Begin(m: Message) | Resume(csid: nat)

  datatype Open = Open(m: Message, sent: nat)

  /** The sender: its chunk size and the messages it has begun but not finished. */
  datatype Sender = Sender(chunkSize: nat, open: map<nat, Open>)

  predicate Sendable(m: Message) {
    Writable(m) && Faithful(m) && m.payload != []
  }

  ghost predicate SenderOk(w: Sender) {
    && w.chunkSize > 0
    && forall csid :: csid in w.open ==>
         var o := w.open[csid];
         Sendable(o.m) && o.m.csid == csid && 0 < o.sent < |o.m.payload|
  }

  predicate EventOk(w: Sender, e: Event) {
    match e
    case Begin(m) => Sendable(m) && m.csid !in w.open
    case Resume(csid) => csid in w.open
  }

  /** The message and offset whose chunk an event puts on the wire. */
  function Current(w: Sender, e: Event): Open
    requires EventOk(w, e)
  {
    match e case Begin(m) => Open(m, 0) case Resume(csid) => w.open[csid]
  }

  ghost function EventBytes(w: Sender, e: Event): seq<byte>
    requires SenderOk(w) && EventOk(w, e)
  {
    ChunkBytes(Current(w, e).m, Current(w, e).sent, w.chunkSize)
  }

  /** The offset after the chunk. */
  ghost function SentAfter(w: Sender, e: Event): nat
    requires SenderOk(w) && EventOk(w, e)
  {
    Min(Current(w, e).sent + w.chunkSize, |Current(w, e).m.payload|)
  }

  ghost predicate Completes(w: Sender, e: Event)
    requires SenderOk(w) && EventOk(w, e)
  {
    SentAfter(w, e) == |Current(w, e).m.payload|
  }

  ghost function Advance(w: Sender, e: Event): (w': Sender)
    requires SenderOk(w) && EventOk(w, e)
    ensures SenderOk(w')
  {
    var m := Current(w, e).m;
    if Completes(w, e) then Sender(NextChunkSize(w.chunkSize, m), w.open - {m.csid})
    else w.(open := w.open[m.csid := Open(m, SentAfter(w, e))])
  }

  ghost predicate EventsOk(w: Sender, es: seq<Event>)
    requires SenderOk(w)
    decreases |es|
  {
    es == [] || (EventOk(w, es[0]) && EventsOk(Advance(w, es[0]), es[1..]))
  }

  /** What the sender puts on the wire. */
  ghost function Wire(w: Sender, es: seq<Event>): seq<byte>
    requires SenderOk(w) && EventsOk(w, es)
    decreases |es|
  {
    if es == [] then [] else EventBytes(w, es[0]) + Wire(Advance(w, es[0]), es[1..])
  }

  /** The messages whose last chunk has been sent, in the order of those last chunks. */
  ghost function Finished(w: Sender, es: seq<Event>): seq<Message>
    requires SenderOk(w) && EventsOk(w, es)
    decreases |es|
  {
    if es == [] then []
    else (if Completes(w, es[0]) then [Current(w, es[0]).m] else []) + Finished(Advance(w, es[0]), es[1..])
  }

  ghost function Begun(es: seq<Event>): multiset<Message>
  {
    if es == [] then multiset{}
    else (if es[0].Begin? then multiset{es[0].m} else multiset{}) + Begun(es[1..])
  }

  ghost function SenderAfter(w: Sender, es: seq<Event>): Sender
    requires SenderOk(w) && EventsOk(w, es)
    decreases |es|
  {
    if es == [] then w else SenderAfter(Advance(w, es[0]), es[1..])
  }

  /** The reader holds, for each open message, exactly the part already sent. */
  ghost predicate InStep(w: Sender, states: States)
    requires SenderOk(w)
  {
    forall csid :: csid in w.open ==> csid in states && states[csid] == Progress(w.open[csid].m, w.open[csid].sent)
  }

  /** The session seen chunk by chunk. */
  function ChunkRun(s: seq<byte>, states: States, chunkSize: nat): Transcript
    decreases |s|
  {
    match ReadChunk(s, states, chunkSize)
    case Closed => Transcript([], true)
    case Broken(_) => Transcript([], false)
    case More(rest, after) => ChunkRun(rest, after, chunkSize)
    case Done(m, rest, after) => Deliver(m, ChunkRun(rest, after, NextChunkSize(chunkSize, m)))
  }

  /** Reading message by message and chunk by chunk is the same session. */
  lemma {:induction false} SessionIsChunkRun(s: seq<byte>, states: States, chunkSize: nat)
    ensures SessionRun(s, states, chunkSize) == ChunkRun(s, states, chunkSize)
    decreases |s|
  {
    var r := ReadChunk(s, states, chunkSize);
    if r.More? {
      SessionIsChunkRun(r.rest, r.states, chunkSize);
      assert ReadMessage(s, states, chunkSize) == ReadMessage(r.rest, r.states, chunkSize);
    } else if r.Done? {
      SessionIsChunkRun(r.rest, r.states, NextChunkSize(chunkSize, r.msg));
    }
  }

  ghost function StatesAfterEvent(w: Sender, e: Event, states: States): States
    requires SenderOk(w) && EventOk(w, e)
  {
    var m := Current(w, e).m;
    states[m.csid := Progress(m, if Completes(w, e) then 0 else SentAfter(w, e))]
  }

  /** One event, read back: the reader stays in step and delivers the message the event completes. */
  lemma EventRead(w: Sender, e: Event, tail: seq<byte>, states: States)
    requires SenderOk(w) && EventOk(w, e) && InStep(w, states)
    ensures InStep(Advance(w, e), StatesAfterEvent(w, e, states))
    ensures ChunkRun(EventBytes(w, e) + tail, states, w.chunkSize) ==
            var later := ChunkRun(tail, StatesAfterEvent(w, e, states), Advance(w, e).chunkSize);
            if Completes(w, e) then Deliver(Current(w, e).m, later) else later
  {
    hide ReadChunk, ChunkRun, ChunkBytes;
    var o := Current(w, e);
    WrittenChunkRead(o.m, o.sent, w.chunkSize, tail, states);
    ChunkRunUnfolds(EventBytes(w, e) + tail, states, w.chunkSize);
  }

  lemma ChunkRunUnfolds(s: seq<byte>, states: States, chunkSize: nat)
    ensures ChunkRun(s, states, chunkSize) ==
            match ReadChunk(s, states, chunkSize)
            case Closed => Transcript([], true)
            case Broken(_) => Transcript([], false)
            case More(rest, after) => ChunkRun(rest, after, chunkSize)
            case Done(m, rest, after) => Deliver(m, ChunkRun(rest, after, NextChunkSize(chunkSize, m)))
  {
  }

  /** Reassembly: whatever the interleaving of chunks and wherever the chunk size changes, the session
      delivers exactly the finished messages, in the order of their last chunks, and is ready for
      whatever follows. */
  lemma {:induction false} InterleavedRead(w: Sender, es: seq<Event>, states: States)
    requires SenderOk(w) && EventsOk(w, es) && InStep(w, states)
    ensures SessionRun(Wire(w, es), states, w.chunkSize) == Transcript(Finished(w, es), true)
    decreases |es|
  {
    InterleavedChunkRun(w, es, states);
    SessionIsChunkRun(Wire(w, es), states, w.chunkSize);
  }

  lemma {:induction false} InterleavedChunkRun(w: Sender, es: seq<Event>, states: States)
    requires SenderOk(w) && EventsOk(w, es) && InStep(w, states)
    ensures ChunkRun(Wire(w, es), states, w.chunkSize) == Transcript(Finished(w, es), true)
    decreases |es|
  {
    if es != [] {
      var w' := Advance(w, es[0]);
      EventRead(w, es[0], Wire(w', es[1..]), states);
      InterleavedChunkRun(w', es[1..], StatesAfterEvent(w, es[0], states));
    }
  }

  // ---------------------------------------------------------------- each message exactly once

  /** One if `x` is in progress, which it can be on its own chunk stream only. */
  predicate InProgress(w: Sender, x: Message) {
    x.csid in w.open && w.open[x.csid].m == x
  }

  function Once(b: bool): nat { if b then 1 else 0 }

  lemma AdvanceConserves(w: Sender, e: Event, x: Message)
    requires SenderOk(w) && EventOk(w, e)
    ensures Once(Completes(w, e) && Current(w, e).m == x) + Once(InProgress(Advance(w, e), x)) ==
            Once(e.Begin? && e.m == x) + Once(InProgress(w, x))
  {
  }

  lemma FinishedCount(w: Sender, es: seq<Event>, x: Message)
    requires SenderOk(w) && EventsOk(w, es) && es != []
    ensures multiset(Finished(w, es))[x] ==
            Once(Completes(w, es[0]) && Current(w, es[0]).m == x) + multiset(Finished(Advance(w, es[0]), es[1..]))[x]
  {
    var m := Current(w, es[0]).m;
    var later := Finished(Advance(w, es[0]), es[1..]);
    if Completes(w, es[0]) {
      assert multiset([m] + later) == multiset{m} + multiset(later);
    } else {
      assert [] + later == later;
    }
  }

  /** Conservation: every message is finished, or still open, as often as it was begun. */
  lemma {:induction false} EachMessageOnce(w: Sender, es: seq<Event>, x: Message)
    requires SenderOk(w) && EventsOk(w, es)
    ensures multiset(Finished(w, es))[x] + Once(InProgress(SenderAfter(w, es), x)) ==
            Begun(es)[x] + Once(InProgress(w, x))
    decreases |es|
  {
    if es != [] {
      hide Advance, Completes, Current, InProgress, Finished;
      FinishedCount(w, es, x);
      AdvanceConserves(w, es[0], x);
      EachMessageOnce(Advance(w, es[0]), es[1..], x);
    }
  }

  /** A fresh session, fed any interleaving that finishes every message it begins, delivers each begun
      message exactly once, in the order of last chunks, and ends cleanly. */
  lemma InterleavingDeliversAll(chunkSize: nat, es: seq<Event>)
    requires chunkSize > 0 && EventsOk(Sender(chunkSize, map[]), es)
    requires SenderAfter(Sender(chunkSize, map[]), es).open == map[]
    ensures var run := SessionRun(Wire(Sender(chunkSize, map[]), es), map[], chunkSize);
            run.clean && run.messages == Finished(Sender(chunkSize, map[]), es) && multiset(run.messages) == Begun(es)
  {
    hide SessionRun;
    var w := Sender(chunkSize, map[]);
    InterleavedRead(w, es, map[]);
    forall x
      ensures multiset(Finished(w, es))[x] == Begun(es)[x]
    {
      EachMessageOnce(w, es, x);
    }
  }

  // ---------------------------------------------------------------- one message after another

  /** What the writer emits for a list of messages, taking up each new chunk size right after the Set
      Chunk Size message that announces it. */
  function WriteAll(ms: seq<Message>, chunkSize: nat): seq<byte>
    requires chunkSize > 0 && forall i :: 0 <= i < |ms| ==> Writable(ms[i])
  {
    if ms == [] then []
    else Encode(ms[0], chunkSize) + WriteAll(ms[1..], NextChunkSize(chunkSize, ms[0]))
  }

  function NonEmpty(ms: seq<Message>): seq<Message> {
    if ms == [] then []
    else (if ms[0].payload == [] then [] else [ms[0]]) + NonEmpty(ms[1..])
  }

  /** The session decodes a written run to the same messages, size changes included; only messages
      with an empty payload, for which the writer emits nothing, are missing. */
  lemma {:induction false} WrittenRunRead(ms: seq<Message>, states: States, chunkSize: nat)
    requires chunkSize > 0 && forall i :: 0 <= i < |ms| ==> Writable(ms[i]) && Faithful(ms[i])
    ensures SessionRun(WriteAll(ms, chunkSize), states, chunkSize) == Transcript(NonEmpty(ms), true)
  {
    if ms != [] {
      var m := ms[0];
      var next := NextChunkSize(chunkSize, m);
      var rest := WriteAll(ms[1..], next);
      if m.payload == [] {
        assert Encode(m, chunkSize) + rest == rest;
        WrittenRunRead(ms[1..], states, chunkSize);
      } else {
        WrittenMessageRead(m, chunkSize, rest, states);
        WrittenRunRead(ms[1..], states[m.csid := Progress(m, 0)], next);
      }
    } else {
      EmptyRun(states, chunkSize);
    }
  }

  lemma EmptyRun(states: States, chunkSize: nat)
    ensures SessionRun([], states, chunkSize) == Transcript([], true)
  {
  }

  // ---------------------------------------------------------------- sizes that come from outside

  /** A Set Chunk Size message for n: message type 1, the size in its first four bytes, most significant first. */
  predicate Announces(m: Message, n: nat) {
    m.msgType == 1 && |m.payload| >= 4 && m.payload[..4] == Big4(n)
  }

  /** A message that leaves the size alone: of another type, too short, or announcing 0. */
  predicate KeepsSize(m: Message) {
    m.msgType != 1 || |m.payload| < 4 || m.payload[..4] == [0, 0, 0, 0]
  }

  /** The chunk size in force after a message is the announced one, or the one before. */
  lemma SizeAfter(chunkSize: nat, m: Message, n: nat)
    ensures 0 < n < U32 && Announces(m, n) ==> NextChunkSize(chunkSize, m) == n
    ensures KeepsSize(m) ==> NextChunkSize(chunkSize, m) == chunkSize
  {
    WrittenOutRead(n);
    WrittenOutRead(0);
    hide FromBigEndian;
    if n < U32 { SmallModulo(n, U32); }
    assert Big4(0) == [0, 0, 0, 0];
  }

  /** Every message does the one or the other. */
  lemma AnnouncesOrKeeps(m: Message) returns (n: nat)
    ensures KeepsSize(m) || (0 < n < U32 && Announces(m, n))
  {
    n := 0;
    if !KeepsSize(m) {
      var b := m.payload[..4];
      var b0: nat, b1: nat, b2: nat, b3: nat := b[0], b[1], b[2], b[3];
      n := 0x100_0000 * b0 + 0x1_0000 * b1 + 256 * b2 + b3;
      FourBytes(b0, b1, b2, b3);
      hide Big4;
      assert b == [b0, b1, b2, b3];
    }
  }

  lemma FourBytes(b0: nat, b1: nat, b2: nat, b3: nat)
    requires b0 < 256 && b1 < 256 && b2 < 256 && b3 < 256
    ensures Big4(0x100_0000 * b0 + 0x1_0000 * b1 + 256 * b2 + b3) == [b0, b1, b2, b3]
  {
    var n := 0x100_0000 * b0 + 0x1_0000 * b1 + 256 * b2 + b3;
    ModUnique(n, 256, 0x1_0000 * b0 + 256 * b1 + b2, b3);
    ModUnique(n / 256, 256, 256 * b0 + b1, b2);
    assert n / 0x1_0000 == n / 256 / 256 && n / 0x100_0000 == n / 256 / 256 / 256;
  }

  /** Each message chunked at the size listed for it. */
  function SizedRun(ms: seq<Message>, sizes: seq<nat>): seq<byte>
    requires |sizes| == |ms|
    requires forall i :: 0 <= i < |ms| ==> Writable(ms[i]) && sizes[i] > 0
  {
    if ms == [] then [] else Encode(ms[0], sizes[0]) + SizedRun(ms[1..], sizes[1..])
  }

  /** The list of sizes does what the messages announce. */
  ghost predicate Obeys(ms: seq<Message>, sizes: seq<nat>) {
    && |sizes| == |ms|
    && (forall i, n :: 0 <= i < |ms| - 1 && 0 < n < U32 && Announces(ms[i], n) ==> sizes[i + 1] == n)
    && (forall i :: 0 <= i < |ms| - 1 && KeepsSize(ms[i]) ==> sizes[i + 1] == sizes[i])
  }

  lemma {:induction false} SizedRunIsWritten(ms: seq<Message>, sizes: seq<nat>)
    requires Obeys(ms, sizes) && forall i :: 0 <= i < |ms| ==> Writable(ms[i]) && sizes[i] > 0
    ensures ms != [] ==> SizedRun(ms, sizes) == WriteAll(ms, sizes[0])
  {
    hide NextChunkSize, Encode, Announces, KeepsSize;
    if |ms| > 1 {
      var n := AnnouncesOrKeeps(ms[0]);
      SizeAfter(sizes[0], ms[0], n);
      assert sizes[1] == NextChunkSize(sizes[0], ms[0]);
      ObeysOn(ms, sizes);
      SizedRunIsWritten(ms[1..], sizes[1..]);
    } else if |ms| == 1 {
      assert ms[1..] == [];
    }
  }

  lemma ObeysOn(ms: seq<Message>, sizes: seq<nat>)
    requires Obeys(ms, sizes) && ms != []
    ensures Obeys(ms[1..], sizes[1..])
  {
    hide Announces, KeepsSize;
    forall i, n | 0 <= i < |ms| - 2 && 0 < n < U32 && Announces(ms[1..][i], n)
      ensures sizes[1..][i + 1] == n
    {
      assert ms[1..][i] == ms[i + 1];
    }
    forall i | 0 <= i < |ms| - 2 && KeepsSize(ms[1..][i])
      ensures sizes[1..][i + 1] == sizes[1..][i]
    {
      assert ms[1..][i] == ms[i + 1];
    }
  }

  /** The session follows the announced sizes: messages chunked at sizes from outside, each size being the one
      the message before announced, or unchanged if it announced none, are delivered exactly, whatever the
      reader had buffered, if the session starts at the first size. */
  lemma AnnouncedSizesAreFollowed(ms: seq<Message>, sizes: seq<nat>, states: States)
    requires Obeys(ms, sizes) && ms != []
    requires forall i :: 0 <= i < |ms| ==> Writable(ms[i]) && Faithful(ms[i]) && sizes[i] > 0
    ensures SessionRun(SizedRun(ms, sizes), states, sizes[0]) == Transcript(NonEmpty(ms), true)
  {
    SizedRunIsWritten(ms, sizes);
    WrittenRunRead(ms, states, sizes[0]);
  }
}
