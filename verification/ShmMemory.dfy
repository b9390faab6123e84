/** The mapped file of the shared-memory ring, updated in place: whole writes by the writer and whole reads by
    the readers, built from the steps of Shm. */
module ShmMemory {
  import opened Bytes
  import opened OptionValue
  import opened Shm

  datatype Result<T> = Ok(value: T) | Err

  /** What a read answers: nothing new, a frame, that the slot does not fit the mapping, a panic on a slot count
      of 0, or a read past the mapping. */
  datatype Answer = Nothing | Newest(meta: SlotHeader, data: seq<byte>) | NoSlot | DividesByZero | PastMapping

  /** What a reader that last saw number `last` should be given. */
  function AnswerTo(frames: seq<Frame>, last: nat): Answer {
    var n := |frames|;
    if n == 0 || n <= last then Nothing
    else Newest(SlotHeader(n, frames[n - 1].timestamp, n, |frames[n - 1].data|, 0), frames[n - 1].data)
  }

  /** The fields of the readers are as the machine has them. */
  ghost predicate Kept(lastSeen: map<Tid, nat>, geometry: map<Tid, Geometry>, readers: map<Tid, Reader>) {
    && lastSeen.Keys == readers.Keys
    && (forall r :: r in readers ==> lastSeen[r] == readers[r].last)
    && (forall r :: r in readers ==> readers[r].geometry == if r in geometry then Some(geometry[r]) else None)
  }

  lemma KeptOne(lastSeen: map<Tid, nat>, geometry: map<Tid, Geometry>, readers: map<Tid, Reader>, r: Tid, rd: Reader)
    requires Kept(lastSeen, geometry, readers) && r in readers && rd.geometry == readers[r].geometry
    ensures Kept(lastSeen[r := rd.last], geometry, readers[r := rd])
  {
  }

  lemma OpenedOne(
    lastSeen: map<Tid, nat>, geometry: map<Tid, Geometry>, readers: map<Tid, Reader>, r: Tid, g: Geometry)
    requires Kept(lastSeen, geometry, readers) && r in readers
    ensures Kept(lastSeen, geometry[r := g], readers[r := readers[r].(geometry := Some(g))])
  {
  }

  /** The mapping, with its one writer and its readers. Each Step method is one step of the writer. */
  class SharedRing {
    const slots: nat
    const slotSize: nat
    const mem: array<byte>
    var frameCounter: nat
    var geometry: map<Tid, Geometry>
    var lastSeen: map<Tid, nat>
    ghost var writer: Writer
    ghost var frames: seq<Frame>
    ghost var readers: map<Tid, Reader>

    ghost function View(): State
      reads this, mem
    {
      State(slots, slotSize, mem[..], writer, frames, readers)
    }

    ghost predicate Valid()
      reads this, mem
    {
      Inv(View()) && frameCounter == |frames| && Kept(lastSeen, geometry, readers)
    }

    /** create: maps the file and writes the global header. */
    constructor (width: nat, height: nat, format: nat, requested: nat, threads: set<Tid>)
      ensures Valid() && View() == Init(width, height, format, requested, threads) && fresh(mem)
    {
      var count, size := SlotCount(requested), HEADER + FrameBytes(width, height, format);
      var bytes := GlobalHeader(width, height, format, count, size) + Zeros(size * count);
      slots, slotSize, frameCounter := count, size, 0;
      mem := new byte[|bytes|](i requires 0 <= i < |bytes| => bytes[i]);
      lastSeen, geometry := map r | r in threads :: 0, map[];
      writer, frames, readers := Resting, [], map r | r in threads :: Reader(None, 0, Away, []);
      new;
      assert mem[..] == bytes;
      InitInv(width, height, format, requested, threads);
      hide Inv, GlobalHeader, FrameBytes;
    }

    method BeginStep(frame: Frame)
      requires Valid() && Enabled(View(), BeginFrame(frame))
      modifies this`frameCounter, this`writer, this`frames
      ensures Valid() && View() == Apply(old(View()), BeginFrame(frame))
      ensures frames == old(frames) + [frame] && writer == Copying(|frames|, Below(HEADER + |frame.data|))
    {
      StepKeepsInv(View(), BeginFrame(frame));
      frameCounter := frameCounter + 1;
      frames := frames + [frame];
      writer := Copying(|frames|, Below(HEADER + |frame.data|));
      hide Inv;
    }

    method CopyStep(at: nat, k: nat, b: byte)
      requires Valid() && Enabled(View(), CopyByte(k))
      requires at == SlotOffset(|frames|, slots, slotSize) && b == Image(|frames|, frames[|frames| - 1])[k]
      modifies this`writer, mem
      ensures Valid() && View() == Apply(old(View()), CopyByte(k))
      ensures writer == Copying(old(writer).num, old(writer).todo - {k})
    {
      ghost var s := View();
      StepKeepsInv(s, CopyByte(k));
      ghost var left := Copying(writer.num, writer.todo - {k});
      assert Apply(s, CopyByte(k)) == s.(mem := s.mem[at + k := b], writer := left);
      hide Inv, Image, SlotOffset, Shape, Enabled, Apply;
      mem[at + k] := b;
      writer := left;
      assert mem[..] == s.mem[at + k := b];
    }

    /** Stores a word, as the atomic stores do. */
    method StoreWord(at: nat, bytes: seq<byte>)
      requires at + |bytes| <= mem.Length
      modifies mem
      ensures mem[..] == Splice(old(mem[..]), at, bytes)
    {
      var i := 0;
      while i < |bytes|
        invariant 0 <= i <= |bytes|
        invariant forall k :: 0 <= k < mem.Length ==> mem[k] == if at <= k < at + i then bytes[k - at] else old(mem[k])
      {
        mem[at + i] := bytes[i];
        i := i + 1;
      }
    }

    method PublishStep()
      requires Valid() && Enabled(View(), StoreSequence)
      modifies this`writer, mem
      ensures Valid() && View() == Apply(old(View()), StoreSequence) && writer.Notifying?
    {
      StepKeepsInv(View(), StoreSequence);
      assert writer.num == frameCounter;
      StoreWord(SEQUENCE, LittleEndian(frameCounter, 8));
      writer := Notifying;
      hide Inv, LittleEndian, Splice;
    }

    /** fetch_add on the notify word, which wraps at 32 bits. */
    method BumpWord()
      requires mem.Length >= HEADER
      modifies mem
      ensures var was := old(mem[..]);
              mem[..] == Splice(was, NOTIFY, LittleEndian(FromLittleEndian(was[NOTIFY..NOTIFY + 4]) + 1, 4))
    {
      hide LittleEndian, FromLittleEndian, Splice;
      assert mem[..][NOTIFY..NOTIFY + 4] == mem[NOTIFY..NOTIFY + 4];
      var was := FromLittleEndian(mem[NOTIFY..NOTIFY + 4]);
      StoreWord(NOTIFY, LittleEndian(was + 1, 4));
    }

    method NotifyStep()
      requires Valid() && Enabled(View(), BumpNotify)
      modifies this`writer, mem
      ensures Valid() && View() == Apply(old(View()), BumpNotify) && writer.Resting?
    {
      ghost var s := View();
      StepKeepsInv(s, BumpNotify);
      assert |s.mem| >= HEADER && Apply(s, BumpNotify) == Notified(s);
      hide Inv, LittleEndian, FromLittleEndian, Splice, Shape, Apply, Enabled;
      BumpWord();
      writer := Resting;
    }

    /** write_frame: refuses a frame larger than a slot and changes nothing, else the frame is begun,
        copied byte by byte and published, and the ring holds it. */
    method WriteFrame(frame: Frame) returns (r: Result<nat>)
      requires Valid() && writer.Resting? && frame.timestamp < U64 && |frames| + 1 < U64
      modifies this`frameCounter, this`writer, this`frames, mem
      ensures Valid() && writer.Resting?
      ensures if HEADER + |frame.data| > slotSize then r == Err && View() == old(View())
              else r == Ok(|frames|) && frames == old(frames) + [frame]
    {
      ShapeOf(View());
      hide Inv, Image, SlotOffset, Size, Apply, LittleEndian;
      if |frame.data| > slotSize - HEADER {
        return Err;
      }
      BeginStep(frame);
      var num := frameCounter;
      var at, image := SlotOffset(num, slots, slotSize), Image(num, frame);
      CopyAll(at, image);
      Announce();
      r := Ok(num);
    }

    /** Stores the sequence, then bumps the notify word. */
    method Announce()
      requires Valid() && writer.Copying? && writer.todo == {}
      modifies this`writer, mem
      ensures Valid() && writer.Resting?
    {
      hide Inv, Shape, Apply;
      ShapeOf(View());
      PublishStep();
      ShapeOf(View());
      NotifyStep();
    }

    method CopyAll(at: nat, image: seq<byte>)
      requires Valid() && frames != [] && writer == Copying(|frames|, Below(|image|))
      requires at == SlotOffset(|frames|, slots, slotSize) && image == Image(|frames|, frames[|frames| - 1])
      modifies this`writer, mem
      ensures Valid() && writer == Copying(|frames|, {})
    {
      hide Inv, Shape, Image, SlotOffset, Apply, Enabled;
      var k := 0;
      while k < |image|
        invariant 0 <= k <= |image| && Valid() && writer.Copying? && writer.num == |frames|
        invariant forall j :: j in writer.todo <==> k <= j < |image|
      {
        MayCopy(View(), k);
        CopyStep(at, k, image[k]);
        k := k + 1;
      }
      assert writer.todo == {};
    }

    /** open: the reader keeps the geometry it found in the global header. */
    method OpenRing(r: Tid) returns (g: Option<Geometry>)
      requires Valid() && r in readers && r !in geometry && readers[r].step.Away?
      modifies this`geometry, this`readers
      ensures Valid() && g == Some(Opened(slots, slotSize)) && View() == Apply(old(View()), Shm.OpenRing(r))
    {
      ghost var s := View();
      OpensWith(s, r);
      var magic := FromLittleEndian(mem[..4]);
      var found := Geometry(FromLittleEndian(mem[20..24]), FromLittleEndian(mem[24..28]));
      assert s.mem[..4] == mem[..4] && s.mem[20..24] == mem[20..24] && s.mem[24..28] == mem[24..28];
      assert magic == MAGIC && found == Opened(slots, slotSize);
      ghost var rd := readers[r].(geometry := Some(found));
      OpenedOne(lastSeen, geometry, readers, r, found);
      hide Inv, Open, Opened, FromLittleEndian, Apply, Enabled, Kept;
      geometry := geometry[r := found];
      readers := readers[r := rd];
      g := Some(found);
    }

    /** read_latest_frame with the writer at rest. With exact arithmetic it answers the newest frame if it is
        new to the reader. */
    method ReadLatestFrame(r: Tid) returns (answer: Answer)
      requires Valid() && writer.Resting? && r in readers && r in geometry && Between(readers[r].step)
      modifies this`lastSeen, this`readers
      ensures Valid() && r in readers
      ensures Exact(slots, slotSize) ==> answer == AnswerTo(frames, old(readers[r].last))
      ensures readers[r].returned == old(readers[r].returned) + if answer.Newest? then [|frames|] else []
      ensures lastSeen == if answer.Newest? then old(lastSeen)[r := |frames|] else old(lastSeen)
    {
      var current := LoadCurrent();
      if current == 0 || current <= lastSeen[r] {
        TurnAway(r, Away);
        answer := Nothing;
      } else {
        answer := TakeNewest(r, current);
      }
      hide Inv, View;
    }

    /** The part of a read behind the check for news. */
    method TakeNewest(r: Tid, n: nat) returns (answer: Answer)
      requires Valid() && writer.Resting? && r in readers && r in geometry && Between(readers[r].step)
      requires readers[r].last < n == |frames|
      modifies this`lastSeen, this`readers
      ensures Valid() && r in readers && !answer.Nothing?
      ensures Exact(slots, slotSize) ==> answer == AnswerTo(frames, old(readers[r].last))
      ensures readers[r].returned == old(readers[r].returned) + if answer.Newest? then [n] else []
      ensures lastSeen == if answer.Newest? then old(lastSeen)[r := n] else old(lastSeen)
    {
      assert AnswerTo(frames, 0) == AnswerTo(frames, readers[r].last);
      hide Inv, AnswerTo, Exact;
      answer := CopyOut(r, n);
      if answer.Newest? {
        Deliver(r, n, answer.meta, answer.data);
      } else {
        TurnAway(r, Refused);
      }
    }

    method LoadCurrent() returns (current: nat)
      requires Valid() && writer.Resting?
      ensures current == |frames|
    {
      ghost var s := View();
      LoadedSequence(s);
      NewestIsBounded(s);
      hide Inv, FromLittleEndian, Shape, WriterOk;
      assert s.mem[SEQUENCE..SEQUENCE + 8] == mem[SEQUENCE..SEQUENCE + 8];
      current := FromLittleEndian(mem[SEQUENCE..SEQUENCE + 8]);
    }

    /** The copy, by the reader's own geometry. */
    method CopyOut(r: Tid, n: nat) returns (answer: Answer)
      requires Valid() && writer.Resting? && n == |frames| > 0 && r in readers && r in geometry
      ensures answer.Newest? || answer.NoSlot? || answer.DividesByZero? || answer.PastMapping?
      ensures Exact(slots, slotSize) ==> answer == AnswerTo(frames, 0)
    {
      ghost var s := View();
      LatestSlot(s);
      NewestHeader(s);
      ReadersSlot(s, r);
      var g := geometry[r];
      assert readers[r].geometry == Some(g);
      hide Inv, Image, SlotOffset, ParseHeader, PayloadSize, Exact, Opened;
      if g.slots == 0 { return DividesByZero; }
      var at := SlotOffset(n, g.slots, g.slotSize);
      if at + g.slotSize > mem.Length { return NoSlot; }
      if at + HEADER > mem.Length { return PastMapping; }
      var header := mem[at..at + HEADER];
      assert header == s.mem[at..at + HEADER];
      var end := at + HEADER + PayloadSize(header);
      if end > mem.Length { return PastMapping; }
      var data := mem[at + HEADER..end];
      assert data == s.mem[at + HEADER..end];
      answer := Newest(ParseHeader(header), data);
    }

    /** A read that returns no frame. */
    method TurnAway(r: Tid, step: Step)
      requires Valid() && r in readers && Between(readers[r].step) && (step.Away? || step.Refused?)
      modifies this`lastSeen, this`readers
      ensures Valid() && r in readers && readers[r].returned == old(readers)[r].returned && lastSeen == old(lastSeen)
    {
      ghost var s, rd := View(), readers[r].(step := step);
      AwayKeepsInv(s, r, step);
      KeptOne(lastSeen, geometry, readers, r, rd);
      assert lastSeen[r := lastSeen[r]] == lastSeen && lastSeen[r] == rd.last;
      hide Inv, Kept;
      Remember(r, lastSeen[r], s, rd);
    }

    method Remember(r: Tid, num: nat, ghost s: State, ghost rd: Reader)
      requires s == View() && r in readers && rd.last == num && frameCounter == |frames|
      requires Inv(s.(readers := s.readers[r := rd])) && Kept(lastSeen[r := num], geometry, readers[r := rd])
      modifies this`lastSeen, this`readers
      ensures Valid() && lastSeen == old(lastSeen)[r := num] && readers == old(readers)[r := rd]
    {
      hide Inv, Kept;
      lastSeen := lastSeen[r := num];
      readers := readers[r := rd];
    }

    /** The end of a read: the reader remembers the number. */
    method Deliver(r: Tid, num: nat, meta: SlotHeader, data: seq<byte>)
      requires Valid() && writer.Resting? && r in readers && readers[r].last < num == |frames|
      requires Exact(slots, slotSize) ==> Newest(meta, data) == AnswerTo(frames, 0)
      modifies this`lastSeen, this`readers
      ensures Valid() && lastSeen == old(lastSeen)[r := num] && r in readers
      ensures readers[r].returned == old(readers)[r].returned + [num]
    {
      ghost var s, rd := View(), Returned(readers[r], num, meta, data);
      DeliveredKeepsInv(s, r, meta, data);
      KeptOne(lastSeen, geometry, readers, r, rd);
      assert rd.last == num && rd.returned == readers[r].returned + [num];
      hide Inv, Kept, Exact, AnswerTo, Returned;
      Remember(r, num, s, rd);
    }
  }

  function Returned(rd: Reader, num: nat, meta: SlotHeader, data: seq<byte>): Reader {
    Reader(rd.geometry, num, Delivered(num, meta, data, num), rd.returned + [num])
  }

  lemma OpensWith(s: State, r: Tid)
    requires Inv(s) && r in s.readers && s.readers[r].geometry.None? && s.readers[r].step.Away?
    ensures |s.mem| >= HEADER && Open(s.mem) == Some(Opened(s.slots, s.slotSize))
    ensures Enabled(s, Shm.OpenRing(r)) && Inv(Apply(s, Shm.OpenRing(r)))
    ensures Apply(s, Shm.OpenRing(r)) ==
              s.(readers := s.readers[r := s.readers[r].(geometry := Some(Opened(s.slots, s.slotSize)))])
  {
    StepKeepsInv(s, Shm.OpenRing(r));
    hide Open, WriterOk, Ring, Readers, Opened;
  }

  /** A reader with exact arithmetic takes the newest frame's slot to be where it is, inside the mapping. */
  lemma ReadersSlot(s: State, r: Tid)
    requires Inv(s) && s.frames != [] && r in s.readers
    ensures s.readers[r].geometry.Some? && Exact(s.slots, s.slotSize) ==>
              var g, n := s.readers[r].geometry.value, |s.frames|;
              && g.slots > 0 && s.slots > 0 && SlotOffset(n, g.slots, g.slotSize) == SlotOffset(n, s.slots, s.slotSize)
              && SlotOffset(n, g.slots, g.slotSize) + g.slotSize <= |s.mem|
  {
    assert ReaderOk(s.readers[r], s);
    if Exact(s.slots, s.slotSize) {
      ExactOffset(|s.frames|, s.slots, s.slotSize);
      SlotInside(|s.frames|, s.slots, s.slotSize);
      assert s.slotSize % U32 <= s.slotSize;
    }
    hide StepOk, OrderOk, Ring, WriterOk, Open, Exact;
  }

  lemma DeliveredKeepsInv(s: State, r: Tid, meta: SlotHeader, data: seq<byte>)
    requires Inv(s) && s.writer.Resting? && r in s.readers && s.readers[r].last < |s.frames|
    requires Exact(s.slots, s.slotSize) ==> Newest(meta, data) == AnswerTo(s.frames, 0)
    ensures Inv(s.(readers := s.readers[r := Returned(s.readers[r], |s.frames|, meta, data)]))
  {
    var rd := Returned(s.readers[r], |s.frames|, meta, data);
    assert ReaderOk(s.readers[r], s);
    assert ReaderOk(rd, s) by { hide Inv, Exact, Opened; }
    hide Inv, ReaderOk;
    OneReader(s, r, rd);
  }

  lemma AwayKeepsInv(s: State, r: Tid, step: Step)
    requires Inv(s) && r in s.readers && Between(s.readers[r].step) && (step.Away? || step.Refused?)
    ensures Inv(s.(readers := s.readers[r := s.readers[r].(step := step)]))
  {
    var rd := s.readers[r].(step := step);
    assert ReaderOk(s.readers[r], s);
    assert ReaderOk(rd, s) by { hide Inv, Exact, Opened; }
    hide Inv, ReaderOk;
    OneReader(s, r, rd);
  }
}
