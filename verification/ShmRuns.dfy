/** Runs of the shared-memory ring built step by step: what the conditions on timely reads and on the
    geometry are needed for. */
module ShmRuns {
  import opened Bytes
  import opened OptionValue
  import opened Shm
  import Rings

  // ---------------------------------------------------------------- putting runs together

  lemma NoSteps(s: State)
    ensures Feasible(s, []) && Run(s, []) == s
  {
  }

  lemma Cons(s: State, op: Op, ops: seq<Op>)
    requires Enabled(s, op) && Feasible(Apply(s, op), ops)
    ensures Feasible(s, [op] + ops) && Run(s, [op] + ops) == Run(Apply(s, op), ops)
  {
    hide Enabled, Apply;
    assert ([op] + ops)[1..] == ops;
  }

  lemma {:induction false} Append(s: State, ops: seq<Op>, more: seq<Op>)
    requires Feasible(s, ops) && Feasible(Run(s, ops), more)
    ensures Feasible(s, ops + more) && Run(s, ops + more) == Run(Run(s, ops), more)
    decreases |ops|
  {
    hide Enabled, Apply;
    if ops == [] {
      assert [] + more == more;
    } else {
      assert (ops + more)[1..] == ops[1..] + more;
      Append(Apply(s, ops[0]), ops[1..], more);
    }
  }

  lemma One(s: State, op: Op)
    requires Enabled(s, op)
    ensures Feasible(s, [op]) && Run(s, [op]) == Apply(s, op)
  {
    hide Enabled, Apply;
    NoSteps(Apply(s, op));
    Cons(s, op, []);
  }

  // ---------------------------------------------------------------- the writer

  /** The writer at rest with the given frames, the readers as they were. */
  predicate Wrote(s: State, s': State, frames: seq<Frame>) {
    && s'.writer.Resting? && s'.frames == frames && s'.readers == s.readers
    && s'.slots == s.slots && s'.slotSize == s.slotSize
  }

  lemma {:induction false} CopyAll(s: State) returns (ops: seq<Op>)
    requires Inv(s) && s.writer.Copying?
    ensures Feasible(s, ops)
    ensures var s' := Run(s, ops);
            && Inv(s') && s'.writer == Copying(s.writer.num, {}) && s'.frames == s.frames && s'.readers == s.readers
            && s'.slots == s.slots && s'.slotSize == s.slotSize
    decreases s.writer.todo
  {
    if s.writer.todo == {} {
      NoSteps(s);
      ops := [];
    } else {
      var k :| k in s.writer.todo;
      MayCopy(s, k);
      CopiesOne(s, k);
      StepKeepsInv(s, CopyByte(k));
      hide Inv, Enabled, Apply, Run, Feasible;
      ops := CopyAll(Apply(s, CopyByte(k)));
      Cons(s, CopyByte(k), ops);
      ops := [CopyByte(k)] + ops;
    }
  }

  lemma CopiesOne(s: State, k: nat)
    requires Enabled(s, CopyByte(k))
    ensures var s' := Apply(s, CopyByte(k));
            && s'.writer == Copying(s.writer.num, s.writer.todo - {k}) && s'.frames == s.frames
            && s'.readers == s.readers && s'.slots == s.slots && s'.slotSize == s.slotSize
  {
    hide Image, SlotOffset;
  }

  /** A whole write_frame. */
  lemma WriteOne(s: State, frame: Frame) returns (ops: seq<Op>)
    requires Inv(s) && Enabled(s, BeginFrame(frame))
    ensures Feasible(s, ops) && Inv(Run(s, ops)) && Wrote(s, Run(s, ops), s.frames + [frame])
  {
    var begun := Apply(s, BeginFrame(frame));
    StepKeepsInv(s, BeginFrame(frame));
    assert begun.writer.Copying? && begun.frames == s.frames + [frame] && begun.readers == s.readers;
    hide Inv, Run, Feasible, Apply;
    var copies := CopyAll(begun);
    var copied := Run(begun, copies);
    ShapeOf(copied);
    var after := Announce(copied);
    Append(begun, copies, after);
    Cons(s, BeginFrame(frame), copies + after);
    ops := [BeginFrame(frame)] + (copies + after);
    assert begun.slots == s.slots && begun.slotSize == s.slotSize by { StepKeepsShape(s, BeginFrame(frame)); }
  }

  lemma Announce(s: State) returns (ops: seq<Op>)
    requires Inv(s) && s.writer.Copying? && s.writer.todo == {}
    ensures Feasible(s, ops) && Inv(Run(s, ops)) && Wrote(s, Run(s, ops), s.frames)
  {
    hide Splice, LittleEndian, FromLittleEndian, WriterOk, Ring, Readers, Open;
    var stored := Apply(s, StoreSequence);
    StepKeepsInv(s, StoreSequence);
    var announced := Apply(stored, BumpNotify);
    StepKeepsInv(stored, BumpNotify);
    assert Wrote(s, announced, s.frames);
    hide Inv, Run, Feasible, Apply, Enabled;
    One(stored, BumpNotify);
    Cons(s, StoreSequence, [BumpNotify]);
    ops := [StoreSequence] + [BumpNotify];
  }

  function Times(frame: Frame, n: nat): (frames: seq<Frame>)
    ensures |frames| == n
  {
    seq(n, i => frame)
  }

  /** Writing the same frame n times. */
  lemma {:induction false} WriteMany(s: State, frame: Frame, n: nat) returns (ops: seq<Op>)
    requires Inv(s) && s.writer.Resting? && Fits(frame, s.slotSize) && |s.frames| + n < U64
    ensures Feasible(s, ops) && Inv(Run(s, ops)) && Wrote(s, Run(s, ops), s.frames + Times(frame, n))
  {
    hide Run, Feasible;
    ShapeOf(s);
    hide Inv, Shape, Fits;
    if n == 0 {
      NoSteps(s);
      assert s.frames + Times(frame, 0) == s.frames;
      ops := [];
    } else {
      var first := WriteMany(s, frame, n - 1);
      var s' := Run(s, first);
      ShapeOf(s');
      MayBegin(s', frame);
      var last := WriteOne(s', frame);
      Append(s, first, last);
      assert s.frames + Times(frame, n - 1) + [frame] == s.frames + Times(frame, n);
      ops := first + last;
    }
  }

  lemma MayBegin(s: State, frame: Frame)
    requires Shape(s) && s.writer.Resting? && Fits(frame, s.slotSize) && |s.frames| + 1 < U64
    ensures Enabled(s, BeginFrame(frame))
  {
  }

  // ---------------------------------------------------------------- the reader

  /** Only this reader has moved. */
  predicate Moved(s: State, s': State, r: Tid, rd: Reader) {
    r in s.readers && s' == s.(readers := s.readers[r := rd])
  }

  /** Copying the rest of the header, from byte k on. */
  lemma {:induction false} ReadHeader(s: State, r: Tid, k: nat) returns (ops: seq<Op>)
    requires Shape(s) && r in s.readers && s.readers[r].step.InHeader? && HasSlots(s.readers[r]) && k <= HEADER
    requires ReaderOffset(s.readers[r]) + HEADER <= |s.mem|
    requires HeaderCopied(s.readers[r], s.mem, k)
    ensures Feasible(s, ops)
    ensures var rd, at := s.readers[r], ReaderOffset(s.readers[r]);
            Moved(s, Run(s, ops), r, rd.(step := InData(rd.step.num, s.mem[at..at + HEADER], |s.frames|, map[])))
    decreases HEADER - k
  {
    hide SlotOffset, FromLittleEndian, ParseHeader, Run, Feasible;
    var rd, at := s.readers[r], ReaderOffset(s.readers[r]);
    if k == HEADER {
      One(s, EndHeader(r));
      GatherIs(rd.step.got, s.mem[at..at + HEADER]);
      ops := [EndHeader(r)];
    } else {
      var next := Apply(s, HeaderByte(r, k));
      var rd' := rd.(step := InHeader(rd.step.num, rd.step.got[k := s.mem[at + k]]));
      assert next == s.(readers := s.readers[r := rd']);
      assert HeaderCopied(rd', s.mem, k + 1);
      ops := ReadHeader(next, r, k + 1);
      Cons(s, HeaderByte(r, k), ops);
      ops := [HeaderByte(r, k)] + ops;
      var done := rd.(step := InData(rd.step.num, s.mem[at..at + HEADER], |s.frames|, map[]));
      assert next.readers[r := done] == s.readers[r := done];
    }
  }

  ghost predicate HeaderCopied(rd: Reader, mem: seq<byte>, k: nat)
    requires rd.step.InHeader? && HasSlots(rd)
    requires ReaderOffset(rd) + HEADER <= |mem|
  {
    && (forall j: nat :: j in rd.step.got <==> j < k)
    && (forall j: nat :: j < k && j < HEADER && j in rd.step.got ==> rd.step.got[j] == mem[ReaderOffset(rd) + j])
  }

  /** Copying the rest of the payload, from byte k on. */
  lemma {:induction false} ReadData(s: State, r: Tid, k: nat) returns (ops: seq<Op>)
    requires Shape(s) && r in s.readers && s.readers[r].step.InData? && HasSlots(s.readers[r])
    requires |s.readers[r].step.header| == HEADER && k <= PayloadSize(s.readers[r].step.header)
    requires ReaderOffset(s.readers[r]) + HEADER + PayloadSize(s.readers[r].step.header) <= |s.mem|
    requires DataCopied(s.readers[r], s.mem, k)
    ensures Feasible(s, ops)
    ensures var rd, at := s.readers[r], ReaderOffset(s.readers[r]) + HEADER;
            Moved(s, Run(s, ops), r, Finished(rd, s.mem[at..at + PayloadSize(rd.step.header)], |s.frames|))
    decreases PayloadSize(s.readers[r].step.header) - k
  {
    hide SlotOffset, FromLittleEndian, ParseHeader, PayloadSize, Run, Feasible;
    var rd, at := s.readers[r], ReaderOffset(s.readers[r]) + HEADER;
    var size := PayloadSize(rd.step.header);
    if k == size {
      One(s, EndData(r));
      GatherIs(rd.step.got, s.mem[at..at + size]);
      ops := [EndData(r)];
    } else {
      var next := Apply(s, DataByte(r, k));
      var rd' := rd.(step := InData(rd.step.num, rd.step.header, rd.step.from, rd.step.got[k := s.mem[at + k]]));
      assert next == s.(readers := s.readers[r := rd']);
      assert DataCopied(rd', s.mem, k + 1);
      assert Finished(rd', s.mem[at..at + size], |s.frames|) == Finished(rd, s.mem[at..at + size], |s.frames|);
      hide DataCopied, Apply, Enabled, Finished, Shape;
      ops := ReadData(next, r, k + 1);
      Cons(s, DataByte(r, k), ops);
      ops := [DataByte(r, k)] + ops;
      var done := Finished(rd, s.mem[at..at + size], |s.frames|);
      assert next.readers[r := done] == s.readers[r := done];
    }
  }

  ghost predicate DataCopied(rd: Reader, mem: seq<byte>, k: nat)
    requires rd.step.InData? && HasSlots(rd) && |rd.step.header| == HEADER
    requires ReaderOffset(rd) + HEADER + PayloadSize(rd.step.header) <= |mem|
  {
    && (forall j: nat :: j in rd.step.got <==> j < k)
    && (forall j: nat :: j < k && j < PayloadSize(rd.step.header) && j in rd.step.got ==>
          rd.step.got[j] == mem[ReaderOffset(rd) + HEADER + j])
  }

  function Finished(rd: Reader, data: seq<byte>, at: nat): Reader
    requires rd.step.InData? && |rd.step.header| == HEADER
  {
    rd.(last := rd.step.num, returned := rd.returned + [rd.step.num],
        step := Delivered(rd.step.num, ParseHeader(rd.step.header), data, at))
  }

  /** A reader that has only chosen its slot can copy it whole while nothing else happens. */
  lemma ReadSlot(s: State, r: Tid) returns (ops: seq<Op>)
    requires Shape(s) && r in s.readers && s.readers[r].step.InHeader? && HasSlots(s.readers[r])
    requires s.readers[r].step.got == map[] && ReaderOffset(s.readers[r]) + HEADER <= |s.mem|
    requires var at := ReaderOffset(s.readers[r]);
             at + HEADER + PayloadSize(s.mem[at..at + HEADER]) <= |s.mem|
    ensures Feasible(s, ops) && r in Run(s, ops).readers && Run(s, ops).frames == s.frames
    ensures var rd, at := s.readers[r], ReaderOffset(s.readers[r]);
            var header := s.mem[at..at + HEADER];
            Run(s, ops).readers[r].step ==
              Delivered(rd.step.num, ParseHeader(header), s.mem[at + HEADER..at + HEADER + PayloadSize(header)],
                        |s.frames|)
  {
    hide SlotOffset, FromLittleEndian, ParseHeader, PayloadSize, Run, Feasible;
    var first := ReadHeader(s, r, 0);
    var s' := Run(s, first);
    var rest := ReadData(s', r, 0);
    Append(s, first, rest);
    ops := first + rest;
  }

  // ---------------------------------------------------------------- how late a reader may be

  /** The bound on timely reads is tight in every state: if the writer gets through frame num + slots before a
      reader that chose frame num has copied anything, the reader returns that later frame, header and
      payload, as the answer for num. */
  lemma LateReaderGetsAnother(s: State, r: Tid, frame: Frame) returns (ops: seq<Op>)
    requires Inv(s) && Exact(s.slots, s.slotSize) && Enabled(s, BeginFrame(frame))
    requires r in s.readers && s.readers[r].step.InHeader? && s.readers[r].step.got == map[]
    requires |s.frames| + 1 == s.readers[r].step.num + s.slots
    ensures Feasible(s, ops) && r in Run(s, ops).readers
    ensures var num := s.readers[r].step.num;
            var meta := SlotHeader(num + s.slots, frame.timestamp, num + s.slots, |frame.data|, 0);
            Run(s, ops).readers[r].step == Delivered(num, meta, frame.data, num + s.slots)
  {
    var num := s.readers[r].step.num;
    ChosenSlot(s, r, num + s.slots);
    hide Run, Feasible, Inv, Exact, SlotOffset, ReaderOffset;
    var write := WriteOne(s, frame);
    var read := ReadNewest(Run(s, write), r);
    Append(s, write, read);
    ops := write + read;
  }

  /** A reader with exact arithmetic looks where every frame number of its slot is. */
  lemma ChosenSlot(s: State, r: Tid, n: nat)
    requires Inv(s) && Exact(s.slots, s.slotSize) && r in s.readers && s.readers[r].step.InHeader?
    requires n == s.readers[r].step.num + s.slots
    ensures HasSlots(s.readers[r]) && s.slots > 0
    ensures ReaderOffset(s.readers[r]) == SlotOffset(n, s.slots, s.slotSize)
  {
    var rd := s.readers[r];
    assert ReaderOk(rd, s);
    ExactOffset(rd.step.num, s.slots, s.slotSize);
    Rings.NextInSlot(rd.step.num, s.slots);
    hide StepOk, OrderOk, Ring, WriterOk, Open, Exact;
  }

  /** A reader whose slot is the newest frame's copies that frame. */
  lemma ReadNewest(s: State, r: Tid) returns (ops: seq<Op>)
    requires Inv(s) && s.writer.Resting? && s.frames != [] && s.slots > 0
    requires r in s.readers && s.readers[r].step.InHeader? && s.readers[r].step.got == map[] && HasSlots(s.readers[r])
    requires ReaderOffset(s.readers[r]) == SlotOffset(|s.frames|, s.slots, s.slotSize)
    ensures Feasible(s, ops) && r in Run(s, ops).readers
    ensures var n, frame := |s.frames|, s.frames[|s.frames| - 1];
            Run(s, ops).readers[r].step ==
              Delivered(s.readers[r].step.num, SlotHeader(n, frame.timestamp, n, |frame.data|, 0), frame.data, n)
  {
    LatestSlot(s);
    NewestHeader(s);
    ShapeOf(s);
    hide Run, Feasible, Inv, Shape, ParseHeader, PayloadSize, Image, SlotOffset, ReaderOffset;
    ops := ReadSlot(s, r);
  }

  const BLANK := Frame(0, [])

  lemma BlankFits(s: State)
    requires Shape(s)
    ensures Fits(BLANK, s.slotSize)
  {
  }

  /** Opening the ring and writing n blank frames. */
  lemma OpenAndWrite(s: State, r: Tid, n: nat) returns (ops: seq<Op>)
    requires Inv(s) && s.writer.Resting? && s.frames == [] && r in s.readers && n < U64
    requires s.readers[r] == Reader(None, 0, Away, [])
    ensures Feasible(s, ops) && Inv(Run(s, ops))
    ensures var s' := Run(s, ops);
            && s'.writer.Resting? && s'.frames == Times(BLANK, n) && s'.slots == s.slots && s'.slotSize == s.slotSize
            && r in s'.readers && s'.readers[r] == Reader(Some(Opened(s.slots, s.slotSize)), 0, Away, [])
  {
    hide Open, WriterOk, Ring, Readers, Opened;
    var s1 := Apply(s, OpenRing(r));
    StepKeepsInv(s, OpenRing(r));
    ShapeOf(s);
    BlankFits(s);
    assert s1.readers[r] == Reader(Some(Opened(s.slots, s.slotSize)), 0, Away, []);
    hide Inv, Run, Feasible, Apply, Enabled;
    StepKeepsShape(s, OpenRing(r));
    assert s1.frames == [] && s1.writer.Resting? by { OpensOnly(s, r); }
    var write := WriteMany(s1, BLANK, n);
    Cons(s, OpenRing(r), write);
    assert [] + Times(BLANK, n) == Times(BLANK, n);
    ops := [OpenRing(r)] + write;
  }

  lemma OpensOnly(s: State, r: Tid)
    requires Enabled(s, OpenRing(r))
    ensures var s' := Apply(s, OpenRing(r)); s'.frames == s.frames && s'.writer == s.writer
  {
    hide Open;
  }

  /** With the writer at rest an opened reader that has seen nothing chooses the newest frame. */
  lemma ChoosesNewest(s: State, r: Tid)
    requires Inv(s) && s.writer.Resting? && s.frames != [] && r in s.readers
    requires s.readers[r] == Reader(Some(Opened(s.slots, s.slotSize)), 0, Away, [])
    ensures Enabled(s, LoadSequence(r))
    ensures var s', g := Apply(s, LoadSequence(r)), Opened(s.slots, s.slotSize);
            && s' == s.(readers := s.readers[r := s.readers[r].(step := s'.readers[r].step)])
            && s'.readers[r].step ==
               (if g.slots == 0 then Panicked
                else if SlotOffset(|s.frames|, g.slots, g.slotSize) + g.slotSize > |s.mem| then Refused
                else InHeader(|s.frames|, map[]))
  {
    LoadedSequence(s);
    hide FromLittleEndian, LittleEndian, SlotOffset, Opened, Ring, Readers, Open;
  }

  lemma ExactStaysInside(s: State, num: nat)
    requires Shape(s) && Exact(s.slots, s.slotSize)
    ensures var g := Opened(s.slots, s.slotSize);
            g.slots == s.slots && SlotOffset(num, g.slots, g.slotSize) + g.slotSize <= |s.mem|
  {
    ExactOffset(num, s.slots, s.slotSize);
    SlotInside(num, s.slots, s.slotSize);
    ModuloBelow(s.slotSize);
  }

  lemma ModuloBelow(n: nat)
    ensures n % U32 <= n
  {
    assert n == U32 * (n / U32) + n % U32;
  }

  /** The bound is tight for every geometry the readers are exact for: this run, from a fresh ring, ends with a
      reader returning frame 1 + slots as frame 1, when exactly 1 + slots frames had begun. */
  lemma TightForEveryGeometry(width: nat, height: nat, format: nat, requested: nat) returns (ops: seq<Op>)
    requires Exact(SlotCount(requested), HEADER + FrameBytes(width, height, format))
    ensures var s0 := Init(width, height, format, requested, {0});
            && Feasible(s0, ops) && 0 in Run(s0, ops).readers
            && Run(s0, ops).readers[0].step ==
                 Delivered(1, SlotHeader(1 + s0.slots, 0, 1 + s0.slots, 0, 0), [], 1 + s0.slots)
  {
    var s0 := Init(width, height, format, requested, {0});
    InitInv(width, height, format, requested, {0});
    FreshRing(width, height, format, requested);
    hide Init, Inv, Run, Feasible, FrameBytes, SlotCount, Exact;
    ops := TightRun(s0);
  }

  lemma FreshRing(width: nat, height: nat, format: nat, requested: nat)
    ensures var s := Init(width, height, format, requested, {0});
            && s.slots == SlotCount(requested) && s.slotSize == HEADER + FrameBytes(width, height, format)
            && s.frames == [] && s.writer.Resting? && 0 in s.readers && s.readers[0] == Reader(None, 0, Away, [])
  {
    hide FrameBytes, GlobalHeader;
  }

  lemma TightRun(s: State) returns (ops: seq<Op>)
    requires Inv(s) && Exact(s.slots, s.slotSize) && s.writer.Resting? && s.frames == []
    requires 0 in s.readers && s.readers[0] == Reader(None, 0, Away, [])
    ensures Feasible(s, ops) && 0 in Run(s, ops).readers
    ensures Run(s, ops).readers[0].step == Delivered(1, SlotHeader(1 + s.slots, 0, 1 + s.slots, 0, 0), [], 1 + s.slots)
  {
    assert s.slots < U32;
    hide Inv, Run, Feasible, Exact, Opened, Times;
    var first := OpenAndWrite(s, 0, 1);
    var last := LoadAndReadLate(Run(s, first), s.slots);
    Append(s, first, last);
    ops := first + last;
  }

  lemma LoadAndReadLate(s: State, slots: nat) returns (ops: seq<Op>)
    requires Inv(s) && Exact(s.slots, s.slotSize) && s.slots == slots < U32 && s.writer.Resting?
    requires s.frames == Times(BLANK, 1) && 0 in s.readers
    requires s.readers[0] == Reader(Some(Opened(s.slots, s.slotSize)), 0, Away, [])
    ensures Feasible(s, ops) && 0 in Run(s, ops).readers
    ensures Run(s, ops).readers[0].step == Delivered(1, SlotHeader(1 + slots, 0, 1 + slots, 0, 0), [], 1 + slots)
  {
    hide Run, Feasible, Inv, Exact;
    ShapeOf(s);
    ChoosesNewest(s, 0);
    ExactStaysInside(s, 1);
    StepKeepsInv(s, LoadSequence(0));
    var s' := Apply(s, LoadSequence(0));
    hide Apply, Enabled, Opened, Shape, SlotOffset, Times;
    assert s'.readers[0].step == InHeader(1, map[]) && s'.slots == slots && s'.slotSize == s.slotSize;
    One(s, LoadSequence(0));
    var last := FillAndReadLate(s', 0);
    Append(s, [LoadSequence(0)], last);
    ops := [LoadSequence(0)] + last;
  }

  lemma FillAndReadLate(s: State, r: Tid) returns (ops: seq<Op>)
    requires Inv(s) && Exact(s.slots, s.slotSize) && s.slots < U32 && s.writer.Resting? && |s.frames| == 1
    requires r in s.readers && s.readers[r].step == InHeader(1, map[])
    ensures Feasible(s, ops) && r in Run(s, ops).readers
    ensures Run(s, ops).readers[r].step ==
              Delivered(1, SlotHeader(1 + s.slots, 0, 1 + s.slots, 0, 0), [], 1 + s.slots)
  {
    ShapeOf(s);
    BlankFits(s);
    hide Inv, Run, Feasible, Exact;
    var fill := WriteMany(s, BLANK, s.slots - 1);
    var s' := Run(s, fill);
    ShapeOf(s');
    MayBegin(s', BLANK);
    var late := LateReaderGetsAnother(s', r, BLANK);
    Append(s, fill, late);
    ops := fill + late;
  }

  // ---------------------------------------------------------------- geometries that do not fit

  /** While fewer frames than slots have begun, slot 0 is as it was created. */
  ghost predicate SlotZeroBlank(s: State) {
    |s.mem| >= HEADER + s.slotSize
    && (|s.frames| < s.slots ==> forall i :: HEADER <= i < HEADER + s.slotSize ==> s.mem[i] == 0)
  }

  lemma StepKeepsBlank(s: State, op: Op)
    requires Inv(s) && Enabled(s, op) && SlotZeroBlank(s)
    ensures SlotZeroBlank(Apply(s, op))
  {
    if op.CopyByte? && |s.frames| < s.slots {
      OffsetBeyondFirst(|s.frames|, s.slots, s.slotSize);
    }
    hide Inv, Image, SlotOffset, ReaderNext, LittleEndian, FromLittleEndian;
  }

  lemma OffsetBeyondFirst(num: nat, slots: nat, slotSize: nat)
    requires 1 <= num < slots
    ensures SlotOffset(num, slots, slotSize) >= HEADER + slotSize
  {
    SmallModulo(num, slots);
    MulLe(slotSize, 1, num);
  }

  lemma {:induction false} RunKeepsBlank(s: State, ops: seq<Op>)
    requires Inv(s) && SlotZeroBlank(s) && Feasible(s, ops)
    ensures SlotZeroBlank(Run(s, ops))
    decreases |ops|
  {
    hide Inv, Enabled, Apply, SlotZeroBlank;
    if ops != [] {
      StepKeepsBlank(s, ops[0]);
      StepKeepsInv(s, ops[0]);
      RunKeepsBlank(Apply(s, ops[0]), ops[1..]);
    }
  }

  lemma InitBlank(width: nat, height: nat, format: nat, requested: nat, readers: set<Tid>)
    ensures SlotZeroBlank(Init(width, height, format, requested, readers))
  {
    var s := Init(width, height, format, requested, readers);
    MulLe(s.slotSize, 1, s.slots);
    hide FrameBytes, GlobalHeader;
  }

  /** A header of zero bytes reads as all zeros. */
  lemma ZeroHeader(b: seq<byte>)
    requires |b| == HEADER && forall i :: 0 <= i < HEADER ==> b[i] == 0
    ensures ParseHeader(b) == SlotHeader(0, 0, 0, 0, 0) && PayloadSize(b) == 0
  {
    ZeroValue(b[..8]);
    ZeroValue(b[8..16]);
    ZeroValue(b[16..24]);
    ZeroValue(b[24..28]);
    ZeroValue(b[28..32]);
    hide FromLittleEndian;
  }

  lemma {:induction false} ZeroValue(b: seq<byte>)
    requires forall i :: 0 <= i < |b| ==> b[i] == 0
    ensures FromLittleEndian(b) == 0
  {
    if b != [] { ZeroValue(b[1..]); }
  }

  /** A frame number whose slot a reader with the truncated geometry looks for in the writer's slot 0. */
  function Misplaced(slots: nat): nat {
    if slots >= U32 && slots % U32 > 0 then slots % U32 else 1
  }

  lemma LooksInSlotZero(s: State)
    requires Shape(s) && !Exact(s.slots, s.slotSize) && s.slots % U32 > 0
    ensures var c, g := Misplaced(s.slots), Opened(s.slots, s.slotSize);
            && 1 <= c < s.slots
            && SlotOffset(c, g.slots, g.slotSize) + HEADER <= HEADER + s.slotSize
            && SlotOffset(c, g.slots, g.slotSize) + g.slotSize <= |s.mem|
  {
    var c, g := Misplaced(s.slots), Opened(s.slots, s.slotSize);
    ModuloBelow(s.slotSize);
    MulLe(s.slotSize, 1, s.slots);
    if s.slots >= U32 {
      Bytes.ModUnique(c, g.slots, 1, 0);
      ZeroTimes(g.slotSize);
    } else {
      SmallModulo(s.slots, U32);
      SmallModulo(1, s.slots);
      SizeWraps(s.slotSize);
      MulLe(s.slotSize, 2, s.slots);
    }
  }

  lemma ZeroTimes(n: nat)
    ensures n * 0 == 0
  {
  }

  lemma SizeWraps(slotSize: nat)
    requires U32 <= slotSize < HEADER + U32
    ensures slotSize % U32 == slotSize - U32 < HEADER
  {
    ModUnique(slotSize, U32, 1, slotSize - U32);
  }

  /** Whenever the readers' arithmetic is not exact, timely reads fail: this run ends with a reader that either
      found a slot count of 0, or finished reading frame c before any other began and returned all zeros. */
  lemma InexactReadersFail(width: nat, height: nat, format: nat, requested: nat) returns (ops: seq<Op>)
    requires SlotCount(requested) < U64
    requires !Exact(SlotCount(requested), HEADER + FrameBytes(width, height, format))
    ensures var s0 := Init(width, height, format, requested, {0});
            var c := Misplaced(s0.slots);
            && Feasible(s0, ops) && 0 in Run(s0, ops).readers && 1 <= c == |Run(s0, ops).frames|
            && Run(s0, ops).readers[0].step ==
                 if s0.slots % U32 == 0 then Panicked else Delivered(c, SlotHeader(0, 0, 0, 0, 0), [], c)
  {
    var s0 := Init(width, height, format, requested, {0});
    InitInv(width, height, format, requested, {0});
    InitBlank(width, height, format, requested, {0});
    assert s0.readers[0] == Reader(None, 0, Away, []) && s0.frames == [] && s0.writer.Resting?;
    assert !Exact(s0.slots, s0.slotSize) && Opened(s0.slots, s0.slotSize).slots == s0.slots % U32;
    var c := Misplaced(s0.slots);
    assert 1 <= c < U32;
    hide Init, Inv, Run, Feasible, FrameBytes, Exact, SlotZeroBlank, Misplaced;
    var first := OpenAndWrite(s0, 0, c);
    var s1 := Run(s0, first);
    RunKeepsBlank(s0, first);
    ShapeOf(s1);
    ChoosesNewest(s1, 0);
    One(s1, LoadSequence(0));
    if s0.slots % U32 == 0 {
      Append(s0, first, [LoadSequence(0)]);
      ops := first + [LoadSequence(0)];
    } else {
      LooksInSlotZero(s1);
      var last := ReadsZeros(s1, c);
      hide Apply, Enabled;
      Append(s1, [LoadSequence(0)], last);
      Append(s0, first, [LoadSequence(0)] + last);
      ops := first + ([LoadSequence(0)] + last);
    }
  }

  lemma ReadsZeros(s: State, c: nat) returns (ops: seq<Op>)
    requires Inv(s) && SlotZeroBlank(s) && s.writer.Resting? && |s.frames| == c && 1 <= c < s.slots && 0 in s.readers
    requires s.readers[0] == Reader(Some(Opened(s.slots, s.slotSize)), 0, Away, [])
    requires var g := Opened(s.slots, s.slotSize);
             && g.slots > 0 && SlotOffset(c, g.slots, g.slotSize) + HEADER <= HEADER + s.slotSize
             && SlotOffset(c, g.slots, g.slotSize) + g.slotSize <= |s.mem|
    ensures Enabled(s, LoadSequence(0)) && Feasible(Apply(s, LoadSequence(0)), ops)
    ensures var s' := Run(Apply(s, LoadSequence(0)), ops);
            && 0 in s'.readers && s'.readers[0].step == Delivered(c, SlotHeader(0, 0, 0, 0, 0), [], c)
            && s'.frames == s.frames
  {
    ShapeOf(s);
    ChoosesNewest(s, 0);
    var g := Opened(s.slots, s.slotSize);
    var at := SlotOffset(c, g.slots, g.slotSize);
    AboveHeader(c, g.slots, g.slotSize);
    BlankSlot(s, at);
    var s' := Apply(s, LoadSequence(0));
    assert s'.mem == s.mem && s'.frames == s.frames && Shape(s') && s'.readers[0].step == InHeader(c, map[]);
    assert HasSlots(s'.readers[0]) && ReaderOffset(s'.readers[0]) == at;
    hide Inv, Run, Feasible, SlotOffset, Opened, Apply, Enabled, ParseHeader, PayloadSize;
    hide ReaderOffset, SlotZeroBlank, Shape, HasSlots;
    ops := ReadBlank(s', at);
  }

  /** Bytes read from the blank slot 0 are a blank header. */
  lemma BlankSlot(s: State, at: nat)
    requires SlotZeroBlank(s) && |s.frames| < s.slots && HEADER <= at && at + HEADER <= HEADER + s.slotSize
    ensures at + HEADER <= |s.mem|
    ensures ParseHeader(s.mem[at..at + HEADER]) == SlotHeader(0, 0, 0, 0, 0) && PayloadSize(s.mem[at..at + HEADER]) == 0
  {
    hide ParseHeader, PayloadSize;
    ZeroHeader(s.mem[at..at + HEADER]);
  }

  lemma ReadBlank(s: State, at: nat) returns (ops: seq<Op>)
    requires Shape(s) && 0 in s.readers && s.readers[0].step.InHeader? && HasSlots(s.readers[0])
    requires s.readers[0].step.got == map[] && ReaderOffset(s.readers[0]) == at && at + HEADER <= |s.mem|
    requires ParseHeader(s.mem[at..at + HEADER]) == SlotHeader(0, 0, 0, 0, 0)
    requires PayloadSize(s.mem[at..at + HEADER]) == 0
    ensures Feasible(s, ops) && 0 in Run(s, ops).readers && Run(s, ops).frames == s.frames
    ensures Run(s, ops).readers[0].step == Delivered(s.readers[0].step.num, SlotHeader(0, 0, 0, 0, 0), [], |s.frames|)
  {
    hide Shape, HasSlots, ReaderOffset, ParseHeader, PayloadSize, Run, Feasible;
    assert s.mem[at + HEADER..at + HEADER + 0] == [];
    ops := ReadSlot(s, 0);
  }
}
