/** Where everything is in a ring's mapping, byte by byte, and how large a frame it takes: stated with plain
    offsets, as a reader written in another language needs them. */
module ShmLayout {
  import opened Bytes
  import opened Shm

  // ---------------------------------------------------------------- frames that fit

  /** The bytes of a whole frame: four a pixel in format 4, three in any other. */
  function WholeFrame(width: nat, height: nat, format: nat): nat {
    if format == 4 then width * height * 4 else width * height * 3
  }

  lemma SlotOfFrame(width: nat, height: nat, format: nat, requested: nat, readers: set<Tid>)
    ensures Init(width, height, format, requested, readers).slotSize == 64 + WholeFrame(width, height, format) % U32
  {
  }

  /** A ring takes a whole frame of its own width and height, and not one byte more, at every moment of every
      run. This holds exactly if the frame has less than 2^32 bytes: a larger one is cut to its low 32 bits
      when the ring is created, and then no whole frame fits. */
  lemma WholeFramesFit(
    width: nat, height: nat, format: nat, requested: nat, readers: set<Tid>, ops: seq<Op>, frame: Frame)
    requires Feasible(Init(width, height, format, requested, readers), ops) && frame.timestamp < U64
    ensures var s := Run(Init(width, height, format, requested, readers), ops);
            var whole := WholeFrame(width, height, format);
            && (whole < U32 ==> (Fits(frame, s.slotSize) <==> |frame.data| <= whole))
            && (|frame.data| == whole ==> (Fits(frame, s.slotSize) <==> whole < U32))
  {
    var whole := WholeFrame(width, height, format);
    SlotOfFrame(width, height, format, requested, readers);
    RunKeepsShape(Init(width, height, format, requested, readers), ops);
    hide Feasible, Run, Init, WholeFrame;
    if whole < U32 { SmallModulo(whole, U32); }
  }

  // ---------------------------------------------------------------- the global header

  /** The frames whose number has been announced on the notify word. */
  function Announced(s: State): nat {
    if s.writer.Resting? || s.frames == [] then |s.frames| else |s.frames| - 1
  }

  predicate HeaderStart(mem: seq<byte>, width: nat, height: nat, format: nat, slots: nat, slotSize: nat) {
    |mem| >= 64 && mem[..28] == [0x52, 0x44, 0x59, 0x48] + [1, 0, 0, 0] + Little4(width) + Little4(height)
                               + Little4(format) + Little4(slots) + Little4(slotSize)
  }

  predicate WordCounts(s: State) {
    && |s.mem| >= 64 && s.mem[28..32] == Little4(Announced(s))
    && (!s.writer.Resting? ==> s.frames != [])
  }

  lemma StepKeepsWord(s: State, op: Op)
    requires Inv(s) && Enabled(s, op) && WordCounts(s)
    ensures WordCounts(Apply(s, op))
  {
    hide Little4, LittleEndian, FromLittleEndian, Image, SlotOffset, ReaderNext, Ring, Readers, Open;
    var s' := Apply(s, op);
    match op
    case CopyByte(k) =>
      AboveHeader(|s.frames|, s.slots, s.slotSize);
      SameWord(s.mem, s'.mem);
    case StoreSequence => SameWord(s.mem, s'.mem);
    case BumpNotify => BumpedWord(s);
    case _ => SameWord(s.mem, s'.mem);
  }

  lemma SameWord(mem: seq<byte>, mem': seq<byte>)
    requires |mem'| == |mem| >= 64 && forall i :: 28 <= i < 32 ==> mem'[i] == mem[i]
    ensures mem'[28..32] == mem[28..32]
  {
  }

  lemma BumpedWord(s: State)
    requires |s.mem| >= 64 && WordCounts(s) && s.writer.Notifying? && Enabled(s, BumpNotify)
    ensures WordCounts(Apply(s, BumpNotify))
  {
    var was := FromLittleEndian(s.mem[28..32]);
    WrittenOutRead(Announced(s));
    WrittenOut(was + 1);
    NextWord(Announced(s));
    hide Little4, LittleEndian, FromLittleEndian;
    assert NOTIFY == 28 && Apply(s, BumpNotify) == Notified(s);
    WordSpliced(s.mem, 28, LittleEndian(was + 1, 4));
    hide Splice, Enabled;
  }

  lemma NextWord(n: nat)
    ensures Little4(n % U32 + 1) == Little4(n + 1)
  {
    WrittenOut(n % U32 + 1);
    WrittenOut(n + 1);
    Widths();
    LittleEndianModulo(n % U32 + 1, 4);
    LittleEndianModulo(n + 1, 4);
    hide LittleEndian, Little4, Power256;
    SameResidue(n, U32);
  }

  lemma SameResidue(n: nat, d: nat)
    requires d > 0
    ensures (n % d + 1) % d == (n + 1) % d
  {
    var q, r := n / d, n % d;
    if r + 1 < d {
      ModUnique(n + 1, d, q, r + 1);
      SmallModulo(r + 1, d);
    } else {
      assert d * (q + 1) == d * q + d;
      ModUnique(n + 1, d, q + 1, 0);
    }
  }

  lemma {:induction false} RunKeepsWord(s: State, ops: seq<Op>)
    requires Inv(s) && Feasible(s, ops) && WordCounts(s)
    ensures Inv(Run(s, ops)) && WordCounts(Run(s, ops))
    decreases |ops|
  {
    hide Inv, Enabled, Apply, WordCounts;
    if ops != [] {
      StepKeepsInv(s, ops[0]);
      StepKeepsWord(s, ops[0]);
      RunKeepsWord(Apply(s, ops[0]), ops[1..]);
    }
  }

  lemma {:induction false} RunKeepsStart(s: State, ops: seq<Op>)
    requires Feasible(s, ops) && |s.mem| >= 64
    ensures |Run(s, ops).mem| == |s.mem| && Run(s, ops).mem[..28] == s.mem[..28]
    decreases |ops|
  {
    if ops != [] {
      StepKeepsPrefix(s, ops[0]);
      StepKeepsShape(s, ops[0]);
      hide Enabled, Apply;
      RunKeepsStart(Apply(s, ops[0]), ops[1..]);
    }
  }

  lemma InitStart(width: nat, height: nat, format: nat, requested: nat, readers: set<Tid>)
    ensures var s := Init(width, height, format, requested, readers);
            HeaderStart(s.mem, width, height, format, s.slots, s.slotSize) && WordCounts(s)
  {
    var s := Init(width, height, format, requested, readers);
    Constants();
    HeaderWords(width, height, format, s.slots, s.slotSize);
    hide FrameBytes, SlotCount, Little4, GlobalHeader;
    StartOf(Little4(MAGIC), Little4(VERSION), Little4(width), Little4(height), Little4(format), Little4(s.slots),
            Little4(s.slotSize), Zeros(s.slotSize * s.slots));
  }

  lemma Constants()
    ensures Little4(MAGIC) == [0x52, 0x44, 0x59, 0x48] && Little4(VERSION) == [1, 0, 0, 0] && Little4(0) == [0, 0, 0, 0]
  {
  }

  lemma HeaderWords(width: nat, height: nat, format: nat, slots: nat, slotSize: nat)
    ensures GlobalHeader(width, height, format, slots, slotSize)
         == Little4(MAGIC) + Little4(VERSION) + Little4(width) + Little4(height) + Little4(format) + Little4(slots)
            + Little4(slotSize) + Zeros(36)
  {
    WrittenOut(MAGIC);
    WrittenOut(VERSION);
    WrittenOut(width);
    WrittenOut(height);
    WrittenOut(format);
    WrittenOut(slots);
    WrittenOut(slotSize);
    hide LittleEndian, Little4;
  }

  lemma StartOf(a: seq<byte>, b: seq<byte>, c: seq<byte>, d: seq<byte>, e: seq<byte>, f: seq<byte>, g: seq<byte>,
                rest: seq<byte>)
    requires |a| == |b| == |c| == |d| == |e| == |f| == |g| == 4
    ensures var mem, start := a + b + c + d + e + f + g + Zeros(36) + rest, a + b + c + d + e + f + g;
            mem[..28] == start && mem[28..32] == [0, 0, 0, 0]
  {
    var start := a + b + c + d + e + f + g;
    assert (start + Zeros(36) + rest)[..28] == start;
  }

  /** The global header at every moment of every run: magic, version, width, height, format, slot count and slot
      size in this order from byte 0, the notify word at byte 28, counting the announced frames in 32 bits, and
      the sequence number of the newest published frame at byte 32. */
  lemma HeaderIsLaidOut(width: nat, height: nat, format: nat, requested: nat, readers: set<Tid>, ops: seq<Op>)
    requires Feasible(Init(width, height, format, requested, readers), ops)
    ensures var s := Run(Init(width, height, format, requested, readers), ops);
            && HeaderStart(s.mem, width, height, format, if requested == 0 then 16 else requested,
                           64 + WholeFrame(width, height, format) % U32)
            && s.mem[28..32] == Little4(Announced(s))
            && s.mem[32..40] == LittleEndian(Stored(s), 8)
  {
    var init := Init(width, height, format, requested, readers);
    InitStart(width, height, format, requested, readers);
    InitInv(width, height, format, requested, readers);
    RunKeepsWord(init, ops);
    RunKeepsStart(init, ops);
    SlotOfFrame(width, height, format, requested, readers);
    assert init.slots == if requested == 0 then 16 else requested;
    hide Init, Run, Feasible, Little4, LittleEndian, WholeFrame, Ring, Readers, Open;
  }

  // ---------------------------------------------------------------- the slots

  /** A frame's slot: its number at byte 0 and again at 16, its timestamp at 8, its length at 24, no flags, and its
      bytes from 64 on. */
  ghost predicate FrameAt(mem: seq<byte>, at: nat, num: nat, frame: Frame) {
    && at + 64 + |frame.data| <= |mem|
    && mem[at..at + 8] == LittleEndian(num, 8) && mem[at + 8..at + 16] == LittleEndian(frame.timestamp, 8)
    && mem[at + 16..at + 24] == LittleEndian(num, 8)
    && mem[at + 24..at + 32] == Little4(|frame.data|) + [0, 0, 0, 0]
    && mem[at + 64..at + 64 + |frame.data|] == frame.data
  }

  /** With the writer at rest each of the last frames is in the slot of its number modulo the slot count, slots
      following the global header. */
  lemma FramesAreInTheirSlots(
    width: nat, height: nat, format: nat, requested: nat, readers: set<Tid>, ops: seq<Op>, num: nat)
    requires Feasible(Init(width, height, format, requested, readers), ops)
    requires var s := Run(Init(width, height, format, requested, readers), ops);
             s.writer.Resting? && 1 <= num <= |s.frames| < num + s.slots
    ensures var s := Run(Init(width, height, format, requested, readers), ops);
            s.slots > 0 && FrameAt(s.mem, 64 + s.slotSize * (num % s.slots), num, s.frames[num - 1])
  {
    var s := Run(Init(width, height, format, requested, readers), ops);
    InitInv(width, height, format, requested, readers);
    RunKeepsInv(Init(width, height, format, requested, readers), ops);
    hide Run, Feasible, Init, Inv;
    FrameInItsSlot(s, num);
  }

  lemma FrameInItsSlot(s: State, num: nat)
    requires Inv(s) && s.writer.Resting? && 1 <= num <= |s.frames| < num + s.slots
    ensures s.slots > 0 && FrameAt(s.mem, 64 + s.slotSize * (num % s.slots), num, s.frames[num - 1])
  {
    assert Recent(num, |s.frames|, s.slots);
    assert Holds(s.mem, SlotOffset(num, s.slots, s.slotSize), Image(num, s.frames[num - 1]), {});
    var at := SlotOffset(num, s.slots, s.slotSize);
    assert at == 64 + s.slotSize * (num % s.slots);
    hide Inv, FrameAt, Image, SlotOffset;
    ImageBytes(s.mem, at, num, s.frames[num - 1]);
  }

  lemma ImageBytes(mem: seq<byte>, at: nat, num: nat, frame: Frame)
    requires Holds(mem, at, Image(num, frame), {})
    ensures FrameAt(mem, at, num, frame)
  {
    var header := HeaderBytes(num, frame.timestamp, |frame.data|);
    HeaderParts(num, frame.timestamp, |frame.data|);
    Halves(mem, at, header, frame.data);
    hide Little4, LittleEndian, HeaderBytes, Holds;
    Quarters(mem, at);
  }

  lemma HeaderParts(num: nat, timestamp: nat, size: nat)
    ensures var b := HeaderBytes(num, timestamp, size);
            && b[..8] == LittleEndian(num, 8) && b[8..16] == LittleEndian(timestamp, 8)
            && b[16..24] == LittleEndian(num, 8) && b[24..32] == Little4(size) + [0, 0, 0, 0]
  {
    HeaderFields(num, timestamp, size);
    WrittenOut(size);
    WrittenOut(0);
    Constants();
    hide *;
    Joined(HeaderBytes(num, timestamp, size));
  }

  lemma Joined(b: seq<byte>)
    requires |b| >= 32
    ensures b[24..32] == b[24..28] + b[28..32]
  {
  }

  lemma Halves(mem: seq<byte>, at: nat, header: seq<byte>, data: seq<byte>)
    requires Holds(mem, at, header + data, {}) && |header| == 64
    ensures at + 64 + |data| <= |mem| && mem[at..at + 64] == header && mem[at + 64..at + 64 + |data|] == data
  {
    HeldSlices(mem, at, header + data);
    assert (header + data)[..64] == header && (header + data)[64..] == data;
  }

  lemma Quarters(mem: seq<byte>, at: nat)
    requires at + 64 <= |mem|
    ensures var b := mem[at..at + 64];
            && mem[at..at + 8] == b[..8] && mem[at + 8..at + 16] == b[8..16] && mem[at + 16..at + 24] == b[16..24]
            && mem[at + 24..at + 32] == b[24..32]
  {
    SubSlice(mem, at, 0, 8);
    SubSlice(mem, at, 8, 16);
    SubSlice(mem, at, 16, 24);
    SubSlice(mem, at, 24, 32);
  }

  lemma SubSlice(mem: seq<byte>, at: nat, i: nat, j: nat)
    requires at + 64 <= |mem| && i <= j <= 64
    ensures mem[at..at + 64][i..j] == mem[at + i..at + j]
  {
    var a, b := mem[at..at + 64][i..j], mem[at + i..at + j];
    forall k | 0 <= k < j - i
      ensures a[k] == b[k]
    {
      assert mem[at..at + 64][i + k] == mem[at + i + k];
    }
  }
}
