/** The shared-memory ring: one writer and any number of readers stepping through the mapped bytes, one
    byte or one atomic word a step, in any order the copies may choose. */
module Shm {
  import opened Bytes
  import opened OptionValue
  import Rings

  type Tid = nat

  const HEADER: nat := 64      // size of the global header and of a slot header
  const NOTIFY: nat := 28      // offset of notify_seq
  const SEQUENCE: nat := 32    // offset of write_sequence
  const MAGIC: nat := 0x4859_4452
  const VERSION: nat := 1

  datatype Frame = Frame(timestamp: nat, data: seq<byte>)

  datatype SlotHeader = SlotHeader(sequence: nat, timestamp: nat, frameIndex: nat, payloadSize: nat, flags: nat)

  datatype Writer =
    | Resting
    | Copying(num: nat, todo: set<nat>)  // bytes of the slot's image still to be written
    | Notifying                          // stored the sequence, about to bump notify_seq

  /** What a reader takes from the global header when it opens the ring. */
  datatype Geometry = Geometry(slots: nat, slotSize: nat)

  datatype Step =
    | Away
    | InHeader(num: nat, got: map<nat, byte>)  // loaded num, copying the slot header
    | InData(num: nat, header: seq<byte>, from: nat, got: map<nat, byte>)  // copying the payload; the header was
                                               // complete when `from` frames had begun
    | Delivered(num: nat, meta: SlotHeader, data: seq<byte>, at: nat)  // done, when `at` frames had begun
    | Refused                                  // the slot does not fit the mapping
    | Panicked                                 // the slot count read was 0

  /** `geometry` is what the reader opened the ring with, `last` is last_seen_seq and `returned` the sequence
      numbers returned so far. */
  datatype Reader = Reader(geometry: Option<Geometry>, last: nat, step: Step, returned: seq<nat>)

  /** `frames` lists the frames begun, so its length is frame_counter. */
  datatype State = State(
    slots: nat, slotSize: nat, mem: seq<byte>, writer: Writer, frames: seq<Frame>, readers: map<Tid, Reader>)

  datatype Op =
    | BeginFrame(frame: Frame)
    | CopyByte(k: nat)
    | StoreSequence
    | BumpNotify
    | OpenRing(r: Tid)
    | LoadSequence(r: Tid)
    | HeaderByte(r: Tid, k: nat)
    | EndHeader(r: Tid)
    | DataByte(r: Tid, k: nat)
    | EndData(r: Tid)

  // ---------------------------------------------------------------- layout

  function SlotOffset(num: nat, slots: nat, slotSize: nat): nat
    requires slots > 0
  {
    HEADER + slotSize * (num % slots)
  }

  function Size(slots: nat, slotSize: nat): nat {
    HEADER + slotSize * slots
  }

  function Zeros(n: nat): (z: seq<byte>)
    ensures |z| == n
  {
    seq(n, i => 0)
  }

  function HeaderBytes(num: nat, timestamp: nat, size: nat): (b: seq<byte>)
    ensures |b| == HEADER
  {
    LittleEndian(num, 8) + LittleEndian(timestamp, 8) + LittleEndian(num, 8) + LittleEndian(size, 4)
      + LittleEndian(0, 4) + Zeros(32)
  }

  /** What write_frame puts at the start of a slot. */
  function Image(num: nat, frame: Frame): (b: seq<byte>)
    ensures |b| == HEADER + |frame.data|
  {
    HeaderBytes(num, frame.timestamp, |frame.data|) + frame.data
  }

  function ParseHeader(b: seq<byte>): SlotHeader
    requires |b| == HEADER
  {
    SlotHeader(FromLittleEndian(b[..8]), FromLittleEndian(b[8..16]), FromLittleEndian(b[16..24]),
               FromLittleEndian(b[24..28]), FromLittleEndian(b[28..32]))
  }

  /** What a reader learns on opening: nothing if the magic is wrong, else the ring's geometry. */
  function Open(mem: seq<byte>): Option<Geometry> {
    if |mem| < HEADER || FromLittleEndian(mem[..4]) != MAGIC then None
    else Some(Geometry(FromLittleEndian(mem[20..24]), FromLittleEndian(mem[24..28])))
  }

  function PayloadSize(header: seq<byte>): nat
    requires |header| == HEADER
  {
    FromLittleEndian(header[24..28])
  }

  function Splice(mem: seq<byte>, at: nat, bytes: seq<byte>): (m: seq<byte>)
    requires at + |bytes| <= |mem|
    ensures |m| == |mem|
    ensures forall i :: 0 <= i < |mem| ==> m[i] == if at <= i < at + |bytes| then bytes[i - at] else mem[i]
  {
    mem[..at] + bytes + mem[at + |bytes|..]
  }

  predicate Shape(s: State) {
    && s.slots > 0 && HEADER <= s.slotSize < HEADER + U32 && |s.mem| == Size(s.slots, s.slotSize)
    && |s.mem| >= HEADER && |s.frames| < U64
  }

  function Below(n: nat): (b: set<nat>)
    ensures forall k :: k in b <==> 0 <= k < n
  {
    if n == 0 then {} else Below(n - 1) + {n - 1}
  }

  /** The frame fits a slot; write_frame refuses others. */
  predicate Fits(frame: Frame, slotSize: nat) {
    HEADER + |frame.data| <= slotSize && frame.timestamp < U64
  }

  predicate Has(got: map<nat, byte>, n: nat) {
    forall k :: 0 <= k < n ==> k in got
  }

  function Gather(got: map<nat, byte>, n: nat): (b: seq<byte>)
    ensures |b| == n
    ensures forall k :: 0 <= k < n && k in got ==> b[k] == got[k]
  {
    seq(n, k requires 0 <= k => if k in got then got[k] else 0)
  }

  predicate Enabled(s: State, op: Op) {
    Shape(s) &&
    match op
    case BeginFrame(frame) => s.writer.Resting? && Fits(frame, s.slotSize) && |s.frames| + 1 < U64
    case CopyByte(k) =>
      s.writer.Copying? && k in s.writer.todo && s.frames != []
      && k < |Image(|s.frames|, s.frames[|s.frames| - 1])|
      && SlotOffset(|s.frames|, s.slots, s.slotSize) + k < |s.mem|
    case StoreSequence => s.writer.Copying? && s.writer.todo == {}
    case BumpNotify => s.writer.Notifying?
    case OpenRing(r) => r in s.readers && s.readers[r].geometry.None? && s.readers[r].step.Away?
    case LoadSequence(r) => r in s.readers && s.readers[r].geometry.Some? && Between(s.readers[r].step)
    case HeaderByte(r, k) =>
      && r in s.readers && s.readers[r].step.InHeader? && HasSlots(s.readers[r])
      && k < HEADER && k !in s.readers[r].step.got && ReaderOffset(s.readers[r]) + k < |s.mem|
    case EndHeader(r) => r in s.readers && s.readers[r].step.InHeader? && Has(s.readers[r].step.got, HEADER)
    case DataByte(r, k) =>
      && r in s.readers && s.readers[r].step.InData? && HasSlots(s.readers[r]) && |s.readers[r].step.header| == HEADER
      && k < PayloadSize(s.readers[r].step.header) && k !in s.readers[r].step.got
      && ReaderOffset(s.readers[r]) + HEADER + k < |s.mem|
    case EndData(r) =>
      && r in s.readers && s.readers[r].step.InData? && |s.readers[r].step.header| == HEADER
      && Has(s.readers[r].step.got, PayloadSize(s.readers[r].step.header))
  }

  /** Between two reads. */
  predicate Between(step: Step) {
    step.Away? || step.Delivered? || step.Refused?
  }

  predicate HasSlots(rd: Reader) {
    rd.geometry.Some? && rd.geometry.value.slots > 0
  }

  /** Where the reader takes its frame's slot to be: by its own geometry. */
  function ReaderOffset(rd: Reader): nat
    requires HasSlots(rd) && (rd.step.InHeader? || rd.step.InData?)
  {
    SlotOffset(rd.step.num, rd.geometry.value.slots, rd.geometry.value.slotSize)
  }

  predicate IsRead(op: Op) {
    op.OpenRing? || op.LoadSequence? || op.HeaderByte? || op.EndHeader? || op.DataByte? || op.EndData?
  }

  function ReaderNext(s: State, op: Op): Reader
    requires Enabled(s, op) && IsRead(op)
  {
    var rd := s.readers[op.r];
    match op
    case OpenRing(_) => rd.(geometry := Open(s.mem))
    case LoadSequence(_) => rd.(step := Chosen(rd, s.mem))
    case HeaderByte(_, k) =>
      rd.(step := InHeader(rd.step.num, rd.step.got[k := s.mem[ReaderOffset(rd) + k]]))
    case EndHeader(_) => rd.(step := InData(rd.step.num, Gather(rd.step.got, HEADER), |s.frames|, map[]))
    case DataByte(_, k) =>
      var b := s.mem[ReaderOffset(rd) + HEADER + k];
      rd.(step := InData(rd.step.num, rd.step.header, rd.step.from, rd.step.got[k := b]))
    case EndData(_) =>
      var data := Gather(rd.step.got, PayloadSize(rd.step.header));
      rd.(last := rd.step.num, returned := rd.returned + [rd.step.num],
          step := Delivered(rd.step.num, ParseHeader(rd.step.header), data, |s.frames|))
  }

  /** The head of a read: nothing new, or a slot, if the reader's geometry has one inside the mapping. */
  function Chosen(rd: Reader, mem: seq<byte>): Step
    requires rd.geometry.Some? && |mem| >= HEADER
  {
    var current := FromLittleEndian(mem[SEQUENCE..SEQUENCE + 8]);
    var g := rd.geometry.value;
    if current == 0 || current <= rd.last then Away
    else if g.slots == 0 then Panicked
    else if SlotOffset(current, g.slots, g.slotSize) + g.slotSize > |mem| then Refused
    else InHeader(current, map[])
  }

  function Notified(s: State): State
    requires |s.mem| >= HEADER
  {
    var was := FromLittleEndian(s.mem[NOTIFY..NOTIFY + 4]);
    s.(mem := Splice(s.mem, NOTIFY, LittleEndian(was + 1, 4)), writer := Resting)
  }

  function Apply(s: State, op: Op): State
    requires Enabled(s, op)
  {
    match op
    case BeginFrame(frame) =>
      s.(writer := Copying(|s.frames| + 1, Below(HEADER + |frame.data|)), frames := s.frames + [frame])
    case CopyByte(k) =>
      var n := |s.frames|;
      s.(mem := s.mem[SlotOffset(n, s.slots, s.slotSize) + k := Image(n, s.frames[n - 1])[k]],
         writer := Copying(s.writer.num, s.writer.todo - {k}))
    case StoreSequence =>
      s.(mem := Splice(s.mem, SEQUENCE, LittleEndian(s.writer.num, 8)), writer := Notifying)
    case BumpNotify => Notified(s)
    case _ => s.(readers := s.readers[op.r := ReaderNext(s, op)])
  }

  ghost predicate Feasible(s: State, ops: seq<Op>)
    decreases |ops|
  {
    ops == [] || (Enabled(s, ops[0]) && Feasible(Apply(s, ops[0]), ops[1..]))
  }

  ghost function Run(s: State, ops: seq<Op>): State
    requires Feasible(s, ops)
    decreases |ops|
  {
    if ops == [] then s else Run(Apply(s, ops[0]), ops[1..])
  }

  // ---------------------------------------------------------------- invariant

  function Todo(w: Writer, isNewest: bool): set<nat> {
    if isNewest && w.Copying? then w.todo else {}
  }

  /** The slot at `offset` holds `image` but for the bytes in `todo`. */
  ghost predicate Holds(mem: seq<byte>, offset: nat, image: seq<byte>, todo: set<nat>) {
    offset + |image| <= |mem| && forall j :: 0 <= j < |image| && j !in todo ==> mem[offset + j] == image[j]
  }

  predicate Recent(num: nat, n: nat, slots: nat) {
    1 <= num <= n < num + slots
  }

  /** The last `slots` frames are in their slots, the newest as far as it is copied. */
  ghost predicate Ring(s: State) {
    s.slots > 0 &&
    forall num :: Recent(num, |s.frames|, s.slots) ==>
      Holds(s.mem, SlotOffset(num, s.slots, s.slotSize), Image(num, s.frames[num - 1]),
            Todo(s.writer, num == |s.frames|))
  }

  function Stored(s: State): nat {
    if s.writer.Copying? && |s.frames| > 0 then |s.frames| - 1 else |s.frames|
  }

  ghost predicate WriterOk(s: State) {
    && (s.writer.Copying? ==> s.frames != [] && s.writer.num == |s.frames|)
    && (s.writer.Copying? ==> forall k :: k in s.writer.todo ==> k < |Image(|s.frames|, s.frames[|s.frames| - 1])|)
    && (forall i :: 0 <= i < |s.frames| ==> Fits(s.frames[i], s.slotSize))
    && |s.mem| >= HEADER && s.mem[SEQUENCE..SEQUENCE + 8] == LittleEndian(Stored(s), 8)
  }

  /** The readers' arithmetic gives every frame the writer's slot: both header fields fit, or there is a
      single slot, whose offset does not depend on its size. */
  predicate Exact(slots: nat, slotSize: nat) {
    slots < U32 && (slotSize < U32 || slots == 1)
  }

  /** What a reader has copied is its frame's, unless the writer has begun the frame that takes its slot, or
      the reader's arithmetic is not exact. */
  ghost predicate StepOk(step: Step, stored: nat, slots: nat, frames: seq<Frame>, exact: bool) {
    match step
    case InHeader(num, got) =>
      1 <= num <= stored <= |frames|
      && (exact && |frames| < num + slots ==>
            forall k :: 0 <= k < HEADER && k in got ==> got[k] == Image(num, frames[num - 1])[k])
    case InData(num, header, from, got) =>
      1 <= num <= stored <= |frames| && |header| == HEADER && num <= from <= |frames|
      && (exact && from < num + slots ==> header == Image(num, frames[num - 1])[..HEADER])
      && (exact && |frames| < num + slots ==>
            forall k :: 0 <= k < |frames[num - 1].data| && k in got ==> got[k] == frames[num - 1].data[k])
    case Delivered(num, meta, data, at) =>
      1 <= num <= stored <= |frames| && num <= at <= |frames|
      && (exact && at < num + slots ==>
            && meta == SlotHeader(num, frames[num - 1].timestamp, num, |frames[num - 1].data|, 0)
            && data == frames[num - 1].data)
    case _ => true
  }

  predicate Increasing(nums: seq<nat>) {
    forall i, j :: 0 <= i < j < |nums| ==> nums[i] < nums[j]
  }

  predicate OrderOk(rd: Reader) {
    && Increasing(rd.returned) && (rd.returned != [] ==> rd.returned[|rd.returned| - 1] == rd.last)
    && (rd.step.InHeader? || rd.step.InData? ==> rd.last < rd.step.num)
    && (rd.step.Delivered? ==> rd.last == rd.step.num)
  }

  ghost predicate Readers(s: State) {
    forall r :: r in s.readers ==> ReaderOk(s.readers[r], s)
  }

  ghost predicate ReaderOk(rd: Reader, s: State) {
    && StepOk(rd.step, Stored(s), s.slots, s.frames, Exact(s.slots, s.slotSize)) && OrderOk(rd)
    && (rd.geometry.Some? ==> rd.geometry.value == Opened(s.slots, s.slotSize))
    && (rd.step.InHeader? || rd.step.InData? ==> HasSlots(rd))
  }

  /** What every reader opens the ring with: the writer's geometry in 32 bits each. */
  function Opened(slots: nat, slotSize: nat): Geometry {
    Geometry(slots % U32, slotSize % U32)
  }

  ghost predicate Inv(s: State) {
    Shape(s) && WriterOk(s) && Ring(s) && Readers(s) && Open(s.mem) == Some(Opened(s.slots, s.slotSize))
  }

  // ---------------------------------------------------------------- layout facts

  lemma {:induction false} LittleRoundTrip(value: nat, n: nat)
    requires value < Power256(n)
    ensures FromLittleEndian(LittleEndian(value, n)) == value
  {
    LittleEndianRoundTrip(value, n);
    SmallModulo(value, Power256(n));
  }

  /** Reading back a slot header gives what was written. */
  lemma HeaderRoundTrip(num: nat, timestamp: nat, size: nat)
    requires num < U64 && timestamp < U64 && size < U32
    ensures ParseHeader(HeaderBytes(num, timestamp, size)) == SlotHeader(num, timestamp, num, size, 0)
    ensures PayloadSize(HeaderBytes(num, timestamp, size)) == size
  {
    var b := HeaderBytes(num, timestamp, size);
    Widths();
    HeaderFields(num, timestamp, size);
    LittleRoundTrip(num, 8);
    LittleRoundTrip(timestamp, 8);
    LittleRoundTrip(size, 4);
    LittleRoundTrip(0, 4);
    hide FromLittleEndian, LittleEndian, HeaderBytes, Power256;
  }

  lemma HeaderFields(num: nat, timestamp: nat, size: nat)
    ensures var b := HeaderBytes(num, timestamp, size);
            && b[..8] == LittleEndian(num, 8) && b[8..16] == LittleEndian(timestamp, 8)
            && b[16..24] == LittleEndian(num, 8) && b[24..28] == LittleEndian(size, 4)
            && b[28..32] == LittleEndian(0, 4)
  {
    hide LittleEndian;
  }

  lemma SlotInside(num: nat, slots: nat, slotSize: nat)
    requires slots > 0
    ensures SlotOffset(num, slots, slotSize) + slotSize <= Size(slots, slotSize)
  {
    var i := num % slots;
    assert slotSize * (i + 1) <= slotSize * slots by { MulLe(slotSize, i + 1, slots); }
    assert slotSize * (i + 1) == slotSize * i + slotSize;
  }

  lemma MulLe(d: nat, a: nat, b: nat)
    requires a <= b
    ensures d * a <= d * b
  {
  }

  /** Bytes of different slots have different addresses. */
  lemma SlotsApart(num: nat, other: nat, slots: nat, slotSize: nat, a: nat, b: nat)
    requires slots > 0 && num % slots != other % slots && a < slotSize && b < slotSize
    ensures SlotOffset(num, slots, slotSize) + a != SlotOffset(other, slots, slotSize) + b
  {
    var i, j := num % slots, other % slots;
    if i < j {
      MulStrict(slotSize, i, j, a, b);
    } else {
      MulStrict(slotSize, j, i, b, a);
    }
  }

  lemma RecentApart(num: nat, n: nat, slots: nat)
    requires Recent(num, n, slots) && num < n
    ensures num % slots != n % slots
  {
    if num % slots == n % slots { Rings.SameSlotApart(num, n, slots); }
  }

  // ---------------------------------------------------------------- the ring

  lemma HoldsFrame(mem: seq<byte>, mem': seq<byte>, offset: nat, image: seq<byte>, todo: set<nat>)
    requires Holds(mem, offset, image, todo) && |mem'| == |mem|
    requires forall i :: offset <= i < offset + |image| ==> mem'[i] == mem[i]
    ensures Holds(mem', offset, image, todo)
  {
  }

  lemma AboveHeader(num: nat, slots: nat, slotSize: nat)
    requires slots > 0
    ensures SlotOffset(num, slots, slotSize) >= HEADER
  {
    MulLe(slotSize, 0, num % slots);
  }

  /** A store below the slots leaves them alone. */
  lemma RingKeepsBelow(s: State, s': State)
    requires Shape(s) && Ring(s) && s' == s.(mem := s'.mem, writer := s'.writer) && |s'.mem| == |s.mem|
    requires forall i :: HEADER <= i < |s.mem| ==> s'.mem[i] == s.mem[i]
    requires Todo(s'.writer, true) == {} && Todo(s.writer, true) == {}
    ensures Ring(s')
  {
    hide Image, SlotOffset, Size;
    forall num | Recent(num, |s.frames|, s.slots)
      ensures Holds(s'.mem, SlotOffset(num, s.slots, s.slotSize), Image(num, s.frames[num - 1]),
                    Todo(s'.writer, num == |s.frames|))
    {
      AboveHeader(num, s.slots, s.slotSize);
      HoldsFrame(s.mem, s'.mem, SlotOffset(num, s.slots, s.slotSize), Image(num, s.frames[num - 1]), {});
    }
  }

  lemma BeginRing(s: State, frame: Frame)
    requires Enabled(s, BeginFrame(frame)) && Ring(s)
    ensures Ring(Apply(s, BeginFrame(frame)))
  {
    var s', n := Apply(s, BeginFrame(frame)), |s.frames|;
    forall num | Recent(num, n + 1, s.slots)
      ensures Holds(s'.mem, SlotOffset(num, s.slots, s.slotSize), Image(num, s'.frames[num - 1]),
                    Todo(s'.writer, num == n + 1))
    {
      if num == n + 1 {
        SlotInside(num, s.slots, s.slotSize);
        hide SlotOffset, Size;
      } else {
        assert Recent(num, n, s.slots) && s'.frames[num - 1] == s.frames[num - 1];
        hide Image, SlotOffset;
      }
    }
  }

  lemma HoldsCopied(mem: seq<byte>, offset: nat, image: seq<byte>, todo: set<nat>, k: nat)
    requires Holds(mem, offset, image, todo) && k < |image|
    ensures Holds(mem[offset + k := image[k]], offset, image, todo - {k})
  {
  }

  lemma CopyRing(s: State, k: nat)
    requires Enabled(s, CopyByte(k)) && Ring(s) && WriterOk(s)
    ensures Ring(Apply(s, CopyByte(k)))
  {
    var s', n := Apply(s, CopyByte(k)), |s.frames|;
    assert Fits(s.frames[n - 1], s.slotSize);
    var at := SlotOffset(n, s.slots, s.slotSize);
    var image := Image(n, s.frames[n - 1]);
    assert s'.mem == s.mem[at + k := image[k]];
    assert Todo(s'.writer, true) == Todo(s.writer, true) - {k};
    hide Holds, Image, SlotOffset, Apply;
    forall num | Recent(num, n, s.slots)
      ensures Holds(s'.mem, SlotOffset(num, s.slots, s.slotSize), Image(num, s.frames[num - 1]),
                    Todo(s'.writer, num == n))
    {
      assert Holds(s.mem, SlotOffset(num, s.slots, s.slotSize), Image(num, s.frames[num - 1]),
                   Todo(s.writer, num == n));
      assert Fits(s.frames[num - 1], s.slotSize);
      if num == n {
        HoldsCopied(s.mem, at, image, s.writer.todo, k);
      } else {
        RecentApart(num, n, s.slots);
        CopyElsewhere(s.mem, num, n, s.slots, s.slotSize, Image(num, s.frames[num - 1]), k, image[k]);
      }
    }
  }

  lemma CopyElsewhere(mem: seq<byte>, num: nat, n: nat, slots: nat, slotSize: nat, image: seq<byte>, k: nat, b: byte)
    requires slots > 0 && num % slots != n % slots && |image| <= slotSize && k < slotSize
    requires Holds(mem, SlotOffset(num, slots, slotSize), image, {}) && SlotOffset(n, slots, slotSize) + k < |mem|
    ensures Holds(mem[SlotOffset(n, slots, slotSize) + k := b], SlotOffset(num, slots, slotSize), image, {})
  {
    var offset, mem' := SlotOffset(num, slots, slotSize), mem[SlotOffset(n, slots, slotSize) + k := b];
    forall j | 0 <= j < |image|
      ensures mem'[offset + j] == image[j]
    {
      SlotsApart(num, n, slots, slotSize, j, k);
    }
  }

  // ---------------------------------------------------------------- the writer's steps

  lemma WordKept(mem: seq<byte>, mem': seq<byte>)
    requires |mem'| == |mem| >= HEADER && forall i :: SEQUENCE <= i < SEQUENCE + 8 ==> mem'[i] == mem[i]
    ensures mem'[SEQUENCE..SEQUENCE + 8] == mem[SEQUENCE..SEQUENCE + 8]
  {
  }

  lemma WordSpliced(mem: seq<byte>, at: nat, bytes: seq<byte>)
    requires at + |bytes| <= |mem|
    ensures Splice(mem, at, bytes)[at..at + |bytes|] == bytes
  {
  }

  lemma BeginWriter(s: State, frame: Frame)
    requires Enabled(s, BeginFrame(frame)) && WriterOk(s)
    ensures WriterOk(Apply(s, BeginFrame(frame)))
  {
    hide LittleEndian;
  }

  lemma CopyWriter(s: State, k: nat)
    requires Enabled(s, CopyByte(k)) && WriterOk(s)
    ensures WriterOk(Apply(s, CopyByte(k)))
  {
    var s', at := Apply(s, CopyByte(k)), SlotOffset(|s.frames|, s.slots, s.slotSize) + k;
    AboveHeader(|s.frames|, s.slots, s.slotSize);
    hide LittleEndian, SlotOffset, Size, Image;
    assert s'.mem == s.mem[at := s'.mem[at]];
    WordKept(s.mem, s'.mem);
  }

  lemma StoreWriter(s: State)
    requires Enabled(s, StoreSequence) && WriterOk(s)
    ensures WriterOk(Apply(s, StoreSequence))
  {
    WordSpliced(s.mem, SEQUENCE, LittleEndian(s.writer.num, 8));
    hide LittleEndian, Splice;
  }

  lemma NotifyWriter(s: State)
    requires Enabled(s, BumpNotify) && WriterOk(s)
    ensures WriterOk(Apply(s, BumpNotify))
  {
    var s' := Apply(s, BumpNotify);
    WordKept(s.mem, s'.mem);
    hide LittleEndian, Splice;
  }

  lemma WriterKept(s: State, op: Op)
    requires Shape(s) && WriterOk(s) && Ring(s) && Enabled(s, op) && !IsRead(op)
    ensures WriterOk(Apply(s, op)) && Ring(Apply(s, op))
  {
    match op
    case BeginFrame(frame) => BeginWriter(s, frame); BeginRing(s, frame);
    case CopyByte(k) => CopyWriter(s, k); CopyRing(s, k);
    case StoreSequence =>
      StoreWriter(s);
      assert forall i :: HEADER <= i < |s.mem| ==> Apply(s, op).mem[i] == s.mem[i];
      hide Ring, WriterOk;
      RingKeepsBelow(s, Apply(s, op));
    case BumpNotify =>
      NotifyWriter(s);
      assert forall i :: HEADER <= i < |s.mem| ==> Apply(s, op).mem[i] == s.mem[i];
      hide Ring, WriterOk;
      RingKeepsBelow(s, Apply(s, op));
  }

  lemma StepSurvives(step: Step, stored: nat, stored': nat, slots: nat, frames: seq<Frame>, frames': seq<Frame>,
                     exact: bool)
    requires StepOk(step, stored, slots, frames, exact) && stored <= stored' <= |frames'|
    requires frames' == frames || (|frames'| == |frames| + 1 && frames'[..|frames|] == frames)
    ensures StepOk(step, stored', slots, frames', exact)
  {
    hide Image;
    if step.InHeader? || step.InData? || step.Delivered? {
      assert frames'[step.num - 1] == frames[step.num - 1];
    }
  }

  lemma WriterFrame(s: State, op: Op)
    requires Enabled(s, op) && WriterOk(s) && !IsRead(op)
    ensures var s' := Apply(s, op);
            && Shape(s') && s'.readers == s.readers && s'.slots == s.slots && s'.slotSize == s.slotSize
            && Stored(s) <= Stored(s') <= |s'.frames|
            && (s'.frames == s.frames || (|s'.frames| == |s.frames| + 1 && s'.frames[..|s.frames|] == s.frames))
  {
    hide LittleEndian, Splice, Image, SlotOffset;
  }

  lemma WriterStepKeepsInv(s: State, op: Op)
    requires Inv(s) && Enabled(s, op) && !IsRead(op)
    ensures Inv(Apply(s, op))
  {
    WriterKept(s, op);
    WriterFrame(s, op);
    StepKeepsOpen(s, op);
    var s' := Apply(s, op);
    assert Readers(s);
    hide Apply, Enabled, Inv, Shape, WriterOk, Ring, Open, ReaderOk;
    forall r | r in s'.readers
      ensures ReaderOk(s'.readers[r], s')
    {
      ReaderSurvives(s.readers[r], s, s');
    }
    InvFrom(s');
  }

  lemma ReaderSurvives(rd: Reader, s: State, s': State)
    requires ReaderOk(rd, s) && s'.slots == s.slots && s'.slotSize == s.slotSize
    requires Stored(s) <= Stored(s') <= |s'.frames|
    requires s'.frames == s.frames || (|s'.frames| == |s.frames| + 1 && s'.frames[..|s.frames|] == s.frames)
    ensures ReaderOk(rd, s')
  {
    StepSurvives(rd.step, Stored(s), Stored(s'), s.slots, s.frames, s'.frames, Exact(s.slots, s.slotSize));
    hide StepOk, OrderOk, Stored;
  }

  lemma InvFrom(s: State)
    requires Shape(s) && WriterOk(s) && Ring(s) && Readers(s) && Open(s.mem) == Some(Opened(s.slots, s.slotSize))
    ensures Inv(s)
  {
  }

  /** The header fields a reader opens with are never written again. */
  lemma StepKeepsPrefix(s: State, op: Op)
    requires Enabled(s, op)
    ensures Apply(s, op).mem[..NOTIFY] == s.mem[..NOTIFY]
  {
    if op.CopyByte? { AboveHeader(|s.frames|, s.slots, s.slotSize); }
    hide LittleEndian, FromLittleEndian, Image, SlotOffset, ReaderNext;
  }

  lemma StepKeepsShape(s: State, op: Op)
    requires Enabled(s, op)
    ensures var s' := Apply(s, op); |s'.mem| == |s.mem| && s'.slots == s.slots && s'.slotSize == s.slotSize
  {
    hide LittleEndian, FromLittleEndian, Image, SlotOffset, ReaderNext;
  }

  lemma StepKeepsOpen(s: State, op: Op)
    requires Enabled(s, op)
    ensures Open(Apply(s, op).mem) == Open(s.mem)
  {
    StepKeepsPrefix(s, op);
    StepKeepsShape(s, op);
    hide Apply, Enabled;
    SamePrefix(s.mem, Apply(s, op).mem);
  }

  lemma SamePrefix(a: seq<byte>, b: seq<byte>)
    requires |a| == |b| && (|a| >= NOTIFY ==> a[..NOTIFY] == b[..NOTIFY])
    ensures Open(a) == Open(b)
  {
    hide FromLittleEndian;
    if |a| >= HEADER {
      assert a[..4] == a[..NOTIFY][..4] && b[..4] == b[..NOTIFY][..4];
      assert a[20..24] == a[..NOTIFY][20..24] && b[20..24] == b[..NOTIFY][20..24];
      assert a[24..28] == a[..NOTIFY][24..28] && b[24..28] == b[..NOTIFY][24..28];
    }
  }

  // ---------------------------------------------------------------- the readers' steps

  lemma LoadedSequence(s: State)
    requires Shape(s) && WriterOk(s)
    ensures FromLittleEndian(s.mem[SEQUENCE..SEQUENCE + 8]) == Stored(s) <= |s.frames|
  {
    Widths();
    LittleRoundTrip(Stored(s), 8);
    hide LittleEndian, FromLittleEndian, Power256;
  }

  /** A byte read from the slot of a stored, still recent frame is that frame's. */
  lemma SlotByte(s: State, num: nat, j: nat)
    requires Shape(s) && WriterOk(s) && Ring(s) && 1 <= num <= Stored(s) && |s.frames| < num + s.slots
    requires j < |Image(num, s.frames[num - 1])|
    ensures SlotOffset(num, s.slots, s.slotSize) + j < |s.mem|
    ensures s.mem[SlotOffset(num, s.slots, s.slotSize) + j] == Image(num, s.frames[num - 1])[j]
  {
    assert Recent(num, |s.frames|, s.slots);
    hide Image, SlotOffset, LittleEndian;
    assert Todo(s.writer, num == |s.frames|) == {};
  }

  /** The header copied from a frame's image announces its payload. */
  lemma ImageHeader(num: nat, frame: Frame, slotSize: nat)
    requires num < U64 && Fits(frame, slotSize) && slotSize < HEADER + U32
    ensures var h := Image(num, frame)[..HEADER];
            && ParseHeader(h) == SlotHeader(num, frame.timestamp, num, |frame.data|, 0)
            && PayloadSize(h) == |frame.data|
  {
    HeaderRoundTrip(num, frame.timestamp, |frame.data|);
    hide HeaderBytes, ParseHeader, PayloadSize;
    assert Image(num, frame)[..HEADER] == HeaderBytes(num, frame.timestamp, |frame.data|);
  }

  lemma GatherIs(got: map<nat, byte>, b: seq<byte>)
    requires Has(got, |b|) && forall k :: 0 <= k < |b| && k in got ==> got[k] == b[k]
    ensures Gather(got, |b|) == b
  {
  }

  lemma ExactOffset(num: nat, slots: nat, slotSize: nat)
    requires slots > 0 && Exact(slots, slotSize)
    ensures Opened(slots, slotSize).slots == slots
    ensures SlotOffset(num, slots, slotSize % U32) == SlotOffset(num, slots, slotSize)
  {
    SmallModulo(slots, U32);
    if slotSize < U32 { SmallModulo(slotSize, U32); }
  }

  /** The step of the reader a read operation moves, and what it rested on. */
  ghost predicate NextOk(s: State, op: Op)
    requires Enabled(s, op) && IsRead(op)
  {
    StepOk(ReaderNext(s, op).step, Stored(s), s.slots, s.frames, Exact(s.slots, s.slotSize))
  }

  lemma OpenKept(s: State, op: Op)
    requires Inv(s) && Enabled(s, op) && op.OpenRing?
    ensures NextOk(s, op)
  {
    hide Open, Image;
  }

  lemma LoadKept(s: State, op: Op)
    requires Inv(s) && Enabled(s, op) && op.LoadSequence?
    ensures NextOk(s, op)
  {
    LoadedSequence(s);
    hide Inv, FromLittleEndian, Image, SlotOffset, Exact;
  }

  lemma HeaderByteKept(s: State, op: Op)
    requires Inv(s) && Enabled(s, op) && op.HeaderByte?
    ensures NextOk(s, op)
  {
    hide Inv, ReaderNext, ReaderOffset, ReaderOk, Image, Stored, Exact, HasSlots, StepOk, SlotOffset, Size;
    var b := HeaderByteStep(s, op);
    hide Enabled;
    OneHeaderByteMore(s.readers[op.r].step, Stored(s), s.slots, s.frames, Exact(s.slots, s.slotSize), op.k, b);
  }

  lemma HeaderByteStep(s: State, op: Op) returns (b: byte)
    requires Inv(s) && Enabled(s, op) && op.HeaderByte?
    ensures var step, exact := s.readers[op.r].step, Exact(s.slots, s.slotSize);
            && ReaderNext(s, op).step == InHeader(step.num, step.got[op.k := b])
            && StepOk(step, Stored(s), s.slots, s.frames, exact)
            && (exact && |s.frames| < step.num + s.slots ==> b == Image(step.num, s.frames[step.num - 1])[op.k])
  {
    hide Inv, ReaderNext, ReaderOk, Image, Stored, Exact, SlotOffset, Size;
    b := s.mem[ReaderOffset(s.readers[op.r]) + op.k];
    HeaderByteNext(s, op);
    HeaderByteRead(s, op);
  }

  lemma HeaderByteNext(s: State, op: Op)
    requires Enabled(s, op) && op.HeaderByte?
    ensures var rd := s.readers[op.r];
            ReaderNext(s, op).step == InHeader(rd.step.num, rd.step.got[op.k := s.mem[ReaderOffset(rd) + op.k]])
  {
    hide SlotOffset;
  }

  lemma ReaderIsOk(s: State, r: Tid)
    requires Inv(s) && r in s.readers
    ensures ReaderOk(s.readers[r], s)
  {
    hide Shape, WriterOk, Ring, ReaderOk, Open;
  }

  lemma HeaderByteRead(s: State, op: Op)
    requires Inv(s) && Enabled(s, op) && op.HeaderByte?
    ensures var rd, exact := s.readers[op.r], Exact(s.slots, s.slotSize);
            && StepOk(rd.step, Stored(s), s.slots, s.frames, exact)
            && (exact && |s.frames| < rd.step.num + s.slots ==>
                  s.mem[ReaderOffset(rd) + op.k] == Image(rd.step.num, s.frames[rd.step.num - 1])[op.k])
  {
    var rd := s.readers[op.r];
    ReaderIsOk(s, op.r);
    hide Inv, Image, Stored, Exact, SlotOffset;
    if Exact(s.slots, s.slotSize) && |s.frames| < rd.step.num + s.slots {
      HeadersByte(s, rd, op.k);
    }
  }

  lemma HeadersByte(s: State, rd: Reader, k: nat)
    requires Inv(s) && ReaderOk(rd, s) && rd.step.InHeader? && Exact(s.slots, s.slotSize)
    requires |s.frames| < rd.step.num + s.slots && k < HEADER
    ensures ReaderOffset(rd) + k < |s.mem|
    ensures s.mem[ReaderOffset(rd) + k] == Image(rd.step.num, s.frames[rd.step.num - 1])[k]
  {
    ExactOffset(rd.step.num, s.slots, s.slotSize);
    SlotByte(s, rd.step.num, k);
    hide Inv, Image, Stored, SlotOffset, Exact;
  }

  lemma OneHeaderByteMore(step: Step, stored: nat, slots: nat, frames: seq<Frame>, exact: bool, k: nat, b: byte)
    requires step.InHeader? && StepOk(step, stored, slots, frames, exact) && k < HEADER
    requires exact && |frames| < step.num + slots ==> b == Image(step.num, frames[step.num - 1])[k]
    ensures StepOk(InHeader(step.num, step.got[k := b]), stored, slots, frames, exact)
  {
    hide Image;
  }

  lemma EndHeaderKept(s: State, op: Op)
    requires Inv(s) && Enabled(s, op) && op.EndHeader?
    ensures NextOk(s, op)
  {
    var step := s.readers[op.r].step;
    assert ReaderOk(s.readers[op.r], s);
    if Exact(s.slots, s.slotSize) && |s.frames| < step.num + s.slots {
      var h := Image(step.num, s.frames[step.num - 1])[..HEADER];
      hide Inv, Image, Stored, SlotOffset, Exact;
      GatherIs(step.got, h);
    }
    hide Inv, Image, Stored, SlotOffset, Gather, Exact;
  }

  lemma DataByteKept(s: State, op: Op)
    requires Inv(s) && Enabled(s, op) && op.DataByte?
    ensures NextOk(s, op)
  {
    hide Inv, ReaderNext, ReaderOffset, ReaderOk, Image, Stored, Exact, HasSlots, StepOk, SlotOffset, Size, PayloadSize;
    var b := DataByteStep(s, op);
    hide Enabled;
    OneByteMore(s.readers[op.r].step, Stored(s), s.slots, s.frames, Exact(s.slots, s.slotSize), op.k, b);
  }

  lemma DataByteStep(s: State, op: Op) returns (b: byte)
    requires Inv(s) && Enabled(s, op) && op.DataByte?
    ensures var step, exact := s.readers[op.r].step, Exact(s.slots, s.slotSize);
            && ReaderNext(s, op).step == InData(step.num, step.header, step.from, step.got[op.k := b])
            && StepOk(step, Stored(s), s.slots, s.frames, exact)
            && (exact && |s.frames| < step.num + s.slots && op.k < |s.frames[step.num - 1].data| ==>
                  b == s.frames[step.num - 1].data[op.k])
  {
    hide Inv, ReaderNext, ReaderOk, Image, Stored, Exact, SlotOffset, Size, PayloadSize;
    b := s.mem[ReaderOffset(s.readers[op.r]) + HEADER + op.k];
    DataByteNext(s, op);
    DataByteRead(s, op);
  }

  lemma DataByteRead(s: State, op: Op)
    requires Inv(s) && Enabled(s, op) && op.DataByte?
    ensures var rd, exact := s.readers[op.r], Exact(s.slots, s.slotSize);
            && StepOk(rd.step, Stored(s), s.slots, s.frames, exact)
            && (exact && |s.frames| < rd.step.num + s.slots && op.k < |s.frames[rd.step.num - 1].data| ==>
                  s.mem[ReaderOffset(rd) + HEADER + op.k] == s.frames[rd.step.num - 1].data[op.k])
  {
    var rd := s.readers[op.r];
    ReaderIsOk(s, op.r);
    hide Inv, Image, Stored, Exact, SlotOffset, PayloadSize;
    if Exact(s.slots, s.slotSize) && |s.frames| < rd.step.num + s.slots && op.k < |s.frames[rd.step.num - 1].data| {
      FramesByte(s, rd, op.k);
    }
  }

  lemma DataByteNext(s: State, op: Op)
    requires Enabled(s, op) && op.DataByte?
    ensures var rd := s.readers[op.r];
            ReaderNext(s, op).step ==
              InData(rd.step.num, rd.step.header, rd.step.from,
                     rd.step.got[op.k := s.mem[ReaderOffset(rd) + HEADER + op.k]])
  {
    hide SlotOffset, PayloadSize;
  }

  lemma FramesByte(s: State, rd: Reader, k: nat)
    requires Inv(s) && ReaderOk(rd, s) && rd.step.InData? && Exact(s.slots, s.slotSize)
    requires |s.frames| < rd.step.num + s.slots && k < |s.frames[rd.step.num - 1].data|
    ensures ReaderOffset(rd) + HEADER + k < |s.mem|
    ensures s.mem[ReaderOffset(rd) + HEADER + k] == s.frames[rd.step.num - 1].data[k]
  {
    var num := rd.step.num;
    ExactOffset(num, s.slots, s.slotSize);
    SlotByte(s, num, HEADER + k);
    assert Image(num, s.frames[num - 1])[HEADER + k] == s.frames[num - 1].data[k];
    hide Inv, Image, Stored, SlotOffset, Exact;
  }

  lemma OneByteMore(step: Step, stored: nat, slots: nat, frames: seq<Frame>, exact: bool, k: nat, b: byte)
    requires step.InData? && StepOk(step, stored, slots, frames, exact)
    requires exact && |frames| < step.num + slots && k < |frames[step.num - 1].data| ==>
               b == frames[step.num - 1].data[k]
    ensures StepOk(InData(step.num, step.header, step.from, step.got[k := b]), stored, slots, frames, exact)
  {
    hide Image;
  }

  lemma EndDataKept(s: State, op: Op)
    requires Inv(s) && Enabled(s, op) && op.EndData?
    ensures NextOk(s, op)
  {
    var step := s.readers[op.r].step;
    assert ReaderOk(s.readers[op.r], s);
    if Exact(s.slots, s.slotSize) && |s.frames| < step.num + s.slots {
      var frame := s.frames[step.num - 1];
      assert Fits(frame, s.slotSize);
      ImageHeader(step.num, frame, s.slotSize);
      hide Inv, Image, Stored, SlotOffset, PayloadSize, ParseHeader, Exact;
      GatherIs(step.got, frame.data);
    }
    hide Inv, Image, Stored, SlotOffset, Gather, PayloadSize, ParseHeader, Exact;
  }

  lemma OrderKept(s: State, op: Op)
    requires Inv(s) && Enabled(s, op) && IsRead(op)
    ensures OrderOk(ReaderNext(s, op))
  {
    assert OrderOk(s.readers[op.r]);
    hide Inv, FromLittleEndian, Gather, ParseHeader, PayloadSize, SlotOffset, Open;
  }

  lemma GeometryKept(s: State, op: Op)
    requires Inv(s) && Enabled(s, op) && IsRead(op)
    ensures var rd := ReaderNext(s, op);
            && (rd.geometry.Some? ==> rd.geometry.value == Opened(s.slots, s.slotSize))
            && (rd.step.InHeader? || rd.step.InData? ==> HasSlots(rd))
  {
    assert ReaderOk(s.readers[op.r], s);
    hide Inv, FromLittleEndian, Gather, ParseHeader, PayloadSize, SlotOffset, Open, StepOk, OrderOk, Opened;
  }

  lemma NextIsOk(s: State, op: Op)
    requires Inv(s) && Enabled(s, op) && IsRead(op)
    ensures NextOk(s, op)
  {
    hide Inv, NextOk, Enabled;
    match op {
      case OpenRing(_) => OpenKept(s, op);
      case LoadSequence(_) => LoadKept(s, op);
      case HeaderByte(_, _) => HeaderByteKept(s, op);
      case EndHeader(_) => EndHeaderKept(s, op);
      case DataByte(_, _) => DataByteKept(s, op);
      case EndData(_) => EndDataKept(s, op);
    }
  }

  lemma ReaderStepKeepsInv(s: State, op: Op)
    requires Inv(s) && Enabled(s, op) && IsRead(op)
    ensures Inv(Apply(s, op))
  {
    OrderKept(s, op);
    GeometryKept(s, op);
    NextIsOk(s, op);
    ReadsOnly(s, op);
    var next := ReaderNext(s, op);
    assert op.r in s.readers && Apply(s, op) == s.(readers := s.readers[op.r := next]);
    hide Apply, ReaderNext, Enabled;
    OneReader(s, op.r, next);
  }

  lemma ReadsOnly(s: State, op: Op)
    requires Enabled(s, op) && IsRead(op)
    ensures op.r in s.readers && Apply(s, op) == s.(readers := s.readers[op.r := ReaderNext(s, op)])
  {
    hide ReaderNext, Image, SlotOffset;
  }

  lemma ReadersOnly(s: State, s': State)
    requires Shape(s) && WriterOk(s) && Ring(s) && s' == s.(readers := s'.readers)
    ensures Shape(s') && WriterOk(s') && Ring(s') && Stored(s') == Stored(s)
  {
    hide Image, SlotOffset, LittleEndian;
  }

  /** Only what a reader itself is counts for the invariant. */
  lemma OneReader(s: State, r: Tid, rd: Reader)
    requires Inv(s) && ReaderOk(rd, s)
    ensures Inv(s.(readers := s.readers[r := rd]))
  {
    var s' := s.(readers := s.readers[r := rd]);
    hide StepOk, OrderOk, Opened, Exact, HasSlots;
    ReadersOnly(s, s');
    forall q | q in s'.readers
      ensures ReaderOk(s'.readers[q], s')
    {
      assert q != r ==> ReaderOk(s.readers[q], s);
    }
    hide Shape, WriterOk, Ring, Open;
  }

  lemma StepKeepsInv(s: State, op: Op)
    requires Inv(s) && Enabled(s, op)
    ensures Inv(Apply(s, op))
  {
    hide Inv, Apply, Enabled;
    if IsRead(op) { ReaderStepKeepsInv(s, op); } else { WriterStepKeepsInv(s, op); }
  }

  lemma {:induction false} RunKeepsInv(s: State, ops: seq<Op>)
    requires Inv(s) && Feasible(s, ops)
    ensures Inv(Run(s, ops))
    decreases |ops|
  {
    hide Inv, Enabled, Apply;
    if ops != [] {
      StepKeepsInv(s, ops[0]);
      RunKeepsInv(Apply(s, ops[0]), ops[1..]);
    }
  }

  // ---------------------------------------------------------------- what a state with the writer at rest holds

  lemma ShapeOf(s: State)
    requires Inv(s)
    ensures Shape(s)
  {
  }

  /** With the writer at rest the newest frame's slot holds its header and its payload. */
  lemma LatestSlot(s: State)
    requires Inv(s) && s.writer.Resting? && s.frames != []
    ensures var n, frame, at := |s.frames|, s.frames[|s.frames| - 1], SlotOffset(|s.frames|, s.slots, s.slotSize);
            && at + HEADER + |frame.data| <= |s.mem| && |Image(n, frame)| >= HEADER
            && s.mem[at..at + HEADER] == Image(n, frame)[..HEADER]
            && s.mem[at + HEADER..at + HEADER + |frame.data|] == frame.data
            && PayloadSize(Image(n, frame)[..HEADER]) == |frame.data|
  {
    var n, frame := |s.frames|, s.frames[|s.frames| - 1];
    assert Fits(frame, s.slotSize) && Recent(n, n, s.slots);
    ImageHeader(n, frame, s.slotSize);
    var at, image := SlotOffset(n, s.slots, s.slotSize), Image(n, frame);
    assert Holds(s.mem, at, image, {});
    assert image[HEADER..] == frame.data;
    hide Inv, Image, SlotOffset, PayloadSize, ParseHeader;
    HeldSlices(s.mem, at, image);
  }

  lemma HeldSlices(mem: seq<byte>, at: nat, image: seq<byte>)
    requires Holds(mem, at, image, {}) && |image| >= HEADER
    ensures mem[at..at + HEADER] == image[..HEADER] && mem[at + HEADER..at + |image|] == image[HEADER..]
  {
  }

  /** The writer may copy any byte it has left: it lies inside the mapping. */
  lemma MayCopy(s: State, k: nat)
    requires Inv(s) && s.writer.Copying? && k in s.writer.todo
    ensures Enabled(s, CopyByte(k))
  {
    SlotInside(|s.frames|, s.slots, s.slotSize);
    assert Fits(s.frames[|s.frames| - 1], s.slotSize);
    hide SlotOffset, Size, Ring, Readers, LittleEndian;
  }

  lemma NewestIsBounded(s: State)
    requires Inv(s)
    ensures |s.mem| >= HEADER && s.slots > 0 && Shape(s) && WriterOk(s)
  {
    hide Ring, Readers, LittleEndian;
  }

  lemma NewestHeader(s: State)
    requires Inv(s) && s.frames != []
    ensures var n, frame := |s.frames|, s.frames[|s.frames| - 1];
            ParseHeader(Image(n, frame)[..HEADER]) == SlotHeader(n, frame.timestamp, n, |frame.data|, 0)
  {
    ImageHeader(|s.frames|, s.frames[|s.frames| - 1], s.slotSize);
    hide Ring, Readers, LittleEndian, Image, ParseHeader;
  }

  // ---------------------------------------------------------------- creating and opening

  /** The bytes of a frame, in the source's 32-bit arithmetic. */
  function FrameBytes(width: nat, height: nat, format: nat): (n: nat)
    ensures n < U32
  {
    width * height * (if format == 4 then 4 else 3) % U32
  }

  function SlotCount(requested: nat): (n: nat)
    ensures n > 0
  {
    if requested == 0 then 16 else requested
  }

  function GlobalHeader(width: nat, height: nat, format: nat, slots: nat, slotSize: nat): (b: seq<byte>)
    ensures |b| == HEADER
  {
    LittleEndian(MAGIC, 4) + LittleEndian(VERSION, 4) + LittleEndian(width, 4) + LittleEndian(height, 4)
      + LittleEndian(format, 4) + LittleEndian(slots, 4) + LittleEndian(slotSize, 4) + Zeros(36)
  }

  function Init(width: nat, height: nat, format: nat, requested: nat, readers: set<Tid>): State {
    var slots, slotSize := SlotCount(requested), HEADER + FrameBytes(width, height, format);
    State(slots, slotSize, GlobalHeader(width, height, format, slots, slotSize) + Zeros(slotSize * slots), Resting, [],
          map r | r in readers :: Reader(None, 0, Away, []))
  }

  lemma ZeroWord(n: nat)
    ensures LittleEndian(0, n) == Zeros(n)
  {
    if n > 0 { ZeroWord(n - 1); }
  }

  lemma GlobalFields(width: nat, height: nat, format: nat, slots: nat, slotSize: nat)
    ensures var b := GlobalHeader(width, height, format, slots, slotSize);
            && b[..4] == LittleEndian(MAGIC, 4)
            && b[20..24] == LittleEndian(slots, 4) && b[24..28] == LittleEndian(slotSize, 4)
            && b[SEQUENCE..SEQUENCE + 8] == Zeros(8)
  {
    hide LittleEndian;
  }

  lemma OpenReads(width: nat, height: nat, format: nat, slots: nat, slotSize: nat, rest: seq<byte>)
    ensures Open(GlobalHeader(width, height, format, slots, slotSize) + rest) == Some(Opened(slots, slotSize))
  {
    var b := GlobalHeader(width, height, format, slots, slotSize);
    var mem := b + rest;
    GlobalFields(width, height, format, slots, slotSize);
    Widths();
    LittleRoundTrip(MAGIC, 4);
    LittleEndianRoundTrip(slots, 4);
    LittleEndianRoundTrip(slotSize, 4);
    hide GlobalHeader, LittleEndian, FromLittleEndian, Power256;
    assert mem[..4] == b[..4] && mem[20..24] == b[20..24] && mem[24..28] == b[24..28];
  }

  lemma InitInv(width: nat, height: nat, format: nat, requested: nat, readers: set<Tid>)
    ensures Inv(Init(width, height, format, requested, readers))
  {
    var s := Init(width, height, format, requested, readers);
    GlobalFields(width, height, format, s.slots, s.slotSize);
    OpenReads(width, height, format, s.slots, s.slotSize, Zeros(s.slotSize * s.slots));
    hide GlobalHeader, Open;
    ZeroWord(8);
    var header := GlobalHeader(width, height, format, s.slots, s.slotSize);
    assert s.mem[SEQUENCE..SEQUENCE + 8] == header[SEQUENCE..SEQUENCE + 8];
    hide LittleEndian, FrameBytes;
  }

  lemma {:induction false} RunKeepsShape(s: State, ops: seq<Op>)
    requires Feasible(s, ops)
    ensures var s' := Run(s, ops); |s'.mem| == |s.mem| && s'.slots == s.slots && s'.slotSize == s.slotSize
    decreases |ops|
  {
    if ops != [] {
      StepKeepsShape(s, ops[0]);
      hide Enabled, Apply;
      RunKeepsShape(Apply(s, ops[0]), ops[1..]);
    }
  }

  /** A reader opening at any moment of any run gets the writer's own geometry if and only if the slot count
      and the slot size fit the header's 32-bit fields. */
  lemma GeometryAgrees(width: nat, height: nat, format: nat, requested: nat, readers: set<Tid>, ops: seq<Op>)
    requires Feasible(Init(width, height, format, requested, readers), ops)
    ensures var s := Run(Init(width, height, format, requested, readers), ops);
            Open(s.mem) == Some(Geometry(s.slots, s.slotSize)) <==> s.slots < U32 && s.slotSize < U32
  {
    var s := Run(Init(width, height, format, requested, readers), ops);
    InitInv(width, height, format, requested, readers);
    RunKeepsInv(Init(width, height, format, requested, readers), ops);
    assert Open(s.mem) == Some(Opened(s.slots, s.slotSize));
    hide Inv, Run, Feasible, Init, Open;
    if s.slots < U32 { SmallModulo(s.slots, U32); }
    if s.slotSize < U32 { SmallModulo(s.slotSize, U32); }
  }

  // ---------------------------------------------------------------- results

  /** In every run with a geometry the readers' arithmetic is exact for: a reader that loaded number num and
      finished before the writer began frame num + slots returned exactly frame num's header fields and
      payload. With any geometry the numbers a reader returns strictly increase. */
  lemma ReadsAreWhole(width: nat, height: nat, format: nat, requested: nat, readers: set<Tid>, ops: seq<Op>, r: Tid)
    requires Feasible(Init(width, height, format, requested, readers), ops)
    requires r in Run(Init(width, height, format, requested, readers), ops).readers
    ensures var s := Run(Init(width, height, format, requested, readers), ops);
            var rd := s.readers[r];
            && Increasing(rd.returned)
            && (Exact(s.slots, s.slotSize) && rd.step.Delivered? && rd.step.at < rd.step.num + s.slots ==>
                  && 1 <= rd.step.num <= |s.frames|
                  && rd.step.meta == SlotHeader(rd.step.num, s.frames[rd.step.num - 1].timestamp, rd.step.num,
                                                |s.frames[rd.step.num - 1].data|, 0)
                  && rd.step.data == s.frames[rd.step.num - 1].data)
  {
    var s := Run(Init(width, height, format, requested, readers), ops);
    InitInv(width, height, format, requested, readers);
    RunKeepsInv(Init(width, height, format, requested, readers), ops);
    assert ReaderOk(s.readers[r], s);
    hide Shape, WriterOk, Ring, Increasing, Open, Exact;
  }

  /** In every such run the payload slice of a reader that had its header before the writer began frame
      num + slots lies inside the frame's slot, and so inside the mapping, however late its bytes are read. */
  lemma TimelySliceStaysInside(
    width: nat, height: nat, format: nat, requested: nat, readers: set<Tid>, ops: seq<Op>, r: Tid)
    requires Feasible(Init(width, height, format, requested, readers), ops)
    requires var s := Run(Init(width, height, format, requested, readers), ops);
             && r in s.readers && s.readers[r].step.InData? && Exact(s.slots, s.slotSize)
             && s.readers[r].step.from < s.readers[r].step.num + s.slots
    ensures var s := Run(Init(width, height, format, requested, readers), ops);
            var rd := s.readers[r];
            && HasSlots(rd) && |rd.step.header| == HEADER
            && HEADER + PayloadSize(rd.step.header) <= s.slotSize && ReaderOffset(rd) + s.slotSize <= |s.mem|
  {
    var s := Run(Init(width, height, format, requested, readers), ops);
    InitInv(width, height, format, requested, readers);
    RunKeepsInv(Init(width, height, format, requested, readers), ops);
    hide Run, Feasible, Init;
    SliceInside(s, r);
  }

  lemma SliceInside(s: State, r: Tid)
    requires Inv(s) && r in s.readers && s.readers[r].step.InData? && Exact(s.slots, s.slotSize)
    requires s.readers[r].step.from < s.readers[r].step.num + s.slots
    ensures var rd := s.readers[r];
            && HasSlots(rd) && |rd.step.header| == HEADER
            && HEADER + PayloadSize(rd.step.header) <= s.slotSize && ReaderOffset(rd) + s.slotSize <= |s.mem|
  {
    var rd := s.readers[r];
    assert ReaderOk(rd, s);
    var frame := s.frames[rd.step.num - 1];
    assert Fits(frame, s.slotSize);
    ImageHeader(rd.step.num, frame, s.slotSize);
    ExactOffset(rd.step.num, s.slots, s.slotSize);
    SlotInside(rd.step.num, s.slots, s.slotSize);
    hide Image, PayloadSize, ParseHeader, SlotOffset, Ring, Open;
  }
}
