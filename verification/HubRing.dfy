/** The broadcast hub's ring: slots overwritten in place by publishers, and the ownership of the payloads
    in them, at the grain of single atomic operations. */
module HubRing {
  import opened Bytes
  import opened Rings
  import opened OptionValue

  type Tid = nat

  datatype Frame = Frame(frameId: nat, mask: nat)

  /** A payload cell: never written, holding a frame, or holding the remains of a dropped one. */
  datatype Cell = Uninit | Live(frame: Frame) | Dead(frame: Frame)

  datatype Slot = Slot(sequence: nat, cell: Cell)

  datatype Publisher =
    | Resting
    | Numbered(num: nat, frame: Frame)  // loaded the head, about to clear the slot
    | Cleared(num: nat, frame: Frame)   // about to write the payload
    | Filled(num: nat)                  // about to store the slot's sequence
    | Stamped(num: nat)                 // about to store the head
    | Headed                            // about to bump total_published

  datatype Reader =
    | Away
    | Chose(h: nat, interest: nat)      // loaded a new head, about to check the slot's sequence
    | Matched(h: nat, interest: nat)    // about to read the payload
    | Got(h: nat, cell: Cell, n: nat)   // read it, when n publishes had begun

  /** `begun` lists the payloads handed to publish, `dropped` those dropped, both in order; `fault` says that
      something other than a live payload was dropped. */
  datatype State = State(
    capacity: nat, slots: seq<Slot>, head: nat, total: nat, pubs: map<Tid, Publisher>, readers: map<Tid, Reader>,
    begun: seq<Frame>, dropped: seq<Frame>, fault: bool)

  datatype Op =
    | LoadHead(t: Tid, frame: Frame)
    | ClearSlot(t: Tid)
    | Fill(t: Tid)
    | Stamp(t: Tid)
    | StoreHead(t: Tid)
    | CountTotal(t: Tid)
    | ChooseFrame(r: Tid, lastSeen: nat, interest: nat)
    | MatchSlot(r: Tid)
    | ReadPayload(r: Tid)

  function Round(requested: nat): (c: nat)
    ensures c > 0 && c >= requested
  {
    if requested == 0 then 16 else NextPowerOfTwo(requested)
  }

  predicate Shape(s: State) {
    s.capacity > 0 && |s.slots| == s.capacity
  }

  predicate Enabled(s: State, op: Op) {
    Shape(s) &&
    match op
    case LoadHead(t, _) => t in s.pubs && s.pubs[t].Resting?
    case ClearSlot(t) => t in s.pubs && s.pubs[t].Numbered?
    case Fill(t) => t in s.pubs && s.pubs[t].Cleared?
    case Stamp(t) => t in s.pubs && s.pubs[t].Filled?
    case StoreHead(t) => t in s.pubs && s.pubs[t].Stamped?
    case CountTotal(t) => t in s.pubs && s.pubs[t].Headed?
    case ChooseFrame(r, _, _) => r in s.readers && (s.readers[r].Away? || s.readers[r].Got?)
    case MatchSlot(r) => r in s.readers && s.readers[r].Chose?
    case ReadPayload(r) => r in s.readers && s.readers[r].Matched?
  }

  function Clear(slot: Slot): Slot {
    if slot.sequence > 0 && slot.cell.Live? then slot.(cell := Dead(slot.cell.frame)) else slot
  }

  function ReaderNext(s: State, op: Op): Reader
    requires Enabled(s, op) && (op.ChooseFrame? || op.MatchSlot? || op.ReadPayload?)
  {
    var rd := s.readers[op.r];
    match op
    case ChooseFrame(_, lastSeen, interest) => if s.head > lastSeen then Chose(s.head, interest) else Away
    case MatchSlot(_) =>
      if s.slots[rd.h % s.capacity].sequence == rd.h then Matched(rd.h, rd.interest) else Away
    case ReadPayload(_) =>
      var cell := s.slots[rd.h % s.capacity].cell;
      if cell.Live? && !Meets(cell.frame.mask, rd.interest) then Away else Got(rd.h, cell, |s.begun|)
  }

  function Apply(s: State, op: Op): State
    requires Enabled(s, op)
  {
    match op
    case LoadHead(t, frame) => s.(pubs := s.pubs[t := Numbered(s.head + 1, frame)], begun := s.begun + [frame])
    case ClearSlot(t) =>
      var i, pc := s.pubs[t].num % s.capacity, s.pubs[t];
      var slot := s.slots[i];
      s.(slots := s.slots[i := Clear(slot)], pubs := s.pubs[t := Cleared(pc.num, pc.frame)],
         dropped := if Clear(slot) != slot then s.dropped + [slot.cell.frame] else s.dropped,
         fault := s.fault || (slot.sequence > 0 && !slot.cell.Live?))
    case Fill(t) =>
      var i, pc := s.pubs[t].num % s.capacity, s.pubs[t];
      s.(slots := s.slots[i := s.slots[i].(cell := Live(pc.frame))], pubs := s.pubs[t := Filled(pc.num)])
    case Stamp(t) =>
      var i, pc := s.pubs[t].num % s.capacity, s.pubs[t];
      s.(slots := s.slots[i := s.slots[i].(sequence := pc.num)], pubs := s.pubs[t := Stamped(pc.num)])
    case StoreHead(t) => s.(head := s.pubs[t].num, pubs := s.pubs[t := Headed])
    case CountTotal(t) => s.(total := s.total + 1, pubs := s.pubs[t := Resting])
    case _ => s.(readers := s.readers[op.r := ReaderNext(s, op)])
  }

  function Init(requested: nat, publishers: set<Tid>, readers: set<Tid>): State {
    var c := Round(requested);
    State(c, seq(c, i => Slot(0, Uninit)), 0, 0, map t | t in publishers :: Resting, map r | r in readers :: Away,
          [], [], false)
  }

  ghost predicate Feasible(s: State, ops: seq<Op>)
    decreases |ops|
  {
    ops == [] || (Enabled(s, ops[0]) && Feasible(Apply(s, ops[0]), ops[1..]))
  }

  ghost function Run(s: State, ops: seq<Op>): State
    requires Feasible(s, ops)
    decreases |ops|
  {
    if ops == [] then s else Run(Apply(s, ops[0]), ops[1..])
  }

  predicate IsRead(op: Op) {
    op.ChooseFrame? || op.MatchSlot? || op.ReadPayload?
  }

  /** Between loading the head and storing it. */
  predicate Busy(pc: Publisher) {
    pc.Numbered? || pc.Cleared? || pc.Filled? || pc.Stamped?
  }

  predicate NoneBusy(pubs: map<Tid, Publisher>) {
    forall t :: t in pubs ==> !Busy(pubs[t])
  }

  /** Publishes do not overlap: none loads the head while another is between its load and its store. */
  ghost predicate Disjoint(s: State, ops: seq<Op>)
    requires Feasible(s, ops)
    decreases |ops|
  {
    ops == [] || ((ops[0].LoadHead? ==> NoneBusy(s.pubs)) && Disjoint(Apply(s, ops[0]), ops[1..]))
  }

  /** How many heads have been stored: the publishes counted, and those about to be. */
  function StoredHeads(s: State): nat {
    s.total + |HeadedOnes(s.pubs)|
  }

  function HeadedOnes(pubs: map<Tid, Publisher>): set<Tid> {
    set t | t in pubs && pubs[t].Headed?
  }

  // ---------------------------------------------------------------- the slots

  /** What slot i holds once the first n payloads of `begun` are published. */
  function Expect(i: nat, n: nat, capacity: nat, begun: seq<Frame>): Slot
    requires capacity > 0 && n <= |begun|
  {
    var k := Latest(i, n, capacity);
    Slot(k, if k == 0 then Uninit else Live(begun[k - 1]))
  }

  ghost predicate Table(slots: seq<Slot>, capacity: nat, n: nat, begun: seq<Frame>) {
    capacity > 0 && |slots| == capacity && n <= |begun|
    && forall i :: 0 <= i < capacity ==> slots[i] == Expect(i, n, capacity, begun)
  }

  /** As Table, but the slot of n + 1 is being rewritten and holds `slot`. */
  ghost predicate TableBut(slots: seq<Slot>, capacity: nat, n: nat, begun: seq<Frame>, slot: Slot) {
    capacity > 0 && |slots| == capacity && n <= |begun|
    && slots[(n + 1) % capacity] == slot
    && forall i :: 0 <= i < capacity && i != (n + 1) % capacity ==> slots[i] == Expect(i, n, capacity, begun)
  }

  function Gone(n: nat, capacity: nat): (g: nat)
    ensures g <= n
  {
    if n < capacity then 0 else n - capacity
  }

  ghost predicate Stage(s: State, pc: Publisher) {
    var n := |s.begun|;
    match pc
    case Resting =>
      && s.head == n
      && Table(s.slots, s.capacity, n, s.begun) && s.dropped == s.begun[..Gone(n, s.capacity)]
    case Numbered(num, frame) =>
      && n > 0 && num == n && frame == s.begun[n - 1] && s.head == n - 1
      && Table(s.slots, s.capacity, n - 1, s.begun) && s.dropped == s.begun[..Gone(n - 1, s.capacity)]
    case Cleared(num, frame) =>
      && n > 0 && num == n && frame == s.begun[n - 1] && s.head == n - 1
      && s.capacity > 0
      && TableBut(s.slots, s.capacity, n - 1, s.begun, Clear(Expect(n % s.capacity, n - 1, s.capacity, s.begun)))
      && s.dropped == s.begun[..Gone(n, s.capacity)]
    case Filled(num) =>
      && n > 0 && num == n && s.head == n - 1
      && s.capacity > 0
      && TableBut(s.slots, s.capacity, n - 1, s.begun,
                  Slot(Latest(n % s.capacity, n - 1, s.capacity), Live(s.begun[n - 1])))
      && s.dropped == s.begun[..Gone(n, s.capacity)]
    case Stamped(num) =>
      && n > 0 && num == n && s.head == n - 1
      && Table(s.slots, s.capacity, n, s.begun) && s.dropped == s.begun[..Gone(n, s.capacity)]
    case Headed =>
      && s.head == n
      && Table(s.slots, s.capacity, n, s.begun) && s.dropped == s.begun[..Gone(n, s.capacity)]
  }

  /** Nobody but p is between its load and its store. */
  ghost predicate Alone(pubs: map<Tid, Publisher>, p: Tid) {
    p in pubs && forall t :: t in pubs && t != p ==> !Busy(pubs[t])
  }

  /** A read payload is the frame of the head that was loaded, unless the publisher had by then begun the
      frame that takes its slot. */
  predicate ReadOk(rd: Reader, head: nat, capacity: nat, begun: seq<Frame>) {
    match rd
    case Away => true
    case Chose(h, _) => 1 <= h <= head
    case Matched(h, _) => 1 <= h <= head
    case Got(h, cell, n) => 1 <= h <= n <= |begun| && (n < h + capacity ==> cell == Live(begun[h - 1]))
  }

  ghost predicate ReadersOk(s: State) {
    forall r :: r in s.readers ==> ReadOk(s.readers[r], s.head, s.capacity, s.begun)
  }

  /** How many copies of a frame a slot, all the slots, and the publisher's hand own. */
  function One(slot: Slot, f: Frame): nat {
    if slot.cell == Live(f) then 1 else 0
  }

  function Owned(slots: seq<Slot>, f: Frame): nat {
    if slots == [] then 0 else One(slots[0], f) + Owned(slots[1..], f)
  }

  function InHand(pc: Publisher, f: Frame): nat {
    if (pc.Numbered? || pc.Cleared?) && pc.frame == f then 1 else 0
  }

  function Times(frames: seq<Frame>, f: Frame): nat {
    multiset(frames)[f]
  }

  /** Every payload handed over is dropped, owned by a slot or still in the publisher's hand, once. */
  ghost predicate Conserved(s: State, pc: Publisher) {
    forall f :: Times(s.begun, f) == Times(s.dropped, f) + Owned(s.slots, f) + InHand(pc, f)
  }

  ghost predicate Inv(s: State, p: Tid) {
    && Shape(s) && Alone(s.pubs, p) && !s.fault && s.head == StoredHeads(s)
    && Stage(s, s.pubs[p]) && Conserved(s, s.pubs[p]) && ReadersOk(s)
  }

  // ---------------------------------------------------------------- the publisher's steps

  lemma ExpectGrows(i: nat, n: nat, capacity: nat, begun: seq<Frame>, frame: Frame)
    requires capacity > 0 && n <= |begun|
    ensures Expect(i, n, capacity, begun + [frame]) == Expect(i, n, capacity, begun)
  {
  }

  lemma TableGrows(slots: seq<Slot>, capacity: nat, n: nat, begun: seq<Frame>, frame: Frame)
    requires Table(slots, capacity, n, begun)
    ensures Table(slots, capacity, n, begun + [frame])
  {
    forall i | 0 <= i < capacity
      ensures slots[i] == Expect(i, n, capacity, begun + [frame])
    {
      ExpectGrows(i, n, capacity, begun, frame);
    }
  }

  lemma TableRewrite(slots: seq<Slot>, capacity: nat, n: nat, begun: seq<Frame>, slot: Slot)
    requires Table(slots, capacity, n, begun)
    ensures TableBut(slots[(n + 1) % capacity := slot], capacity, n, begun, slot)
  {
    hide Expect;
  }

  lemma ButRewrite(slots: seq<Slot>, capacity: nat, n: nat, begun: seq<Frame>, slot: Slot, slot': Slot)
    requires TableBut(slots, capacity, n, begun, slot)
    ensures TableBut(slots[(n + 1) % capacity := slot'], capacity, n, begun, slot')
  {
    hide Expect;
  }

  lemma ButDone(slots: seq<Slot>, capacity: nat, n: nat, begun: seq<Frame>)
    requires n < |begun| && TableBut(slots, capacity, n, begun, Slot(n + 1, Live(begun[n])))
    ensures Table(slots, capacity, n + 1, begun)
  {
    forall i | 0 <= i < capacity
      ensures slots[i] == Expect(i, n + 1, capacity, begun)
    {
    }
  }

  lemma LoadHeadStage(s: State, t: Tid, frame: Frame)
    requires Enabled(s, LoadHead(t, frame)) && Stage(s, s.pubs[t])
    ensures var s' := Apply(s, LoadHead(t, frame)); Stage(s', s'.pubs[t])
  {
    TableGrows(s.slots, s.capacity, |s.begun|, s.begun, frame);
    hide Table;
  }

  /** Clearing the slot of n drops exactly the payload of n - capacity, or nothing in the first round. */
  lemma ClearStage(s: State, t: Tid)
    requires Enabled(s, ClearSlot(t)) && Stage(s, s.pubs[t])
    ensures var s' := Apply(s, ClearSlot(t)); Stage(s', s'.pubs[t]) && s'.fault == s.fault
  {
    var n, c := |s.begun|, s.capacity;
    Displaced(n, c);
    var slot := s.slots[n % c];
    assert slot == Expect(n % c, n - 1, c, s.begun);
    TableRewrite(s.slots, c, n - 1, s.begun, Clear(slot));
    hide Table, TableBut;
    ClearedSlot(n, c, s.begun);
    hide Latest, Expect, Gone;
  }

  /** What the slot of n holds before n, and what clearing it adds to the dropped. */
  lemma ClearedSlot(n: nat, c: nat, begun: seq<Frame>)
    requires c > 0 && 0 < n <= |begun|
    ensures var slot := Expect(n % c, n - 1, c, begun);
            && (slot.sequence > 0 ==> slot.cell.Live?)
            && begun[..Gone(n, c)] ==
               if Clear(slot) != slot then begun[..Gone(n - 1, c)] + [slot.cell.frame] else begun[..Gone(n - 1, c)]
  {
    Displaced(n, c);
    hide Latest;
    if n > c {
      assert begun[..n - c] == begun[..n - 1 - c] + [begun[n - c - 1]];
    }
  }

  lemma FillStage(s: State, t: Tid)
    requires Enabled(s, Fill(t)) && Stage(s, s.pubs[t])
    ensures var s' := Apply(s, Fill(t)); Stage(s', s'.pubs[t])
  {
    var n, c := |s.begun|, s.capacity;
    var slot := s.slots[n % c];
    assert slot == Clear(Expect(n % c, n - 1, c, s.begun));
    ButRewrite(s.slots, c, n - 1, s.begun, slot, slot.(cell := Live(s.begun[n - 1])));
    hide TableBut;
  }

  lemma StampStage(s: State, t: Tid)
    requires Enabled(s, Stamp(t)) && Stage(s, s.pubs[t])
    ensures var s' := Apply(s, Stamp(t)); Stage(s', s'.pubs[t])
  {
    var n, c := |s.begun|, s.capacity;
    var slot := s.slots[n % c];
    assert slot.cell == Live(s.begun[n - 1]);
    ButRewrite(s.slots, c, n - 1, s.begun, slot, Slot(n, Live(s.begun[n - 1])));
    ButDone(s.slots[n % c := Slot(n, Live(s.begun[n - 1]))], c, n - 1, s.begun);
    hide TableBut, Table;
  }

  lemma StageKept(s: State, op: Op, p: Tid)
    requires Inv(s, p) && Enabled(s, op) && !IsRead(op) && op.t == p
    ensures var s' := Apply(s, op); Stage(s', s'.pubs[p]) && s'.fault == s.fault
  {
    assert Stage(s, s.pubs[p]);
    hide Stage, Conserved, ReadersOk, Alone;
    match op
    case LoadHead(t, frame) => LoadHeadStage(s, t, frame);
    case ClearSlot(t) => ClearStage(s, t);
    case Fill(t) => FillStage(s, t);
    case Stamp(t) => StampStage(s, t);
    case StoreHead(t) => HeadStage(s, t);
    case CountTotal(t) => TotalStage(s, t);
  }

  lemma HeadStage(s: State, t: Tid)
    requires Enabled(s, StoreHead(t)) && Stage(s, s.pubs[t])
    ensures var s' := Apply(s, StoreHead(t)); Stage(s', s'.pubs[t])
  {
    hide Table;
  }

  lemma TotalStage(s: State, t: Tid)
    requires Enabled(s, CountTotal(t)) && Stage(s, s.pubs[t])
    ensures var s' := Apply(s, CountTotal(t)); Stage(s', s'.pubs[t])
  {
    hide Table;
  }

  // ---------------------------------------------------------------- ownership

  lemma {:induction false} OwnedUpdate(slots: seq<Slot>, i: nat, slot: Slot, f: Frame)
    requires i < |slots|
    ensures Owned(slots[i := slot], f) + One(slots[i], f) == Owned(slots, f) + One(slot, f)
  {
    hide One;
    var slots' := slots[i := slot];
    if i == 0 {
      assert slots'[1..] == slots[1..];
    } else {
      assert slots'[1..] == slots[1..][i - 1 := slot];
      OwnedUpdate(slots[1..], i - 1, slot, f);
    }
  }

  lemma TimesAppend(frames: seq<Frame>, x: Frame, f: Frame)
    ensures Times(frames + [x], f) == Times(frames, f) + if x == f then 1 else 0
  {
  }

  lemma LoadHeadConserves(s: State, t: Tid, frame: Frame)
    requires Enabled(s, LoadHead(t, frame)) && Conserved(s, s.pubs[t])
    ensures var s' := Apply(s, LoadHead(t, frame)); Conserved(s', s'.pubs[t])
  {
    var s' := Apply(s, LoadHead(t, frame));
    hide Owned, Times;
    forall f
      ensures Times(s'.begun, f) == Times(s'.dropped, f) + Owned(s'.slots, f) + InHand(s'.pubs[t], f)
    {
      TimesAppend(s.begun, frame, f);
    }
  }

  lemma ClearConserves(s: State, t: Tid)
    requires Enabled(s, ClearSlot(t)) && Conserved(s, s.pubs[t])
    ensures var s' := Apply(s, ClearSlot(t)); Conserved(s', s'.pubs[t])
  {
    var i := s.pubs[t].num % s.capacity;
    var s', slot := Apply(s, ClearSlot(t)), s.slots[i];
    hide Owned, Times;
    forall f
      ensures Times(s'.begun, f) == Times(s'.dropped, f) + Owned(s'.slots, f) + InHand(s'.pubs[t], f)
    {
      OwnedUpdate(s.slots, i, Clear(slot), f);
      if Clear(slot) != slot { TimesAppend(s.dropped, slot.cell.frame, f); }
    }
  }

  lemma FillConserves(s: State, t: Tid)
    requires Enabled(s, Fill(t)) && Conserved(s, s.pubs[t])
    requires !s.slots[s.pubs[t].num % s.capacity].cell.Live?
    ensures var s' := Apply(s, Fill(t)); Conserved(s', s'.pubs[t])
  {
    var i := s.pubs[t].num % s.capacity;
    var s' := Apply(s, Fill(t));
    hide Owned, Times;
    forall f
      ensures Times(s'.begun, f) == Times(s'.dropped, f) + Owned(s'.slots, f) + InHand(s'.pubs[t], f)
    {
      OwnedUpdate(s.slots, i, s.slots[i].(cell := Live(s.pubs[t].frame)), f);
    }
  }

  lemma StampConserves(s: State, t: Tid)
    requires Enabled(s, Stamp(t)) && Conserved(s, s.pubs[t])
    ensures var s' := Apply(s, Stamp(t)); Conserved(s', s'.pubs[t])
  {
    var i := s.pubs[t].num % s.capacity;
    var s' := Apply(s, Stamp(t));
    hide Owned, Times;
    forall f
      ensures Times(s'.begun, f) == Times(s'.dropped, f) + Owned(s'.slots, f) + InHand(s'.pubs[t], f)
    {
      OwnedUpdate(s.slots, i, s.slots[i].(sequence := s.pubs[t].num), f);
    }
  }

  lemma ClearedIsEmpty(s: State, t: Tid)
    requires Enabled(s, Fill(t)) && Stage(s, s.pubs[t])
    ensures !s.slots[s.pubs[t].num % s.capacity].cell.Live?
  {
  }

  lemma ConservedKept(s: State, op: Op, p: Tid)
    requires Inv(s, p) && Enabled(s, op) && !IsRead(op) && op.t == p
    ensures var s' := Apply(s, op); Conserved(s', s'.pubs[p])
  {
    if op.Fill? { ClearedIsEmpty(s, p); }
    assert Conserved(s, s.pubs[p]);
    hide Stage, ReadersOk, Alone, Owned, Times;
    match op
    case LoadHead(t, frame) => LoadHeadConserves(s, t, frame);
    case ClearSlot(t) => ClearConserves(s, t);
    case Fill(t) => FillConserves(s, t);
    case Stamp(t) => StampConserves(s, t);
    case StoreHead(t) =>
    case CountTotal(t) =>
  }

  // ---------------------------------------------------------------- readers

  /** The slot of a head still within the ring holds that head's frame. */
  lemma SlotOfRecentHead(s: State, p: Tid, h: nat)
    requires Inv(s, p) && 1 <= h <= s.head && |s.begun| < h + s.capacity
    ensures s.slots[h % s.capacity] == Slot(h, Live(s.begun[h - 1]))
  {
    var n, c := |s.begun|, s.capacity;
    assert Stage(s, s.pubs[p]);
    hide Conserved, ReadersOk, Alone;
    if s.pubs[p].Resting? || s.pubs[p].Stamped? || s.pubs[p].Headed? {
      LatestWithinRing(h, n, c);
    } else {
      LatestWithinRing(h, n - 1, c);
      if h % c == n % c { SameSlotApart(h, n, c); }
    }
  }

  lemma HeadsAreBegun(s: State, p: Tid)
    requires Inv(s, p)
    ensures s.head <= |s.begun|
  {
    hide Conserved, ReadersOk, Alone, Table, TableBut;
  }

  lemma ReadKept(s: State, op: Op, p: Tid)
    requires Inv(s, p) && Enabled(s, op) && IsRead(op)
    ensures ReadOk(ReaderNext(s, op), s.head, s.capacity, s.begun)
  {
    var rd := s.readers[op.r];
    assert ReadOk(rd, s.head, s.capacity, s.begun);
    HeadsAreBegun(s, p);
    if op.ReadPayload? && |s.begun| < rd.h + s.capacity {
      SlotOfRecentHead(s, p, rd.h);
    }
    hide Stage, Conserved, ReadersOk, Alone;
  }

  lemma PublishKeepsReads(rd: Reader, head: nat, head': nat, capacity: nat, begun: seq<Frame>, begun': seq<Frame>)
    requires ReadOk(rd, head, capacity, begun) && head <= head'
    requires begun' == begun || (|begun'| == |begun| + 1 && begun'[..|begun|] == begun)
    ensures ReadOk(rd, head', capacity, begun')
  {
    if rd.Got? && rd.n < rd.h + capacity {
      assert begun'[rd.h - 1] == begun[rd.h - 1];
    }
  }

  lemma PublisherFrame(s: State, op: Op, p: Tid)
    requires Inv(s, p) && Enabled(s, op) && !IsRead(op) && op.t == p
    ensures var s' := Apply(s, op);
            && Shape(s') && Alone(s'.pubs, p) && s.head <= s'.head
            && s'.readers == s.readers && s'.capacity == s.capacity
            && (s'.begun == s.begun || (|s'.begun| == |s.begun| + 1 && s'.begun[..|s.begun|] == s.begun))
  {
    hide Conserved, ReadersOk, Table, TableBut, Clear;
  }

  /** Storing a head is the only step that adds a stored head. */
  lemma StoredSteps(s: State, op: Op)
    requires Enabled(s, op)
    ensures StoredHeads(Apply(s, op)) == StoredHeads(s) + if op.StoreHead? then 1 else 0
  {
    var s' := Apply(s, op);
    var was, now := HeadedOnes(s.pubs), HeadedOnes(s'.pubs);
    hide Clear, ReaderNext;
    if op.StoreHead? {
      assert now == was + {op.t} && op.t !in was;
    } else if op.CountTotal? {
      assert now == was - {op.t} && op.t in was;
    } else {
      assert now == was;
    }
    hide HeadedOnes;
  }

  lemma PublisherStepKeepsInv(s: State, op: Op, p: Tid)
    requires Inv(s, p) && Enabled(s, op) && !IsRead(op) && op.t == p
    ensures Inv(Apply(s, op), p)
  {
    StageKept(s, op, p);
    ConservedKept(s, op, p);
    PublisherFrame(s, op, p);
    StoredSteps(s, op);
    HeadSteps(s, op, p);
    hide Apply, Enabled, Stage, Conserved, Alone, StoredHeads;
    var s' := Apply(s, op);
    forall r | r in s'.readers
      ensures ReadOk(s'.readers[r], s'.head, s'.capacity, s'.begun)
    {
      PublishKeepsReads(s.readers[r], s.head, s'.head, s.capacity, s.begun, s'.begun);
    }
  }

  lemma HeadSteps(s: State, op: Op, p: Tid)
    requires Inv(s, p) && Enabled(s, op) && !IsRead(op) && op.t == p
    ensures Apply(s, op).head == s.head + if op.StoreHead? then 1 else 0
  {
    assert Stage(s, s.pubs[p]);
    hide Conserved, ReadersOk, Alone, Table, TableBut, Clear;
  }

  /** While nobody is busy it does not matter whose turn it was. */
  lemma TurnPasses(s: State, p: Tid, q: Tid)
    requires Inv(s, p) && !Busy(s.pubs[p]) && q in s.pubs
    ensures Inv(s, q)
  {
    hide Table, Owned, Times, ReadersOk, StoredHeads;
  }

  /** Counting a publish, by a thread whose head is stored, leaves the busy one's work alone. */
  lemma CountKeepsInv(s: State, op: Op, p: Tid)
    requires Inv(s, p) && Enabled(s, op) && op.CountTotal? && op.t != p
    ensures Inv(Apply(s, op), p)
  {
    StoredSteps(s, op);
    hide Table, TableBut, Owned, Times, StoredHeads;
  }

  lemma StageIgnoresReaders(s: State, s': State, pc: Publisher)
    requires s' == s.(readers := s'.readers) && Stage(s, pc) && Conserved(s, pc)
    ensures Stage(s', pc) && Conserved(s', pc)
  {
    hide Table, TableBut, Owned, Times;
  }

  lemma ReaderStepKeepsInv(s: State, op: Op, p: Tid)
    requires Inv(s, p) && Enabled(s, op) && IsRead(op)
    ensures Inv(Apply(s, op), p)
  {
    ReadKept(s, op, p);
    StageIgnoresReaders(s, Apply(s, op), s.pubs[p]);
    hide Stage, Conserved, Alone, ReaderNext;
  }

  /** Whose turn it is after an operation. */
  function Turn(op: Op, p: Tid): Tid {
    if op.LoadHead? then op.t else p
  }

  lemma StepKeepsInv(s: State, op: Op, p: Tid)
    requires Inv(s, p) && Enabled(s, op) && (op.LoadHead? ==> NoneBusy(s.pubs))
    ensures Inv(Apply(s, op), Turn(op, p))
  {
    if IsRead(op) {
      hide Inv, Apply, Enabled;
      ReaderStepKeepsInv(s, op, p);
    } else if op.LoadHead? {
      assert !Busy(s.pubs[p]) && op.t in s.pubs;
      hide Inv, Apply, Enabled;
      TurnPasses(s, p, op.t);
      PublisherStepKeepsInv(s, op, op.t);
    } else if op.t == p {
      hide Inv, Apply, Enabled;
      PublisherStepKeepsInv(s, op, p);
    } else {
      assert !Busy(s.pubs[op.t]) && op.CountTotal?;
      hide Inv, Apply, Enabled;
      CountKeepsInv(s, op, p);
    }
  }

  lemma {:induction false} RunKeepsInv(s: State, ops: seq<Op>, p: Tid) returns (q: Tid)
    requires Inv(s, p) && Feasible(s, ops) && Disjoint(s, ops)
    ensures Inv(Run(s, ops), q)
    decreases |ops|
  {
    hide Inv, Enabled, Apply;
    q := p;
    if ops != [] {
      StepKeepsInv(s, ops[0], p);
      q := RunKeepsInv(Apply(s, ops[0]), ops[1..], Turn(ops[0], p));
    }
  }

  lemma {:induction false} NothingOwned(slots: seq<Slot>, f: Frame)
    requires forall i :: 0 <= i < |slots| ==> !slots[i].cell.Live?
    ensures Owned(slots, f) == 0
  {
    if slots != [] {
      assert forall i :: 0 <= i < |slots[1..]| ==> slots[1..][i] == slots[i + 1];
      NothingOwned(slots[1..], f);
    }
  }

  lemma InitInv(requested: nat, publishers: set<Tid>, readers: set<Tid>, p: Tid)
    requires p in publishers
    ensures Inv(Init(requested, publishers, readers), p)
  {
    var s := Init(requested, publishers, readers);
    forall f
      ensures Owned(s.slots, f) == 0
    {
      NothingOwned(s.slots, f);
    }
    assert Latest(0, 0, s.capacity) == 0;
    assert Table(s.slots, s.capacity, 0, s.begun);
    hide Owned;
  }

  /** A slot about to be cleared owns a live payload if it was ever stamped. */
  lemma NumberedSlot(s: State, p: Tid)
    requires Inv(s, p) && s.pubs[p].Numbered?
    ensures var slot := s.slots[s.pubs[p].num % s.capacity]; slot.sequence > 0 <==> slot.cell.Live?
  {
    hide Conserved, ReadersOk, Latest;
    assert Stage(s, s.pubs[p]);
  }

  /** The hub's ring. Each Step method is one atomic step of publisher `t`. */
  class BroadcastHub {
    const capacity: nat
    const slots: array<Slot>
    var head: nat
    var total: nat
    ghost var pubs: map<Tid, Publisher>
    ghost var readers: map<Tid, Reader>
    ghost var begun: seq<Frame>
    ghost var dropped: seq<Frame>

    ghost function View(): State
      reads this, slots
    {
      State(capacity, slots[..], head, total, pubs, readers, begun, dropped, false)
    }

    constructor (requested: nat, publishers: set<Tid>)
      ensures View() == Init(requested, publishers, {}) && fresh(slots)
    {
      var c := Round(requested);
      capacity := c;
      slots := new Slot[c](i => Slot(0, Uninit));
      head, total := 0, 0;
      pubs, readers := map t | t in publishers :: Resting, map[];
      begun, dropped := [], [];
      new;
      assert slots[..] == seq(c, i => Slot(0, Uninit));
    }

    /** `drop_in_place`: legal on a live payload only. */
    method DropInPlace(i: nat)
      requires i < slots.Length && slots[i].cell.Live?
      modifies this`dropped, slots
      ensures slots[..] == old(slots[..])[i := old(slots[i]).(cell := Dead(old(slots[i]).cell.frame))]
      ensures dropped == old(dropped) + [old(slots[i]).cell.frame]
    {
      dropped := dropped + [slots[i].cell.frame];
      slots[i] := slots[i].(cell := Dead(slots[i].cell.frame));
    }

    method NumberStep(p: Tid, frame: Frame) returns (num: nat)
      requires Inv(View(), p) && pubs[p].Resting?
      modifies this`pubs, this`begun
      ensures View() == Apply(old(View()), LoadHead(p, frame)) && num == head + 1 && begun == old(begun) + [frame]
      ensures Inv(View(), p) && pubs == old(pubs)[p := Numbered(num, frame)]
    {
      ghost var was := View();
      assert NoneBusy(pubs);
      num := head + 1;
      pubs, begun := pubs[p := Numbered(num, frame)], begun + [frame];
      StepKeepsInv(was, LoadHead(p, frame), p);
    }

    method ClearStep(p: Tid, num: nat)
      requires Inv(View(), p) && pubs[p].Numbered? && pubs[p].num == num
      modifies this`pubs, this`dropped, slots
      ensures View() == Apply(old(View()), ClearSlot(p))
      ensures Inv(View(), p) && pubs == old(pubs)[p := Cleared(num, old(pubs)[p].frame)]
    {
      ghost var was := View();
      var i := num % capacity;
      NumberedSlot(View(), p);
      assert slots[..][i] == slots[i];
      pubs := pubs[p := Cleared(num, pubs[p].frame)];
      if slots[i].sequence > 0 {
        DropInPlace(i);
      } else {
        assert slots[..] == slots[..][i := slots[i]];
      }
      StepKeepsInv(was, ClearSlot(p), p);
    }

    method FillStep(p: Tid, num: nat, frame: Frame)
      requires Inv(View(), p) && pubs[p] == Cleared(num, frame)
      modifies this`pubs, slots
      ensures View() == Apply(old(View()), Fill(p))
      ensures Inv(View(), p) && pubs == old(pubs)[p := Filled(num)]
    {
      ghost var was := View();
      var i := num % capacity;
      assert slots[..][i] == slots[i];
      slots[i] := slots[i].(cell := Live(frame));
      pubs := pubs[p := Filled(num)];
      StepKeepsInv(was, Fill(p), p);
    }

    method StampStep(p: Tid, num: nat)
      requires Inv(View(), p) && pubs[p] == Filled(num)
      modifies this`pubs, slots
      ensures View() == Apply(old(View()), Stamp(p))
      ensures Inv(View(), p) && pubs == old(pubs)[p := Stamped(num)]
    {
      ghost var was := View();
      var i := num % capacity;
      assert slots[..][i] == slots[i];
      slots[i] := slots[i].(sequence := num);
      pubs := pubs[p := Stamped(num)];
      StepKeepsInv(was, Stamp(p), p);
    }

    method HeadStep(p: Tid, num: nat)
      requires Inv(View(), p) && pubs[p] == Stamped(num)
      modifies this`pubs, this`head
      ensures View() == Apply(old(View()), StoreHead(p)) && head == num
      ensures Inv(View(), p) && pubs == old(pubs)[p := Headed]
    {
      ghost var was := View();
      head, pubs := num, pubs[p := Headed];
      StepKeepsInv(was, StoreHead(p), p);
    }

    method TotalStep(p: Tid)
      requires Inv(View(), p) && pubs[p].Headed?
      modifies this`pubs, this`total
      ensures View() == Apply(old(View()), CountTotal(p)) && total == old(total) + 1
      ensures Inv(View(), p) && pubs == old(pubs)[p := Resting]
    {
      ghost var was := View();
      total, pubs := total + 1, pubs[p := Resting];
      StepKeepsInv(was, CountTotal(p), p);
    }

    /** The slot's part of a publish. */
    method Install(p: Tid, num: nat, frame: Frame)
      requires Inv(View(), p) && pubs[p] == Numbered(num, frame)
      modifies this`pubs, this`dropped, slots
      ensures Inv(View(), p) && pubs == old(pubs)[p := Stamped(num)]
    {
      assert p in pubs;
      hide *;
      ClearStep(p, num);
      FillStep(p, num, frame);
      StampStep(p, num);
    }

    /** A whole publish by the only publisher p: the six steps one after the other. */
    method Publish(p: Tid, frame: Frame) returns (num: nat)
      requires Inv(View(), p) && pubs[p].Resting?
      modifies this, slots
      ensures Inv(View(), p) && pubs == old(pubs) && readers == old(readers)
      ensures num == old(head) + 1 == head && total == old(total) + 1 && begun == old(begun) + [frame]
    {
      assert p in pubs;
      assert pubs[p := Resting] == pubs;
      hide *;
      num := NumberStep(p, frame);
      Install(p, num, frame);
      HeadStep(p, num);
      TotalStep(p);
    }

    /** try_read_latest, with nobody publishing: the last frame published, if it is new and wanted. */
    method TryReadLatest(p: Tid, lastSeen: nat, interest: nat) returns (r: Option<Frame>)
      requires Inv(View(), p) && pubs[p].Resting?
      ensures r.Some? <==> |begun| > lastSeen && ShareBit(begun[|begun| - 1].mask, interest)
      ensures r.Some? ==> r.value == begun[|begun| - 1]
    {
      hide ShareBit, Meets;
      r := None;
      var h := head;
      assert |begun| == h;
      if h > lastSeen {
        SlotOfRecentHead(View(), p, h);
        MeetsIffShareBit(begun[h - 1].mask, interest);
        var i := h % capacity;
        assert slots[..][i] == slots[i];
        if slots[i].sequence == h && Meets(slots[i].cell.frame.mask, interest) {
          r := Some(slots[i].cell.frame);
        }
      }
    }

    /** Drop of the hub: with what was dropped before, every payload ever published is dropped once. */
    method Drop(p: Tid)
      requires Inv(View(), p) && pubs[p].Resting?
      modifies this`dropped, slots
      ensures forall f :: Times(dropped, f) == Times(begun, f)
      ensures forall i :: 0 <= i < capacity ==> !slots[i].cell.Live?
    {
      var i := 0;
      ghost var was := slots[..];
      hide Latest, Meets;
      while i < capacity
        invariant 0 <= i <= capacity == slots.Length
        invariant forall k :: 0 <= k < i ==> !slots[k].cell.Live?
        invariant forall k :: i <= k < capacity ==> slots[k] == was[k]
        invariant forall f :: Times(begun, f) == Times(dropped, f) + Owned(slots[..], f)
      {
        assert was[i] == Expect(i, |begun|, capacity, begun);
        if slots[i].sequence > 0 {
          ghost var before, before' := slots[..], dropped;
          ghost var frame := slots[i].cell.frame;
          DropInPlace(i);
          forall f
            ensures Times(begun, f) == Times(dropped, f) + Owned(slots[..], f)
          {
            OwnedUpdate(before, i, slots[i], f);
            TimesAppend(before', frame, f);
          }
        }
        i := i + 1;
      }
      forall f
        ensures Owned(slots[..], f) == 0
      {
        NothingOwned(slots[..], f);
      }
    }
  }

  // ---------------------------------------------------------------- results

  /** While publishes do not overlap, whenever none is under way slot i holds the largest published number
      congruent to i modulo the capacity with that number's frame, the head and the total are the number of
      publishes, the payloads dropped are all but the last `capacity`, oldest first, and none was dropped
      uninitialised. */
  lemma RingHoldsLatest(requested: nat, publishers: set<Tid>, readers: set<Tid>, p: Tid, ops: seq<Op>)
    requires p in publishers && Feasible(Init(requested, publishers, readers), ops)
    requires Disjoint(Init(requested, publishers, readers), ops)
    requires AtRest(Run(Init(requested, publishers, readers), ops))
    ensures var s := Run(Init(requested, publishers, readers), ops);
            && s.head == s.total == |s.begun| && !s.fault
            && s.dropped == s.begun[..Gone(|s.begun|, s.capacity)]
            && Table(s.slots, s.capacity, |s.begun|, s.begun)
  {
    InitInv(requested, publishers, readers, p);
    var q := RunKeepsInv(Init(requested, publishers, readers), ops, p);
    assert HeadedOnes(Run(Init(requested, publishers, readers), ops).pubs) == {};
    hide Table, Conserved, ReadersOk, HeadedOnes;
  }

  predicate AtRest(s: State) {
    forall t :: t in s.pubs ==> s.pubs[t].Resting?
  }

  /** At every moment, mid-publish included, while publishes do not overlap: at most one is between its load
      and its store, no payload is lost or dropped twice, nothing but a live payload is dropped, and a reader
      that read before the publish of frame h + capacity was begun has frame h. */
  lemma EveryMoment(requested: nat, publishers: set<Tid>, readers: set<Tid>, p: Tid, ops: seq<Op>, r: Tid)
    returns (q: Tid)
    requires p in publishers && Feasible(Init(requested, publishers, readers), ops)
    requires Disjoint(Init(requested, publishers, readers), ops)
    ensures var s := Run(Init(requested, publishers, readers), ops);
            && !s.fault && Alone(s.pubs, q) && Conserved(s, s.pubs[q])
            && (r in s.readers && s.readers[r].Got? && s.readers[r].n < s.readers[r].h + s.capacity ==>
                  && 0 < s.readers[r].h <= |s.begun|
                  && s.readers[r].cell == Live(s.begun[s.readers[r].h - 1]))
  {
    InitInv(requested, publishers, readers, p);
    q := RunKeepsInv(Init(requested, publishers, readers), ops, p);
    hide Stage, Conserved, StoredHeads;
  }

  /** The number of the publish whose payload slot i last received. */
  function Occupant(i: nat, n: nat, capacity: nat, pc: Publisher): nat
    requires capacity > 0
  {
    if n > 0 && (pc.Numbered? || pc.Cleared?) then Latest(i, n - 1, capacity) else Latest(i, n, capacity)
  }

  /** Frame h is still in its slot when n publishes have been begun, the last of them at `pc`: the publish of
      frame h + capacity has not been begun, or is begun and has not yet cleared the slot. */
  predicate StillThere(h: nat, n: nat, capacity: nat, pc: Publisher) {
    n < h + capacity || (n == h + capacity && pc.Numbered?)
  }

  /** What a reader that matched frame h finds in the slot, exactly, at every moment: the payload of the publish
      that last wrote the slot, dropped if the current publish has just cleared it; so its own frame, live, if
      and only if that is still there. */
  lemma MatchedReaderFinds(s: State, p: Tid, r: Tid)
    requires Inv(s, p) && r in s.readers && s.readers[r].Matched?
    ensures var h, n, c, pc := s.readers[r].h, |s.begun|, s.capacity, s.pubs[p];
            var k, cleared := Occupant(h % c, n, c, pc), pc.Cleared? && n % c == h % c;
            && h <= k <= n && k % c == h % c
            && s.slots[h % c].cell == (if cleared then Dead(s.begun[k - 1]) else Live(s.begun[k - 1]))
            && (k == h && !cleared <==> StillThere(h, n, c, pc))
  {
    var h, n, c, pc := s.readers[r].h, |s.begun|, s.capacity, s.pubs[p];
    assert ReadOk(s.readers[r], s.head, s.capacity, s.begun);
    assert Stage(s, pc);
    hide Conserved, ReadersOk, StoredHeads;
    var m := if pc.Numbered? || pc.Cleared? then n - 1 else n;
    OccupantIs(h, m, c);
    if pc.Filled? || pc.Cleared? {
      if h % c == n % c { SameOccupant(h, n, c); }
    }
    if n == h + c { NextInSlot(h, c); }
    if h < n && n % c == h % c { SameSlotApart(h, n, c); }
    hide Latest, Gone;
  }

  lemma OccupantIs(h: nat, m: nat, c: nat)
    requires c > 0 && 1 <= h <= m
    ensures var k := Latest(h % c, m, c); h <= k <= m && k % c == h % c && (k == h <==> m < h + c)
  {
    LatestIsLargest(h % c, m, c, h);
    if m < h + c {
      LatestWithinRing(h, m, c);
    } else {
      NextInSlot(h, c);
      LatestIsLargest(h % c, m, c, h + c);
    }
  }

  lemma SameOccupant(h: nat, n: nat, c: nat)
    requires c > 0 && 1 <= h <= n && n % c == h % c
    ensures Latest(h % c, n, c) == n
  {
  }

  /** The requested capacity is rounded up to the least power of two that reaches it. */
  lemma RoundIsLeastPower(requested: nat) returns (e: nat)
    ensures Round(requested) == Power2(e) && (requested > 0 && e > 0 ==> Power2(e - 1) < requested)
    ensures requested == 0 ==> Round(requested) == 16
  {
    if requested == 0 {
      e := 4;
    } else {
      assert Power2(0) == 1;
      e := PowerFromIsLeast(requested, 0);
    }
  }
}
