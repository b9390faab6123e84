/** Runs of the hub's ring: overlapping publishes, and readers that come too late. */
module HubRuns {
  import opened Bytes
  import opened Rings
  import opened HubRing

  // ---------------------------------------------------------------- putting runs together

  /** What a publisher that has loaded the head goes on to do, uninterrupted. */
  function Finish(t: Tid): seq<Op> {
    [ClearSlot(t), Fill(t), Stamp(t), StoreHead(t), CountTotal(t)]
  }

  lemma Finishes(s: State, t: Tid)
    requires Shape(s) && t in s.pubs && s.pubs[t].Numbered?
    ensures Feasible(s, Finish(t))
    ensures var s' := Run(s, Finish(t));
            && Shape(s') && s'.head == s.pubs[t].num && s'.total == s.total + 1 && s'.begun == s.begun
            && s'.pubs == s.pubs[t := Resting]
  {
    hide Clear;
    var s1 := Apply(s, ClearSlot(t));
    var s2 := Apply(s1, Fill(t));
    var s3 := Apply(s2, Stamp(t));
    var s4 := Apply(s3, StoreHead(t));
    var s5 := Apply(s4, CountTotal(t));
    assert s5.head == s.pubs[t].num && s5.total == s.total + 1 && s5.begun == s.begun;
    assert s5.pubs == s.pubs[t := Resting];
    hide Apply, Run, Feasible;
    Cons(s4, CountTotal(t), []);
    Cons(s3, StoreHead(t), [CountTotal(t)]);
    Cons(s2, Stamp(t), [StoreHead(t), CountTotal(t)]);
    Cons(s1, Fill(t), [Stamp(t), StoreHead(t), CountTotal(t)]);
    Cons(s, ClearSlot(t), [Fill(t), Stamp(t), StoreHead(t), CountTotal(t)]);
  }

  lemma Cons(s: State, op: Op, ops: seq<Op>)
    requires Enabled(s, op) && Feasible(Apply(s, op), ops)
    ensures Feasible(s, [op] + ops) && Run(s, [op] + ops) == Run(Apply(s, op), ops)
  {
    hide Enabled, Apply;
    assert ([op] + ops)[1..] == ops;
  }

  lemma {:induction false} Append(s: State, ops: seq<Op>, more: seq<Op>)
    requires Feasible(s, ops) && Feasible(Run(s, ops), more)
    ensures Feasible(s, ops + more) && Run(s, ops + more) == Run(Run(s, ops), more)
    decreases |ops|
  {
    hide Enabled, Apply;
    if ops == [] {
      assert [] + more == more;
    } else {
      assert (ops + more)[1..] == ops[1..] + more;
      Append(Apply(s, ops[0]), ops[1..], more);
    }
  }

  // ---------------------------------------------------------------- what a reader gets

  /** A read that nobody disturbs, with the newest frame still in its slot: if the head is new to the reader and
      the frame shares a bit with its interest the reader gets exactly that frame, and otherwise nothing. */
  lemma UndisturbedRead(s: State, p: Tid, r: Tid, lastSeen: nat, interest: nat)
    requires Inv(s, p) && |s.begun| < s.head + s.capacity && s.head > 0
    requires r in s.readers && s.readers[r].Away?
    ensures s.head <= |s.begun|
    ensures var newest, ops := s.begun[s.head - 1], [ChooseFrame(r, lastSeen, interest), MatchSlot(r), ReadPayload(r)];
            if s.head > lastSeen
            then Feasible(s, ops) && Run(s, ops) == s.(readers := s.readers[r :=
                   if ShareBit(newest.mask, interest) then Got(s.head, Live(newest), |s.begun|) else Away])
            else Feasible(s, ops[..1]) && Run(s, ops[..1]) == s
  {
    HeadsAreBegun(s, p);
    SlotOfRecentHead(s, p, s.head);
    ShapeOf(s, p);
    hide *;
    var ops := [ChooseFrame(r, lastSeen, interest), MatchSlot(r), ReadPayload(r)];
    if s.head > lastSeen {
      ReadsNewest(s, r, s.begun[s.head - 1], lastSeen, interest);
    } else {
      ChooseIs(s, r, lastSeen, interest);
      OneStep(s, ops[0]);
      assert s.readers[r := Away] == s.readers && ops[..1] == [ops[0]];
    }
  }

  lemma ReadsNewest(s: State, r: Tid, newest: Frame, lastSeen: nat, interest: nat)
    requires Shape(s) && r in s.readers && s.readers[r].Away? && s.head > lastSeen
    requires s.slots[s.head % s.capacity] == Slot(s.head, Live(newest))
    ensures var ops := [ChooseFrame(r, lastSeen, interest), MatchSlot(r), ReadPayload(r)];
            Feasible(s, ops) && Run(s, ops) == s.(readers := s.readers[r :=
              if ShareBit(newest.mask, interest) then Got(s.head, Live(newest), |s.begun|) else Away])
  {
    var s1 := s.(readers := s.readers[r := Chose(s.head, interest)]);
    var s2 := s.(readers := s.readers[r := Matched(s.head, interest)]);
    assert Shape(s1) && Shape(s2);
    hide *;
    ChooseIs(s, r, lastSeen, interest);
    MatchIs(s1, r, newest);
    SetTwice(s.readers, r, Chose(s.head, interest), Matched(s.head, interest));
    ReadIs(s2, r, newest);
    var read := if ShareBit(newest.mask, interest) then Got(s.head, Live(newest), |s.begun|) else Away;
    SetTwice(s.readers, r, Matched(s.head, interest), read);
    ThreeSteps(s, ChooseFrame(r, lastSeen, interest), MatchSlot(r), ReadPayload(r));
  }

  lemma SetTwice(readers: map<Tid, Reader>, r: Tid, a: Reader, b: Reader)
    ensures readers[r := a][r := b] == readers[r := b]
  {
  }

  lemma OneStep(s: State, op: Op)
    requires Enabled(s, op)
    ensures Feasible(s, [op]) && Run(s, [op]) == Apply(s, op)
  {
    hide Apply, Enabled;
    NoSteps(Apply(s, op));
    assert [op][1..] == [];
  }

  lemma ThreeSteps(s: State, a: Op, b: Op, c: Op)
    requires Enabled(s, a) && Enabled(Apply(s, a), b) && Enabled(Apply(Apply(s, a), b), c)
    ensures Feasible(s, [a, b, c]) && Run(s, [a, b, c]) == Apply(Apply(Apply(s, a), b), c)
  {
    hide Apply, Enabled;
    OneStep(Apply(Apply(s, a), b), c);
    Cons(Apply(s, a), b, [c]);
    Cons(s, a, [b, c]);
    assert [b] + [c] == [b, c] && [a] + [b, c] == [a, b, c];
  }

  lemma ChooseIs(s: State, r: Tid, lastSeen: nat, interest: nat)
    requires Shape(s) && r in s.readers && s.readers[r].Away?
    ensures Enabled(s, ChooseFrame(r, lastSeen, interest))
    ensures Apply(s, ChooseFrame(r, lastSeen, interest)) ==
            s.(readers := s.readers[r := if s.head > lastSeen then Chose(s.head, interest) else Away])
  {
  }

  lemma MatchIs(s: State, r: Tid, frame: Frame)
    requires Shape(s) && r in s.readers && s.readers[r].Chose?
    requires s.slots[s.readers[r].h % s.capacity] == Slot(s.readers[r].h, Live(frame))
    ensures Enabled(s, MatchSlot(r))
    ensures Apply(s, MatchSlot(r)) == s.(readers := s.readers[r := Matched(s.readers[r].h, s.readers[r].interest)])
  {
  }

  lemma ReadIs(s: State, r: Tid, frame: Frame)
    requires Shape(s) && r in s.readers && s.readers[r].Matched?
    requires s.slots[s.readers[r].h % s.capacity] == Slot(s.readers[r].h, Live(frame))
    ensures Enabled(s, ReadPayload(r))
    ensures Apply(s, ReadPayload(r)) ==
            s.(readers := s.readers[r := if ShareBit(frame.mask, s.readers[r].interest)
                                         then Got(s.readers[r].h, Live(frame), |s.begun|) else Away])
  {
    hide Meets, ShareBit;
    MeetsIffShareBit(frame.mask, s.readers[r].interest);
  }

  lemma ShapeOf(s: State, p: Tid)
    requires Inv(s, p)
    ensures Shape(s)
  {
  }

  /** Where a reader stands in the read it began by loading head `h` as a number beyond `lastSeen`. */
  ghost predicate InRead(rd: Reader, h: nat, lastSeen: nat, interest: nat) {
    && !rd.Away? && rd.h == h > lastSeen
    && (rd.Got? ==> rd.cell.Live? ==> ShareBit(rd.cell.frame.mask, interest))
    && (!rd.Got? ==> rd.interest == interest)
  }

  lemma ReadGoesOn(s: State, op: Op, r: Tid, h: nat, lastSeen: nat, interest: nat)
    requires Enabled(s, op) && r in s.readers && InRead(s.readers[r], h, lastSeen, interest)
    requires !(op.ChooseFrame? && op.r == r)
    ensures r in Apply(s, op).readers
    ensures Apply(s, op).readers[r].Away? || InRead(Apply(s, op).readers[r], h, lastSeen, interest)
  {
    hide ShareBit, Meets, Clear;
    if op.ReadPayload? && op.r == r {
      var cell := s.slots[h % s.capacity].cell;
      if cell.Live? { MeetsIffShareBit(cell.frame.mask, interest); }
    }
  }

  lemma ReadBegins(s: State, op: Op, r: Tid)
    requires Enabled(s, op) && r in s.readers && op.ChooseFrame? && op.r == r && !Apply(s, op).readers[r].Away?
    ensures InRead(Apply(s, op).readers[r], s.head, op.lastSeen, op.interest)
  {
    hide ShareBit;
  }

  lemma StaysAway(s: State, op: Op, r: Tid)
    requires Enabled(s, op) && r in s.readers && s.readers[r].Away? && !(op.ChooseFrame? && op.r == r)
    ensures r in Apply(s, op).readers && Apply(s, op).readers[r].Away?
  {
    hide Clear, Meets;
  }

  lemma {:induction false} RunFront(s: State, ops: seq<Op>, last: Op)
    requires Feasible(s, ops + [last])
    ensures Feasible(s, ops) && Enabled(Run(s, ops), last) && Run(s, ops + [last]) == Apply(Run(s, ops), last)
    decreases |ops|
  {
    hide Enabled, Apply;
    if ops == [] {
      assert [last][1..] == [];
    } else {
      assert (ops + [last])[0] == ops[0] && (ops + [last])[1..] == ops[1..] + [last];
      RunFront(Apply(s, ops[0]), ops[1..], last);
    }
  }

  /** No reader is ever handed an old frame or one it does not want: in any run, whatever the publishers do, a
      live payload that a reader holds carries a bit of the interest with which the reader began that read, and
      its number is the head loaded then, larger than the number the reader said it had seen. */
  lemma {:induction false} GotIsNewAndWanted(s: State, ops: seq<Op>, r: Tid) returns (i: nat)
    requires Feasible(s, ops) && r in s.readers && s.readers[r].Away?
    requires r in Run(s, ops).readers && !Run(s, ops).readers[r].Away?
    ensures i < |ops| && ops[i].ChooseFrame? && ops[i].r == r && Feasible(s, ops[..i])
    ensures InRead(Run(s, ops).readers[r], Run(s, ops[..i]).head, ops[i].lastSeen, ops[i].interest)
    decreases |ops|
  {
    assert ops != [];
    var front, last := ops[..|ops| - 1], ops[|ops| - 1];
    assert front + [last] == ops;
    RunFront(s, front, last);
    var before := Run(s, front);
    ReadersStay(s, front, r);
    hide Run, Apply, Feasible, Enabled, InRead;
    if last.ChooseFrame? && last.r == r {
      ReadBegins(before, last, r);
      i := |front|;
    } else {
      if before.readers[r].Away? { StaysAway(before, last, r); }
      i := GotIsNewAndWanted(s, front, r);
      assert front[..i] == ops[..i] && front[i] == ops[i];
      ReadGoesOn(before, last, r, Run(s, ops[..i]).head, ops[i].lastSeen, ops[i].interest);
    }
  }

  lemma {:induction false} ReadersStay(s: State, ops: seq<Op>, r: Tid)
    requires Feasible(s, ops) && r in s.readers
    ensures r in Run(s, ops).readers
    decreases |ops|
  {
    if ops != [] {
      assert r in Apply(s, ops[0]).readers by { hide ReaderNext, Clear; }
      hide Apply, Enabled;
      ReadersStay(Apply(s, ops[0]), ops[1..], r);
    }
  }

  // ---------------------------------------------------------------- overlapping publishes

  /** Why publishes may not overlap: from any state in which two rest, if both load the head before
      either stores it, both get the same number and the head falls one behind the total. */
  lemma TwoPublishersCollide(s: State, p: Tid, q: Tid, f: Frame, g: Frame) returns (ops: seq<Op>)
    requires Shape(s) && p != q && p in s.pubs && q in s.pubs && s.pubs[p].Resting? && s.pubs[q].Resting?
    ensures Feasible(s, ops) && Run(s, ops).pubs == s.pubs
    ensures Run(s, ops).begun == s.begun + [f, g]
    ensures Run(s, ops).head == s.head + 1 && Run(s, ops).total == s.total + 2
  {
    var s1 := Apply(s, LoadHead(p, f));
    var s2 := Apply(s1, LoadHead(q, g));
    hide Feasible, Run;
    assert s2.begun == s.begun + [f, g];
    Finishes(s2, p);
    var s3 := Run(s2, Finish(p));
    Finishes(s3, q);
    var s4 := Run(s3, Finish(q));
    assert s4.pubs == s.pubs;
    Append(s2, Finish(p), Finish(q));
    hide Finish;
    Cons(s1, LoadHead(q, g), Finish(p) + Finish(q));
    Cons(s, LoadHead(p, f), [LoadHead(q, g)] + (Finish(p) + Finish(q)));
    ops := [LoadHead(p, f)] + ([LoadHead(q, g)] + (Finish(p) + Finish(q)));
  }

  /** The publish that stores the head in this step does so between the load and the store of another. */
  ghost predicate Interrupts(s: State, op: Op) {
    op.StoreHead? && exists u :: u in s.pubs && u != op.t && Busy(s.pubs[u])
  }

  ghost predicate Interrupted(s: State, ops: seq<Op>)
    requires Feasible(s, ops)
    decreases |ops|
  {
    ops != [] && (Interrupts(s, ops[0]) || Interrupted(Apply(s, ops[0]), ops[1..]))
  }

  /** A busy publisher that will store a head smaller than the number of stores it makes. */
  predicate Lags(pc: Publisher, done: nat) {
    Busy(pc) && pc.num <= done
  }

  predicate AllLag(pubs: map<Tid, Publisher>, done: nat) {
    forall t :: t in pubs && Busy(pubs[t]) ==> pubs[t].num <= done
  }

  /** What the head is, with `hit` saying whether a store has interrupted a publish: exactly the stores made so
      far if not, and otherwise fewer, now and for good, or once some lagging publisher has stored its own. */
  ghost predicate HeadInv(s: State, hit: bool) {
    var done := StoredHeads(s);
    && s.head <= done && AllLag(s.pubs, done + 1)
    && (!hit ==> s.head == done && forall t :: t in s.pubs && Busy(s.pubs[t]) ==> s.pubs[t].num == done + 1)
    && (hit && s.head < done ==> AllLag(s.pubs, done))
    && (hit && s.head == done ==> exists t :: t in s.pubs && Lags(s.pubs[t], done))
  }

  lemma PubsStep(s: State, op: Op)
    requires Enabled(s, op) && !IsRead(op)
    ensures var s' := Apply(s, op);
            && op.t in s.pubs && s'.pubs == s.pubs[op.t := s'.pubs[op.t]]
            && (op.LoadHead? ==> !Busy(s.pubs[op.t]) && Busy(s'.pubs[op.t]) && s'.pubs[op.t].num == s.head + 1)
            && (op.StoreHead? ==> Busy(s.pubs[op.t]) && !Busy(s'.pubs[op.t]) && s'.head == s.pubs[op.t].num)
            && (op.CountTotal? ==> !Busy(s.pubs[op.t]) && !Busy(s'.pubs[op.t]))
            && (op.ClearSlot? || op.Fill? || op.Stamp? ==>
                  Busy(s.pubs[op.t]) && Busy(s'.pubs[op.t]) && s'.pubs[op.t].num == s.pubs[op.t].num)
            && (!op.StoreHead? ==> s'.head == s.head)
  {
    hide Clear;
  }

  lemma HeadStep(s: State, op: Op, hit: bool)
    requires HeadInv(s, hit) && Enabled(s, op)
    ensures HeadInv(Apply(s, op), hit || Interrupts(s, op))
  {
    StoredSteps(s, op);
    var s', done := Apply(s, op), StoredHeads(s);
    if IsRead(op) {
      assert s'.pubs == s.pubs && s'.head == s.head;
      hide Apply, Enabled, StoredHeads;
    } else {
      PubsStep(s, op);
      hide Apply, Enabled, StoredHeads;
      if op.StoreHead? {
        StoreHeadStep(s, s', op, hit);
      } else {
        LagStays(s, s', op, done, hit);
      }
    }
  }

  lemma StoreHeadStep(s: State, s': State, op: Op, hit: bool)
    requires HeadInv(s, hit) && op.StoreHead? && op.t in s.pubs && op.t in s'.pubs
    requires s'.pubs == s.pubs[op.t := s'.pubs[op.t]] && Busy(s.pubs[op.t]) && !Busy(s'.pubs[op.t])
    requires s'.head == s.pubs[op.t].num && StoredHeads(s') == StoredHeads(s) + 1
    ensures HeadInv(s', hit || Interrupts(s, op))
  {
    hide StoredHeads;
    var done := StoredHeads(s);
    if hit && s.head == done && s'.head == done + 1 {
      var u :| u in s.pubs && Lags(s.pubs[u], done);
      assert u != op.t && u in s'.pubs && Lags(s'.pubs[u], done + 1);
    } else if !hit && Interrupts(s, op) {
      var u :| u in s.pubs && u != op.t && Busy(s.pubs[u]);
      assert u in s'.pubs && Lags(s'.pubs[u], done + 1);
    }
  }

  lemma LagStays(s: State, s': State, op: Op, done: nat, hit: bool)
    requires HeadInv(s, hit) && !op.StoreHead? && !IsRead(op) && op.t in s.pubs && op.t in s'.pubs
    requires done == StoredHeads(s) == StoredHeads(s')
    requires s'.pubs == s.pubs[op.t := s'.pubs[op.t]] && s'.head == s.head
    requires op.LoadHead? ==> !Busy(s.pubs[op.t]) && Busy(s'.pubs[op.t]) && s'.pubs[op.t].num == s.head + 1
    requires op.CountTotal? ==> !Busy(s.pubs[op.t]) && !Busy(s'.pubs[op.t])
    requires op.ClearSlot? || op.Fill? || op.Stamp? ==>
               Busy(s.pubs[op.t]) && Busy(s'.pubs[op.t]) && s'.pubs[op.t].num == s.pubs[op.t].num
    ensures HeadInv(s', hit || Interrupts(s, op))
  {
    hide StoredHeads;
    if hit && s.head == done {
      var u :| u in s.pubs && Lags(s.pubs[u], done);
      assert u in s'.pubs && Lags(s'.pubs[u], done);
    }
  }

  lemma {:induction false} HeadRun(s: State, ops: seq<Op>, hit: bool)
    requires HeadInv(s, hit) && Feasible(s, ops)
    ensures HeadInv(Run(s, ops), hit || Interrupted(s, ops))
    decreases |ops|
  {
    hide HeadInv, Enabled, Apply, Interrupts;
    if ops != [] {
      HeadStep(s, ops[0], hit);
      HeadRun(Apply(s, ops[0]), ops[1..], hit || Interrupts(s, ops[0]));
    }
  }

  /** Without an overlap nobody is interrupted: at most one publish is ever between load and store. */
  lemma {:induction false} DisjointIsUninterrupted(s: State, ops: seq<Op>)
    requires Feasible(s, ops) && Disjoint(s, ops)
    requires forall t, u :: t in s.pubs && u in s.pubs && Busy(s.pubs[t]) && Busy(s.pubs[u]) ==> t == u
    ensures !Interrupted(s, ops)
    decreases |ops|
  {
    if ops != [] {
      var op := ops[0];
      if IsRead(op) {
        assert Apply(s, op).pubs == s.pubs;
        assert !Interrupts(s, op);
      } else {
        PubsStep(s, op);
      }
      hide Apply, Enabled;
      DisjointIsUninterrupted(Apply(s, op), ops[1..]);
    }
  }

  /** Two publishes between load and store: by the time all rest, one of them has been interrupted. */
  lemma {:induction false} TwoBusyInterrupt(s: State, ops: seq<Op>, t: Tid, u: Tid)
    requires Feasible(s, ops) && AtRest(Run(s, ops))
    requires t != u && t in s.pubs && u in s.pubs && Busy(s.pubs[t]) && Busy(s.pubs[u])
    ensures Interrupted(s, ops)
    decreases |ops|
  {
    if ops != [] {
      var op := ops[0];
      if IsRead(op) {
        assert Apply(s, op).pubs == s.pubs;
      } else {
        PubsStep(s, op);
      }
      if op.StoreHead? {
        var other := if op.t == t then u else t;
        assert other in s.pubs && other != op.t && Busy(s.pubs[other]);
      } else {
        hide Apply, Enabled;
        TwoBusyInterrupt(Apply(s, op), ops[1..], t, u);
      }
    }
  }

  lemma {:induction false} OverlapInterrupts(s: State, ops: seq<Op>)
    requires Feasible(s, ops) && AtRest(Run(s, ops)) && !Disjoint(s, ops)
    ensures Interrupted(s, ops)
    decreases |ops|
  {
    var op := ops[0];
    if op.LoadHead? && !NoneBusy(s.pubs) {
      var u :| u in s.pubs && Busy(s.pubs[u]);
      PubsStep(s, op);
      hide Apply, Enabled;
      TwoBusyInterrupt(Apply(s, op), ops[1..], op.t, u);
    } else {
      OverlapInterrupts(Apply(s, op), ops[1..]);
    }
  }

  /** Any number of publishers, any run: once all rest, the head is the total if and only if no publish loaded
      the head while another was between its load and its store. */
  lemma HeadIsTotalIffDisjoint(requested: nat, publishers: set<Tid>, readers: set<Tid>, ops: seq<Op>)
    requires Feasible(Init(requested, publishers, readers), ops)
    requires AtRest(Run(Init(requested, publishers, readers), ops))
    ensures var s0, s := Init(requested, publishers, readers), Run(Init(requested, publishers, readers), ops);
            (s.head == s.total <==> Disjoint(s0, ops)) && s.head <= s.total
  {
    var s0 := Init(requested, publishers, readers);
    assert HeadedOnes(s0.pubs) == {} && HeadInv(s0, false);
    var s := Run(s0, ops);
    HeadRun(s0, ops, false);
    assert HeadedOnes(s.pubs) == {};
    if Disjoint(s0, ops) {
      DisjointIsUninterrupted(s0, ops);
    } else {
      OverlapInterrupts(s0, ops);
    }
    hide Run, Feasible, Init, HeadedOnes, Interrupted, Disjoint;
  }

  /** A single publishing thread never overlaps with itself. */
  lemma {:induction false} SinglePublisherIsDisjoint(s: State, ops: seq<Op>, p: Tid)
    requires Feasible(s, ops) && forall i :: 0 <= i < |ops| ==> IsRead(ops[i]) || ops[i].t == p
    requires forall t :: t in s.pubs && t != p ==> !Busy(s.pubs[t])
    ensures Disjoint(s, ops)
    decreases |ops|
  {
    if ops != [] {
      var op := ops[0];
      if IsRead(op) {
        assert Apply(s, op).pubs == s.pubs;
      } else {
        PubsStep(s, op);
      }
      hide Apply, Enabled;
      SinglePublisherIsDisjoint(Apply(s, op), ops[1..], p);
    }
  }

  // ---------------------------------------------------------------- late readers

  /** The readers' condition is tight: in any state, a reader about to read frame h whose publisher first
      begins frame h + capacity finds frame h already dropped. */
  lemma LateReaderFindsDropped(s: State, p: Tid, r: Tid, frame: Frame)
    requires Inv(s, p) && s.pubs[p].Resting?
    requires r in s.readers && s.readers[r].Matched? && |s.begun| + 1 == s.readers[r].h + s.capacity
    ensures var ops, h := [LoadHead(p, frame), ClearSlot(p), ReadPayload(r)], s.readers[r].h;
            && h > 0 && Feasible(s, ops) && r in Run(s, ops).readers
            && Run(s, ops).readers[r] == Got(h, Dead(s.begun[h - 1]), h + s.capacity)
  {
    var h, n := s.readers[r].h, |s.begun|;
    assert ReadOk(s.readers[r], s.head, s.capacity, s.begun);
    SlotOfRecentHead(s, p, h);
    NextInSlot(h, s.capacity);
    assert s.head == n;
    hide Stage, Conserved, ReadersOk;
    var s1 := Apply(s, LoadHead(p, frame));
    var s2 := Apply(s1, ClearSlot(p));
    assert s2.slots[h % s.capacity] == Slot(h, Dead(s.begun[h - 1])) && |s2.begun| == h + s.capacity;
    var s3 := Apply(s2, ReadPayload(r));
    hide Apply, Feasible, Run;
    Cons(s2, ReadPayload(r), []);
    Cons(s1, ClearSlot(p), [ReadPayload(r)]);
    Cons(s, LoadHead(p, frame), [ClearSlot(p), ReadPayload(r)]);
  }

  /** One whole publish. */
  lemma PublishOnce(s: State, p: Tid, frame: Frame) returns (ops: seq<Op>)
    requires Inv(s, p) && AtRest(s)
    ensures Feasible(s, ops) && Disjoint(s, ops)
    ensures var s' := Run(s, ops);
            && Inv(s', p) && AtRest(s') && s'.begun == s.begun + [frame] && s'.capacity == s.capacity
            && s'.readers == s.readers
  {
    var s1 := Apply(s, LoadHead(p, frame));
    StepKeepsInv(s, LoadHead(p, frame), p);
    assert s1.begun == s.begun + [frame] && s1.readers == s.readers && s1.capacity == s.capacity;
    assert forall t :: t in s1.pubs && t != p ==> s1.pubs[t].Resting?;
    hide Inv, Apply, Run, Feasible;
    OnePublishEnds(s1, p);
    Cons(s, LoadHead(p, frame), Finish(p));
    ops := [LoadHead(p, frame)] + Finish(p);
    assert ops[1..] == Finish(p);
  }

  lemma OnePublishEnds(s: State, p: Tid)
    requires Inv(s, p) && s.pubs[p].Numbered? && forall t :: t in s.pubs && t != p ==> s.pubs[t].Resting?
    ensures Feasible(s, Finish(p)) && Disjoint(s, Finish(p))
    ensures var s' := Run(s, Finish(p));
            && Inv(s', p) && AtRest(s') && s'.begun == s.begun && s'.capacity == s.capacity && s'.readers == s.readers
  {
    Finishes(s, p);
    var ops := Finish(p);
    assert forall i :: 0 <= i < |ops| ==> !IsRead(ops[i]) && !ops[i].LoadHead? && ops[i].t == p;
    hide Inv, Run, Feasible, Finish;
    NoLoads(s, ops, p);
  }

  /** A run without loads and reads keeps the invariant, the readers and the capacity. */
  lemma {:induction false} NoLoads(s: State, ops: seq<Op>, p: Tid)
    requires Inv(s, p) && Feasible(s, ops)
    requires forall i :: 0 <= i < |ops| ==> !IsRead(ops[i]) && !ops[i].LoadHead? && ops[i].t == p
    ensures Disjoint(s, ops) && Inv(Run(s, ops), p)
    ensures Run(s, ops).readers == s.readers && Run(s, ops).capacity == s.capacity
    decreases |ops|
  {
    if ops != [] {
      StepKeepsInv(s, ops[0], p);
      PublisherFrame(s, ops[0], p);
      hide Inv, Apply, Enabled;
      NoLoads(Apply(s, ops[0]), ops[1..], p);
    }
  }

  lemma {:induction false} DisjointAppend(s: State, ops: seq<Op>, more: seq<Op>)
    requires Feasible(s, ops) && Disjoint(s, ops) && Feasible(Run(s, ops), more) && Disjoint(Run(s, ops), more)
    ensures Feasible(s, ops + more) && Disjoint(s, ops + more) && Run(s, ops + more) == Run(Run(s, ops), more)
    decreases |ops|
  {
    Append(s, ops, more);
    hide Enabled, Apply;
    if ops == [] {
      assert [] + more == more;
    } else {
      assert (ops + more)[1..] == ops[1..] + more;
      DisjointAppend(Apply(s, ops[0]), ops[1..], more);
    }
  }

  /** n publishes of the same frame, one after the other. */
  lemma {:induction false} PublishMany(s: State, p: Tid, frame: Frame, n: nat) returns (ops: seq<Op>)
    requires Inv(s, p) && AtRest(s)
    ensures Feasible(s, ops) && Disjoint(s, ops)
    ensures var s' := Run(s, ops);
            && Inv(s', p) && AtRest(s') && |s'.begun| == |s.begun| + n && s.begun <= s'.begun
            && s'.capacity == s.capacity && s'.readers == s.readers
  {
    hide Inv, Run, Feasible, Disjoint, AtRest;
    if n == 0 {
      NoSteps(s);
      ops := [];
    } else {
      var first := PublishMany(s, p, frame, n - 1);
      var last := PublishOnce(Run(s, first), p, frame);
      DisjointAppend(s, first, last);
      ops := first + last;
    }
  }

  lemma NoSteps(s: State)
    ensures Feasible(s, []) && Run(s, []) == s && Disjoint(s, [])
  {
  }

  /** Choosing and matching the newest frame. */
  lemma ChooseAndMatch(s: State, p: Tid, r: Tid, interest: nat) returns (ops: seq<Op>)
    requires Inv(s, p) && AtRest(s) && s.begun != [] && r in s.readers && s.readers[r].Away?
    ensures Feasible(s, ops) && Disjoint(s, ops)
    ensures var s' := Run(s, ops);
            && Inv(s', p) && AtRest(s') && s'.begun == s.begun && s'.capacity == s.capacity
            && r in s'.readers && s'.readers[r] == Matched(|s.begun|, interest)
  {
    assert s.head == |s.begun|;
    SlotOfRecentHead(s, p, |s.begun|);
    hide Stage, Conserved, ReadersOk, StoredHeads;
    var choose, matching := ChooseFrame(r, 0, interest), MatchSlot(r);
    var s1 := Apply(s, choose);
    var s2 := Apply(s1, matching);
    StepKeepsInv(s, choose, p);
    StepKeepsInv(s1, matching, p);
    assert AtRest(s2) && s2.begun == s.begun && s2.capacity == s.capacity;
    assert s2.readers[r] == Matched(|s.begun|, interest);
    hide Inv, Apply, Run, Feasible, Enabled;
    NoSteps(s2);
    Cons(s1, matching, []);
    Cons(s, choose, [matching]);
    ops := [choose] + [matching];
    assert ops[1..] == [matching] && [matching][1..] == [];
  }

  /** The readers' condition is tight in every hub: whatever capacity was requested and whatever frames are
      published, this run from a fresh hub, without overlapping publishes, ends with a reader that chose frame
      1 and finds its payload dropped, when exactly 1 + capacity publishes had been begun. */
  lemma LateReaderOfEveryHub(requested: nat, frame: Frame, later: Frame, interest: nat) returns (ops: seq<Op>)
    ensures var s0 := Init(requested, {0}, {0});
            && Feasible(s0, ops) && Disjoint(s0, ops) && 0 in Run(s0, ops).readers
            && Run(s0, ops).readers[0] == Got(1, Dead(frame), 1 + s0.capacity)
  {
    var s0 := Init(requested, {0}, {0});
    InitInv(requested, {0}, {0}, 0);
    assert AtRest(s0) && s0.begun == [] && s0.readers[0] == Away && s0.capacity > 0;
    hide Init, Inv, Run, Feasible, Disjoint, AtRest;
    var first := PublishOnce(s0, 0, frame);
    var s1 := Run(s0, first);
    assert s1.begun == [frame];
    var choose := ChooseAndMatch(s1, 0, 0, interest);
    var s2 := Run(s1, choose);
    DisjointAppend(s0, first, choose);
    var rest := FillAndReadLate(s2, 0, 0, later);
    DisjointAppend(s0, first + choose, rest);
    ops := (first + choose) + rest;
  }

  lemma FillAndReadLate(s: State, p: Tid, r: Tid, later: Frame) returns (ops: seq<Op>)
    requires Inv(s, p) && AtRest(s) && |s.begun| == 1 && s.capacity > 0
    requires r in s.readers && s.readers[r].Matched? && s.readers[r].h == 1
    ensures Feasible(s, ops) && Disjoint(s, ops) && r in Run(s, ops).readers
    ensures Run(s, ops).readers[r] == Got(1, Dead(s.begun[0]), 1 + s.capacity)
  {
    hide Inv, Run, Feasible, Disjoint;
    var fill := PublishMany(s, p, later, s.capacity - 1);
    var s' := Run(s, fill);
    assert p in s'.pubs && s'.pubs[p].Resting? by { Member(s', p); }
    LateReaderFindsDropped(s', p, r, later);
    var late := [LoadHead(p, later), ClearSlot(p), ReadPayload(r)];
    LateIsDisjoint(s', p, r, later);
    DisjointAppend(s, fill, late);
    ops := fill + late;
  }

  lemma Member(s: State, p: Tid)
    requires Inv(s, p)
    ensures p in s.pubs
  {
  }

  lemma {:induction false} LoadFreeIsDisjoint(s: State, ops: seq<Op>)
    requires Feasible(s, ops) && forall i :: 0 <= i < |ops| ==> !ops[i].LoadHead?
    ensures Disjoint(s, ops)
    decreases |ops|
  {
    hide Apply, Enabled;
    if ops != [] { LoadFreeIsDisjoint(Apply(s, ops[0]), ops[1..]); }
  }

  lemma LateIsDisjoint(s: State, p: Tid, r: Tid, later: Frame)
    requires AtRest(s) && Feasible(s, [LoadHead(p, later), ClearSlot(p), ReadPayload(r)])
    ensures Disjoint(s, [LoadHead(p, later), ClearSlot(p), ReadPayload(r)])
  {
    var ops := [LoadHead(p, later), ClearSlot(p), ReadPayload(r)];
    assert NoneBusy(s.pubs);
    hide Apply, Enabled;
    LoadFreeIsDisjoint(Apply(s, ops[0]), ops[1..]);
  }
}
