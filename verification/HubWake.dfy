/** How the hub's readers sleep and are woken: the notify word, the selective futex wake, and publish,
    close and the wait loop as interleaved atomic steps of any number of threads. */
module HubWake {
  import opened Bytes
  import opened Rings

  type Tid = nat

  /** One increment of the notify word: the mask its wake will carry, and whether that wake is still due. */
  datatype Bump = Bump(mask: nat, num: nat, closing: bool, due: bool)

  datatype Pc =
    | Idle
    | Publishing(num: nat, mask: nat)      // loaded the head, about to store num into it
    | Bumping(num: nat, mask: nat)         // stored the head, about to increment the notify word
    | Closing                              // set is_closed, about to increment the notify word
    | Waking(index: nat)                   // made increment `index` of the log, about to wake
    | Looping(last: nat, interest: nat)    // top of the wait loop, about to check is_closed
    | Checking(last: nat, interest: nat, from: nat)
    | Sampling(last: nat, interest: nat, from: nat, seen: nat)
    | Entering(last: nat, interest: nat, from: nat, seen: nat, value: nat, at: nat)
    | Asleep(last: nat, interest: nat, from: nat, seen: nat, at: nat, slept: nat)

  /** `log` lists the increments in order. In a reader, `from` is the length of the log when it last checked
      is_closed, `seen` the head it then loaded, `at` the length of the log when it sampled the notify word,
      and `slept` when it went to sleep. */
  datatype State = State(head: nat, closed: bool, notify: nat, log: seq<Bump>, pcs: map<Tid, Pc>)

  datatype Op =
    | StartPublish(t: Tid, mask: nat)
    | StoreHead(t: Tid)
    | Close(t: Tid)
    | Increment(t: Tid)
    | Wake(t: Tid)
    | StartWait(t: Tid, last: nat, interest: nat)
    | CheckClosed(t: Tid)
    | CheckHead(t: Tid, found: bool)
    | Sample(t: Tid, expired: bool)
    | EnterWait(t: Tid)
    | EarlyWake(t: Tid)

  /** The head check may come up empty even on a new head: its slot may hold another number by then, or a
      frame the reader does not want. */
  predicate Enabled(s: State, op: Op) {
    op.t in s.pcs &&
    var pc := s.pcs[op.t];
    match op
    case StartPublish(_, mask) => pc.Idle? && mask <= BIT_ALL
    case StoreHead(_) => pc.Publishing?
    case Close(_) => pc.Idle?
    case Increment(_) => pc.Bumping? || pc.Closing?
    case Wake(_) => pc.Waking?
    case StartWait(_, _, interest) => pc.Idle? && interest <= BIT_ALL
    case CheckClosed(_) => pc.Looping?
    case CheckHead(_, found) => pc.Checking? && (found ==> s.head > pc.last)
    case Sample(_, _) => pc.Sampling?
    case EnterWait(_) => pc.Entering?
    case EarlyWake(_) => pc.Asleep?
  }

  /** A futex wake with `mask` ends the waits whose interest it meets. */
  function Woken(pc: Pc, mask: nat): Pc {
    if pc.Asleep? && Meets(mask, pc.interest) then Looping(pc.last, pc.interest) else pc
  }

  function Settle(log: seq<Bump>, i: nat): seq<Bump> {
    if i < |log| then log[i := log[i].(due := false)] else log
  }

  /** The reader's next control point. A wait with an empty interest is refused by the kernel. */
  function ReaderNext(s: State, op: Op): Pc
    requires Enabled(s, op) && IsRead(op)
  {
    var pc := s.pcs[op.t];
    match op
    case StartWait(_, last, interest) => Looping(last, interest)
    case CheckClosed(_) => if s.closed then Idle else Checking(pc.last, pc.interest, |s.log|)
    case CheckHead(_, found) => if found then Idle else Sampling(pc.last, pc.interest, pc.from, s.head)
    case Sample(_, expired) =>
      if expired then Idle else Entering(pc.last, pc.interest, pc.from, pc.seen, s.notify, |s.log|)
    case EnterWait(_) =>
      if s.notify == pc.value && pc.interest != 0 then Asleep(pc.last, pc.interest, pc.from, pc.seen, pc.at, |s.log|)
      else Looping(pc.last, pc.interest)
    case EarlyWake(_) => Looping(pc.last, pc.interest)
  }

  predicate IsRead(op: Op) {
    op.StartWait? || op.CheckClosed? || op.CheckHead? || op.Sample? || op.EnterWait? || op.EarlyWake?
  }

  function Apply(s: State, op: Op): State
    requires Enabled(s, op)
  {
    var pc := s.pcs[op.t];
    match op
    case StartPublish(t, mask) => s.(pcs := s.pcs[t := Publishing(s.head + 1, mask)])
    case StoreHead(t) => s.(head := pc.num, pcs := s.pcs[t := Bumping(pc.num, pc.mask)])
    case Close(t) => s.(closed := true, pcs := s.pcs[t := Closing])
    case Increment(t) =>
      var bump := if pc.Closing? then Bump(BIT_ALL, 0, true, true) else Bump(pc.mask, pc.num, false, true);
      s.(notify := (s.notify + 1) % U32, log := s.log + [bump], pcs := s.pcs[t := Waking(|s.log|)])
    case Wake(t) =>
      var mask := if pc.index < |s.log| then s.log[pc.index].mask else 0;
      s.(log := Settle(s.log, pc.index), pcs := map u | u in s.pcs :: if u == t then Idle else Woken(s.pcs[u], mask))
    case _ => s.(pcs := s.pcs[op.t := ReaderNext(s, op)])
  }

  function Init(threads: set<Tid>): State {
    State(0, false, 0, [], map t | t in threads :: Idle)
  }

  ghost predicate Feasible(s: State, ops: seq<Op>)
    decreases |ops|
  {
    ops == [] || (Enabled(s, ops[0]) && Feasible(Apply(s, ops[0]), ops[1..]))
  }

  ghost function Run(s: State, ops: seq<Op>): State
    requires Feasible(s, ops)
    decreases |ops|
  {
    if ops == [] then s else Run(Apply(s, ops[0]), ops[1..])
  }

  /** A wake is selective: it ends exactly the waits whose interest shares a bit with its frame's mask, sends
      those back to the top of the loop, and leaves every other thread but the waker where it was. */
  lemma WakesExactlyTheInterested(s: State, t: Tid, u: Tid)
    requires Enabled(s, Wake(t)) && s.pcs[t].index < |s.log| && u in s.pcs && u != t
    ensures var before, after := s.pcs[u], Apply(s, Wake(t)).pcs[u];
            if before.Asleep? && ShareBit(s.log[s.pcs[t].index].mask, before.interest)
            then after == Looping(before.last, before.interest)
            else after == before
  {
    hide ShareBit, Meets;
    if s.pcs[u].Asleep? { MeetsIffShareBit(s.log[s.pcs[t].index].mask, s.pcs[u].interest); }
  }

  /** A reader at the top of its loop leaves a closed hub in its next step, and looks for a frame in an open
      one. */
  lemma ClosedHubIsLeft(s: State, op: Op)
    requires Enabled(s, op) && s.pcs[op.t].Looping?
    ensures Apply(s, op).pcs[op.t].Idle? <==> s.closed
    ensures !s.closed ==> Apply(s, op).pcs[op.t].Checking?
  {
  }

  // ---------------------------------------------------------------- the object

  /** The hub's head and notify word. Each method is one atomic step of thread `t`. */
  class BroadcastHub {
    var head: nat
    var closed: bool
    var notify: nat
    var log: seq<Bump>
    var pcs: map<Tid, Pc>

    ghost function View(): State
      reads this
    {
      State(head, closed, notify, log, pcs)
    }

    constructor (threads: set<Tid>)
      ensures View() == Init(threads)
    {
      head, closed, notify, log := 0, false, 0, [];
      pcs := map t | t in threads :: Idle;
    }

    method StoreHeadStep(t: Tid)
      requires Enabled(View(), StoreHead(t))
      modifies this
      ensures View() == Apply(old(View()), StoreHead(t))
    {
      head := pcs[t].num;
      pcs := pcs[t := Bumping(pcs[t].num, pcs[t].mask)];
    }

    method CloseStep(t: Tid)
      requires Enabled(View(), Close(t))
      modifies this
      ensures View() == Apply(old(View()), Close(t))
    {
      closed := true;
      pcs := pcs[t := Closing];
    }

    /** fetch_add on the notify word. */
    method IncrementStep(t: Tid)
      requires Enabled(View(), Increment(t))
      modifies this
      ensures View() == Apply(old(View()), Increment(t))
    {
      notify := (notify + 1) % U32;
      var pc := pcs[t];
      pcs := pcs[t := Waking(|log|)];
      log := log + [if pc.Closing? then Bump(BIT_ALL, 0, true, true) else Bump(pc.mask, pc.num, false, true)];
    }

    method SampleStep(t: Tid, expired: bool)
      requires Enabled(View(), Sample(t, expired))
      modifies this
      ensures View() == Apply(old(View()), Sample(t, expired))
    {
      var pc := pcs[t];
      if expired {
        pcs := pcs[t := Idle];
      } else {
        pcs := pcs[t := Entering(pc.last, pc.interest, pc.from, pc.seen, notify, |log|)];
      }
    }

    /** futex_wait_bitset: sleeps only if the word still has the sampled value. */
    method EnterWaitStep(t: Tid)
      requires Enabled(View(), EnterWait(t))
      modifies this
      ensures View() == Apply(old(View()), EnterWait(t))
    {
      var pc := pcs[t];
      if notify == pc.value && pc.interest != 0 {
        pcs := pcs[t := Asleep(pc.last, pc.interest, pc.from, pc.seen, pc.at, |log|)];
      } else {
        pcs := pcs[t := Looping(pc.last, pc.interest)];
      }
    }
  }

  // ---------------------------------------------------------------- invariant

  /** An increment a reader slept through: made once it slept, wanted by it, with its wake done. */
  predicate MissedAsleep(pc: Pc, bump: Bump, i: nat) {
    pc.Asleep? && pc.slept <= i && Meets(bump.mask, pc.interest) && !bump.due
  }

  /** `slept` and `at` agree modulo the word's width, which is all the kernel compares. */
  predicate ReaderOk(pc: Pc, length: nat) {
    match pc
    case Looping(_, interest) => interest <= BIT_ALL
    case Checking(_, interest, from) => interest <= BIT_ALL && from <= length
    case Sampling(_, interest, from, _) => interest <= BIT_ALL && from <= length
    case Entering(_, interest, from, _, value, at) => interest <= BIT_ALL && from <= at <= length && value == at % U32
    case Asleep(_, interest, from, _, at, slept) =>
      0 < interest <= BIT_ALL && from <= at <= slept <= length && at % U32 == slept % U32
    case _ => true
  }

  ghost predicate Awaited(pc: Pc, log: seq<Bump>) {
    forall i :: 0 <= i < |log| ==> !MissedAsleep(pc, log[i], i)
  }

  /** The increments before `from` came before the reader's checks: none was a close's, and with a single
      publisher the head it loaded covers them. */
  ghost predicate Checked(pc: Pc, log: seq<Bump>, heads: bool) {
    && (pc.Checking? || pc.Sampling? || pc.Entering? || pc.Asleep? ==>
          forall i :: 0 <= i < pc.from && i < |log| ==> !log[i].closing)
    && (heads && (pc.Sampling? || pc.Entering? || pc.Asleep?) ==>
          forall i :: 0 <= i < pc.from && i < |log| ==> log[i].num <= pc.seen)
  }

  ghost predicate Readers(s: State, heads: bool) {
    forall t :: t in s.pcs ==>
      ReaderOk(s.pcs[t], |s.log|) && Awaited(s.pcs[t], s.log) && Checked(s.pcs[t], s.log, heads)
  }

  /** A due wake has a thread about to make it, and only that one. */
  ghost predicate Wakers(log: seq<Bump>, pcs: map<Tid, Pc>) {
    && (forall t :: t in pcs && pcs[t].Waking? ==> pcs[t].index < |log| && log[pcs[t].index].due)
    && (forall t, u :: t in pcs && u in pcs && pcs[t].Waking? && pcs[u] == pcs[t] ==> t == u)
    && (forall i :: 0 <= i < |log| && log[i].due ==> exists t :: t in pcs && pcs[t] == Waking(i))
  }

  /** Only p publishes, so the head is the largest number stored. */
  predicate HeadOk(pc: Pc, head: nat, isP: bool) {
    match pc
    case Publishing(num, _) => isP && num == head + 1
    case Bumping(num, _) => num <= head
    case _ => true
  }

  ghost predicate Heads(s: State, p: Tid) {
    && (forall t :: t in s.pcs ==> HeadOk(s.pcs[t], s.head, t == p))
    && (forall i :: 0 <= i < |s.log| ==> s.log[i].num <= s.head)
  }

  ghost predicate Closed(s: State) {
    && (forall i :: 0 <= i < |s.log| && s.log[i].closing ==> s.closed && s.log[i].mask == BIT_ALL)
    && (forall t :: t in s.pcs && s.pcs[t].Closing? ==> s.closed)
  }

  /** With `heads`, thread p is the only publisher. */
  ghost predicate Inv(s: State, heads: bool, p: Tid) {
    && s.notify == |s.log| % U32 && Wakers(s.log, s.pcs) && Closed(s)
    && Readers(s, heads) && (heads ==> Heads(s, p))
  }

  predicate ByOnly(op: Op, p: Tid) {
    op.StartPublish? ==> op.t == p
  }

  // ---------------------------------------------------------------- steps

  lemma OthersStay(s: State, op: Op)
    requires Enabled(s, op)
    ensures Apply(s, op).pcs.Keys == s.pcs.Keys
    ensures forall t :: t in s.pcs && t != op.t ==>
              Apply(s, op).pcs[t] == s.pcs[t]
              || (op.Wake? && s.pcs[t].Asleep? && Apply(s, op).pcs[t] == Looping(s.pcs[t].last, s.pcs[t].interest))
  {
    hide Meets;
  }

  /** How the log changes: an increment appends one due entry, a wake settles one. */
  ghost predicate LogStep(log: seq<Bump>, log': seq<Bump>) {
    && |log| <= |log'|
    && (forall i :: 0 <= i < |log| ==> log'[i] == log[i].(due := log'[i].due) && (log'[i].due ==> log[i].due))
    && (forall i :: |log| <= i < |log'| ==> log'[i].due)
  }

  lemma LogSteps(s: State, op: Op)
    requires Enabled(s, op)
    ensures LogStep(s.log, Apply(s, op).log)
  {
    hide Meets, Woken, ReaderNext;
  }

  lemma StillChecked(pc: Pc, log: seq<Bump>, log': seq<Bump>, heads: bool)
    requires ReaderOk(pc, |log|) && Checked(pc, log, heads) && LogStep(log, log')
    ensures ReaderOk(pc, |log'|) && Checked(pc, log', heads)
  {
  }

  /** A sleeper that a settled wake does not reach did not want it. */
  lemma StillAwaited(pc: Pc, log: seq<Bump>, log': seq<Bump>)
    requires Awaited(pc, log) && LogStep(log, log')
    requires forall i :: 0 <= i < |log| && log[i].due && !log'[i].due ==>
               !(pc.Asleep? && Meets(log[i].mask, pc.interest))
    ensures Awaited(pc, log')
  {
    hide Meets;
    forall i | 0 <= i < |log'|
      ensures !MissedAsleep(pc, log'[i], i)
    {
      if i < |log| { assert !MissedAsleep(pc, log[i], i); }
    }
  }

  lemma WakeReaches(s: State, op: Op, t: Tid)
    requires Enabled(s, op) && t in s.pcs && t != op.t && Apply(s, op).pcs[t] == s.pcs[t]
    ensures var pc := s.pcs[t];
            forall i :: 0 <= i < |s.log| && s.log[i].due && !Apply(s, op).log[i].due ==>
              !(pc.Asleep? && Meets(s.log[i].mask, pc.interest))
  {
    hide Meets, ReaderNext;
  }

  lemma OthersRead(s: State, op: Op, heads: bool, p: Tid, t: Tid)
    requires Inv(s, heads, p) && Enabled(s, op) && t in s.pcs && t != op.t
    ensures var s' := Apply(s, op);
            && t in s'.pcs && ReaderOk(s'.pcs[t], |s'.log|)
            && Awaited(s'.pcs[t], s'.log) && Checked(s'.pcs[t], s'.log, heads)
  {
    OthersStay(s, op);
    LogSteps(s, op);
    var pc := s.pcs[t];
    assert ReaderOk(pc, |s.log|) && Awaited(pc, s.log) && Checked(pc, s.log, heads);
    if Apply(s, op).pcs[t] == pc {
      WakeReaches(s, op, t);
      hide Apply, Enabled, Inv, LogStep, ReaderOk, Awaited, Checked, Meets;
      StillChecked(pc, s.log, Apply(s, op).log, heads);
      StillAwaited(pc, s.log, Apply(s, op).log);
    } else {
      assert Apply(s, op).pcs[t].Looping?;
      hide Apply, Enabled, Inv, LogStep, Meets;
    }
  }

  lemma OwnRead(s: State, op: Op, heads: bool, p: Tid)
    requires Inv(s, heads, p) && Enabled(s, op)
    ensures var s', t := Apply(s, op), op.t;
            ReaderOk(s'.pcs[t], |s'.log|) && Awaited(s'.pcs[t], s'.log) && Checked(s'.pcs[t], s'.log, heads)
  {
    var pc := s.pcs[op.t];
    assert ReaderOk(pc, |s.log|) && Awaited(pc, s.log) && Checked(pc, s.log, heads);
    assert heads ==> forall i :: 0 <= i < |s.log| ==> s.log[i].num <= s.head;
    assert s.notify == |s.log| % U32;
    assert forall i :: 0 <= i < |s.log| && s.log[i].closing ==> s.closed;
    hide Meets, Wakers, Readers, Heads, Inv, Closed;
    if IsRead(op) {
      assert Apply(s, op).log == s.log && Apply(s, op).pcs[op.t] == ReaderNext(s, op);
      hide Apply, Enabled, ReaderOk, Awaited, Checked;
      ReadersNext(s, op, heads);
    } else {
      assert !IsReading(Apply(s, op).pcs[op.t]);
      hide Apply, Enabled, ReaderOk, Awaited, Checked;
      NotReading(Apply(s, op).pcs[op.t], Apply(s, op).log, heads);
    }
  }

  predicate IsReading(pc: Pc) {
    pc.Looping? || pc.Checking? || pc.Sampling? || pc.Entering? || pc.Asleep?
  }

  lemma NotReading(pc: Pc, log: seq<Bump>, heads: bool)
    requires !IsReading(pc)
    ensures ReaderOk(pc, |log|) && Awaited(pc, log) && Checked(pc, log, heads)
  {
    hide Meets;
  }

  lemma ReadersNext(s: State, op: Op, heads: bool)
    requires Enabled(s, op) && IsRead(op)
    requires ReaderOk(s.pcs[op.t], |s.log|) && Checked(s.pcs[op.t], s.log, heads)
    requires heads ==> forall i :: 0 <= i < |s.log| ==> s.log[i].num <= s.head
    requires s.notify == |s.log| % U32
    requires forall i :: 0 <= i < |s.log| && s.log[i].closing ==> s.closed
    ensures var pc := ReaderNext(s, op);
            ReaderOk(pc, |s.log|) && Awaited(pc, s.log) && Checked(pc, s.log, heads)
  {
    hide Meets;
  }

  lemma ReadersKept(s: State, op: Op, heads: bool, p: Tid)
    requires Inv(s, heads, p) && Enabled(s, op)
    ensures Readers(Apply(s, op), heads)
  {
    OthersStay(s, op);
    OwnRead(s, op, heads, p);
    hide Inv, Enabled, Apply, ReaderOk, Awaited, Checked;
    var s' := Apply(s, op);
    forall t | t in s'.pcs
      ensures ReaderOk(s'.pcs[t], |s'.log|) && Awaited(s'.pcs[t], s'.log) && Checked(s'.pcs[t], s'.log, heads)
    {
      if t != op.t { OthersRead(s, op, heads, p, t); }
    }
  }

  lemma IncrementWakers(log: seq<Bump>, pcs: map<Tid, Pc>, t: Tid, bump: Bump)
    requires Wakers(log, pcs) && t in pcs && !pcs[t].Waking? && bump.due
    ensures Wakers(log + [bump], pcs[t := Waking(|log|)])
  {
    var log', pcs' := log + [bump], pcs[t := Waking(|log|)];
    forall i | 0 <= i < |log'| && log'[i].due
      ensures exists u :: u in pcs' && pcs'[u] == Waking(i)
    {
      if i == |log| {
        assert pcs'[t] == Waking(i);
      } else {
        assert log[i].due;
        var u :| u in pcs && pcs[u] == Waking(i);
        assert pcs'[u] == Waking(i);
      }
    }
  }

  /** A step that changes neither the log nor who is about to wake. */
  lemma SameWakers(log: seq<Bump>, log': seq<Bump>, pcs: map<Tid, Pc>, pcs': map<Tid, Pc>, settled: nat)
    requires Wakers(log, pcs) && pcs'.Keys == pcs.Keys && |log'| == |log|
    requires forall i :: 0 <= i < |log| ==> log'[i].due == (log[i].due && i != settled)
    requires forall t :: t in pcs ==> (pcs'[t].Waking? <==> pcs[t].Waking? && pcs[t].index != settled)
    requires forall t :: t in pcs && pcs'[t].Waking? ==> pcs'[t] == pcs[t]
    ensures Wakers(log', pcs')
  {
    forall i | 0 <= i < |log'| && log'[i].due
      ensures exists u :: u in pcs' && pcs'[u] == Waking(i)
    {
      assert log[i].due;
      var u :| u in pcs && pcs[u] == Waking(i);
      assert pcs'[u] == Waking(i);
    }
  }

  lemma WakeStep(s: State, op: Op)
    requires Wakers(s.log, s.pcs) && Enabled(s, op) && op.Wake?
    ensures Wakers(Apply(s, op).log, Apply(s, op).pcs)
  {
    var s', settled := Apply(s, op), s.pcs[op.t].index;
    OthersStay(s, op);
    assert forall t :: t in s.pcs && t != op.t && s.pcs[t].Waking? ==> s.pcs[t].index != settled;
    hide Meets, Wakers;
    SameWakers(s.log, s'.log, s.pcs, s'.pcs, settled);
  }

  lemma WakersKept(s: State, op: Op)
    requires Wakers(s.log, s.pcs) && Enabled(s, op)
    ensures Wakers(Apply(s, op).log, Apply(s, op).pcs)
  {
    var s' := Apply(s, op);
    if op.Increment? {
      hide Wakers;
      IncrementWakers(s.log, s.pcs, op.t, s'.log[|s.log|]);
    } else if op.Wake? {
      WakeStep(s, op);
    } else {
      OthersStay(s, op);
      assert !s.pcs[op.t].Waking? && !s'.pcs[op.t].Waking? && s'.log == s.log;
      assert forall t :: t in s.pcs && s.pcs[t].Waking? ==> s.pcs[t].index < |s.log|;
      hide Wakers, Apply, Enabled;
      SameWakers(s.log, s'.log, s.pcs, s'.pcs, |s.log|);
    }
  }

  lemma ClosedKept(s: State, op: Op)
    requires Closed(s) && Enabled(s, op)
    ensures Closed(Apply(s, op))
  {
    OthersStay(s, op);
    hide Meets, Woken;
  }

  lemma HeadsKept(s: State, op: Op, p: Tid)
    requires Heads(s, p) && Enabled(s, op) && ByOnly(op, p)
    ensures Heads(Apply(s, op), p)
  {
    OthersStay(s, op);
    hide Meets, Woken;
  }

  lemma NotifyKept(s: State, op: Op)
    requires s.notify == |s.log| % U32 && Enabled(s, op)
    ensures Apply(s, op).notify == |Apply(s, op).log| % U32
  {
    hide Meets, Woken, ReaderNext;
  }

  lemma StepKeepsInv(s: State, op: Op, heads: bool, p: Tid)
    requires Inv(s, heads, p) && Enabled(s, op) && (heads ==> ByOnly(op, p))
    ensures Inv(Apply(s, op), heads, p)
  {
    hide Enabled, Apply, Readers, Wakers, Closed, Heads;
    NotifyKept(s, op);
    WakersKept(s, op);
    ClosedKept(s, op);
    ReadersKept(s, op, heads, p);
    if heads { HeadsKept(s, op, p); }
  }

  lemma {:induction false} RunKeepsInv(s: State, ops: seq<Op>, heads: bool, p: Tid)
    requires Inv(s, heads, p) && Feasible(s, ops)
    requires heads ==> forall i :: 0 <= i < |ops| ==> ByOnly(ops[i], p)
    ensures Inv(Run(s, ops), heads, p)
    decreases |ops|
  {
    hide Inv, Enabled, Apply, ByOnly;
    if ops != [] {
      StepKeepsInv(s, ops[0], heads, p);
      RunKeepsInv(Apply(s, ops[0]), ops[1..], heads, p);
    }
  }

  // ---------------------------------------------------------------- results

  /** Any number of publishers and closers: every increment made since a reader went to sleep either does
      not meet its interest or has a thread still to make its wake. The count of increments between its
      sampling of the word and its sleeping is a multiple of 2^32, so zero short of a full wrap. */
  lemma SleepersAreOwedAWake(threads: set<Tid>, ops: seq<Op>, t: Tid)
    requires Feasible(Init(threads), ops)
    requires var s := Run(Init(threads), ops); t in s.pcs && s.pcs[t].Asleep?
    ensures var s := Run(Init(threads), ops);
            var pc := s.pcs[t];
            && pc.at <= pc.slept && (pc.slept - pc.at) % U32 == 0 && pc.interest != 0
            && forall i :: pc.slept <= i < |s.log| && Meets(s.log[i].mask, pc.interest) ==>
                 exists u :: u in s.pcs && s.pcs[u] == Waking(i)
  {
    var s := Run(Init(threads), ops);
    RunKeepsInv(Init(threads), ops, false, 0);
    var pc := s.pcs[t];
    assert ReaderOk(pc, |s.log|) && Awaited(pc, s.log) && Wakers(s.log, s.pcs);
    hide Meets, Closed, Inv, Run, Feasible, Init, Awaited, Wakers, Readers;
    WholeWraps(pc.at, pc.slept);
    OwedTo(pc, s.log, s.pcs);
  }

  lemma OwedTo(pc: Pc, log: seq<Bump>, pcs: map<Tid, Pc>)
    requires pc.Asleep? && Awaited(pc, log) && Wakers(log, pcs)
    ensures forall i :: pc.slept <= i < |log| && Meets(log[i].mask, pc.interest) ==>
              exists u :: u in pcs && pcs[u] == Waking(i)
  {
    hide Meets;
    forall i | pc.slept <= i < |log| && Meets(log[i].mask, pc.interest)
      ensures exists u :: u in pcs && pcs[u] == Waking(i)
    {
      assert !MissedAsleep(pc, log[i], i);
    }
  }

  lemma WholeWraps(a: nat, b: nat)
    requires a <= b && a % U32 == b % U32
    ensures (b - a) % U32 == 0
  {
    var q, q', rest := a / U32, b / U32, a % U32;
    assert a == U32 * q + rest && b == U32 * q' + rest;
    assert b - a == U32 * (q' - q);
    assert q <= q';
    ModUnique(b - a, U32, q' - q, 0);
  }

  /** With one publisher, and short of a wrap: with no wake due, the only wanted publishes above the head the
      reader checked, and the only closes, that it can be sleeping through are those whose increment fell
      between its checks and its sampling of the word. */
  lemma SleepsThroughOnlyTheWindow(threads: set<Tid>, ops: seq<Op>, p: Tid, t: Tid, i: nat)
    requires Feasible(Init(threads), ops) && forall k :: 0 <= k < |ops| ==> ByOnly(ops[k], p)
    requires var s := Run(Init(threads), ops);
             && t in s.pcs && s.pcs[t].Asleep? && s.pcs[t].slept < s.pcs[t].at + U32
             && i < |s.log| && !s.log[i].due && Meets(s.log[i].mask, s.pcs[t].interest)
             && (s.log[i].num > s.pcs[t].seen || s.log[i].closing)
    ensures var pc := Run(Init(threads), ops).pcs[t]; pc.from <= i < pc.at
  {
    var s := Run(Init(threads), ops);
    RunKeepsInv(Init(threads), ops, true, p);
    var pc := s.pcs[t];
    assert ReaderOk(pc, |s.log|) && Awaited(pc, s.log) && Checked(pc, s.log, true);
    hide Meets, Closed, Heads, Wakers, Readers, Run, Feasible, Init, Inv, ReaderOk, Awaited, Checked;
    InTheWindow(pc, s.log, i);
  }

  lemma InTheWindow(pc: Pc, log: seq<Bump>, i: nat)
    requires pc.Asleep? && ReaderOk(pc, |log|) && Awaited(pc, log) && Checked(pc, log, true)
    requires pc.slept < pc.at + U32 && i < |log| && !log[i].due && Meets(log[i].mask, pc.interest)
    requires log[i].num > pc.seen || log[i].closing
    ensures pc.from <= i < pc.at
  {
    hide Meets;
    assert !MissedAsleep(pc, log[i], i);
    WrapsToSame(pc.at, pc.slept);
  }

  lemma WrapsToSame(a: nat, b: nat)
    requires a <= b < a + U32 && a % U32 == b % U32
    ensures a == b
  {
    if a < b { SameSlotApart(a, b, U32); }
  }

  /** A close made since a reader went to sleep wakes it, whatever its interest. */
  lemma CloseMeetsEverySleeper(threads: set<Tid>, ops: seq<Op>, t: Tid, i: nat)
    requires Feasible(Init(threads), ops)
    requires var s := Run(Init(threads), ops);
             t in s.pcs && s.pcs[t].Asleep? && s.pcs[t].slept <= i < |s.log| && s.log[i].closing
    ensures var s := Run(Init(threads), ops); exists u :: u in s.pcs && s.pcs[u] == Waking(i)
  {
    var s := Run(Init(threads), ops);
    RunKeepsInv(Init(threads), ops, false, 0);
    SleepersAreOwedAWake(threads, ops, t);
    assert ReaderOk(s.pcs[t], |s.log|) && Closed(s);
    hide Meets, Readers, Wakers;
    BitAllMeets(s.pcs[t].interest);
  }

  lemma Cons(s: State, op: Op, ops: seq<Op>)
    requires Enabled(s, op) && Feasible(Apply(s, op), ops)
    ensures Feasible(s, [op] + ops) && Run(s, [op] + ops) == Run(Apply(s, op), ops)
  {
    hide Enabled, Apply;
    assert ([op] + ops)[1..] == ops;
  }

  /** The window is real: from any state in which a reader that has seen every frame has checked is_closed
      and another thread is idle, a whole publish of any frame fits between the reader's head check and its
      sampling, and the reader then sleeps on a frame it has not seen, with that publish's wake spent. */
  lemma WindowIsReal(s: State, t: Tid, p: Tid, mask: nat) returns (ops: seq<Op>)
    requires t in s.pcs && p in s.pcs && t != p && s.pcs[t].Checking? && s.pcs[t].interest != 0 && s.pcs[p].Idle?
    requires mask <= BIT_ALL && s.head == s.pcs[t].last
    ensures Feasible(s, ops)
    ensures var s' := Run(s, ops);
            && t in s'.pcs && s'.pcs[t].Asleep? && s'.pcs[t].last == s.pcs[t].last < s'.head
            && s'.log == s.log + [Bump(mask, s.head + 1, false, false)]
  {
    hide Meets;
    var s1 := Apply(s, CheckHead(t, false));
    var s2 := Apply(s1, StartPublish(p, mask));
    var s3 := Apply(s2, StoreHead(p));
    var s4 := Apply(s3, Increment(p));
    assert s4.pcs[p] == Waking(|s.log|) && s4.log == s.log + [Bump(mask, s.head + 1, false, true)];
    assert s4.pcs[t] == Sampling(s.pcs[t].last, s.pcs[t].interest, s.pcs[t].from, s.head) && s4.head == s.head + 1;
    ops := WindowSleeps(s4, t, p);
    assert Settle(s4.log, |s.log|) == s.log + [Bump(mask, s.head + 1, false, false)];
    hide Apply, Run, Feasible;
    Cons(s3, Increment(p), ops);
    Cons(s2, StoreHead(p), [Increment(p)] + ops);
    Cons(s1, StartPublish(p, mask), [StoreHead(p)] + ([Increment(p)] + ops));
    Cons(s, CheckHead(t, false), [StartPublish(p, mask)] + ([StoreHead(p)] + ([Increment(p)] + ops)));
    ops := [CheckHead(t, false)] + ([StartPublish(p, mask)] + ([StoreHead(p)] + ([Increment(p)] + ops)));
  }

  lemma WindowSleeps(s: State, t: Tid, p: Tid) returns (ops: seq<Op>)
    requires t in s.pcs && p in s.pcs && t != p && s.pcs[t].Sampling? && s.pcs[t].interest != 0
    requires s.pcs[p].Waking? && s.pcs[p].index < |s.log|
    ensures Feasible(s, ops)
    ensures var s' := Run(s, ops);
            && t in s'.pcs && s'.pcs[t].Asleep? && s'.pcs[t].last == s.pcs[t].last
            && s'.head == s.head && s'.log == Settle(s.log, s.pcs[p].index)
  {
    hide Meets, Settle;
    var s1 := Apply(s, Wake(p));
    var s2 := Apply(s1, Sample(t, false));
    var s3 := Apply(s2, EnterWait(t));
    assert s3.pcs[t].Asleep? && s3.pcs[t].last == s.pcs[t].last && s3.head == s.head;
    hide Apply, Run, Feasible;
    assert Feasible(s3, []) && Run(s3, []) == s3 by { Nothing(s3); }
    Cons(s2, EnterWait(t), []);
    Cons(s1, Sample(t, false), [EnterWait(t)]);
    Cons(s, Wake(p), [Sample(t, false), EnterWait(t)]);
    ops := [Wake(p)] + [Sample(t, false), EnterWait(t)];
  }

  lemma Nothing(s: State)
    ensures Feasible(s, []) && Run(s, []) == s
  {
  }

  lemma {:induction false} Append(s: State, ops: seq<Op>, more: seq<Op>)
    requires Feasible(s, ops) && Feasible(Run(s, ops), more)
    ensures Feasible(s, ops + more) && Run(s, ops + more) == Run(Run(s, ops), more)
    decreases |ops|
  {
    hide Enabled, Apply;
    if ops == [] {
      assert [] + more == more;
    } else {
      assert (ops + more)[1..] == ops[1..] + more;
      Append(Apply(s, ops[0]), ops[1..], more);
    }
  }

  /** A reader's call, up to its head check. */
  lemma BeginWait(s: State, t: Tid, last: nat, interest: nat) returns (ops: seq<Op>)
    requires t in s.pcs && s.pcs[t].Idle? && !s.closed && interest <= BIT_ALL
    ensures Feasible(s, ops)
    ensures Run(s, ops) == s.(pcs := s.pcs[t := Checking(last, interest, |s.log|)])
  {
    var s1 := Apply(s, StartWait(t, last, interest));
    var s2 := Apply(s1, CheckClosed(t));
    assert s2 == s.(pcs := s.pcs[t := Checking(last, interest, |s.log|)]);
    hide Apply, Run, Feasible;
    Nothing(s2);
    Cons(s1, CheckClosed(t), []);
    Cons(s, StartWait(t, last, interest), [CheckClosed(t)]);
    ops := [StartWait(t, last, interest)] + [CheckClosed(t)];
  }

  /** The window is reached from a fresh hub, by any two threads, any non-empty interest and any frame: the
      reader sleeps on the hub's first frame. */
  lemma WindowFromFreshHub(threads: set<Tid>, t: Tid, p: Tid, interest: nat, mask: nat) returns (ops: seq<Op>)
    requires t in threads && p in threads && t != p && 0 < interest <= BIT_ALL && mask <= BIT_ALL
    ensures Feasible(Init(threads), ops)
    ensures var s := Run(Init(threads), ops);
            && t in s.pcs && s.pcs[t].Asleep? && s.pcs[t].last == 0 < s.head
            && s.log == [Bump(mask, 1, false, false)]
  {
    var s0 := Init(threads);
    var first := BeginWait(s0, t, 0, interest);
    var rest := WindowIsReal(Run(s0, first), t, p, mask);
    hide Run, Feasible;
    Append(s0, first, rest);
    assert [] + [Bump(mask, 1, false, false)] == [Bump(mask, 1, false, false)];
    ops := first + rest;
  }

  /** A whole publish. */
  lemma PublishOnce(s: State, p: Tid, mask: nat) returns (ops: seq<Op>)
    requires p in s.pcs && s.pcs[p].Idle? && mask <= BIT_ALL && forall u :: u in s.pcs ==> s.pcs[u].Idle?
    ensures Feasible(s, ops)
    ensures var s' := Run(s, ops);
            && s'.head == s.head + 1 && s'.closed == s.closed && s'.pcs == s.pcs
            && s'.log == s.log + [Bump(mask, s.head + 1, false, false)]
  {
    hide Meets;
    var s1 := Apply(s, StartPublish(p, mask));
    var s2 := Apply(s1, StoreHead(p));
    var s3 := Apply(s2, Increment(p));
    assert s3.pcs == s.pcs[p := Waking(|s.log|)] && s3.log == s.log + [Bump(mask, s.head + 1, false, true)];
    var s4 := Apply(s3, Wake(p));
    assert s4.log == s.log + [Bump(mask, s.head + 1, false, false)];
    assert s4.pcs == s.pcs;
    hide Apply, Run, Feasible;
    Nothing(s4);
    Cons(s3, Wake(p), []);
    Cons(s2, Increment(p), [Wake(p)]);
    Cons(s1, StoreHead(p), [Increment(p), Wake(p)]);
    Cons(s, StartPublish(p, mask), [StoreHead(p), Increment(p), Wake(p)]);
    ops := [StartPublish(p, mask)] + [StoreHead(p), Increment(p), Wake(p)];
  }

  /** The rest of a wait whose head check comes up empty and that nothing interrupts. */
  lemma WaitOn(s: State, t: Tid) returns (ops: seq<Op>)
    requires t in s.pcs && s.pcs[t].Checking? && s.pcs[t].interest != 0
    ensures Feasible(s, ops)
    ensures var s', pc := Run(s, ops), s.pcs[t];
            && s' == s.(pcs := s.pcs[t := Asleep(pc.last, pc.interest, pc.from, s.head, |s.log|, |s.log|)])
  {
    var s1 := Apply(s, CheckHead(t, false));
    var s2 := Apply(s1, Sample(t, false));
    var s3 := Apply(s2, EnterWait(t));
    var pc := s.pcs[t];
    assert s3.pcs == s.pcs[t := Asleep(pc.last, pc.interest, pc.from, s.head, |s.log|, |s.log|)];
    hide Apply, Run, Feasible;
    Nothing(s3);
    Cons(s2, EnterWait(t), []);
    Cons(s1, Sample(t, false), [EnterWait(t)]);
    Cons(s, CheckHead(t, false), [Sample(t, false), EnterWait(t)]);
    ops := [CheckHead(t, false)] + [Sample(t, false), EnterWait(t)];
  }

  /** A wanted frame behind a newer unwanted one is slept through as well, since only the newest frame is
      looked at: from a fresh hub, a wanted frame and then an unwanted one are published in full; the reader,
      which has seen neither, finds the newest unwanted and goes to sleep, with both wakes spent. */
  lemma HiddenFrameIsSleptThrough(threads: set<Tid>, t: Tid, p: Tid, interest: nat, wanted: nat, unwanted: nat)
    returns (ops: seq<Op>)
    requires t in threads && p in threads && t != p && 0 < interest <= BIT_ALL
    requires wanted <= BIT_ALL && unwanted <= BIT_ALL && Meets(wanted, interest) && !Meets(unwanted, interest)
    ensures Feasible(Init(threads), ops)
    ensures var s := Run(Init(threads), ops);
            && t in s.pcs && s.pcs[t] == Asleep(0, interest, 2, 2, 2, 2) && s.head == 2
            && s.log == [Bump(wanted, 1, false, false), Bump(unwanted, 2, false, false)]
  {
    var s0 := Init(threads);
    var first := PublishOnce(s0, p, wanted);
    var s1 := Run(s0, first);
    var second := PublishOnce(s1, p, unwanted);
    var s2 := Run(s1, second);
    assert s2.log == [Bump(wanted, 1, false, false), Bump(unwanted, 2, false, false)];
    var begin := BeginWait(s2, t, 0, interest);
    var s3 := Run(s2, begin);
    var rest := WaitOn(s3, t);
    hide Run, Feasible, Meets;
    Append(s2, begin, rest);
    Append(s1, second, begin + rest);
    Append(s0, first, second + (begin + rest));
    ops := first + (second + (begin + rest));
  }
}
