/** The futex counting semaphore, for any number of threads and any interleaving of its atomic steps.

    The weak exchange may fail for no reason, a wait may end early by timeout or spuriously, and the
    counter is 32 bits wide and wraps as `fetch_add` does. */
module Semaphore {
  import opened Bytes

  type Tid = nat

  datatype Pc =
    | Idle
    | Loading                    // about to load the counter in acquire
    | Exchanging(expected: nat)  // about to try expected -> expected - 1
    | Deciding                   // saw 0; about to check the deadline and then wait
    | EnteringWait               // about to enter futex_wait, expecting 0
    | Asleep
    | WakePending                // released onto 0, about to wake every sleeper

  /** `acquired` and `released` count the successful acquires and the releases so far. */
  datatype State = State(permits: nat, max: nat, pcs: map<Tid, Pc>, acquired: nat, released: nat)

  datatype Op =
    | StartAcquire(t: Tid)
    | Load(t: Tid)
    | Exchange(t: Tid, spurious: bool)
    | Decide(t: Tid, expired: bool)
    | EnterWait(t: Tid)
    | EarlyWake(t: Tid)
    | Release(t: Tid)
    | WakeAll(t: Tid)

  predicate Enabled(s: State, op: Op) {
    op.t in s.pcs &&
    match op
    case StartAcquire(t) => s.pcs[t].Idle?
    case Load(t) => s.pcs[t].Loading?
    case Exchange(t, _) => s.pcs[t].Exchanging?
    case Decide(t, _) => s.pcs[t].Deciding?
    case EnterWait(t) => s.pcs[t].EnteringWait?
    case EarlyWake(t) => s.pcs[t].Asleep?
    case Release(t) => s.pcs[t].Idle?
    case WakeAll(t) => s.pcs[t].WakePending?
  }

  function Apply(s: State, op: Op): State
    requires Enabled(s, op)
  {
    match op
    case StartAcquire(t) => s.(pcs := s.pcs[t := Loading])
    case Load(t) => s.(pcs := s.pcs[t := if s.permits > 0 then Exchanging(s.permits) else Deciding])
    case Exchange(t, spurious) =>
      if s.permits == s.pcs[t].expected && !spurious && s.permits > 0
      then s.(permits := s.permits - 1, acquired := s.acquired + 1, pcs := s.pcs[t := Idle])
      else s.(pcs := s.pcs[t := Loading])
    case Decide(t, expired) => s.(pcs := s.pcs[t := if expired then Idle else EnteringWait])
    case EnterWait(t) => s.(pcs := s.pcs[t := if s.permits == 0 then Asleep else Loading])
    case EarlyWake(t) => s.(pcs := s.pcs[t := Loading])
    case Release(t) =>
      s.(permits := (s.permits + 1) % U32, released := s.released + 1,
         pcs := s.pcs[t := if s.permits == 0 then WakePending else Idle])
    case WakeAll(t) =>
      s.(pcs := map u | u in s.pcs :: if u == t then Idle else if s.pcs[u].Asleep? then Loading else s.pcs[u])
  }

  /** The semaphore object. Each method is one atomic step of thread `t`, updating the counter in place. */
  class AtomicSemaphore {
    var permits: nat
    const maxPermits: nat
    var pcs: map<Tid, Pc>
    ghost var acquired: nat
    ghost var released: nat

    ghost function View(): State
      reads this
    {
      State(permits, maxPermits, pcs, acquired, released)
    }

    constructor (initial: nat, threads: set<Tid>)
      ensures View() == Init(initial, threads)
    {
      permits, maxPermits := initial, initial;
      pcs := map t | t in threads :: Idle;
      acquired, released := 0, 0;
    }

    method LoadStep(t: Tid)
      requires Enabled(View(), Load(t))
      modifies this
      ensures View() == Apply(old(View()), Load(t))
    {
      var current := permits;
      pcs := pcs[t := if current > 0 then Exchanging(current) else Deciding];
    }

    method ExchangeStep(t: Tid, spurious: bool) returns (ok: bool)
      requires Enabled(View(), Exchange(t, spurious)) && pcs[t].expected > 0
      modifies this
      ensures View() == Apply(old(View()), Exchange(t, spurious))
      ensures ok ==> permits == old(permits) - 1
      ensures !ok ==> permits == old(permits)
    {
      var current := pcs[t].expected;
      ok := permits == current && !spurious;
      if ok {
        permits := current - 1;
        acquired := acquired + 1;
        pcs := pcs[t := Idle];
      } else {
        pcs := pcs[t := Loading];
      }
    }

    method EnterWaitStep(t: Tid)
      requires Enabled(View(), EnterWait(t))
      modifies this
      ensures View() == Apply(old(View()), EnterWait(t))
    {
      pcs := pcs[t := if permits == 0 then Asleep else Loading];
    }

    method ReleaseStep(t: Tid)
      requires Enabled(View(), Release(t))
      modifies this
      ensures View() == Apply(old(View()), Release(t))
    {
      var prev := permits;
      permits := (prev + 1) % U32;
      released := released + 1;
      pcs := pcs[t := if prev == 0 then WakePending else Idle];
    }

    method WakeAllStep(t: Tid)
      requires Enabled(View(), WakeAll(t))
      modifies this
      ensures View() == Apply(old(View()), WakeAll(t))
    {
      pcs := map u | u in pcs :: if u == t then Idle else if pcs[u].Asleep? then Loading else pcs[u];
    }
  }

  function Init(initial: nat, threads: set<Tid>): State {
    State(initial, initial, map t | t in threads :: Idle, 0, 0)
  }

  ghost predicate Feasible(s: State, ops: seq<Op>)
    decreases |ops|
  {
    ops == [] || (Enabled(s, ops[0]) && Feasible(Apply(s, ops[0]), ops[1..]))
  }

  ghost function Run(s: State, ops: seq<Op>): State
    requires Feasible(s, ops)
    decreases |ops|
  {
    if ops == [] then s else Run(Apply(s, ops[0]), ops[1..])
  }

  /** The counter is the initial number of permits plus releases minus acquires, in 32 bits. */
  ghost predicate Conserved(s: State) {
    && s.permits < U32
    && s.permits + s.acquired - s.released <= s.max
    && (s.permits + s.acquired - s.released - s.max) % U32 == 0
  }

  /** Threads sleep on a positive counter only while a releaser that saw 0 still owes its wake. */
  ghost predicate SleepersCovered(s: State) {
    (exists t :: t in s.pcs && s.pcs[t].Asleep?) && s.permits > 0 ==>
      exists u :: u in s.pcs && s.pcs[u].WakePending?
  }

  ghost predicate Inv(s: State) {
    && Conserved(s)
    && SleepersCovered(s)
    && (forall t :: t in s.pcs && s.pcs[t].Exchanging? ==> s.pcs[t].expected > 0)
  }

  lemma StepKeepsInv(s: State, op: Op)
    requires Inv(s) && Enabled(s, op)
    ensures Inv(Apply(s, op))
    ensures Apply(s, op).max == s.max && Apply(s, op).pcs.Keys == s.pcs.Keys
  {
    var s' := Apply(s, op);
    if op.Release? {
      var d := s.permits + s.acquired - s.released - s.max;
      if s.permits + 1 == U32 {
        assert s'.permits + s'.acquired - s'.released - s'.max == d - U32;
      } else {
        assert s'.permits + s'.acquired - s'.released - s'.max == d;
      }
    }
    StepKeepsCover(s, op);
  }

  lemma StepKeepsCover(s: State, op: Op)
    requires Inv(s) && Enabled(s, op)
    ensures SleepersCovered(Apply(s, op))
  {
    var s' := Apply(s, op);
    if (exists t :: t in s'.pcs && s'.pcs[t].Asleep?) && s'.permits > 0 {
      var a :| a in s'.pcs && s'.pcs[a].Asleep?;
      assert !op.WakeAll?;
      if op.Release? && s.permits == 0 {
        assert s'.pcs[op.t].WakePending?;
      } else {
        assert s.pcs[a].Asleep? && s.permits > 0;
        var u :| u in s.pcs && s.pcs[u].WakePending?;
        assert s'.pcs[u].WakePending?;
      }
    }
  }

  lemma {:induction false} RunKeepsInv(s: State, ops: seq<Op>)
    requires Inv(s) && Feasible(s, ops)
    ensures Inv(Run(s, ops)) && Run(s, ops).max == s.max
    decreases |ops|
  {
    if ops != [] {
      StepKeepsInv(s, ops[0]);
      RunKeepsInv(Apply(s, ops[0]), ops[1..]);
    }
  }

  /** Backpressure over any run: the outstanding acquires never exceed the initial permits, and
      permits plus outstanding is the maximum exactly until unmatched releases wrap the counter. In
      particular it holds whenever releases do not outnumber acquires. */
  lemma PermitsPlusHeldIsMax(initial: nat, threads: set<Tid>, ops: seq<Op>)
    requires initial < U32 && Feasible(Init(initial, threads), ops)
    ensures var s := Run(Init(initial, threads), ops);
            var held := s.acquired - s.released;
            && held <= initial
            && (s.permits + held == initial <==> initial - U32 < held)
  {
    var s := Run(Init(initial, threads), ops);
    RunKeepsInv(Init(initial, threads), ops);
    var held := s.acquired - s.released;
    assert s.max == initial;
    if initial - U32 < held {
      var d := initial - held - s.permits;
      assert 0 <= d < U32;
    }
  }

  // ---------------------------------------------------------------- acquires take what there is

  /** How many undisturbed steps an acquire needs on a positive counter, from where it stands. */
  function StepsLeft(pc: Pc, permits: nat): nat {
    match pc
    case Loading => 2
    case Exchanging(expected) => if expected == permits then 1 else 3
    case Deciding => 4
    case EnteringWait => 3
    case Asleep => 3
    case _ => 0
  }

  /** Steps of one thread in an acquire, whose exchanges do not fail for no reason and whose deadline does not
      pass. */
  predicate Undisturbed(ops: seq<Op>, t: Tid) {
    forall i :: 0 <= i < |ops| ==> ops[i].t == t && ops[i] != Exchange(t, true) && ops[i] != Decide(t, true)
  }

  predicate Acquiring(pc: Pc) {
    !pc.Idle? && !pc.WakePending?
  }

  /** An acquire takes an available permit: on a positive counter the thread's own next steps, whichever they
      are, lead to success in at most four, from anywhere in an acquire. */
  lemma {:induction false} UndisturbedAcquireSucceeds(s: State, ops: seq<Op>, t: Tid)
    requires t in s.pcs && Acquiring(s.pcs[t]) && s.permits > 0
    requires Feasible(s, ops) && Undisturbed(ops, t) && |ops| == StepsLeft(s.pcs[t], s.permits)
    ensures Run(s, ops) == s.(permits := s.permits - 1, acquired := s.acquired + 1, pcs := s.pcs[t := Idle])
    decreases |ops|
  {
    var next := Apply(s, ops[0]);
    assert ops[0].t == t && Undisturbed(ops[1..], t);
    if |ops| == 1 {
      assert Run(s, ops) == next;
    } else {
      UndisturbedAcquireSucceeds(next, ops[1..], t);
      assert s.pcs[t := next.pcs[t]][t := Idle] == s.pcs[t := Idle];
    }
  }

  /** Such steps exist. */
  lemma {:induction false} UndisturbedSteps(s: State, t: Tid) returns (ops: seq<Op>)
    requires t in s.pcs && Acquiring(s.pcs[t]) && s.permits > 0
    ensures Feasible(s, ops) && Undisturbed(ops, t) && |ops| == StepsLeft(s.pcs[t], s.permits)
    decreases StepsLeft(s.pcs[t], s.permits)
  {
    var op := match s.pcs[t]
      case Loading => Load(t)
      case Exchanging(_) => Exchange(t, false)
      case Deciding => Decide(t, false)
      case EnteringWait => EnterWait(t)
      case _ => EarlyWake(t);
    var next := Apply(s, op);
    if s.pcs[t] == Exchanging(s.permits) {
      ops := [op];
      assert ops[1..] == [];
    } else {
      var rest := UndisturbedSteps(next, t);
      ops := [op] + rest;
      assert ops[1..] == rest;
    }
  }

  lemma {:induction false} RunFront(s: State, ops: seq<Op>, last: Op)
    requires Feasible(s, ops + [last])
    ensures Feasible(s, ops) && Enabled(Run(s, ops), last) && Run(s, ops + [last]) == Apply(Run(s, ops), last)
    decreases |ops|
  {
    if ops == [] {
      assert [last][1..] == [];
    } else {
      assert (ops + [last])[0] == ops[0] && (ops + [last])[1..] == ops[1..] + [last];
      RunFront(Apply(s, ops[0]), ops[1..], last);
    }
  }

  /** A thread about to check its deadline loaded 0, and has made no step since. */
  lemma {:induction false} DecidingLoadedZero(s: State, ops: seq<Op>, t: Tid) returns (i: nat)
    requires Feasible(s, ops) && t in s.pcs && !s.pcs[t].Deciding?
    requires t in Run(s, ops).pcs && Run(s, ops).pcs[t].Deciding?
    ensures i < |ops| && ops[i] == Load(t) && Feasible(s, ops[..i]) && Run(s, ops[..i]).permits == 0
    ensures forall j :: i < j < |ops| ==> ops[j].t != t
    decreases |ops|
  {
    assert ops != [];
    var front, last := ops[..|ops| - 1], ops[|ops| - 1];
    assert front + [last] == ops;
    RunFront(s, front, last);
    if last.t == t {
      return |front|;
    }
    i := DecidingLoadedZero(s, front, t);
    assert front[..i] == ops[..i];
  }

  /** A timed-out acquire saw 0: the last thing it did before checking the deadline was to load the counter,
      and the counter was 0. */
  lemma TimedOutSawZero(initial: nat, threads: set<Tid>, ops: seq<Op>, t: Tid) returns (i: nat)
    requires Feasible(Init(initial, threads), ops + [Decide(t, true)])
    ensures i < |ops| && ops[i] == Load(t) && Feasible(Init(initial, threads), ops[..i])
    ensures Run(Init(initial, threads), ops[..i]).permits == 0
    ensures forall j :: i < j < |ops| ==> ops[j].t != t
  {
    RunFront(Init(initial, threads), ops, Decide(t, true));
    KeysStay(Init(initial, threads), ops);
    i := DecidingLoadedZero(Init(initial, threads), ops, t);
  }

  /** A thread that owes a wake released onto 0, and has made no step since: a release onto a positive counter
      wakes nobody. */
  lemma {:induction false} WakerReleasedOntoZero(s: State, ops: seq<Op>, t: Tid) returns (i: nat)
    requires Feasible(s, ops) && t in s.pcs && !s.pcs[t].WakePending?
    requires t in Run(s, ops).pcs && Run(s, ops).pcs[t].WakePending?
    ensures i < |ops| && ops[i] == Release(t) && Feasible(s, ops[..i]) && Run(s, ops[..i]).permits == 0
    ensures forall j :: i < j < |ops| ==> ops[j].t != t
    decreases |ops|
  {
    assert ops != [];
    var front, last := ops[..|ops| - 1], ops[|ops| - 1];
    assert front + [last] == ops;
    RunFront(s, front, last);
    if last.t == t {
      return |front|;
    }
    i := WakerReleasedOntoZero(s, front, t);
    assert front[..i] == ops[..i];
  }

  lemma {:induction false} KeysStay(s: State, ops: seq<Op>)
    requires Feasible(s, ops)
    ensures Run(s, ops).pcs.Keys == s.pcs.Keys
    decreases |ops|
  {
    if ops != [] {
      assert Apply(s, ops[0]).pcs.Keys == s.pcs.Keys;
      KeysStay(Apply(s, ops[0]), ops[1..]);
    }
  }

  /** No lost wake-up: once nobody owes a wake, a sleeping thread means the counter really is 0. */
  lemma SleepersMeanNoPermits(initial: nat, threads: set<Tid>, ops: seq<Op>)
    requires initial < U32 && Feasible(Init(initial, threads), ops)
    requires forall t :: t in Run(Init(initial, threads), ops).pcs ==>
               !Run(Init(initial, threads), ops).pcs[t].WakePending?
    requires exists t :: t in Run(Init(initial, threads), ops).pcs && Run(Init(initial, threads), ops).pcs[t].Asleep?
    ensures Run(Init(initial, threads), ops).permits == 0
  {
    RunKeepsInv(Init(initial, threads), ops);
  }
}
