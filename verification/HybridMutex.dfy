/** The three-state futex mutex, for any number of threads and any interleaving of its atomic steps.

    One `Op` is one atomic operation of one thread. `futex_wait` sleeps if and only if the word still
    holds the expected value at that instant, `futex_wake_one` wakes one sleeper chosen by the kernel,
    and a sleeper may also wake spuriously. The guarded data is a counter that a critical section
    reads and writes in two separate steps, so an overlap of two sections would lose an update. */
module HybridMutex {
  import opened OptionValue

  type Tid = nat

  const UNLOCKED: nat := 0
  const LOCKED: nat := 1
  const LOCKED_WITH_WAITERS: nat := 2
  const SPIN_LIMIT: nat := 100

  /** Where a thread stands in lock, the critical section, or unlock. */
  datatype Pc =
    | Idle                  // outside the mutex; the next step is the fast-path exchange
    | Spin(count: nat)      // about to load the word in the spin loop
    | Retry                 // about to try the exchange again after spinning
    | Swap                  // about to swap in LOCKED_WITH_WAITERS
    | FutexWait             // about to enter futex_wait, expecting LOCKED_WITH_WAITERS
    | Asleep                // sleeping in the kernel
    | Held                  // holds the guard
    | Loaded(value: nat)    // holds the guard and has read the data
    | Stored                // holds the guard and has written the data
    | WakePending           // has released the word, about to call futex_wake_one

  /** `completed` counts the critical sections whose write has been done. */
  datatype State = State(word: nat, data: nat, pcs: map<Tid, Pc>, completed: nat)

  datatype Op =
    | FastLock(t: Tid)
    | SpinLoad(t: Tid)
    | RetryLock(t: Tid)
    | SwapWaiters(t: Tid)
    | EnterWait(t: Tid)
    | SpuriousWake(t: Tid)
    | LoadData(t: Tid)
    | StoreData(t: Tid)
    | Unlock(t: Tid)
    | WakeOne(t: Tid, sleeper: Option<Tid>)

  predicate Holds(pc: Pc) { pc.Held? || pc.Loaded? || pc.Stored? }

  ghost predicate SomeAsleep(s: State) {
    exists u :: u in s.pcs && s.pcs[u].Asleep?
  }

  ghost predicate Enabled(s: State, op: Op) {
    op.t in s.pcs &&
    match op
    case FastLock(t) => s.pcs[t].Idle?
    case SpinLoad(t) => s.pcs[t].Spin?
    case RetryLock(t) => s.pcs[t].Retry?
    case SwapWaiters(t) => s.pcs[t].Swap?
    case EnterWait(t) => s.pcs[t].FutexWait?
    case SpuriousWake(t) => s.pcs[t].Asleep?
    case LoadData(t) => s.pcs[t].Held?
    case StoreData(t) => s.pcs[t].Loaded?
    case Unlock(t) => s.pcs[t].Stored?
    case WakeOne(t, sleeper) =>
      && s.pcs[t].WakePending?
      && (sleeper.Some? <==> SomeAsleep(s))
      && (sleeper.Some? ==> sleeper.value in s.pcs && s.pcs[sleeper.value].Asleep?)
  }

  /** The state after one atomic step. */
  ghost function Apply(s: State, op: Op): State
    requires Enabled(s, op)
  {
    match op
    case FastLock(t) =>
      if s.word == UNLOCKED then s.(word := LOCKED, pcs := s.pcs[t := Held])
      else s.(pcs := s.pcs[t := Spin(0)])
    case SpinLoad(t) =>
      if s.word == LOCKED && s.pcs[t].count < SPIN_LIMIT
      then s.(pcs := s.pcs[t := Spin(s.pcs[t].count + 1)])
      else s.(pcs := s.pcs[t := Retry])
    case RetryLock(t) =>
      if s.word == UNLOCKED then s.(word := LOCKED, pcs := s.pcs[t := Held])
      else s.(pcs := s.pcs[t := Swap])
    case SwapWaiters(t) =>
      s.(word := LOCKED_WITH_WAITERS, pcs := s.pcs[t := if s.word == UNLOCKED then Held else FutexWait])
    case EnterWait(t) =>
      s.(pcs := s.pcs[t := if s.word == LOCKED_WITH_WAITERS then Asleep else Swap])
    case SpuriousWake(t) => s.(pcs := s.pcs[t := Swap])
    case LoadData(t) => s.(pcs := s.pcs[t := Loaded(s.data)])
    case StoreData(t) =>
      s.(data := s.pcs[t].value + 1, completed := s.completed + 1, pcs := s.pcs[t := Stored])
    case Unlock(t) =>
      s.(word := UNLOCKED, pcs := s.pcs[t := if s.word == LOCKED_WITH_WAITERS then WakePending else Idle])
    case WakeOne(t, sleeper) =>
      var idle := s.pcs[t := Idle];
      s.(pcs := if sleeper.Some? then idle[sleeper.value := Swap] else idle)
  }

  /** The mutex object. Each method is one atomic step of thread `t`, updating the word in place. */
  class Mutex {
    var word: nat
    var data: nat
    var pcs: map<Tid, Pc>
    ghost var completed: nat

    ghost function View(): State
      reads this
    {
      State(word, data, pcs, completed)
    }

    constructor (threads: set<Tid>)
      ensures View() == Init(threads)
    {
      word, data, pcs, completed := UNLOCKED, 0, map t | t in threads :: Idle, 0;
    }

    /** compare_exchange(UNLOCKED, LOCKED): succeeds exactly when the word is UNLOCKED. */
    method TryAcquire() returns (ok: bool)
      modifies this`word
      ensures ok == (old(word) == UNLOCKED)
      ensures word == if ok then LOCKED else old(word)
    {
      ok := word == UNLOCKED;
      if ok { word := LOCKED; }
    }

    method FastLockStep(t: Tid)
      requires Enabled(View(), FastLock(t))
      modifies this
      ensures View() == Apply(old(View()), FastLock(t))
    {
      var ok := TryAcquire();
      pcs := pcs[t := if ok then Held else Spin(0)];
    }

    method SpinLoadStep(t: Tid)
      requires Enabled(View(), SpinLoad(t))
      modifies this
      ensures View() == Apply(old(View()), SpinLoad(t))
    {
      if word == LOCKED && pcs[t].count < SPIN_LIMIT {
        pcs := pcs[t := Spin(pcs[t].count + 1)];
      } else {
        pcs := pcs[t := Retry];
      }
    }

    method RetryLockStep(t: Tid)
      requires Enabled(View(), RetryLock(t))
      modifies this
      ensures View() == Apply(old(View()), RetryLock(t))
    {
      var ok := TryAcquire();
      pcs := pcs[t := if ok then Held else Swap];
    }

    method SwapWaitersStep(t: Tid)
      requires Enabled(View(), SwapWaiters(t))
      modifies this
      ensures View() == Apply(old(View()), SwapWaiters(t))
    {
      var previous := word;
      word := LOCKED_WITH_WAITERS;
      pcs := pcs[t := if previous != UNLOCKED then FutexWait else Held];
    }

    method EnterWaitStep(t: Tid)
      requires Enabled(View(), EnterWait(t))
      modifies this
      ensures View() == Apply(old(View()), EnterWait(t))
    {
      pcs := pcs[t := if word == LOCKED_WITH_WAITERS then Asleep else Swap];
    }

    method UnlockStep(t: Tid)
      requires Enabled(View(), Unlock(t))
      modifies this
      ensures View() == Apply(old(View()), Unlock(t))
    {
      var previous := word;
      word := UNLOCKED;
      pcs := pcs[t := if previous == LOCKED_WITH_WAITERS then WakePending else Idle];
    }

    method WakeOneStep(t: Tid, sleeper: Option<Tid>)
      requires Enabled(View(), WakeOne(t, sleeper))
      modifies this
      ensures View() == Apply(old(View()), WakeOne(t, sleeper))
    {
      pcs := pcs[t := Idle];
      if sleeper.Some? { pcs := pcs[sleeper.value := Swap]; }
    }

    /** The critical section: `*guard += 1` as a read and a write. */
    method IncrementStep(t: Tid)
      requires t in pcs && pcs[t].Held?
      modifies this
      ensures View() == Apply(Apply(old(View()), LoadData(t)), StoreData(t))
    {
      var value := data;
      data := value + 1;
      completed := completed + 1;
      pcs := pcs[t := Stored];
    }
  }

  ghost predicate Feasible(s: State, ops: seq<Op>)
    decreases |ops|
  {
    ops == [] || (Enabled(s, ops[0]) && Feasible(Apply(s, ops[0]), ops[1..]))
  }

  ghost function Run(s: State, ops: seq<Op>): State
    requires Feasible(s, ops)
    decreases |ops|
  {
    if ops == [] then s else Run(Apply(s, ops[0]), ops[1..])
  }

  function Init(threads: set<Tid>): State {
    State(UNLOCKED, 0, map t | t in threads :: Idle, 0)
  }

  // ---------------------------------------------------------------- one thread alone

  /** An uncontended lock and unlock make no system call: from a free word the thread takes the lock at once,
      increments the data, and ends where it began, with the word free and no wake owed. */
  lemma UncontendedLock(s: State, t: Tid)
    requires t in s.pcs && s.pcs[t].Idle? && s.word == 0
    ensures var ops := [FastLock(t), LoadData(t), StoreData(t), Unlock(t)];
            Feasible(s, ops) && Run(s, ops) == s.(data := s.data + 1, completed := s.completed + 1)
  {
    var s1 := Apply(s, FastLock(t));
    var s2 := Apply(s1, LoadData(t));
    var s3 := Apply(s2, StoreData(t));
    var s4 := Apply(s3, Unlock(t));
    assert s4.pcs == s.pcs[t := Idle] && s.pcs[t := Idle] == s.pcs;
    assert s4 == s.(data := s.data + 1, completed := s.completed + 1);
    hide Apply, Enabled, Run, Feasible;
    Nothing(s4);
    Cons(s3, Unlock(t), []);
    Cons(s2, StoreData(t), [Unlock(t)]);
    Cons(s1, LoadData(t), [StoreData(t), Unlock(t)]);
    Cons(s, FastLock(t), [LoadData(t), StoreData(t), Unlock(t)]);
    assert [Unlock(t)] + [] == [Unlock(t)] && [StoreData(t)] + [Unlock(t)] == [StoreData(t), Unlock(t)];
    assert [LoadData(t)] + [StoreData(t), Unlock(t)] == [LoadData(t), StoreData(t), Unlock(t)];
    assert [FastLock(t)] + [LoadData(t), StoreData(t), Unlock(t)]
        == [FastLock(t), LoadData(t), StoreData(t), Unlock(t)];
  }

  lemma Nothing(s: State)
    ensures Feasible(s, []) && Run(s, []) == s
  {
  }

  lemma Cons(s: State, op: Op, ops: seq<Op>)
    requires Enabled(s, op) && Feasible(Apply(s, op), ops)
    ensures Feasible(s, [op] + ops) && Run(s, [op] + ops) == Run(Apply(s, op), ops)
  {
    hide Enabled, Apply;
    assert ([op] + ops)[1..] == ops;
  }

  function Spins(t: Tid, n: nat): (ops: seq<Op>)
    ensures |ops| == n
  {
    if n == 0 then [] else [SpinLoad(t)] + Spins(t, n - 1)
  }

  /** On a lock that stays held without waiters, a thread looks at the word a hundred times, and once more before
      it goes on. */
  lemma {:induction false} SpinsOneHundredTimes(s: State, t: Tid, done: nat, n: nat)
    requires t in s.pcs && s.pcs[t] == Spin(done) && s.word == 1 && done + n <= 100
    ensures Feasible(s, Spins(t, n)) && Run(s, Spins(t, n)) == s.(pcs := s.pcs[t := Spin(done + n)])
    ensures Enabled(Run(s, Spins(t, n)), SpinLoad(t))
    ensures Apply(Run(s, Spins(t, n)), SpinLoad(t)).pcs[t] == if done + n < 100 then Spin(done + n + 1) else Retry
    decreases n
  {
    if n == 0 {
      assert s.pcs[t := Spin(done)] == s.pcs;
    } else {
      var next := Apply(s, SpinLoad(t));
      SpinsOneHundredTimes(next, t, done + 1, n - 1);
      assert next.pcs[t := Spin(done + n)] == s.pcs[t := Spin(done + n)];
      assert Spins(t, n)[1..] == Spins(t, n - 1);
    }
  }

  // ---------------------------------------------------------------- safety

  ghost predicate MutualExclusion(s: State) {
    forall t, u :: t in s.pcs && u in s.pcs && Holds(s.pcs[t]) && Holds(s.pcs[u]) ==> t == u
  }

  /** The word is UNLOCKED exactly when no thread holds the guard. */
  ghost predicate WordTracksHolder(s: State) {
    && s.word <= LOCKED_WITH_WAITERS
    && (s.word == UNLOCKED <==> forall t :: t in s.pcs ==> !Holds(s.pcs[t]))
  }

  /** A sleeper is covered by the waiters mark, by an unlocker that still owes a wake, or by an awake
      thread about to put the mark back. */
  ghost predicate SleepersCovered(s: State) {
    SomeAsleep(s) ==>
      || s.word == LOCKED_WITH_WAITERS
      || exists u :: u in s.pcs && (s.pcs[u].WakePending? || s.pcs[u].Swap?)
  }

  /** Nobody else writes between the holder's read and its write. */
  ghost predicate NoLostUpdate(s: State) {
    && s.data == s.completed
    && forall t :: t in s.pcs && s.pcs[t].Loaded? ==> s.pcs[t].value == s.data
  }

  ghost predicate Inv(s: State) {
    MutualExclusion(s) && WordTracksHolder(s) && SleepersCovered(s) && NoLostUpdate(s)
  }

  lemma StepKeepsInv(s: State, op: Op)
    requires Inv(s) && Enabled(s, op)
    ensures Inv(Apply(s, op))
  {
    var s' := Apply(s, op);
    assert s'.pcs.Keys == s.pcs.Keys;
    StepKeepsOwner(s, op);
    StepKeepsCover(s, op);
  }

  lemma StepKeepsOwner(s: State, op: Op)
    requires Inv(s) && Enabled(s, op)
    ensures MutualExclusion(Apply(s, op)) && WordTracksHolder(Apply(s, op)) && NoLostUpdate(Apply(s, op))
  {
    hide SleepersCovered;
    match op
    case FastLock(_) => LockKeepsOwner(s, op);
    case RetryLock(_) => LockKeepsOwner(s, op);
    case SwapWaiters(_) => LockKeepsOwner(s, op);
    case Unlock(_) => UnlockKeepsOwner(s, op);
    case LoadData(_) => DataKeepsOwner(s, op);
    case StoreData(_) => DataKeepsOwner(s, op);
    case _ => WaitKeepsOwner(s, op);
  }

  /** A step that may take the lock. */
  lemma LockKeepsOwner(s: State, op: Op)
    requires MutualExclusion(s) && WordTracksHolder(s) && NoLostUpdate(s) && Enabled(s, op)
    requires op.FastLock? || op.RetryLock? || op.SwapWaiters?
    ensures MutualExclusion(Apply(s, op)) && WordTracksHolder(Apply(s, op)) && NoLostUpdate(Apply(s, op))
  {
    var s', t := Apply(s, op), op.t;
    assert s'.pcs == s.pcs[t := s'.pcs[t]] && !Holds(s.pcs[t]);
    assert t in s'.pcs;
    if s.word != UNLOCKED {
      var u :| u in s.pcs && Holds(s.pcs[u]);
      assert u in s'.pcs && Holds(s'.pcs[u]);
    }
  }

  lemma UnlockKeepsOwner(s: State, op: Op)
    requires MutualExclusion(s) && WordTracksHolder(s) && NoLostUpdate(s) && Enabled(s, op) && op.Unlock?
    ensures MutualExclusion(Apply(s, op)) && WordTracksHolder(Apply(s, op)) && NoLostUpdate(Apply(s, op))
  {
    assert forall u :: u in s.pcs && u != op.t ==> !Holds(s.pcs[u]);
  }

  /** A step of the critical section. */
  lemma DataKeepsOwner(s: State, op: Op)
    requires MutualExclusion(s) && WordTracksHolder(s) && NoLostUpdate(s) && Enabled(s, op)
    requires op.LoadData? || op.StoreData?
    ensures MutualExclusion(Apply(s, op)) && WordTracksHolder(Apply(s, op)) && NoLostUpdate(Apply(s, op))
  {
    var s', t := Apply(s, op), op.t;
    assert s'.pcs == s.pcs[t := s'.pcs[t]] && Holds(s.pcs[t]) && Holds(s'.pcs[t]);
    assert t in s'.pcs;
  }

  /** A step of a thread that neither takes nor has the lock. */
  lemma WaitKeepsOwner(s: State, op: Op)
    requires MutualExclusion(s) && WordTracksHolder(s) && NoLostUpdate(s) && Enabled(s, op)
    requires op.SpinLoad? || op.EnterWait? || op.SpuriousWake? || op.WakeOne?
    ensures MutualExclusion(Apply(s, op)) && WordTracksHolder(Apply(s, op)) && NoLostUpdate(Apply(s, op))
  {
    var s' := Apply(s, op);
    assert s'.pcs.Keys == s.pcs.Keys && s'.word == s.word && s'.data == s.data && s'.completed == s.completed;
    assert forall u :: u in s.pcs ==> Holds(s'.pcs[u]) == Holds(s.pcs[u]);
    assert forall u :: u in s.pcs && Holds(s'.pcs[u]) ==> s'.pcs[u] == s.pcs[u];
    hide Apply, Enabled;
  }

  lemma StepKeepsCover(s: State, op: Op)
    requires Inv(s) && Enabled(s, op)
    ensures SleepersCovered(Apply(s, op))
  {
    var s' := Apply(s, op);
    if SomeAsleep(s') && s'.word != LOCKED_WITH_WAITERS {
      if op.WakeOne? {
        if op.sleeper.Some? { assert s'.pcs[op.sleeper.value].Swap?; }
      } else if op.SpuriousWake? || (op.Unlock? && s.word == LOCKED_WITH_WAITERS) {
        assert s'.pcs[op.t].Swap? || s'.pcs[op.t].WakePending?;
      } else {
        assert !op.SwapWaiters?;
        var a :| a in s'.pcs && s'.pcs[a].Asleep?;
        assert s.pcs[a].Asleep?;
        assert s.word != LOCKED_WITH_WAITERS;
        var u :| u in s.pcs && (s.pcs[u].WakePending? || s.pcs[u].Swap?);
        assert s'.pcs[u] == s.pcs[u];
      }
    }
  }

  /** Safety over whole runs: the invariant holds after every interleaving from a fresh mutex. */
  lemma {:induction false} RunKeepsInv(s: State, ops: seq<Op>)
    requires Inv(s) && Feasible(s, ops)
    ensures Inv(Run(s, ops))
    decreases |ops|
  {
    if ops != [] {
      StepKeepsInv(s, ops[0]);
      RunKeepsInv(Apply(s, ops[0]), ops[1..]);
    }
  }

  lemma ReachableIsSafe(threads: set<Tid>, ops: seq<Op>)
    requires Feasible(Init(threads), ops)
    ensures Inv(Run(Init(threads), ops))
  {
    RunKeepsInv(Init(threads), ops);
  }

  /** No lost wake-up: on a free word with a sleeper, some awake thread still owes a wake or a swap. */
  lemma FreeLockIsNotForgotten(threads: set<Tid>, ops: seq<Op>)
    requires Feasible(Init(threads), ops)
    requires var s := Run(Init(threads), ops); s.word == UNLOCKED && SomeAsleep(s)
    ensures var s := Run(Init(threads), ops);
            exists u :: u in s.pcs && (s.pcs[u].WakePending? || s.pcs[u].Swap?)
  {
    RunKeepsInv(Init(threads), ops);
  }

  // ---------------------------------------------------------------- no reachable state is stuck

  /** How many of its own steps a thread is away from leaving the mutex, once nobody is in its way. */
  function Rank(pc: Pc): nat {
    match pc
    case Idle => 0
    case WakePending => 1
    case Stored => 2
    case Loaded(_) => 3
    case Held => 4
    case Retry => 5
    case Spin(_) => 6
    case Swap => 7
    case FutexWait => 8
    case Asleep => 8
  }

  ghost function TotalRank(pcs: map<Tid, Pc>): nat
    decreases |pcs|
  {
    if pcs == map[] then 0
    else
      var t :| t in pcs;
      assert |pcs - {t}| < |pcs| by { assert pcs.Keys == (pcs - {t}).Keys + {t}; }
      Rank(pcs[t]) + TotalRank(pcs - {t})
  }

  lemma {:induction false} TotalRankSplit(pcs: map<Tid, Pc>, t: Tid)
    requires t in pcs
    ensures TotalRank(pcs) == Rank(pcs[t]) + TotalRank(pcs - {t})
    decreases |pcs|
  {
    var u :| u in pcs && TotalRank(pcs) == Rank(pcs[u]) + TotalRank(pcs - {u});
    if u != t {
      assert |pcs - {u}| < |pcs| by { assert pcs.Keys == (pcs - {u}).Keys + {u}; }
      assert |pcs - {t}| < |pcs| by { assert pcs.Keys == (pcs - {t}).Keys + {t}; }
      TotalRankSplit(pcs - {u}, t);
      TotalRankSplit(pcs - {t}, u);
      assert pcs - {u} - {t} == pcs - {t} - {u};
    }
  }

  lemma TotalRankUpdate(pcs: map<Tid, Pc>, t: Tid, pc: Pc)
    requires t in pcs
    ensures TotalRank(pcs[t := pc]) == TotalRank(pcs) - Rank(pcs[t]) + Rank(pc)
  {
    TotalRankSplit(pcs, t);
    TotalRankSplit(pcs[t := pc], t);
    assert pcs[t := pc] - {t} == pcs - {t};
  }

  ghost predicate AllIdle(s: State) {
    forall t :: t in s.pcs ==> s.pcs[t].Idle?
  }

  /** A step that brings its thread, or the sleeper it wakes, closer to leaving. */
  ghost predicate Useful(s: State, op: Op) {
    && Enabled(s, op)
    && match op
       case FastLock(_) => false
       case SpuriousWake(_) => false
       case SpinLoad(_) => s.word != LOCKED
       case RetryLock(_) => s.word == UNLOCKED
       case SwapWaiters(_) => s.word == UNLOCKED
       case EnterWait(_) => s.word != LOCKED_WITH_WAITERS
       case _ => true
  }

  lemma UsefulStepsRank(s: State, op: Op)
    requires Useful(s, op)
    ensures TotalRank(Apply(s, op).pcs) < TotalRank(s.pcs)
  {
    var t := op.t;
    if op.WakeOne? {
      TotalRankUpdate(s.pcs, t, Idle);
      if op.sleeper.Some? { TotalRankUpdate(s.pcs[t := Idle], op.sleeper.value, Swap); }
    } else {
      var pc := Apply(s, op).pcs[t];
      assert Apply(s, op).pcs == s.pcs[t := pc] && Rank(pc) < Rank(s.pcs[t]);
      TotalRankUpdate(s.pcs, t, pc);
    }
  }

  /** Some step of an awake thread, neither a new lock call nor a spurious wake, brings the whole
      system closer to rest. */
  lemma ProgressStep(s: State) returns (op: Op)
    requires Inv(s) && !AllIdle(s)
    ensures Enabled(s, op) && !op.FastLock? && !op.SpuriousWake?
    ensures TotalRank(Apply(s, op).pcs) < TotalRank(s.pcs)
  {
    if h :| h in s.pcs && Holds(s.pcs[h]) {
      if s.pcs[h].Held? {
        op := LoadData(h);
      } else if s.pcs[h].Loaded? {
        op := StoreData(h);
      } else {
        op := Unlock(h);
      }
    } else {
      op := StepWithoutHolder(s);
    }
    UsefulStepsRank(s, op);
    hide Apply, TotalRank, Inv;
  }

  lemma StepWithoutHolder(s: State) returns (op: Op)
    requires Inv(s) && !AllIdle(s) && forall t :: t in s.pcs ==> !Holds(s.pcs[t])
    ensures Useful(s, op)
  {
    hide MutualExclusion, NoLostUpdate;
    var t: Tid;
    if SomeAsleep(s) {
      t :| t in s.pcs && (s.pcs[t].WakePending? || s.pcs[t].Swap?);
    } else {
      t :| t in s.pcs && !s.pcs[t].Idle?;
    }
    match s.pcs[t]
    case Spin(_) => op := SpinLoad(t);
    case Retry => op := RetryLock(t);
    case Swap => op := SwapWaiters(t);
    case FutexWait => op := EnterWait(t);
    case WakePending =>
      if a :| a in s.pcs && s.pcs[a].Asleep? {
        op := WakeOne(t, Some(a));
      } else {
        op := WakeOne(t, None);
      }
  }

  /** Deadlock freedom: from every reachable state some continuation, with no new lock calls and no
      spurious wake-ups, lets every thread finish and leaves the mutex free. */
  lemma {:induction false} CanAlwaysDrain(s: State) returns (ops: seq<Op>)
    requires Inv(s)
    ensures Feasible(s, ops) && AllIdle(Run(s, ops)) && Run(s, ops).word == UNLOCKED
    ensures forall i :: 0 <= i < |ops| ==> !ops[i].FastLock? && !ops[i].SpuriousWake?
    decreases TotalRank(s.pcs)
  {
    if AllIdle(s) {
      ops := [];
    } else {
      var op := ProgressStep(s);
      StepKeepsInv(s, op);
      var rest := CanAlwaysDrain(Apply(s, op));
      ops := [op] + rest;
      assert ops[1..] == rest;
    }
  }
}
