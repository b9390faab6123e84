/** The address-keyed parking table: park and unpark_all on any number of threads, one atomic
    operation a step. A bucket's lock is held for one map update only, so a locked section is one step.

    `park` never removes its entry, so an entry whose wait timed out stays in the table. */
module ParkingTable {
  type Tid = nat
  type Key = nat
  type Entry = nat

  datatype Pc =
    | Idle
    | Checking(entry: Entry)                 // about to load `notified`
    | Deciding(entry: Entry)                 // saw 0; about to check the deadline
    | EnteringWait(entry: Entry)             // about to enter futex_wait, expecting 0
    | Asleep(entry: Entry)
    | Notifying(key: Key, rest: seq<Entry>)  // unpark_all, about to store 1 into rest[0]
    | Waking(key: Key, rest: seq<Entry>)     // unpark_all, has stored into rest[0], about to wake it

  /** `keyOf` and `notified` range over every entry ever parked; `taken` holds those an unpark_all on
      their key has removed from the table; `returned` records what each finished park returned. */
  datatype State = State(
    table: map<Key, seq<Entry>>,
    keyOf: map<Entry, Key>,
    notified: map<Entry, bool>,
    pcs: map<Tid, Pc>,
    taken: set<Entry>,
    returned: map<Entry, bool>)

  datatype Op =
    | Park(t: Tid, key: Key, entry: Entry)
    | Check(t: Tid)
    | Decide(t: Tid, expired: bool)
    | EnterWait(t: Tid)
    | EarlyWake(t: Tid)
    | UnparkAll(t: Tid, key: Key)
    | Notify(t: Tid)
    | Wake(t: Tid)

  function Waiters(table: map<Key, seq<Entry>>, key: Key): seq<Entry> {
    if key in table then table[key] else []
  }

  predicate Enabled(s: State, op: Op) {
    && op.t in s.pcs
    && var pc := s.pcs[op.t];
      match op
      case Park(t, key, entry) => pc.Idle? && entry !in s.keyOf
      case Check(t) => pc.Checking? && pc.entry in s.notified
      case Decide(t, _) => pc.Deciding?
      case EnterWait(t) => pc.EnteringWait? && pc.entry in s.notified
      case EarlyWake(t) => pc.Asleep?
      case UnparkAll(t, key) => pc.Idle?
      case Notify(t) => pc.Notifying? && pc.rest != []
      case Wake(t) => pc.Waking? && pc.rest != []
  }

  function Drain(key: Key, rest: seq<Entry>): Pc {
    if rest == [] then Idle else Notifying(key, rest)
  }

  function Apply(s: State, op: Op): State
    requires Enabled(s, op)
  {
    var pc := s.pcs[op.t];
    match op
    case Park(t, key, entry) =>
      s.(table := s.table[key := Waiters(s.table, key) + [entry]],
         keyOf := s.keyOf[entry := key],
         notified := s.notified[entry := false],
         pcs := s.pcs[t := Checking(entry)])
    case Check(t) =>
      if s.notified[pc.entry] then s.(pcs := s.pcs[t := Idle], returned := s.returned[pc.entry := true])
      else s.(pcs := s.pcs[t := Deciding(pc.entry)])
    case Decide(t, expired) =>
      if expired then s.(pcs := s.pcs[t := Idle], returned := s.returned[pc.entry := false])
      else s.(pcs := s.pcs[t := EnteringWait(pc.entry)])
    case EnterWait(t) =>
      s.(pcs := s.pcs[t := if s.notified[pc.entry] then Checking(pc.entry) else Asleep(pc.entry)])
    case EarlyWake(t) => s.(pcs := s.pcs[t := Checking(pc.entry)])
    case UnparkAll(t, key) =>
      var entries := Waiters(s.table, key);
      s.(table := s.table - {key},
         taken := s.taken + (set e | e in entries),
         pcs := s.pcs[t := Drain(key, entries)])
    case Notify(t) =>
      s.(notified := s.notified[pc.rest[0] := true], pcs := s.pcs[t := Waking(pc.key, pc.rest)])
    case Wake(t) =>
      s.(pcs := map u | u in s.pcs ::
           if u == t then Drain(pc.key, pc.rest[1..])
           else if s.pcs[u] == Asleep(pc.rest[0]) then Checking(pc.rest[0])
           else s.pcs[u])
  }

  function Init(threads: set<Tid>): State {
    State(map[], map[], map[], map t | t in threads :: Idle, {}, map[])
  }

  ghost predicate Feasible(s: State, ops: seq<Op>)
    decreases |ops|
  {
    ops == [] || (Enabled(s, ops[0]) && Feasible(Apply(s, ops[0]), ops[1..]))
  }

  ghost function Run(s: State, ops: seq<Op>): State
    requires Feasible(s, ops)
    decreases |ops|
  {
    if ops == [] then s else Run(Apply(s, ops[0]), ops[1..])
  }

  // ---------------------------------------------------------------- no wake-up is lost

  ghost predicate InTable(s: State, e: Entry) {
    e in s.keyOf && e in Waiters(s.table, s.keyOf[e])
  }

  predicate OwesStore(pc: Pc, e: Entry) {
    (pc.Notifying? && e in pc.rest) || (pc.Waking? && pc.rest != [] && e in pc.rest[1..])
  }

  predicate OwesWake(pc: Pc, e: Entry) {
    pc.Waking? && pc.rest != [] && pc.rest[0] == e
  }

  /** Some unpark_all still owes `e` its store. */
  ghost predicate OwedStore(s: State, e: Entry) {
    exists u :: u in s.pcs && OwesStore(s.pcs[u], e)
  }

  /** Some unpark_all has stored into `e` and still owes it the futex wake. */
  ghost predicate OwedWake(s: State, e: Entry) {
    exists u :: u in s.pcs && OwesWake(s.pcs[u], e)
  }

  /** The table holds exactly the entries no unpark_all has taken, each under its own key. */
  ghost predicate TableInv(s: State) {
    && (forall k, e :: k in s.table && e in s.table[k] ==> e in s.keyOf && s.keyOf[e] == k && e !in s.taken)
    && (forall e :: e in s.keyOf && e !in s.taken ==> InTable(s, e))
    && s.taken <= s.keyOf.Keys
  }

  /** A flag is set only on a taken entry, and a taken entry without its flag is being drained. */
  ghost predicate FlagInv(s: State) {
    && s.keyOf.Keys == s.notified.Keys
    && (forall e :: e in s.notified && s.notified[e] ==> e in s.taken)
    && (forall e :: e in s.notified && e in s.taken && !s.notified[e] ==> OwedStore(s, e))
    && (forall e :: e in s.returned ==> e in s.notified && (s.returned[e] ==> s.notified[e]))
  }

  ghost predicate PcInv(s: State, pc: Pc) {
    match pc
    case Idle => true
    case Asleep(e) => e in s.notified && (s.notified[e] ==> OwedWake(s, e))
    case Notifying(key, rest) => rest != [] && DrainInv(s, key, rest)
    case Waking(key, rest) =>
      rest != [] && DrainInv(s, key, rest) && rest[0] in s.notified && s.notified[rest[0]]
    case _ => pc.entry in s.notified
  }

  ghost predicate DrainInv(s: State, key: Key, rest: seq<Entry>) {
    forall e :: e in rest ==> e in s.taken && e in s.keyOf && s.keyOf[e] == key
  }

  ghost predicate PcsInv(s: State) {
    forall u :: u in s.pcs ==> PcInv(s, s.pcs[u])
  }

  ghost predicate Inv(s: State) {
    TableInv(s) && FlagInv(s) && PcsInv(s)
  }

  lemma StepKeepsInv(s: State, op: Op)
    requires Inv(s) && Enabled(s, op)
    ensures Inv(Apply(s, op))
  {
    assert PcInv(s, s.pcs[op.t]);
    match op
    case Park(_, _, _) => ParkKeepsInv(s, op);
    case UnparkAll(_, _) => UnparkAllKeepsInv(s, op);
    case Notify(_) => NotifyKeepsInv(s, op);
    case Wake(_) => WakeKeepsInv(s, op);
    case _ => ParkerKeepsInv(s, op);
  }

  /** A step of a thread that drains nothing leaves every debt of the draining threads as it was. */
  lemma OwedUnchanged(s: State, s': State, t: Tid)
    requires t in s.pcs && s'.pcs.Keys == s.pcs.Keys
    requires !s.pcs[t].Notifying? && !s.pcs[t].Waking?
    requires forall u :: u in s.pcs && u != t ==> s'.pcs[u] == s.pcs[u]
    ensures forall e :: OwedStore(s, e) ==> OwedStore(s', e)
    ensures forall e :: OwedWake(s, e) ==> OwedWake(s', e)
  {
    forall e | OwedStore(s, e)
      ensures OwedStore(s', e)
    {
      var u :| u in s.pcs && OwesStore(s.pcs[u], e);
      assert OwesStore(s'.pcs[u], e);
    }
    forall e | OwedWake(s, e)
      ensures OwedWake(s', e)
    {
      var u :| u in s.pcs && OwesWake(s.pcs[u], e);
      assert OwesWake(s'.pcs[u], e);
    }
  }

  /** What a thread relies on survives a step that touches neither table nor flags. */
  lemma PcInvSurvives(s: State, s': State, pc: Pc)
    requires PcInv(s, pc) && s'.notified == s.notified && s'.taken == s.taken && s'.keyOf == s.keyOf
    requires forall e :: OwedWake(s, e) ==> OwedWake(s', e)
    ensures PcInv(s', pc)
  {
    hide OwedWake;
  }

  lemma ParkersOwnPc(s: State, op: Op)
    requires Inv(s) && Enabled(s, op)
    requires op.Check? || op.Decide? || op.EnterWait? || op.EarlyWake?
    ensures var s' := Apply(s, op);
            && PcInv(s', s'.pcs[op.t]) && s' == s.(pcs := s'.pcs, returned := s'.returned)
            && (forall e :: e in s'.returned ==> e in s.notified && (s'.returned[e] ==> s.notified[e]))
  {
    assert PcInv(s, s.pcs[op.t]);
    hide OwedWake, OwedStore, TableInv;
  }

  lemma ParkerKeepsInv(s: State, op: Op)
    requires Inv(s) && Enabled(s, op)
    requires op.Check? || op.Decide? || op.EnterWait? || op.EarlyWake?
    ensures Inv(Apply(s, op))
  {
    var s' := Apply(s, op);
    OwedUnchanged(s, s', op.t);
    ParkersOwnPc(s, op);
    assert forall u :: u in s.pcs && u != op.t ==> s'.pcs[u] == s.pcs[u];
    hide Apply, Enabled, OwedWake, OwedStore, PcInv, InTable;
    SameTables(s, s');
    forall u | u in s'.pcs
      ensures PcInv(s', s'.pcs[u])
    {
      if u != op.t { PcInvSurvives(s, s', s.pcs[u]); }
    }
  }

  lemma SameTables(s: State, s': State)
    requires TableInv(s) && FlagInv(s) && s' == s.(pcs := s'.pcs, returned := s'.returned)
    requires forall e :: OwedStore(s, e) ==> OwedStore(s', e)
    requires forall e :: e in s'.returned ==> e in s.notified && (s'.returned[e] ==> s.notified[e])
    ensures TableInv(s') && FlagInv(s')
  {
    hide OwedStore;
    assert forall e :: InTable(s', e) <==> InTable(s, e);
  }

  lemma ParkKeepsInv(s: State, op: Op)
    requires Inv(s) && Enabled(s, op) && op.Park?
    ensures Inv(Apply(s, op))
  {
    var s' := Apply(s, op);
    OwedUnchanged(s, s', op.t);
    forall e | e in s'.keyOf && e !in s'.taken
      ensures InTable(s', e)
    {
      if e != op.entry { assert InTable(s, e); }
    }
    forall u | u in s'.pcs
      ensures PcInv(s', s'.pcs[u])
    {
      assert PcInv(s, s.pcs[u]);
    }
  }

  lemma UnparkAllKeepsInv(s: State, op: Op)
    requires Inv(s) && Enabled(s, op) && op.UnparkAll?
    ensures Inv(Apply(s, op))
  {
    var s' := Apply(s, op);
    OwedUnchanged(s, s', op.t);
    forall e | e in s'.keyOf && e !in s'.taken
      ensures InTable(s', e)
    {
      assert InTable(s, e);
    }
    forall e | e in s'.taken && e in s'.notified && !s'.notified[e]
      ensures OwedStore(s', e)
    {
      if e !in s.taken { assert OwesStore(s'.pcs[op.t], e); }
    }
    forall u | u in s'.pcs
      ensures PcInv(s', s'.pcs[u])
    {
      assert PcInv(s, s.pcs[u]);
    }
  }

  lemma NotifyKeepsInv(s: State, op: Op)
    requires Inv(s) && Enabled(s, op) && op.Notify?
    ensures Inv(Apply(s, op))
  {
    var s' := Apply(s, op);
    var e0 := s.pcs[op.t].rest[0];
    assert PcInv(s, s.pcs[op.t]);
    assert s'.notified.Keys == s.notified.Keys;
    assert OwesWake(s'.pcs[op.t], e0);
    forall e | e in s'.taken && e in s'.notified && !s'.notified[e]
      ensures OwedStore(s', e)
    {
      var u :| u in s.pcs && OwesStore(s.pcs[u], e);
      assert OwesStore(s'.pcs[u], e);
    }
    forall u | u in s'.pcs
      ensures PcInv(s', s'.pcs[u])
    {
      assert PcInv(s, s.pcs[u]);
      if s.pcs[u].Asleep? && s.pcs[u].entry != e0 && OwedWake(s, s.pcs[u].entry) {
        var v :| v in s.pcs && OwesWake(s.pcs[v], s.pcs[u].entry);
        assert OwesWake(s'.pcs[v], s.pcs[u].entry);
      }
    }
  }

  lemma WakeKeepsInv(s: State, op: Op)
    requires Inv(s) && Enabled(s, op) && op.Wake?
    ensures Inv(Apply(s, op))
  {
    var s' := Apply(s, op);
    var e0 := s.pcs[op.t].rest[0];
    assert PcInv(s, s.pcs[op.t]);
    forall e | e in s'.taken && e in s'.notified && !s'.notified[e]
      ensures OwedStore(s', e)
    {
      var u :| u in s.pcs && OwesStore(s.pcs[u], e);
      assert OwesStore(s'.pcs[u], e);
    }
    forall u | u in s'.pcs
      ensures PcInv(s', s'.pcs[u])
    {
      assert PcInv(s, s.pcs[u]);
      if u != op.t && s.pcs[u].Asleep? && s.pcs[u].entry != e0 && OwedWake(s, s.pcs[u].entry) {
        var v :| v in s.pcs && OwesWake(s.pcs[v], s.pcs[u].entry);
        assert OwesWake(s'.pcs[v], s.pcs[u].entry);
      }
    }
  }

  lemma {:induction false} RunKeepsInv(s: State, ops: seq<Op>)
    requires Inv(s) && Feasible(s, ops)
    ensures Inv(Run(s, ops))
    decreases |ops|
  {
    if ops != [] {
      StepKeepsInv(s, ops[0]);
      RunKeepsInv(Apply(s, ops[0]), ops[1..]);
    }
  }

  lemma InitInv(threads: set<Tid>)
    ensures Inv(Init(threads))
  {
    var s := Init(threads);
  }

  /** An entry nobody has notified is in the table under its own key, or an unpark_all on that key has
      taken it and still owes it the store; timing out does not change that. */
  lemma UnnotifiedIsFindable(threads: set<Tid>, ops: seq<Op>, e: Entry)
    requires Feasible(Init(threads), ops)
    requires var s := Run(Init(threads), ops); e in s.notified && !s.notified[e]
    ensures var s := Run(Init(threads), ops);
            (InTable(s, e) || (e in s.taken && OwedStore(s, e)))
  {
    InitInv(threads);
    RunKeepsInv(Init(threads), ops);
  }

  /** No lost wake-up: with no unpark_all under way, every sleeper's entry is un-notified and in the
      table under its key, where the next unpark_all on that key takes it. */
  lemma SleepersAreParked(threads: set<Tid>, ops: seq<Op>, t: Tid)
    requires Feasible(Init(threads), ops)
    requires var s := Run(Init(threads), ops);
             && t in s.pcs && s.pcs[t].Asleep?
             && forall u :: u in s.pcs ==> !s.pcs[u].Notifying? && !s.pcs[u].Waking?
    ensures var s := Run(Init(threads), ops);
            && s.pcs[t].entry in s.keyOf && s.pcs[t].entry in s.notified && !s.notified[s.pcs[t].entry]
            && s.pcs[t].entry in Waiters(s.table, s.keyOf[s.pcs[t].entry])
  {
    InitInv(threads);
    RunKeepsInv(Init(threads), ops);
    assert PcInv(Run(Init(threads), ops), Run(Init(threads), ops).pcs[t]);
  }

  /** No lost wake-up, at every moment: a sleeper's flag is clear, or some unpark_all that set it is still to
      make the wake. */
  lemma SleeperUnnotifiedOrOwed(threads: set<Tid>, ops: seq<Op>, t: Tid)
    requires Feasible(Init(threads), ops)
    requires var s := Run(Init(threads), ops); t in s.pcs && s.pcs[t].Asleep?
    ensures var s := Run(Init(threads), ops);
            var e := s.pcs[t].entry;
            e in s.notified && (!s.notified[e] || exists u :: u in s.pcs && OwesWake(s.pcs[u], e))
  {
    InitInv(threads);
    RunKeepsInv(Init(threads), ops);
    assert PcInv(Run(Init(threads), ops), Run(Init(threads), ops).pcs[t]);
  }

  /** An entry keeps its key. */
  lemma {:induction false} KeyStays(s: State, ops: seq<Op>, e: Entry)
    requires Feasible(s, ops) && e in s.keyOf
    ensures e in Run(s, ops).keyOf && Run(s, ops).keyOf[e] == s.keyOf[e]
    decreases |ops|
  {
    if ops != [] { KeyStays(Apply(s, ops[0]), ops[1..], e); }
  }

  lemma TakenInStep(s: State, op: Op, e: Entry)
    requires Inv(s) && Enabled(s, op) && e !in s.taken && e in Apply(s, op).taken
    ensures op.UnparkAll? && e in Waiters(s.table, op.key)
    ensures e in s.keyOf && s.keyOf[e] == op.key
    ensures e in Apply(s, op).keyOf && Apply(s, op).keyOf[e] == op.key
  {
    hide FlagInv, PcsInv;
  }

  /** The unpark_all that took an entry. */
  lemma {:induction false} TakenBy(s: State, ops: seq<Op>, e: Entry) returns (i: nat)
    requires Inv(s) && Feasible(s, ops) && e !in s.taken && e in Run(s, ops).taken
    ensures i < |ops| && ops[i].UnparkAll? && Feasible(s, ops[..i])
    ensures e in Waiters(Run(s, ops[..i]).table, ops[i].key)
    ensures e in Run(s, ops).keyOf && Run(s, ops).keyOf[e] == ops[i].key
    decreases |ops|
  {
    hide Inv, Enabled, Apply;
    var next := Apply(s, ops[0]);
    StepKeepsInv(s, ops[0]);
    if e in next.taken {
      TakenInStep(s, ops[0], e);
      KeyStays(next, ops[1..], e);
      assert ops[..0] == [];
      return 0;
    }
    var k := TakenBy(next, ops[1..], e);
    assert ops[..k + 1][0] == ops[0] && ops[..k + 1][1..] == ops[1..][..k];
    return k + 1;
  }

  /** park returns true only if an unpark_all on the same key took its entry: at some step of the run the
      entry was among that key's waiters and the step was an unpark_all on the key, and the entry is out of
      the table for good, under every key. */
  lemma TrueMeansTaken(threads: set<Tid>, ops: seq<Op>, e: Entry) returns (i: nat)
    requires Feasible(Init(threads), ops)
    requires var s := Run(Init(threads), ops); e in s.returned && s.returned[e]
    ensures i < |ops| && ops[i].UnparkAll? && Feasible(Init(threads), ops[..i])
    ensures e in Waiters(Run(Init(threads), ops[..i]).table, ops[i].key)
    ensures var s := Run(Init(threads), ops);
            e in s.keyOf && s.keyOf[e] == ops[i].key && forall k :: e !in Waiters(s.table, k)
  {
    InitInv(threads);
    RunKeepsInv(Init(threads), ops);
    i := TakenBy(Init(threads), ops, e);
    hide Feasible, Run, PcsInv;
  }

  // ---------------------------------------------------------------- a notified park returns true

  /** How many undisturbed steps a park needs once its flag is set. */
  function StepsLeft(pc: Pc): nat {
    match pc
    case Checking(_) => 1
    case EnteringWait(_) => 2
    case Asleep(_) => 2
    case Deciding(_) => 3
    case _ => 0
  }

  predicate Parked(pc: Pc, e: Entry) {
    (pc.Checking? || pc.Deciding? || pc.EnteringWait? || pc.Asleep?) && pc.entry == e
  }

  /** A park whose entry is notified returns true: once the flag is set, the thread's own next steps, whichever
      they are, lead there in at most three, unless its deadline passes before it looks again. */
  lemma {:induction false} NotifiedParkReturnsTrue(s: State, ops: seq<Op>, t: Tid, e: Entry)
    requires t in s.pcs && Parked(s.pcs[t], e) && e in s.notified && s.notified[e]
    requires Feasible(s, ops) && |ops| == StepsLeft(s.pcs[t])
    requires forall i :: 0 <= i < |ops| ==> ops[i].t == t && ops[i] != Decide(t, true)
    ensures Run(s, ops) == s.(returned := s.returned[e := true], pcs := s.pcs[t := Idle])
    decreases |ops|
  {
    var next := Apply(s, ops[0]);
    assert ops[0].t == t;
    if |ops| == 1 {
      assert Run(s, ops) == next;
    } else {
      NotifiedParkReturnsTrue(next, ops[1..], t, e);
      assert s.pcs[t := next.pcs[t]][t := Idle] == s.pcs[t := Idle];
    }
  }

  /** Such steps exist. */
  lemma {:induction false} UndisturbedSteps(s: State, t: Tid, e: Entry) returns (ops: seq<Op>)
    requires t in s.pcs && Parked(s.pcs[t], e) && e in s.notified && s.notified[e]
    ensures Feasible(s, ops) && |ops| == StepsLeft(s.pcs[t])
    ensures forall i :: 0 <= i < |ops| ==> ops[i].t == t && ops[i] != Decide(t, true)
    decreases StepsLeft(s.pcs[t])
  {
    var op := match s.pcs[t]
      case Checking(_) => Check(t)
      case Deciding(_) => Decide(t, false)
      case EnteringWait(_) => EnterWait(t)
      case _ => EarlyWake(t);
    if s.pcs[t].Checking? {
      ops := [op];
      assert ops[1..] == [];
    } else {
      var rest := UndisturbedSteps(Apply(s, op), t, e);
      ops := [op] + rest;
      assert ops[1..] == rest;
    }
  }

  /** No step of any thread clears a flag, and the wake owed to a sleeper sends it to look at the flag. */
  lemma FlagStaysAndWakes(s: State, op: Op, e: Entry)
    requires Inv(s) && Enabled(s, op) && e in s.notified && s.notified[e]
    ensures e in Apply(s, op).notified && Apply(s, op).notified[e]
    ensures op.Wake? && OwesWake(s.pcs[op.t], e) ==>
      forall u :: u in s.pcs && s.pcs[u] == Asleep(e) ==> Apply(s, op).pcs[u] == Checking(e)
  {
    assert PcInv(s, s.pcs[op.t]);
  }

  /** A deadline that passes between the look at the flag and the check wins: the park then returns false,
      notified or not. */
  lemma DeadlineWins(s: State, t: Tid)
    requires Enabled(s, Decide(t, true))
    ensures var e := s.pcs[t].entry;
            Apply(s, Decide(t, true)) == s.(returned := s.returned[e := false], pcs := s.pcs[t := Idle])
  {
  }

  /** A park that timed out leaves its entry behind until an unpark_all on its key takes it. */
  lemma TimeoutLeavesEntry(threads: set<Tid>, ops: seq<Op>, e: Entry)
    requires Feasible(Init(threads), ops)
    requires var s := Run(Init(threads), ops); e in s.returned && !s.returned[e] && e !in s.taken
    ensures var s := Run(Init(threads), ops); InTable(s, e)
  {
    InitInv(threads);
    RunKeepsInv(Init(threads), ops);
  }
}
