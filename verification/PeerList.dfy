/** The lock-free peer list: insertion by compare-and-exchange, traversal, and deactivation by any number
    of threads, one atomic operation a step. Memory is a map from addresses to nodes; nodes are freed
    only when the whole list is. */
module PeerList {
  import opened OptionValue

  type Tid = nat
  type Addr = nat

  datatype Node = Node(clientId: nat, interestMask: nat, active: bool, next: Option<Addr>)

  /** A traversal. `start` is the list at the head load and `live` its nodes active then; `at` is the
      position in `start`; `seen` are the nodes handed to the callback, `calls` how many times it ran.
      A `target` is the client that mark_inactive looks for. */
  datatype Walk = Walk(start: seq<Addr>, live: set<Addr>, at: nat, seen: set<Addr>, calls: nat, target: Option<nat>)

  datatype Pc =
    | Idle
    | Linking(node: Addr, current: Option<Addr>)     // about to store `current` into the new node's next
    | Exchanging(node: Addr, current: Option<Addr>)  // about to try head: current -> node
    | Counting(node: Addr)                           // linked in, about to bump the count
    | Visiting(curr: Addr, walk: Walk)               // about to load the node's active flag
    | InCallback(curr: Addr, walk: Walk)             // found it active, about to run the callback
    | Advancing(curr: Addr, walk: Walk)              // about to load the node's next pointer
    | Done(walk: Walk)                               // walked to the end, about to return

  /** `chain` lists the linked-in nodes in reverse order of their exchanges; `uncounted` are those whose
      thread has not bumped the count yet. */
  datatype State = State(
    heap: map<Addr, Node>, head: Option<Addr>, count: nat, pcs: map<Tid, Pc>,
    chain: seq<Addr>, uncounted: set<Addr>)

  datatype Op =
    | Register(t: Tid, node: Addr, clientId: nat, mask: nat)
    | Link(t: Tid)
    | Exchange(t: Tid, spurious: bool)
    | Count(t: Tid)
    | StartWalk(t: Tid, target: Option<nat>)
    | LoadActive(t: Tid)
    | Callback(t: Tid)
    | LoadNext(t: Tid)
    | Return(t: Tid)

  predicate Enabled(s: State, op: Op) {
    && op.t in s.pcs
    && var pc := s.pcs[op.t];
      match op
      case Register(_, node, _, _) => pc.Idle? && node !in s.heap
      case Link(_) => pc.Linking? && pc.node in s.heap
      case Exchange(_, _) => pc.Exchanging?
      case Count(_) => pc.Counting?
      case StartWalk(_, _) => pc.Idle?
      case LoadActive(_) => pc.Visiting? && pc.curr in s.heap
      case Callback(_) => pc.InCallback? && pc.curr in s.heap
      case LoadNext(_) => pc.Advancing? && pc.curr in s.heap
      case Return(_) => pc.Done?
  }

  function LiveNodes(heap: map<Addr, Node>, chain: seq<Addr>): set<Addr> {
    set a | a in chain && a in heap && heap[a].active
  }

  function Apply(s: State, op: Op): State
    requires Enabled(s, op)
  {
    var pc := s.pcs[op.t];
    match op
    case Register(t, node, clientId, mask) =>
      s.(heap := s.heap[node := Node(clientId, mask, true, None)], pcs := s.pcs[t := Linking(node, s.head)])
    case Link(t) =>
      s.(heap := s.heap[pc.node := s.heap[pc.node].(next := pc.current)],
         pcs := s.pcs[t := Exchanging(pc.node, pc.current)])
    case Exchange(t, spurious) =>
      if s.head == pc.current && !spurious then
        s.(head := Some(pc.node), pcs := s.pcs[t := Counting(pc.node)],
           chain := [pc.node] + s.chain, uncounted := s.uncounted + {pc.node})
      else s.(pcs := s.pcs[t := Linking(pc.node, s.head)])
    case Count(t) => s.(count := s.count + 1, pcs := s.pcs[t := Idle], uncounted := s.uncounted - {pc.node})
    case StartWalk(t, target) =>
      var walk := Walk(s.chain, LiveNodes(s.heap, s.chain), 0, {}, 0, target);
      s.(pcs := s.pcs[t := if s.head.None? then Done(walk) else Visiting(s.head.value, walk)])
    case LoadActive(t) =>
      var next := if s.heap[pc.curr].active then InCallback(pc.curr, pc.walk) else Advancing(pc.curr, pc.walk);
      s.(pcs := s.pcs[t := next])
    case Callback(t) =>
      var walk := pc.walk.(seen := pc.walk.seen + {pc.curr}, calls := pc.walk.calls + 1);
      var node := s.heap[pc.curr];
      s.(heap := if pc.walk.target == Some(node.clientId) then s.heap[pc.curr := node.(active := false)] else s.heap,
         pcs := s.pcs[t := Advancing(pc.curr, walk)])
    case LoadNext(t) =>
      var walk := pc.walk.(at := pc.walk.at + 1);
      var next := s.heap[pc.curr].next;
      s.(pcs := s.pcs[t := if next.None? then Done(walk) else Visiting(next.value, walk)])
    case Return(t) => s.(pcs := s.pcs[t := Idle])
  }

  /** The list object. Each method is one atomic step of thread `t`. */
  class LockFreePeerList {
    var heap: map<Addr, Node>
    var head: Option<Addr>
    var count: nat
    var pcs: map<Tid, Pc>
    ghost var chain: seq<Addr>
    ghost var uncounted: set<Addr>

    ghost function View(): State
      reads this
    {
      State(heap, head, count, pcs, chain, uncounted)
    }

    constructor (threads: set<Tid>)
      ensures View() == Init(threads)
    {
      heap, head, count, pcs := map[], None, 0, map t | t in threads :: Idle;
      chain, uncounted := [], {};
    }

    method RegisterStep(t: Tid, node: Addr, clientId: nat, mask: nat)
      requires Enabled(View(), Register(t, node, clientId, mask))
      modifies this
      ensures View() == Apply(old(View()), Register(t, node, clientId, mask))
    {
      heap := heap[node := Node(clientId, mask, true, None)];
      var current := head;
      pcs := pcs[t := Linking(node, current)];
    }

    method LinkStep(t: Tid)
      requires Enabled(View(), Link(t))
      modifies this
      ensures View() == Apply(old(View()), Link(t))
    {
      var node, current := pcs[t].node, pcs[t].current;
      heap := heap[node := heap[node].(next := current)];
      pcs := pcs[t := Exchanging(node, current)];
    }

    /** compare_exchange_weak on the head. */
    method ExchangeStep(t: Tid, spurious: bool) returns (ok: bool)
      requires Enabled(View(), Exchange(t, spurious))
      modifies this
      ensures View() == Apply(old(View()), Exchange(t, spurious))
      ensures ok ==> old(head) == old(pcs)[t].current && chain == [old(pcs)[t].node] + old(chain)
      ensures !ok ==> head == old(head) && chain == old(chain)
    {
      var node, current := pcs[t].node, pcs[t].current;
      ok := head == current && !spurious;
      if ok {
        head := Some(node);
        chain := [node] + chain;
        uncounted := uncounted + {node};
        pcs := pcs[t := Counting(node)];
      } else {
        var actual := head;
        pcs := pcs[t := Linking(node, actual)];
      }
    }

    method CountStep(t: Tid)
      requires Enabled(View(), Count(t))
      modifies this
      ensures View() == Apply(old(View()), Count(t))
    {
      uncounted := uncounted - {pcs[t].node};
      count := count + 1;
      pcs := pcs[t := Idle];
    }

    method LoadActiveStep(t: Tid)
      requires Enabled(View(), LoadActive(t))
      modifies this
      ensures View() == Apply(old(View()), LoadActive(t))
    {
      var curr, walk := pcs[t].curr, pcs[t].walk;
      pcs := pcs[t := if heap[curr].active then InCallback(curr, walk) else Advancing(curr, walk)];
    }

    /** The callback: counts the node, and for mark_inactive clears the flag of the client's nodes. */
    method CallbackStep(t: Tid)
      requires Enabled(View(), Callback(t))
      modifies this
      ensures View() == Apply(old(View()), Callback(t))
    {
      var curr, walk := pcs[t].curr, pcs[t].walk;
      walk := walk.(seen := walk.seen + {curr}, calls := walk.calls + 1);
      if walk.target == Some(heap[curr].clientId) {
        heap := heap[curr := heap[curr].(active := false)];
      }
      pcs := pcs[t := Advancing(curr, walk)];
    }

    method LoadNextStep(t: Tid)
      requires Enabled(View(), LoadNext(t))
      modifies this
      ensures View() == Apply(old(View()), LoadNext(t))
    {
      var curr, walk := pcs[t].curr, pcs[t].walk;
      var next := heap[curr].next;
      walk := walk.(at := walk.at + 1);
      pcs := pcs[t := if next.Some? then Visiting(next.value, walk) else Done(walk)];
    }

    /** active_count, uninterrupted: walks the pointers and counts the active nodes. */
    method ActiveCount() returns (n: nat)
      requires Linked(heap, head, chain)
      ensures n == |LiveNodes(heap, chain)|
    {
      assert head == AddrAt(chain, 0);
      n := 0;
      var curr := head;
      ghost var i := 0;
      LiveEnds(heap, chain);
      hide Linked, LiveNodes, LiveUpTo;
      while curr.Some?
        invariant 0 <= i <= |chain| && curr == AddrAt(chain, i) && n == LiveUpTo(heap, chain, i)
        decreases |chain| - i
      {
        LiveStep(heap, head, chain, i);
        if heap[curr.value].active {
          n := n + 1;
        }
        curr := heap[curr.value].next;
        i := i + 1;
      }
    }

    /** One node of mark_inactive's walk. */
    method MarkNode(a: Addr, clientId: nat)
      requires a in heap
      modifies this`heap
      ensures heap == old(heap)[a := Marked(old(heap)[a], clientId)]
    {
      var node := heap[a];
      if node.active && node.clientId == clientId {
        heap := heap[a := node.(active := false)];
      } else {
        assert heap[a := node] == heap;
      }
    }

    /** mark_inactive, uninterrupted: clears the flag of every linked-in node of the client, in place, and
        changes nothing else. */
    method MarkInactive(clientId: nat)
      requires Linked(heap, head, chain)
      modifies this`heap
      ensures MarkedIn(old(heap), heap, chain, clientId) && Linked(heap, head, chain)
    {
      MarkedAll(heap, head, chain, clientId);
      assert head == AddrAt(chain, 0) && heap == MarkedTo(heap, chain, clientId, 0);
      hide Linked, MarkedTo, MarkedIn, Allocated, Marked;
      var curr := head;
      ghost var i := 0;
      while curr.Some?
        invariant 0 <= i <= |chain| && curr == AddrAt(chain, i)
        invariant heap == MarkedTo(old(heap), chain, clientId, i)
        decreases |chain| - i
      {
        MarkStep(old(heap), head, chain, clientId, i);
        var a := curr.value;
        MarkNode(a, clientId);
        curr := heap[a].next;
        i := i + 1;
      }
    }
  }

  ghost predicate Allocated(heap: map<Addr, Node>, chain: seq<Addr>) {
    forall i :: 0 <= i < |chain| ==> chain[i] in heap
  }

  /** The client's linked-in nodes are inactive, and nothing else about any node has changed. */
  ghost predicate MarkedIn(heap: map<Addr, Node>, heap': map<Addr, Node>, chain: seq<Addr>, clientId: nat) {
    && heap'.Keys == heap.Keys
    && forall a :: a in heap ==> heap'[a] == if a in chain then Marked(heap[a], clientId) else heap[a]
  }

  function Marked(node: Node, clientId: nat): Node {
    if node.clientId == clientId then node.(active := false) else node
  }

  /** The heap with the client's nodes among the first n of the chain marked inactive. */
  ghost function MarkedTo(heap: map<Addr, Node>, chain: seq<Addr>, clientId: nat, n: nat): (h: map<Addr, Node>)
    requires n <= |chain| && Allocated(heap, chain)
    ensures h.Keys == heap.Keys
  {
    if n == 0 then heap
    else MarkedTo(heap, chain, clientId, n - 1)[chain[n - 1] := Marked(heap[chain[n - 1]], clientId)]
  }

  lemma {:induction false} MarkedAt(heap: map<Addr, Node>, chain: seq<Addr>, clientId: nat, n: nat, a: Addr)
    requires n <= |chain| && NoRepeats(chain) && a in heap && Allocated(heap, chain)
    ensures (forall i :: 0 <= i < n ==> chain[i] != a) ==> MarkedTo(heap, chain, clientId, n)[a] == heap[a]
    ensures (exists i :: 0 <= i < n && chain[i] == a) ==>
              MarkedTo(heap, chain, clientId, n)[a] == Marked(heap[a], clientId)
  {
    if n > 0 { MarkedAt(heap, chain, clientId, n - 1, a); }
  }

  lemma MarkStep(heap: map<Addr, Node>, head: Option<Addr>, chain: seq<Addr>, clientId: nat, i: nat)
    requires Linked(heap, head, chain) && i < |chain|
    ensures Allocated(heap, chain)
    ensures var a, now := chain[i], MarkedTo(heap, chain, clientId, i);
            && a in now && now[a] == heap[a] && Marked(heap[a], clientId).next == AddrAt(chain, i + 1)
            && MarkedTo(heap, chain, clientId, i + 1) == now[a := Marked(heap[a], clientId)]
  {
    MarkedAt(heap, chain, clientId, i, chain[i]);
  }

  /** What marking the whole chain comes to: the client's linked-in nodes are inactive, all else is kept. */
  lemma MarkedAll(heap: map<Addr, Node>, head: Option<Addr>, chain: seq<Addr>, clientId: nat)
    requires Linked(heap, head, chain)
    ensures Allocated(heap, chain)
    ensures var h := MarkedTo(heap, chain, clientId, |chain|);
            Linked(h, head, chain) && MarkedIn(heap, h, chain, clientId)
  {
    var h := MarkedTo(heap, chain, clientId, |chain|);
    forall a | a in heap
      ensures h[a] == if a in chain then Marked(heap[a], clientId) else heap[a]
    {
      MarkedAt(heap, chain, clientId, |chain|, a);
    }
    hide MarkedTo, NoRepeats;
    LinkedFrame(heap, h, head, chain);
  }

  /** The active ones among the first n nodes of the chain. */
  ghost function LiveSet(heap: map<Addr, Node>, chain: seq<Addr>, n: nat): set<Addr>
    requires n <= |chain|
  {
    if n == 0 then {}
    else LiveSet(heap, chain, n - 1) + if chain[n - 1] in heap && heap[chain[n - 1]].active then {chain[n - 1]} else {}
  }

  ghost function LiveUpTo(heap: map<Addr, Node>, chain: seq<Addr>, n: nat): nat
    requires n <= |chain|
  {
    |LiveSet(heap, chain, n)|
  }

  lemma {:induction false} LiveSetIs(heap: map<Addr, Node>, chain: seq<Addr>, n: nat, a: Addr)
    requires n <= |chain|
    ensures a in LiveSet(heap, chain, n) <==> a in heap && heap[a].active && exists i :: 0 <= i < n && chain[i] == a
  {
    if n > 0 { LiveSetIs(heap, chain, n - 1, a); }
  }

  lemma LiveEnds(heap: map<Addr, Node>, chain: seq<Addr>)
    ensures LiveUpTo(heap, chain, 0) == 0 && LiveUpTo(heap, chain, |chain|) == |LiveNodes(heap, chain)|
  {
    forall a
      ensures a in LiveSet(heap, chain, |chain|) <==> a in LiveNodes(heap, chain)
    {
      LiveSetIs(heap, chain, |chain|, a);
    }
    assert LiveSet(heap, chain, |chain|) == LiveNodes(heap, chain);
  }

  lemma LiveStep(heap: map<Addr, Node>, head: Option<Addr>, chain: seq<Addr>, i: nat)
    requires Linked(heap, head, chain) && i < |chain|
    ensures chain[i] in heap && heap[chain[i]].next == AddrAt(chain, i + 1)
    ensures LiveUpTo(heap, chain, i + 1) == LiveUpTo(heap, chain, i) + if heap[chain[i]].active then 1 else 0
  {
    LiveSetIs(heap, chain, i, chain[i]);
    assert chain[i] !in LiveSet(heap, chain, i);
  }

  function Init(threads: set<Tid>): State {
    State(map[], None, 0, map t | t in threads :: Idle, [], {})
  }

  ghost predicate Feasible(s: State, ops: seq<Op>)
    decreases |ops|
  {
    ops == [] || (Enabled(s, ops[0]) && Feasible(Apply(s, ops[0]), ops[1..]))
  }

  ghost function Run(s: State, ops: seq<Op>): State
    requires Feasible(s, ops)
    decreases |ops|
  {
    if ops == [] then s else Run(Apply(s, ops[0]), ops[1..])
  }

  // ---------------------------------------------------------------- the chain

  predicate NoRepeats(chain: seq<Addr>) {
    forall i, j :: 0 <= i < j < |chain| ==> chain[i] != chain[j]
  }

  function AddrAt(chain: seq<Addr>, i: nat): Option<Addr> {
    if i < |chain| then Some(chain[i]) else None
  }

  /** Following next pointers from the head runs through the chain, each node once, and ends. */
  ghost predicate Linked(heap: map<Addr, Node>, head: Option<Addr>, chain: seq<Addr>) {
    && head == AddrAt(chain, 0)
    && NoRepeats(chain)
    && (forall i :: 0 <= i < |chain| ==> chain[i] in heap && heap[chain[i]].next == AddrAt(chain, i + 1))
  }

  predicate Owns(pc: Pc, node: Addr) {
    (pc.Linking? || pc.Exchanging?) && pc.node == node
  }

  ghost predicate PrivateNode(heap: map<Addr, Node>, chain: seq<Addr>, pc: Pc) {
    && (pc.Linking? || pc.Exchanging? ==> pc.node in heap && pc.node !in chain && heap[pc.node].active)
    && (pc.Exchanging? ==> heap[pc.node].next == pc.current)
  }

  /** A node still being inserted belongs to one thread and is not in the chain. */
  ghost predicate Private(s: State) {
    && (forall t :: t in s.pcs ==> PrivateNode(s.heap, s.chain, s.pcs[t]))
    && (forall t, u, n :: t in s.pcs && u in s.pcs && Owns(s.pcs[t], n) && Owns(s.pcs[u], n) ==> t == u)
  }

  /** The count lags the chain by exactly the threads between their exchange and their increment. */
  ghost predicate Counted(count: nat, uncounted: set<Addr>, chain: seq<Addr>, pcs: map<Tid, Pc>) {
    CountedSize(count, uncounted, chain) && CountedThreads(uncounted, pcs)
  }

  ghost predicate CountedSize(count: nat, uncounted: set<Addr>, chain: seq<Addr>) {
    count + |uncounted| == |chain| && forall a :: a in uncounted ==> a in chain
  }

  ghost predicate CountedThreads(uncounted: set<Addr>, pcs: map<Tid, Pc>) {
    && (forall t :: t in pcs && pcs[t].Counting? ==> pcs[t].node in uncounted)
    && (forall t, u :: t in pcs && u in pcs && pcs[t].Counting? && pcs[u] == pcs[t] ==> t == u)
    && (forall a :: a in uncounted ==> exists t :: t in pcs && pcs[t] == Counting(a))
  }

  // ---------------------------------------------------------------- traversals

  predicate IsTail(a: seq<Addr>, b: seq<Addr>) {
    |a| <= |b| && a == b[|b| - |a|..]
  }

  /** The list only grows at the front, so a traversal's list is still its tail. */
  ghost predicate WalkPlace(chain: seq<Addr>, start: seq<Addr>) {
    IsTail(start, chain) && NoRepeats(start)
  }

  /** What a traversal of `start` establishes by passing its first `passed` nodes. */
  ghost predicate WalkFacts(
    heap: map<Addr, Node>, start: seq<Addr>, live: set<Addr>, seen: set<Addr>, target: Option<nat>, passed: nat)
  {
    && passed <= |start|
    && (forall i :: 0 <= i < |start| ==> start[i] in heap)
    // only nodes of the list that were live at the start are handed out, and only passed ones
    && seen <= live
    && (forall i :: passed <= i < |start| ==> start[i] !in seen)
    && (forall i :: 0 <= i < |start| && heap[start[i]].active ==> start[i] in live)
    // a passed node that is active now has been handed out; none of the target's is active
    && (forall i :: 0 <= i < passed && heap[start[i]].active ==> start[i] in seen)
    && (target.Some? ==>
          forall i :: 0 <= i < passed && heap[start[i]].active ==> heap[start[i]].clientId != target.value)
  }

  ghost predicate WalkOk(heap: map<Addr, Node>, chain: seq<Addr>, w: Walk, passed: nat) {
    WalkPlace(chain, w.start) && WalkFacts(heap, w.start, w.live, w.seen, w.target, passed) && w.calls == |w.seen|
  }

  ghost predicate PcWalk(heap: map<Addr, Node>, chain: seq<Addr>, pc: Pc) {
    match pc
    case Visiting(curr, w) => w.at < |w.start| && w.start[w.at] == curr && WalkOk(heap, chain, w, w.at)
    case InCallback(curr, w) =>
      w.at < |w.start| && w.start[w.at] == curr && curr in w.live && WalkOk(heap, chain, w, w.at)
    case Advancing(curr, w) => w.at < |w.start| && w.start[w.at] == curr && WalkOk(heap, chain, w, w.at + 1)
    case Done(w) => w.at == |w.start| && WalkOk(heap, chain, w, w.at)
    case _ => true
  }

  ghost predicate Walks(s: State) {
    forall t :: t in s.pcs ==> PcWalk(s.heap, s.chain, s.pcs[t])
  }

  ghost predicate Inv(s: State) {
    Linked(s.heap, s.head, s.chain) && Private(s) && Counted(s.count, s.uncounted, s.chain, s.pcs) && Walks(s)
  }

  /** Nodes stay, keep their client and its interest, and never become active again. */
  ghost predicate Evolves(heap: map<Addr, Node>, heap': map<Addr, Node>) {
    && heap.Keys <= heap'.Keys
    && forall a :: a in heap ==>
         && heap'[a].clientId == heap[a].clientId && heap'[a].interestMask == heap[a].interestMask
         && (heap'[a].active ==> heap[a].active)
  }

  lemma PlaceSurvives(chain: seq<Addr>, chain': seq<Addr>, start: seq<Addr>)
    requires WalkPlace(chain, start)
    requires IsTail(chain, chain')
    ensures WalkPlace(chain', start)
  {
    hide NoRepeats, IsTail;
    TailOfTail(start, chain, chain');
  }

  lemma FactsSurvive(
    heap: map<Addr, Node>, heap': map<Addr, Node>, start: seq<Addr>, live: set<Addr>, seen: set<Addr>,
    target: Option<nat>, passed: nat)
    requires WalkFacts(heap, start, live, seen, target, passed) && Evolves(heap, heap')
    ensures WalkFacts(heap', start, live, seen, target, passed)
  {
  }

  /** Other threads' steps leave what a traversal has established in place. */
  lemma WalkSurvives(
    heap: map<Addr, Node>, chain: seq<Addr>, heap': map<Addr, Node>, chain': seq<Addr>, w: Walk, passed: nat)
    requires WalkOk(heap, chain, w, passed)
    requires Evolves(heap, heap')
    requires IsTail(chain, chain')
    ensures WalkOk(heap', chain', w, passed)
  {
    hide WalkPlace, WalkFacts, Evolves, IsTail;
    PlaceSurvives(chain, chain', w.start);
    FactsSurvive(heap, heap', w.start, w.live, w.seen, w.target, passed);
  }

  lemma OthersStay(s: State, op: Op)
    requires Enabled(s, op)
    ensures Apply(s, op).pcs.Keys == s.pcs.Keys
    ensures forall t :: t in s.pcs && t != op.t ==> Apply(s, op).pcs[t] == s.pcs[t]
  {
  }

  lemma StepEvolves(s: State, op: Op)
    requires Inv(s) && Enabled(s, op)
    ensures Evolves(s.heap, Apply(s, op).heap)
    ensures IsTail(s.chain, Apply(s, op).chain)
    ensures forall i :: 0 <= i < |s.chain| ==> s.chain[i] in s.heap
  {
    assert Linked(s.heap, s.head, s.chain);
    HeapEvolves(s, op);
    ChainGrows(s, op);
    hide Inv, Apply, Enabled, Evolves, IsTail, NoRepeats;
  }

  lemma HeapEvolves(s: State, op: Op)
    requires Enabled(s, op)
    ensures Evolves(s.heap, Apply(s, op).heap)
  {
    hide LiveNodes;
  }

  lemma ChainGrows(s: State, op: Op)
    requires Enabled(s, op)
    ensures IsTail(s.chain, Apply(s, op).chain)
  {
    hide LiveNodes;
    if op.Exchange? && Apply(s, op).chain != s.chain {
      assert Apply(s, op).chain == [s.pcs[op.t].node] + s.chain;
    } else {
      assert s.chain == s.chain[0..];
    }
  }

  lemma PcWalkSurvives(heap: map<Addr, Node>, chain: seq<Addr>, heap': map<Addr, Node>, chain': seq<Addr>, pc: Pc)
    requires PcWalk(heap, chain, pc) && Evolves(heap, heap')
    requires IsTail(chain, chain')
    ensures PcWalk(heap', chain', pc)
  {
    hide WalkOk, Evolves, IsTail;
    if pc.Visiting? || pc.InCallback? || pc.Done? {
      WalkSurvives(heap, chain, heap', chain', pc.walk, pc.walk.at);
    } else if pc.Advancing? {
      WalkSurvives(heap, chain, heap', chain', pc.walk, pc.walk.at + 1);
    }
  }

  lemma OthersWalk(s: State, op: Op)
    requires Inv(s) && Enabled(s, op)
    ensures var s' := Apply(s, op);
            forall t :: t in s.pcs && t != op.t ==> t in s'.pcs && PcWalk(s'.heap, s'.chain, s'.pcs[t])
  {
    OthersStay(s, op);
    StepEvolves(s, op);
    assert Walks(s);
    hide Apply, Enabled, Inv, PcWalk, Evolves, IsTail;
    var s' := Apply(s, op);
    forall t | t in s.pcs && t != op.t
      ensures PcWalk(s'.heap, s'.chain, s'.pcs[t])
    {
      PcWalkSurvives(s.heap, s.chain, s'.heap, s'.chain, s.pcs[t]);
    }
  }

  lemma InChain(heap: map<Addr, Node>, head: Option<Addr>, chain: seq<Addr>, w: Walk, i: nat)
    requires Linked(heap, head, chain) && WalkPlace(chain, w.start) && i < |w.start|
    ensures w.start[i] in heap && heap[w.start[i]].next == AddrAt(w.start, i + 1)
    ensures w.start[i] in chain
  {
    hide NoRepeats;
    var k := |chain| - |w.start|;
    assert w.start[i] == chain[k + i];
    assert i + 1 < |w.start| ==> w.start[i + 1] == chain[k + i + 1];
  }

  lemma StartedWalk(heap: map<Addr, Node>, head: Option<Addr>, chain: seq<Addr>, target: Option<nat>)
    requires Linked(heap, head, chain)
    ensures var w := Walk(chain, LiveNodes(heap, chain), 0, {}, 0, target);
            PcWalk(heap, chain, if head.None? then Done(w) else Visiting(head.value, w))
  {
    assert chain == chain[0..];
  }

  lemma PassNode(
    heap: map<Addr, Node>, heap': map<Addr, Node>, start: seq<Addr>, live: set<Addr>, seen: set<Addr>, seen': set<Addr>,
    target: Option<nat>, at: nat)
    requires WalkFacts(heap, start, live, seen, target, at) && at < |start| && NoRepeats(start) && Evolves(heap, heap')
    requires seen' == seen || (seen' == seen + {start[at]} && start[at] in live)
    requires heap'[start[at]].active ==> start[at] in seen' && target != Some(heap'[start[at]].clientId)
    ensures WalkFacts(heap', start, live, seen', target, at + 1)
  {
    FactsSurvive(heap, heap', start, live, seen, target, at);
    hide Evolves;
  }

  lemma VisitedWalk(heap: map<Addr, Node>, head: Option<Addr>, chain: seq<Addr>, curr: Addr, w: Walk)
    requires Linked(heap, head, chain) && PcWalk(heap, chain, Visiting(curr, w))
    ensures curr in heap
    ensures PcWalk(heap, chain, if heap[curr].active then InCallback(curr, w) else Advancing(curr, w))
  {
    hide Linked;
    assert NoRepeats(w.start);
    if heap[curr].active {
      assert heap[w.start[w.at]].active;
      hide WalkPlace, WalkFacts;
    } else {
      PassNode(heap, heap, w.start, w.live, w.seen, w.seen, w.target, w.at);
      hide WalkPlace, WalkFacts;
    }
  }

  lemma CalledBackWalk(
    heap: map<Addr, Node>, head: Option<Addr>, chain: seq<Addr>, curr: Addr, w: Walk, heap': map<Addr, Node>)
    requires Linked(heap, head, chain) && PcWalk(heap, chain, InCallback(curr, w))
    requires curr in heap && Evolves(heap, heap')
    requires w.target == Some(heap[curr].clientId) ==> !heap'[curr].active
    ensures curr in chain
    ensures PcWalk(heap', chain, Advancing(curr, w.(seen := w.seen + {curr}, calls := w.calls + 1)))
  {
    InChain(heap, head, chain, w, w.at);
    assert NoRepeats(w.start) && w.start[w.at] !in w.seen && heap'[curr].clientId == heap[curr].clientId;
    hide Linked, Evolves;
    PassNode(heap, heap', w.start, w.live, w.seen, w.seen + {curr}, w.target, w.at);
    hide WalkPlace, WalkFacts;
    assert |w.seen + {curr}| == |w.seen| + 1;
  }

  lemma AdvancedWalk(heap: map<Addr, Node>, head: Option<Addr>, chain: seq<Addr>, curr: Addr, w: Walk)
    requires Linked(heap, head, chain) && PcWalk(heap, chain, Advancing(curr, w))
    ensures curr in heap
    ensures var w', next := w.(at := w.at + 1), heap[curr].next;
            PcWalk(heap, chain, if next.None? then Done(w') else Visiting(next.value, w'))
  {
    InChain(heap, head, chain, w, w.at);
    hide Linked, WalkPlace, WalkFacts;
  }

  /** The stepping thread's own traversal, when the step is one of a traversal. */
  lemma OwnStart(s: State, op: Op)
    requires Linked(s.heap, s.head, s.chain) && Enabled(s, op) && op.StartWalk?
    ensures PcWalk(Apply(s, op).heap, Apply(s, op).chain, Apply(s, op).pcs[op.t])
  {
    hide Linked, LiveNodes, PcWalk;
    StartedWalk(s.heap, s.head, s.chain, op.target);
  }

  lemma OwnLoads(s: State, op: Op)
    requires Linked(s.heap, s.head, s.chain) && Enabled(s, op) && (op.LoadActive? || op.LoadNext?)
    requires PcWalk(s.heap, s.chain, s.pcs[op.t])
    ensures PcWalk(Apply(s, op).heap, Apply(s, op).chain, Apply(s, op).pcs[op.t])
  {
    hide Linked, LiveNodes, PcWalk;
    var pc := s.pcs[op.t];
    if op.LoadActive? {
      VisitedWalk(s.heap, s.head, s.chain, pc.curr, pc.walk);
    } else {
      AdvancedWalk(s.heap, s.head, s.chain, pc.curr, pc.walk);
    }
  }

  lemma OwnCallback(s: State, op: Op)
    requires Linked(s.heap, s.head, s.chain) && Enabled(s, op) && op.Callback?
    requires PcWalk(s.heap, s.chain, s.pcs[op.t]) && Evolves(s.heap, Apply(s, op).heap)
    ensures PcWalk(Apply(s, op).heap, Apply(s, op).chain, Apply(s, op).pcs[op.t])
  {
    hide Linked, LiveNodes, PcWalk, Evolves;
    var pc := s.pcs[op.t];
    CalledBackWalk(s.heap, s.head, s.chain, pc.curr, pc.walk, Apply(s, op).heap);
  }

  lemma OwnOther(s: State, op: Op)
    requires Enabled(s, op) && !op.StartWalk? && !op.LoadActive? && !op.LoadNext? && !op.Callback?
    ensures PcWalk(Apply(s, op).heap, Apply(s, op).chain, Apply(s, op).pcs[op.t])
  {
    hide LiveNodes, PcWalk;
    NotWalking(Apply(s, op).heap, Apply(s, op).chain, Apply(s, op).pcs[op.t]);
  }

  lemma OwnWalk(s: State, op: Op)
    requires Inv(s) && Enabled(s, op)
    ensures PcWalk(Apply(s, op).heap, Apply(s, op).chain, Apply(s, op).pcs[op.t])
  {
    StepEvolves(s, op);
    OwnPc(s, op);
    assert op.t in s.pcs && Linked(s.heap, s.head, s.chain);
    hide Inv, Apply, Enabled, PcWalk, Linked, Evolves, IsTail;
    if op.StartWalk? {
      OwnStart(s, op);
    } else if op.LoadActive? || op.LoadNext? {
      OwnLoads(s, op);
    } else if op.Callback? {
      OwnCallback(s, op);
    } else {
      OwnOther(s, op);
    }
  }

  lemma OwnPc(s: State, op: Op)
    requires Inv(s) && Enabled(s, op)
    ensures PcWalk(s.heap, s.chain, s.pcs[op.t])
    ensures PrivateNode(s.heap, s.chain, s.pcs[op.t])
  {
    hide PcWalk, PrivateNode, Linked, Counted;
  }

  lemma NotWalking(heap: map<Addr, Node>, chain: seq<Addr>, pc: Pc)
    requires pc.Idle? || pc.Linking? || pc.Exchanging? || pc.Counting?
    ensures PcWalk(heap, chain, pc)
  {
  }

  lemma LinkedFrame(heap: map<Addr, Node>, heap': map<Addr, Node>, head: Option<Addr>, chain: seq<Addr>)
    requires Linked(heap, head, chain)
    requires forall i :: 0 <= i < |chain| ==> chain[i] in heap' && heap'[chain[i]].next == heap[chain[i]].next
    ensures Linked(heap', head, chain)
  {
    hide NoRepeats;
  }

  lemma NoRepeatsPush(chain: seq<Addr>, node: Addr)
    requires NoRepeats(chain) && node !in chain
    ensures NoRepeats([node] + chain)
  {
    var chain' := [node] + chain;
    forall i, j | 0 <= i < j < |chain'|
      ensures chain'[i] != chain'[j]
    {
      assert chain'[j] == chain[j - 1];
      if i > 0 { assert chain'[i] == chain[i - 1]; }
    }
  }

  lemma LinkedPush(heap: map<Addr, Node>, head: Option<Addr>, chain: seq<Addr>, node: Addr)
    requires Linked(heap, head, chain) && node in heap && node !in chain && heap[node].next == head
    ensures Linked(heap, Some(node), [node] + chain)
  {
    var chain' := [node] + chain;
    NoRepeatsPush(chain, node);
    hide NoRepeats;
    forall i | 0 <= i < |chain'|
      ensures chain'[i] in heap && heap[chain'[i]].next == AddrAt(chain', i + 1)
    {
      if i > 0 { assert chain'[i] == chain[i - 1]; }
    }
  }

  lemma LinksKept(s: State, op: Op)
    requires Inv(s) && Enabled(s, op)
    ensures Linked(Apply(s, op).heap, Apply(s, op).head, Apply(s, op).chain)
  {
    assert PrivateNode(s.heap, s.chain, s.pcs[op.t]);
    assert forall i :: 0 <= i < |s.chain| ==> s.chain[i] in s.heap;
    hide Walks, Counted, Private, Linked;
    var s' := Apply(s, op);
    if op.Exchange? && s'.chain != s.chain {
      LinkedPush(s.heap, s.head, s.chain, s.pcs[op.t].node);
    } else {
      LinkedFrame(s.heap, s'.heap, s.head, s.chain);
    }
  }

  /** A private node stays private while the others' nodes and the chain's are the only ones touched. */
  lemma StaysPrivate(s: State, op: Op, pc: Pc)
    requires Enabled(s, op) && PrivateNode(s.heap, s.chain, pc)
    requires pc.Linking? || pc.Exchanging? ==> !Owns(s.pcs[op.t], pc.node)
    requires op.Callback? ==> s.pcs[op.t].curr in s.chain
    ensures PrivateNode(Apply(s, op).heap, Apply(s, op).chain, pc)
  {
    hide LiveNodes;
  }

  lemma OthersPrivate(s: State, op: Op, t: Tid)
    requires Inv(s) && Enabled(s, op) && t in s.pcs && t != op.t
    ensures PrivateNode(Apply(s, op).heap, Apply(s, op).chain, s.pcs[t])
  {
    assert PrivateNode(s.heap, s.chain, s.pcs[t]);
    var pc := s.pcs[t];
    assert pc.Linking? || pc.Exchanging? ==> Owns(pc, pc.node) && !Owns(s.pcs[op.t], pc.node);
    if op.Callback? { CallbackIsPublic(s, op); }
    hide Inv, Apply, Enabled, PrivateNode, Owns;
    StaysPrivate(s, op, pc);
  }

  lemma OwnPrivate(s: State, op: Op)
    requires Enabled(s, op) && PrivateNode(s.heap, s.chain, s.pcs[op.t])
    requires op.Register? ==> op.node !in s.chain
    ensures PrivateNode(Apply(s, op).heap, Apply(s, op).chain, Apply(s, op).pcs[op.t])
    ensures forall n :: Owns(Apply(s, op).pcs[op.t], n) ==> Owns(s.pcs[op.t], n) || (op.Register? && n == op.node)
  {
    hide LiveNodes;
  }

  /** One owner each, when the stepping thread owns nothing it did not own or else a fresh node. */
  lemma OneOwner(pcs: map<Tid, Pc>, pcs': map<Tid, Pc>, t: Tid, added: set<Addr>)
    requires forall u, v, n :: u in pcs && v in pcs && Owns(pcs[u], n) && Owns(pcs[v], n) ==> u == v
    requires t in pcs && pcs'.Keys == pcs.Keys && forall u :: u in pcs && u != t ==> pcs'[u] == pcs[u]
    requires forall n :: Owns(pcs'[t], n) ==> Owns(pcs[t], n) || n in added
    requires forall u, n :: u in pcs && n in added ==> !Owns(pcs[u], n)
    ensures forall u, v, n :: u in pcs' && v in pcs' && Owns(pcs'[u], n) && Owns(pcs'[v], n) ==> u == v
  {
    hide Owns;
  }

  lemma PrivateKept(s: State, op: Op)
    requires Inv(s) && Enabled(s, op)
    ensures Private(Apply(s, op))
  {
    var s' := Apply(s, op);
    assert op.t in s.pcs && Private(s);
    OthersStay(s, op);
    OwnPc(s, op);
    if op.Register? { RegisteredIsNew(s, op); }
    OwnPrivate(s, op);
    forall t | t in s.pcs && t != op.t
      ensures PrivateNode(s'.heap, s'.chain, s'.pcs[t])
    {
      OthersPrivate(s, op, t);
    }
    hide Inv, Apply, Enabled, PrivateNode, Owns;
    OneOwner(s.pcs, s'.pcs, op.t, if op.Register? then {op.node} else {});
  }

  lemma RegisteredIsNew(s: State, op: Op)
    requires Inv(s) && Enabled(s, op) && op.Register?
    ensures op.node !in s.chain
    ensures forall t :: t in s.pcs ==> !Owns(s.pcs[t], op.node)
  {
    hide Walks, Counted;
    forall t | t in s.pcs
      ensures !Owns(s.pcs[t], op.node)
    {
      assert PrivateNode(s.heap, s.chain, s.pcs[t]);
    }
  }

  lemma CallbackIsPublic(s: State, op: Op)
    requires Inv(s) && Enabled(s, op) && op.Callback?
    ensures s.pcs[op.t].curr in s.chain
  {
    assert PcWalk(s.heap, s.chain, s.pcs[op.t]);
    InChain(s.heap, s.head, s.chain, s.pcs[op.t].walk, s.pcs[op.t].walk.at);
  }

  lemma CountedKept(s: State, op: Op)
    requires Inv(s) && Enabled(s, op)
    ensures var s' := Apply(s, op); Counted(s'.count, s'.uncounted, s'.chain, s'.pcs)
  {
    OwnPc(s, op);
    var s', pc := Apply(s, op), s.pcs[op.t];
    hide Private, Linked, Walks, PcWalk, Counted, LiveNodes;
    if op.Exchange? && s'.chain != s.chain {
      PushCounted(s.count, s.uncounted, s.chain, s.pcs, op.t, pc.node);
    } else if op.Count? {
      PopCounted(s.count, s.uncounted, s.chain, s.pcs, op.t);
    } else {
      assert s' == s.(heap := s'.heap, pcs := s.pcs[op.t := s'.pcs[op.t]]);
      SameCounted(s.count, s.uncounted, s.chain, s.pcs, op.t, s'.pcs[op.t]);
    }
  }

  lemma PushCounted(count: nat, uncounted: set<Addr>, chain: seq<Addr>, pcs: map<Tid, Pc>, t: Tid, node: Addr)
    requires Counted(count, uncounted, chain, pcs) && t in pcs && !pcs[t].Counting? && node !in chain
    ensures Counted(count, uncounted + {node}, [node] + chain, pcs[t := Counting(node)])
  {
    assert node !in uncounted;
    PushThreads(uncounted, pcs, t, node);
    hide CountedThreads;
    assert |uncounted + {node}| == |uncounted| + 1;
  }

  lemma PushThreads(uncounted: set<Addr>, pcs: map<Tid, Pc>, t: Tid, node: Addr)
    requires CountedThreads(uncounted, pcs) && t in pcs && !pcs[t].Counting? && node !in uncounted
    ensures CountedThreads(uncounted + {node}, pcs[t := Counting(node)])
  {
    var pcs' := pcs[t := Counting(node)];
    PushHasThreads(uncounted, pcs, t, node);
    forall u, v | u in pcs' && v in pcs' && pcs'[u].Counting? && pcs'[v] == pcs'[u]
      ensures u == v
    {
      if u != t && v != t { assert pcs[u] == pcs[v]; }
    }
  }

  lemma PushHasThreads(uncounted: set<Addr>, pcs: map<Tid, Pc>, t: Tid, node: Addr)
    requires t in pcs && !pcs[t].Counting?
    requires forall a :: a in uncounted ==> exists u :: u in pcs && pcs[u] == Counting(a)
    ensures var pcs' := pcs[t := Counting(node)];
            forall a :: a in uncounted + {node} ==> exists u :: u in pcs' && pcs'[u] == Counting(a)
  {
    var pcs' := pcs[t := Counting(node)];
    forall a | a in uncounted + {node}
      ensures exists u :: u in pcs' && pcs'[u] == Counting(a)
    {
      if a == node {
        assert pcs'[t] == Counting(a);
      } else {
        var u :| u in pcs && pcs[u] == Counting(a);
        assert pcs'[u] == Counting(a);
      }
    }
  }

  lemma PopCounted(count: nat, uncounted: set<Addr>, chain: seq<Addr>, pcs: map<Tid, Pc>, t: Tid)
    requires Counted(count, uncounted, chain, pcs) && t in pcs && pcs[t].Counting?
    ensures Counted(count + 1, uncounted - {pcs[t].node}, chain, pcs[t := Idle])
  {
    var pcs' := pcs[t := Idle];
    assert |uncounted - {pcs[t].node}| == |uncounted| - 1;
    forall a | a in uncounted - {pcs[t].node}
      ensures exists u :: u in pcs' && pcs'[u] == Counting(a)
    {
      var u :| u in pcs && pcs[u] == Counting(a);
      assert pcs'[u] == Counting(a);
    }
  }

  lemma SameCounted(count: nat, uncounted: set<Addr>, chain: seq<Addr>, pcs: map<Tid, Pc>, t: Tid, pc: Pc)
    requires Counted(count, uncounted, chain, pcs) && t in pcs && !pcs[t].Counting? && !pc.Counting?
    ensures Counted(count, uncounted, chain, pcs[t := pc])
  {
    var pcs' := pcs[t := pc];
    forall a | a in uncounted
      ensures exists u :: u in pcs' && pcs'[u] == Counting(a)
    {
      var u :| u in pcs && pcs[u] == Counting(a);
      assert pcs'[u] == Counting(a);
    }
  }

  lemma StepKeepsInv(s: State, op: Op)
    requires Inv(s) && Enabled(s, op)
    ensures Inv(Apply(s, op))
  {
    hide Linked, Private, Counted, PcWalk;
    LinksKept(s, op);
    PrivateKept(s, op);
    CountedKept(s, op);
    OthersWalk(s, op);
    OwnWalk(s, op);
  }

  lemma {:induction false} RunKeepsInv(s: State, ops: seq<Op>)
    requires Inv(s) && Feasible(s, ops)
    ensures Inv(Run(s, ops))
    decreases |ops|
  {
    hide Inv, Enabled, Apply;
    if ops != [] {
      StepKeepsInv(s, ops[0]);
      RunKeepsInv(Apply(s, ops[0]), ops[1..]);
    }
  }

  // ---------------------------------------------------------------- results

  /** Following `next` pointers from an address, at most `fuel` nodes. */
  function Follow(heap: map<Addr, Node>, at: Option<Addr>, fuel: nat): seq<Addr>
    decreases fuel
  {
    if at.None? || at.value !in heap || fuel == 0 then []
    else [at.value] + Follow(heap, heap[at.value].next, fuel - 1)
  }

  lemma {:induction false} FollowFrom(heap: map<Addr, Node>, head: Option<Addr>, chain: seq<Addr>, i: nat, fuel: nat)
    requires Linked(heap, head, chain) && i <= |chain| && fuel >= |chain| - i
    ensures Follow(heap, AddrAt(chain, i), fuel) == chain[i..]
    decreases |chain| - i
  {
    hide NoRepeats;
    if i < |chain| {
      FollowFrom(heap, head, chain, i + 1, fuel - 1);
      assert chain[i..] == [chain[i]] + chain[i + 1..];
    }
  }

  /** After any run the pointers from the head lead through exactly the nodes whose exchange succeeded,
      newest first, each once, and end: the chain is acyclic and nothing is lost. */
  lemma ListIsChain(threads: set<Tid>, ops: seq<Op>, fuel: nat)
    requires Feasible(Init(threads), ops) && fuel >= |Run(Init(threads), ops).chain|
    ensures var s := Run(Init(threads), ops);
            Follow(s.heap, s.head, fuel) == s.chain && NoRepeats(s.chain)
  {
    var s := Run(Init(threads), ops);
    RunKeepsInv(Init(threads), ops);
    FollowFrom(s.heap, s.head, s.chain, 0, fuel);
  }

  /** Registered nodes stay: the chain after a run is the tail of the chain after any longer run. */
  lemma {:induction false} ChainOnlyGrows(s: State, ops: seq<Op>)
    requires Inv(s) && Feasible(s, ops)
    ensures IsTail(s.chain, Run(s, ops).chain)
    ensures Evolves(s.heap, Run(s, ops).heap)
    decreases |ops|
  {
    hide Inv, Enabled, Apply, Evolves, IsTail;
    if ops == [] {
      StaysItself(s.heap, s.chain);
    } else {
      var s' := Apply(s, ops[0]);
      StepKeepsInv(s, ops[0]);
      StepEvolves(s, ops[0]);
      ChainOnlyGrows(s', ops[1..]);
      TailOfTail(s.chain, s'.chain, Run(s', ops[1..]).chain);
      EvolvesOn(s.heap, s'.heap, Run(s', ops[1..]).heap);
    }
  }

  lemma StaysItself(heap: map<Addr, Node>, chain: seq<Addr>)
    ensures Evolves(heap, heap) && IsTail(chain, chain)
  {
  }

  lemma EvolvesOn(a: map<Addr, Node>, b: map<Addr, Node>, c: map<Addr, Node>)
    requires Evolves(a, b) && Evolves(b, c)
    ensures Evolves(a, c)
  {
  }

  lemma TailOfTail(a: seq<Addr>, b: seq<Addr>, c: seq<Addr>)
    requires IsTail(a, b) && IsTail(b, c)
    ensures IsTail(a, c)
  {
  }

  /** A finished traversal, however it was interleaved, has handed out every node that was linked in
      when it began and is active still, and only nodes that were active when it began, each once. After
      mark_inactive no node of that client that was linked in when it began is active. */
  lemma TraversalIsExact(threads: set<Tid>, ops: seq<Op>, t: Tid)
    requires Feasible(Init(threads), ops)
    requires var s := Run(Init(threads), ops); t in s.pcs && s.pcs[t].Done?
    ensures var s := Run(Init(threads), ops);
            var w := s.pcs[t].walk;
            && LiveNodes(s.heap, w.start) <= w.seen <= w.live
            && w.calls == |w.seen|
            && (w.target.Some? ==> forall a :: a in LiveNodes(s.heap, w.start) ==> s.heap[a].clientId != w.target.value)
  {
    var s := Run(Init(threads), ops);
    RunKeepsInv(Init(threads), ops);
    assert PcWalk(s.heap, s.chain, s.pcs[t]);
    var w := s.pcs[t].walk;
    forall a | a in LiveNodes(s.heap, w.start)
      ensures a in w.seen && (w.target.Some? ==> s.heap[a].clientId != w.target.value)
    {
      var i :| 0 <= i < |w.start| && w.start[i] == a;
    }
  }

  /** At quiescence: with no registration half done the count is the number of linked-in nodes, and a
      traversal during which no node was registered or deactivated counts the active ones. */
  lemma QuiescentCounts(threads: set<Tid>, ops: seq<Op>, t: Tid)
    requires Feasible(Init(threads), ops)
    requires var s := Run(Init(threads), ops);
             && (forall u :: u in s.pcs ==> !s.pcs[u].Counting?)
             && t in s.pcs && s.pcs[t].Done?
             && s.pcs[t].walk.start == s.chain && s.pcs[t].walk.live == LiveNodes(s.heap, s.chain)
    ensures var s := Run(Init(threads), ops);
            && s.count == |s.chain|
            && s.pcs[t].walk.calls == |LiveNodes(s.heap, s.chain)|
            && s.pcs[t].walk.calls == |s.chain| - |DeadNodes(s.heap, s.chain)|
  {
    var s := Run(Init(threads), ops);
    RunKeepsInv(Init(threads), ops);
    TraversalIsExact(threads, ops, t);
    assert s.uncounted == {};
    assert s.pcs[t].walk.seen == LiveNodes(s.heap, s.chain);
    assert forall i :: 0 <= i < |s.chain| ==> s.chain[i] in s.heap;
    LiveAndDead(s.heap, s.chain);
  }

  function DeadNodes(heap: map<Addr, Node>, chain: seq<Addr>): set<Addr> {
    set a | a in chain && a in heap && !heap[a].active
  }

  lemma LiveAndDead(heap: map<Addr, Node>, chain: seq<Addr>)
    requires NoRepeats(chain) && forall i :: 0 <= i < |chain| ==> chain[i] in heap
    ensures |LiveNodes(heap, chain)| + |DeadNodes(heap, chain)| == |chain|
  {
    forall a
      ensures a in Elements(chain) <==> a in LiveNodes(heap, chain) + DeadNodes(heap, chain)
    {
      ElementsAre(chain, a);
    }
    NoRepeatsCard(chain);
    assert Elements(chain) == LiveNodes(heap, chain) + DeadNodes(heap, chain);
  }

  function Elements(chain: seq<Addr>): set<Addr> {
    if chain == [] then {} else {chain[0]} + Elements(chain[1..])
  }

  lemma {:induction false} ElementsAre(chain: seq<Addr>, a: Addr)
    ensures a in Elements(chain) <==> a in chain
  {
    if chain != [] { ElementsAre(chain[1..], a); }
  }

  lemma {:induction false} NoRepeatsCard(chain: seq<Addr>)
    requires NoRepeats(chain)
    ensures |Elements(chain)| == |chain|
  {
    if chain != [] {
      var rest := chain[1..];
      assert forall j :: 0 <= j < |rest| ==> rest[j] == chain[j + 1];
      NoRepeatsCard(rest);
      ElementsAre(rest, chain[0]);
    }
  }
}
