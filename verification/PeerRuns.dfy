/** The peer list over whole runs: which client a node belongs to, and what mark_inactive does to the nodes of
    its client and of the others. */
module PeerRuns {
  import opened OptionValue
  import opened PeerList

  // ---------------------------------------------------------------- parts of a run

  lemma {:induction false} Split(s: State, a: seq<Op>, b: seq<Op>)
    requires Feasible(s, a + b)
    ensures Feasible(s, a) && Feasible(Run(s, a), b) && Run(s, a + b) == Run(Run(s, a), b)
    decreases |a|
  {
    hide Enabled, Apply;
    if a == [] {
      assert [] + b == b;
    } else {
      assert (a + b)[0] == a[0] && (a + b)[1..] == a[1..] + b;
      Split(Apply(s, a[0]), a[1..], b);
    }
  }

  /** A run up to its operation i, and on from there. */
  lemma At(s: State, ops: seq<Op>, i: nat)
    requires Feasible(s, ops) && i < |ops|
    ensures Feasible(s, ops[..i]) && Enabled(Run(s, ops[..i]), ops[i])
    ensures Feasible(Apply(Run(s, ops[..i]), ops[i]), ops[i + 1..])
    ensures Run(s, ops) == Run(Apply(Run(s, ops[..i]), ops[i]), ops[i + 1..])
  {
    assert ops == ops[..i] + ops[i..];
    Split(s, ops[..i], ops[i..]);
    assert ops[i..][0] == ops[i] && ops[i..][1..] == ops[i + 1..];
    hide Enabled, Apply;
  }

  lemma InitInv(threads: set<Tid>)
    ensures Inv(Init(threads))
  {
  }

  // ---------------------------------------------------------------- nodes and clients

  /** A node belongs to the client that registered it, with that client's interest, at every later moment. */
  lemma RegisteredStays(threads: set<Tid>, ops: seq<Op>, i: nat)
    requires Feasible(Init(threads), ops) && i < |ops| && ops[i].Register?
    ensures var heap := Run(Init(threads), ops).heap;
            && ops[i].node in heap
            && heap[ops[i].node].clientId == ops[i].clientId && heap[ops[i].node].interestMask == ops[i].mask
  {
    At(Init(threads), ops, i);
    var s := Run(Init(threads), ops[..i]);
    InitInv(threads);
    RunKeepsInv(Init(threads), ops[..i]);
    StepKeepsInv(s, ops[i]);
    var s' := Apply(s, ops[i]);
    RegistersClient(s, ops[i]);
    hide Inv, Apply, Enabled, Run, Feasible, Init;
    ChainOnlyGrows(s', ops[i + 1..]);
  }

  lemma RegistersClient(s: State, op: Op)
    requires Enabled(s, op) && op.Register?
    ensures var heap := Apply(s, op).heap;
            && op.node in heap && heap[op.node].active
            && heap[op.node].clientId == op.clientId && heap[op.node].interestMask == op.mask
  {
  }

  // ---------------------------------------------------------------- where a traversal comes from

  predicate Walking(pc: Pc) {
    pc.Visiting? || pc.InCallback? || pc.Advancing? || pc.Done?
  }

  /** Operation k began the traversal thread t is in at the end of the run, for that target and that list. */
  ghost predicate BeganAt(threads: set<Tid>, ops: seq<Op>, t: Tid, k: nat)
    requires Feasible(Init(threads), ops)
  {
    var s := Run(Init(threads), ops);
    && t in s.pcs && Walking(s.pcs[t]) && k < |ops| && ops[k] == StartWalk(t, s.pcs[t].walk.target)
    && Feasible(Init(threads), ops[..k]) && s.pcs[t].walk.start == Run(Init(threads), ops[..k]).chain
  }

  lemma WalkStep(s: State, op: Op, t: Tid)
    requires Enabled(s, op) && t in s.pcs && t in Apply(s, op).pcs && Walking(Apply(s, op).pcs[t])
    ensures var pc := Apply(s, op).pcs[t];
            if op.t == t && op.StartWalk? then op.target == pc.walk.target && pc.walk.start == s.chain
            else Walking(s.pcs[t]) && s.pcs[t].walk.target == pc.walk.target && s.pcs[t].walk.start == pc.walk.start
  {
    hide LiveNodes;
  }

  lemma {:induction false} WalkBegan(threads: set<Tid>, ops: seq<Op>, t: Tid) returns (k: nat)
    requires Feasible(Init(threads), ops)
    requires var s := Run(Init(threads), ops); t in s.pcs && Walking(s.pcs[t])
    ensures BeganAt(threads, ops, t, k)
    decreases |ops|
  {
    var n := |ops| - 1;
    assert ops != [];
    At(Init(threads), ops, n);
    var s := Run(Init(threads), ops[..n]);
    assert ops[n + 1..] == [];
    assert Run(Init(threads), ops) == Apply(s, ops[n]);
    OthersStay(s, ops[n]);
    WalkStep(s, ops[n], t);
    hide Apply, Enabled, Init;
    if ops[n].t == t && ops[n].StartWalk? {
      k := n;
    } else {
      k := WalkBegan(threads, ops[..n], t);
      assert ops[..n][k] == ops[k] && ops[..n][..k] == ops[..k];
    }
  }

  // ---------------------------------------------------------------- mark_inactive

  /** A finished mark_inactive(c) leaves inactive every node that was registered for c and linked in when it
      began. */
  lemma MarkInactiveReachesItsClient(threads: set<Tid>, ops: seq<Op>, t: Tid, i: nat) returns (k: nat)
    requires Feasible(Init(threads), ops) && i < |ops| && ops[i].Register?
    requires var s := Run(Init(threads), ops);
             t in s.pcs && s.pcs[t].Done? && s.pcs[t].walk.target == Some(ops[i].clientId)
    ensures k < |ops| && ops[k] == StartWalk(t, Some(ops[i].clientId)) && Feasible(Init(threads), ops[..k])
    ensures var s, node := Run(Init(threads), ops), ops[i].node;
            node in Run(Init(threads), ops[..k]).chain ==> node in s.heap && !s.heap[node].active
  {
    k := WalkBegan(threads, ops, t);
    RegisteredStays(threads, ops, i);
    TraversalIsExact(threads, ops, t);
    hide Run, Feasible, Init;
    var s, node := Run(Init(threads), ops), ops[i].node;
    if node in s.pcs[t].walk.start { NotLive(s.heap, s.pcs[t].walk.start, node, ops[i].clientId); }
  }

  lemma NotLive(heap: map<Addr, Node>, chain: seq<Addr>, node: Addr, clientId: nat)
    requires forall a :: a in LiveNodes(heap, chain) ==> heap[a].clientId != clientId
    requires node in chain && node in heap && heap[node].clientId == clientId
    ensures !heap[node].active
  {
    assert heap[node].active ==> node in LiveNodes(heap, chain);
  }

  lemma DeactivatesOwn(s: State, op: Op, a: Addr)
    requires Enabled(s, op) && a in s.heap && s.heap[a].active
    requires a in Apply(s, op).heap && !Apply(s, op).heap[a].active
    requires op.Register? ==> op.node != a
    ensures op.Callback? && s.pcs[op.t].walk.target == Some(s.heap[a].clientId)
  {
    hide LiveNodes;
  }

  lemma {:induction false} DeactivatedInStep(s: State, ops: seq<Op>, a: Addr) returns (j: nat)
    requires Inv(s) && Feasible(s, ops) && a in s.heap && s.heap[a].active
    requires a in Run(s, ops).heap && !Run(s, ops).heap[a].active
    ensures j < |ops| && Feasible(s, ops[..j])
    ensures var at := Run(s, ops[..j]);
            && ops[j].Callback? && ops[j].t in at.pcs && at.pcs[ops[j].t].InCallback?
            && at.pcs[ops[j].t].walk.target == Some(s.heap[a].clientId)
    decreases |ops|
  {
    var next := Apply(s, ops[0]);
    StepKeepsInv(s, ops[0]);
    NodeInStep(s, ops[0], a);
    hide Inv, Apply, Enabled;
    if next.heap[a].active {
      j := DeactivatedInStep(next, ops[1..], a);
      assert ops[..j + 1][0] == ops[0] && ops[..j + 1][1..] == ops[1..][..j];
      j := j + 1;
    } else {
      assert ops[..0] == [];
      j := 0;
    }
  }

  /** A node in one step: it keeps its client, and is deactivated by its client's mark_inactive only. */
  lemma NodeInStep(s: State, op: Op, a: Addr)
    requires Inv(s) && Enabled(s, op) && a in s.heap && s.heap[a].active
    ensures var next := Apply(s, op);
            && a in next.heap && next.heap[a].clientId == s.heap[a].clientId
            && (!next.heap[a].active ==>
                  && op.Callback? && op.t in s.pcs && s.pcs[op.t].InCallback?
                  && s.pcs[op.t].walk.target == Some(s.heap[a].clientId))
  {
    StepEvolves(s, op);
    assert op.Register? ==> op.node != a;
    if !Apply(s, op).heap[a].active { DeactivatesOwn(s, op, a); }
    assert op.Callback? ==> op.t in s.pcs && s.pcs[op.t].InCallback?;
    hide Inv, Apply, Enabled;
  }

  /** No node of any other client is deactivated: a node registered for c that is inactive was marked in a
      traversal begun as mark_inactive(c). */
  lemma OnlyItsClientMarks(threads: set<Tid>, ops: seq<Op>, i: nat) returns (k: nat)
    requires Feasible(Init(threads), ops) && i < |ops| && ops[i].Register?
    requires var s := Run(Init(threads), ops); ops[i].node in s.heap && !s.heap[ops[i].node].active
    ensures k < |ops| && ops[k].StartWalk? && ops[k].target == Some(ops[i].clientId)
  {
    var s0, a := Init(threads), ops[i].node;
    At(s0, ops, i);
    InitInv(threads);
    RunKeepsInv(s0, ops[..i]);
    var s := Run(s0, ops[..i]);
    var s' := Apply(s, ops[i]);
    StepKeepsInv(s, ops[i]);
    RegistersClient(s, ops[i]);
    hide Inv, Init, Apply, Enabled, Run, Feasible;
    var j := DeactivatedInStep(s', ops[i + 1..], a);
    Through(s0, ops, i, j);
    k := WalkBegan(threads, ops[..i + 1 + j], ops[i + 1 + j].t);
    assert ops[..i + 1 + j][k] == ops[k];
  }

  /** A run up to an operation j places behind operation i. */
  lemma Through(s: State, ops: seq<Op>, i: nat, j: nat)
    requires Feasible(s, ops) && i < |ops| && j < |ops[i + 1..]|
    ensures ops[i + 1..][j] == ops[i + 1 + j]
    ensures Feasible(s, ops[..i]) && Enabled(Run(s, ops[..i]), ops[i]) && Feasible(s, ops[..i + 1 + j])
    ensures Feasible(Apply(Run(s, ops[..i]), ops[i]), ops[i + 1..][..j])
    ensures Run(s, ops[..i + 1 + j]) == Run(Apply(Run(s, ops[..i]), ops[i]), ops[i + 1..][..j])
  {
    var upTo := ops[..i + 1 + j];
    PrefixFeasible(s, ops, i + 1 + j);
    At(s, upTo, i);
    assert upTo[..i] == ops[..i] && upTo[i] == ops[i] && upTo[i + 1..] == ops[i + 1..][..j];
    hide Apply, Enabled, Run, Feasible;
  }

  lemma PrefixFeasible(s: State, ops: seq<Op>, n: nat)
    requires Feasible(s, ops) && n <= |ops|
    ensures Feasible(s, ops[..n])
  {
    assert ops == ops[..n] + ops[n..];
    Split(s, ops[..n], ops[n..]);
  }
}
