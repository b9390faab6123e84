/** The stream gateway: dispatch, subscribe, receive and shutdown as interleaved atomic steps. The async
    broadcast channel is an append-only log with a cursor for each receiver, of which the last `capacity`
    entries are retained. */
module Gateway {
  import opened OptionValue
  import opened Rings

  type Tid = nat

  datatype Frame = Frame(frameId: nat, mask: nat)

  /** What became of a key frame once it was cached: on its way by a dispatcher, sent at a log position, sent
      while nobody was attached, or refused because the gateway had shut down. */
  datatype Fate = Pending(tid: Tid) | Sent(at: nat) | Unheard | Refused

  /** A subscribed client. `attach` is where its receiver was attached to the log, `read` how many key frames
      had been cached when it read the cache, `got` the frames recv_frame returned, `skipped` those lost to lag. */
  datatype Client = Client(
    id: nat, mask: nat, attach: nat, read: nat, initial: Option<Frame>, cursor: nat, got: seq<Frame>, skipped: nat)

  datatype Pc =
    | Idle
    | Caching(frame: Frame)                            // a key frame, about to be written to the cache
    | Publishing(frame: Frame, version: Option<nat>)   // about to publish to the hub
    | Sending(frame: Frame, version: Option<nat>)      // about to send to the channel
    | Attaching(mask: nat)                             // about to attach a receiver
    | Numbering(mask: nat, attach: nat)                // about to draw a client id
    | Reading(id: nat, mask: nat, attach: nat)         // about to read the cached key frame
    | Subscribed(client: Client)
    | Stopping                                         // cleared is_running, about to drop the sender

  /** `writes` are the key frames cached, in order, and `fates` what became of each. */
  datatype State = State(
    running: bool, open: bool, capacity: nat, cache: Option<Frame>, log: seq<Frame>, hubbed: nat, nextId: nat,
    pcs: map<Tid, Pc>, receivers: set<Tid>, writes: seq<Frame>, fates: seq<Fate>)

  datatype Op =
    | StartDispatch(t: Tid, frame: Frame, key: bool)
    | WriteCache(t: Tid)
    | PublishHub(t: Tid)
    | Send(t: Tid)
    | StartSubscribe(t: Tid, mask: nat)
    | Attach(t: Tid)
    | DrawId(t: Tid)
    | ReadCache(t: Tid)
    | Receive(t: Tid)
    | Leave(t: Tid)
    | StartShutdown(t: Tid)
    | DropSender(t: Tid)

  predicate Enabled(s: State, op: Op) {
    op.t in s.pcs &&
    var pc := s.pcs[op.t];
    match op
    case StartDispatch(_, _, _) => pc.Idle?
    case WriteCache(_) => pc.Caching?
    case PublishHub(_) => pc.Publishing?
    case Send(_) => pc.Sending?
    case StartSubscribe(_, _) => pc.Idle?
    case Attach(_) => pc.Attaching?
    case DrawId(_) => pc.Numbering?
    case ReadCache(_) => pc.Reading?
    case Receive(_) => pc.Subscribed? && pc.client.cursor < |s.log|
    case Leave(_) => pc.Subscribed?
    case StartShutdown(_) => pc.Idle?
    case DropSender(_) => pc.Stopping?
  }

  function Oldest(log: seq<Frame>, capacity: nat): nat {
    if |log| <= capacity then 0 else |log| - capacity
  }

  /** One turn of the receive loop with something to receive: catch up if lagged, else take a frame. */
  function Taken(c: Client, log: seq<Frame>, capacity: nat): Client
    requires c.cursor < |log|
  {
    var oldest := Oldest(log, capacity);
    if c.cursor < oldest then c.(cursor := oldest, skipped := c.skipped + (oldest - c.cursor))
    else if Meets(log[c.cursor].mask, c.mask) then c.(cursor := c.cursor + 1, got := c.got + [log[c.cursor]])
    else c.(cursor := c.cursor + 1)
  }

  function Outcome(s: State): Fate {
    if !s.open then Refused else if s.receivers == {} then Unheard else Sent(|s.log|)
  }

  /** The fate of a key frame's send is known. */
  function Settled(fates: seq<Fate>, version: Option<nat>, fate: Fate): seq<Fate> {
    if version.Some? && version.value < |fates| then fates[version.value := fate] else fates
  }

  function Apply(s: State, op: Op): State
    requires Enabled(s, op)
  {
    var pc := s.pcs[op.t];
    match op
    case StartDispatch(t, frame, key) =>
      s.(pcs := s.pcs[t := if !s.running then Idle else if key then Caching(frame) else Publishing(frame, None)])
    case WriteCache(t) =>
      s.(cache := Some(pc.frame), writes := s.writes + [pc.frame], fates := s.fates + [Pending(t)],
         pcs := s.pcs[t := Publishing(pc.frame, Some(|s.writes|))])
    case PublishHub(t) => s.(hubbed := s.hubbed + 1, pcs := s.pcs[t := Sending(pc.frame, pc.version)])
    case Send(t) =>
      var fate := Outcome(s);
      s.(log := if fate.Sent? then s.log + [pc.frame] else s.log, pcs := s.pcs[t := Idle],
         fates := Settled(s.fates, pc.version, fate))
    case StartSubscribe(t, mask) => s.(pcs := s.pcs[t := if s.running then Attaching(mask) else Idle])
    case Attach(t) =>
      if s.open then s.(receivers := s.receivers + {t}, pcs := s.pcs[t := Numbering(pc.mask, |s.log|)])
      else s.(pcs := s.pcs[t := Idle])
    case DrawId(t) => s.(nextId := s.nextId + 1, pcs := s.pcs[t := Reading(s.nextId, pc.mask, pc.attach)])
    case ReadCache(t) =>
      s.(pcs := s.pcs[t := Subscribed(Client(pc.id, pc.mask, pc.attach, |s.writes|, s.cache, pc.attach, [], 0))])
    case Receive(t) => s.(pcs := s.pcs[t := Subscribed(Taken(pc.client, s.log, s.capacity))])
    case Leave(t) => s.(receivers := s.receivers - {t}, pcs := s.pcs[t := Idle])
    case StartShutdown(t) => s.(running := false, pcs := s.pcs[t := Stopping])
    case DropSender(t) => s.(open := false, pcs := s.pcs[t := Idle])
  }

  function Init(capacity: nat, threads: set<Tid>): State {
    State(true, true, if capacity < 2 then 2 else capacity, None, [], 0, 1, map t | t in threads :: Idle, {}, [], [])
  }

  ghost predicate Feasible(s: State, ops: seq<Op>)
    decreases |ops|
  {
    ops == [] || (Enabled(s, ops[0]) && Feasible(Apply(s, ops[0]), ops[1..]))
  }

  ghost function Run(s: State, ops: seq<Op>): State
    requires Feasible(s, ops)
    decreases |ops|
  {
    if ops == [] then s else Run(Apply(s, ops[0]), ops[1..])
  }

  // ---------------------------------------------------------------- the object

  datatype Error = GatewayClosed

  datatype Result<T> = Ok(value: T) | Err(error: Error)

  /** The gateway object. Each Step method is one atomic step of thread `t`. */
  class AsyncStreamGateway {
    var running: bool
    var open: bool
    const capacity: nat
    var cache: Option<Frame>
    var log: seq<Frame>
    var hubbed: nat
    var nextId: nat
    var receivers: set<Tid>
    ghost var pcs: map<Tid, Pc>
    ghost var writes: seq<Frame>
    ghost var fates: seq<Fate>

    ghost function View(): State
      reads this
    {
      State(running, open, capacity, cache, log, hubbed, nextId, pcs, receivers, writes, fates)
    }

    constructor (channelCapacity: nat, threads: set<Tid>)
      ensures View() == Init(channelCapacity, threads)
    {
      running, open, cache, log, hubbed, nextId, receivers := true, true, None, [], 0, 1, {};
      capacity := if channelCapacity < 2 then 2 else channelCapacity;
      pcs, writes, fates := map t | t in threads :: Idle, [], [];
    }

    method WriteCacheStep(t: Tid, frame: Frame)
      requires Enabled(View(), WriteCache(t)) && pcs[t] == Caching(frame)
      modifies this
      ensures View() == Apply(old(View()), WriteCache(t)) && cache == Some(frame)
    {
      cache := Some(frame);
      pcs := pcs[t := Publishing(frame, Some(|writes|))];
      writes, fates := writes + [frame], fates + [Pending(t)];
    }

    /** The end of dispatch_frame: the number of receivers reached, or that the gateway is closed. */
    method SendStep(t: Tid, frame: Frame) returns (r: Result<nat>)
      requires Enabled(View(), Send(t)) && pcs[t].frame == frame
      modifies this
      ensures View() == Apply(old(View()), Send(t))
      ensures r == if old(open) then Ok(|old(receivers)|) else Err(GatewayClosed)
    {
      ghost var fate, version := Outcome(View()), pcs[t].version;
      r := if open then Ok(|receivers|) else Err(GatewayClosed);
      if open && receivers != {} {
        log := log + [frame];
      }
      pcs := pcs[t := Idle];
      if version.Some? && version.value < |fates| {
        fates := fates[version.value := fate];
      }
    }

    method AttachStep(t: Tid, mask: nat) returns (r: Result<nat>)
      requires Enabled(View(), Attach(t)) && pcs[t] == Attaching(mask)
      modifies this
      ensures View() == Apply(old(View()), Attach(t))
      ensures r == if open then Ok(|log|) else Err(GatewayClosed)
    {
      if open {
        r := Ok(|log|);
        receivers := receivers + {t};
        pcs := pcs[t := Numbering(mask, |log|)];
      } else {
        r := Err(GatewayClosed);
        pcs := pcs[t := Idle];
      }
    }

    method DrawIdStep(t: Tid) returns (id: nat)
      requires Enabled(View(), DrawId(t))
      modifies this
      ensures View() == Apply(old(View()), DrawId(t)) && id == old(nextId)
    {
      id := nextId;
      nextId := nextId + 1;
      pcs := pcs[t := Reading(id, pcs[t].mask, pcs[t].attach)];
    }

    method ReadCacheStep(t: Tid, id: nat) returns (initial: Option<Frame>)
      requires Enabled(View(), ReadCache(t)) && pcs[t].id == id
      modifies this`pcs
      ensures View() == Apply(old(View()), ReadCache(t)) && initial == cache
    {
      initial := cache;
      var pc := pcs[t];
      pcs := pcs[t := Subscribed(Client(id, pc.mask, pc.attach, |writes|, initial, pc.attach, [], 0))];
    }

    method DropSenderStep(t: Tid)
      requires Enabled(View(), DropSender(t))
      modifies this
      ensures View() == Apply(old(View()), DropSender(t))
    {
      open := false;
      pcs := pcs[t := Idle];
    }

    /** dispatch_frame, uninterrupted: a closed gateway refuses; a key frame reaches the cache and every
        frame the hub before the channel is tried, which may turn out closed or without receivers. */
    method DispatchFrame(t: Tid, frame: Frame, key: bool) returns (r: Result<nat>)
      requires Inv(View()) && t in pcs && pcs[t].Idle?
      modifies this
      ensures Inv(View()) && pcs == old(pcs) && receivers == old(receivers)
      ensures running == old(running) && open == old(open)
      ensures r == if running && open then Ok(|receivers|) else Err(GatewayClosed)
      ensures log == old(log) + if running && open && receivers != {} then [frame] else []
      ensures cache == if running && key then Some(frame) else old(cache)
      ensures hubbed == old(hubbed) + if running then 1 else 0
      ensures writes == old(writes) + if running && key then [frame] else []
    {
      hide Inv;
      ghost var s0 := View();
      if !running {
        assert log + [] == log && writes + [] == writes;
        return Err(GatewayClosed);
      }
      StepKeepsInv(s0, StartDispatch(t, frame, key));
      pcs := pcs[t := if key then Caching(frame) else Publishing(frame, None)];
      if key {
        StepKeepsInv(View(), WriteCache(t));
        WriteCacheStep(t, frame);
      }
      StepKeepsInv(View(), PublishHub(t));
      hubbed, pcs := hubbed + 1, pcs[t := Sending(frame, pcs[t].version)];
      StepKeepsInv(View(), Send(t));
      r := SendStep(t, frame);
      assert pcs == old(pcs);
    }

    /** subscribe, uninterrupted: a closed gateway refuses; else the client has the next id, the cached key
        frame, and a receiver attached at the end of the log. */
    method Subscribe(t: Tid, mask: nat) returns (r: Result<(nat, Option<Frame>)>)
      requires Inv(View()) && t in pcs && pcs[t].Idle?
      modifies this
      ensures Inv(View()) && log == old(log) && cache == old(cache) && writes == old(writes)
      ensures if running && open
              then
                && r == Ok((old(nextId), cache)) && nextId == old(nextId) + 1 && receivers == old(receivers) + {t}
                && pcs == old(pcs)[t := Subscribed(Client(old(nextId), mask, |log|, |writes|, cache, |log|, [], 0))]
              else r == Err(GatewayClosed) && pcs == old(pcs) && nextId == old(nextId) && receivers == old(receivers)
    {
      hide Inv;
      if !running {
        return Err(GatewayClosed);
      }
      StepKeepsInv(View(), StartSubscribe(t, mask));
      pcs := pcs[t := Attaching(mask)];
      StepKeepsInv(View(), Attach(t));
      var attached := AttachStep(t, mask);
      if attached.Err? {
        assert pcs == old(pcs);
        return Err(GatewayClosed);
      }
      StepKeepsInv(View(), DrawId(t));
      var id := DrawIdStep(t);
      StepKeepsInv(View(), ReadCache(t));
      var initial := ReadCacheStep(t, id);
      r := Ok((id, initial));
    }

    /** shutdown, uninterrupted: nothing is accepted or sent from here on. */
    method Shutdown(t: Tid)
      requires Inv(View()) && t in pcs && pcs[t].Idle?
      modifies this
      ensures Inv(View()) && !running && !open && pcs == old(pcs)
      ensures log == old(log) && cache == old(cache) && writes == old(writes) && receivers == old(receivers)
    {
      hide Inv;
      StepKeepsInv(View(), StartShutdown(t));
      running, pcs := false, pcs[t := Stopping];
      StepKeepsInv(View(), DropSender(t));
      DropSenderStep(t);
      assert pcs == old(pcs);
    }
  }

  // ---------------------------------------------------------------- receiving

  function Wanted(frames: seq<Frame>, mask: nat): seq<Frame> {
    if frames == [] then []
    else
      var last := frames[|frames| - 1];
      Wanted(frames[..|frames| - 1], mask) + if Meets(last.mask, mask) then [last] else []
  }

  datatype Received = Got(frame: Frame) | Closed | Waiting

  /** recv_frame against a log that nobody extends meanwhile. Starting at the oldest retained entry if it
      lagged, it returns the first wanted frame, and past the end it waits, or reports a closed channel. */
  method RecvFrame(log: seq<Frame>, capacity: nat, open: bool, mask: nat, cursor: nat)
    returns (r: Received, cursor': nat)
    requires capacity > 0 && cursor <= |log|
    ensures var start := if cursor < Oldest(log, capacity) then Oldest(log, capacity) else cursor;
            && start <= cursor' <= |log|
            && (forall i :: start <= i < cursor' - 1 ==> !ShareBit(log[i].mask, mask))
            && (!r.Got? ==> forall i :: start <= i < |log| ==> !ShareBit(log[i].mask, mask))
            && match r
               case Got(frame) => start < cursor' && frame == log[cursor' - 1] && ShareBit(frame.mask, mask)
               case Closed => !open && cursor' == |log| && Wanted(log[start..], mask) == []
               case Waiting => open && cursor' == |log| && Wanted(log[start..], mask) == []
  {
    hide ShareBit, Meets;
    cursor' := cursor;
    var oldest := Oldest(log, capacity);
    ghost var start := if cursor < oldest then oldest else cursor;
    while true
      invariant cursor' == cursor || start <= cursor'
      invariant cursor' <= |log|
      invariant forall i :: start <= i < cursor' ==> !Meets(log[i].mask, mask) && !ShareBit(log[i].mask, mask)
      decreases |log| - cursor'
    {
      if cursor' == |log| {
        NoneWanted(log[start..], mask);
        return if open then Waiting else Closed, cursor';
      }
      if cursor' < oldest {
        cursor' := oldest;
      } else {
        cursor' := cursor' + 1;
        MeetsIffShareBit(log[cursor' - 1].mask, mask);
        if Meets(log[cursor' - 1].mask, mask) {
          return Got(log[cursor' - 1]), cursor';
        }
      }
    }
  }

  lemma {:induction false} NoneWanted(frames: seq<Frame>, mask: nat)
    requires forall i :: 0 <= i < |frames| ==> !Meets(frames[i].mask, mask)
    ensures Wanted(frames, mask) == []
  {
    if frames != [] { NoneWanted(frames[..|frames| - 1], mask); }
  }

  lemma {:induction false} WantedHas(frames: seq<Frame>, mask: nat, i: nat)
    requires i < |frames| && Meets(frames[i].mask, mask)
    ensures frames[i] in Wanted(frames, mask)
  {
    hide Meets;
    if i < |frames| - 1 { WantedHas(frames[..|frames| - 1], mask, i); }
  }

  // ---------------------------------------------------------------- invariant

  /** A client has or will get every key frame cached since it read the cache, unless it was refused. */
  ghost predicate ClientOk(c: Client, s: State) {
    && c.attach <= c.cursor <= |s.log| && c.read <= |s.writes| && c.id < s.nextId
    && c.initial == (if c.read == 0 then None else Some(s.writes[c.read - 1]))
    && (c.skipped == 0 ==> c.got == Wanted(s.log[c.attach..c.cursor], c.mask))
    && |s.fates| == |s.writes|
    && (forall v :: c.read <= v < |s.fates| ==>
          !s.fates[v].Unheard? && (s.fates[v].Sent? ==> c.attach <= s.fates[v].at))
  }

  ghost predicate ThreadOk(t: Tid, pc: Pc, s: State) {
    && (t in s.receivers <==> pc.Numbering? || pc.Reading? || pc.Subscribed?)
    && match pc
       case Publishing(frame, version) => version.Some? ==> Carries(t, frame, version.value, s)
       case Sending(frame, version) => version.Some? ==> Carries(t, frame, version.value, s)
       case Numbering(_, attach) => attach <= |s.log|
       case Reading(id, _, attach) => attach <= |s.log| && id < s.nextId
       case Subscribed(c) => ClientOk(c, s)
       case _ => true
  }

  predicate Carries(t: Tid, frame: Frame, v: nat, s: State) {
    v < |s.writes| && |s.fates| == |s.writes| && s.writes[v] == frame && s.fates[v] == Pending(t)
  }

  predicate OnItsWay(pc: Pc, v: nat) {
    (pc.Publishing? || pc.Sending?) && pc.version == Some(v)
  }

  ghost predicate FateOk(v: nat, fate: Fate, s: State) {
    match fate
    case Pending(t) => t in s.pcs && OnItsWay(s.pcs[t], v)
    case Sent(at) => at < |s.log| && v < |s.writes| && s.log[at] == s.writes[v]
    case Unheard => true
    case Refused => !s.open
  }

  function IdOf(pc: Pc): Option<nat> {
    if pc.Reading? then Some(pc.id) else if pc.Subscribed? then Some(pc.client.id) else None
  }

  ghost predicate Ids(pcs: map<Tid, Pc>) {
    forall t, u :: t in pcs && u in pcs && IdOf(pcs[t]).Some? && IdOf(pcs[t]) == IdOf(pcs[u]) ==> t == u
  }

  ghost predicate Inv(s: State) {
    && |s.fates| == |s.writes|
    && s.cache == (if s.writes == [] then None else Some(s.writes[|s.writes| - 1]))
    && (forall t :: t in s.pcs ==> ThreadOk(t, s.pcs[t], s))
    && (forall v :: 0 <= v < |s.fates| ==> FateOk(v, s.fates[v], s))
    && s.receivers <= s.pcs.Keys
    && Ids(s.pcs)
    && s.capacity > 0
  }

  // ---------------------------------------------------------------- steps

  /** What one step does to what other threads rely on. A fate changes only from pending, to the outcome
      of a send by the thread it was pending on. */
  ghost predicate Grows(s: State, s': State, who: Tid) {
    && |s.log| <= |s'.log| && s'.log[..|s.log|] == s.log
    && |s.writes| <= |s'.writes| && s'.writes[..|s.writes|] == s.writes
    && |s'.fates| == |s'.writes| && |s.fates| == |s.writes|
    && s.nextId <= s'.nextId && (!s.open ==> !s'.open)
    && (forall v :: 0 <= v < |s.fates| ==>
          s'.fates[v] == s.fates[v] || (s.fates[v] == Pending(who) && s'.fates[v] == Outcome(s)))
    && (forall v :: |s.fates| <= v < |s'.fates| ==> s'.fates[v].Pending?)
  }

  ghost predicate OthersStay(s: State, s': State, who: Tid) {
    && s'.pcs.Keys == s.pcs.Keys
    && (forall t :: t in s.pcs && t != who ==> s'.pcs[t] == s.pcs[t] && (t in s'.receivers <==> t in s.receivers))
  }

  lemma StepGrows(s: State, op: Op)
    requires Enabled(s, op) && |s.fates| == |s.writes| && ThreadOk(op.t, s.pcs[op.t], s)
    ensures Grows(s, Apply(s, op), op.t) && OthersStay(s, Apply(s, op), op.t)
  {
    hide Taken, ClientOk;
  }

  lemma SliceOfPrefix<T>(a: seq<T>, b: seq<T>, i: nat, j: nat)
    requires |a| <= |b| && b[..|a|] == a && i <= j <= |a|
    ensures b[i..j] == a[i..j]
  {
    forall k | 0 <= k < j - i
      ensures b[i..j][k] == a[i..j][k]
    {
      assert b[..|a|][i + k] == a[i + k];
    }
  }

  lemma ClientKept(c: Client, s: State, s': State, t: Tid, who: Tid)
    requires ClientOk(c, s) && Grows(s, s', who) && t in s.receivers
    ensures ClientOk(c, s')
  {
    hide Wanted;
    SliceOfPrefix(s.log, s'.log, c.attach, c.cursor);
    if c.read > 0 { assert s'.writes[c.read - 1] == s.writes[c.read - 1]; }
  }

  lemma CarriesKept(t: Tid, frame: Frame, v: nat, s: State, s': State, who: Tid)
    requires Carries(t, frame, v, s) && Grows(s, s', who) && t != who
    ensures Carries(t, frame, v, s')
  {
    assert s'.writes[v] == s.writes[v];
  }

  lemma OtherKept(t: Tid, pc: Pc, s: State, s': State, who: Tid)
    requires ThreadOk(t, pc, s) && Grows(s, s', who) && t != who && (t in s'.receivers <==> t in s.receivers)
    ensures ThreadOk(t, pc, s')
  {
    if pc.Subscribed? {
      ClientKept(pc.client, s, s', t, who);
    } else if (pc.Publishing? || pc.Sending?) && pc.version.Some? {
      CarriesKept(t, pc.frame, pc.version.value, s, s', who);
    }
    hide ClientOk, Carries;
  }

  /** Taking a frame off the log adds it to what the client got, if wanted. */
  lemma TakenOk(c: Client, s: State)
    requires ClientOk(c, s) && c.cursor < |s.log|
    ensures ClientOk(Taken(c, s.log, s.capacity), s)
  {
    var taken := s.log[c.attach..c.cursor + 1];
    assert taken[..|taken| - 1] == s.log[c.attach..c.cursor] && taken[|taken| - 1] == s.log[c.cursor];
    hide Meets;
    assert Wanted(taken, c.mask) ==
      Wanted(s.log[c.attach..c.cursor], c.mask) + if Meets(s.log[c.cursor].mask, c.mask) then [s.log[c.cursor]] else [];
    hide Wanted;
  }

  /** A client attached before it read the cache: every later key frame finds its receiver in place. */
  lemma SubscribedOk(s: State, t: Tid)
    requires Inv(s) && Enabled(s, ReadCache(t))
    ensures var s' := Apply(s, ReadCache(t)); ThreadOk(t, s'.pcs[t], s')
  {
    assert ThreadOk(t, s.pcs[t], s);
    var a := s.pcs[t].attach;
    assert s.log[a..a] == [];
  }

  lemma OwnKept(s: State, op: Op)
    requires Inv(s) && Enabled(s, op) && !op.ReadCache? && !op.Receive?
    ensures ThreadOk(op.t, Apply(s, op).pcs[op.t], Apply(s, op))
  {
    assert ThreadOk(op.t, s.pcs[op.t], s);
    hide ClientOk, Inv;
  }

  lemma ReceiveKept(s: State, op: Op)
    requires Inv(s) && Enabled(s, op) && op.Receive?
    ensures ThreadOk(op.t, Apply(s, op).pcs[op.t], Apply(s, op))
  {
    assert ThreadOk(op.t, s.pcs[op.t], s);
    TakenOk(s.pcs[op.t].client, s);
    StepGrows(s, op);
    hide Taken, Inv;
    var s' := Apply(s, op);
    assert s'.pcs[op.t].client == Taken(s.pcs[op.t].client, s.log, s.capacity);
    ClientKept(s'.pcs[op.t].client, s, s', op.t, op.t);
    hide ClientOk;
  }

  lemma ThreadsKept(s: State, op: Op)
    requires Inv(s) && Enabled(s, op)
    ensures forall t :: t in Apply(s, op).pcs ==> ThreadOk(t, Apply(s, op).pcs[t], Apply(s, op))
  {
    assert ThreadOk(op.t, s.pcs[op.t], s);
    StepGrows(s, op);
    var s' := Apply(s, op);
    assert forall t :: t in s.pcs ==> ThreadOk(t, s.pcs[t], s);
    if op.ReadCache? {
      SubscribedOk(s, op.t);
    } else if op.Receive? {
      ReceiveKept(s, op);
    } else {
      OwnKept(s, op);
    }
    hide Inv, Apply, Enabled, ThreadOk, Grows;
    forall t | t in s'.pcs
      ensures ThreadOk(t, s'.pcs[t], s')
    {
      if t != op.t { OtherKept(t, s.pcs[t], s, s', op.t); }
    }
  }

  /** The outcome of a send is a fate that holds from then on. */
  lemma SendFates(s: State, op: Op, v: nat)
    requires Inv(s) && Enabled(s, op) && op.Send? && v < |s.fates|
    ensures FateOk(v, Apply(s, op).fates[v], Apply(s, op))
  {
    assert ThreadOk(op.t, s.pcs[op.t], s) && FateOk(v, s.fates[v], s);
    var s' := Apply(s, op);
    if s.fates[v].Sent? { assert s'.log[s.fates[v].at] == s.log[s.fates[v].at]; }
    hide Inv, ClientOk;
  }

  lemma OtherFates(s: State, op: Op, v: nat)
    requires Inv(s) && Enabled(s, op) && !op.Send? && v < |s.fates|
    ensures FateOk(v, Apply(s, op).fates[v], Apply(s, op))
  {
    assert ThreadOk(op.t, s.pcs[op.t], s) && FateOk(v, s.fates[v], s);
    hide Inv, ClientOk, Taken;
  }

  lemma FatesKept(s: State, op: Op)
    requires Inv(s) && Enabled(s, op)
    ensures var s' := Apply(s, op); forall v :: 0 <= v < |s'.fates| ==> FateOk(v, s'.fates[v], s')
  {
    var s' := Apply(s, op);
    assert op.WriteCache? ==> FateOk(|s.fates|, s'.fates[|s.fates|], s') && |s'.fates| == |s.fates| + 1;
    assert !op.WriteCache? ==> |s'.fates| == |s.fates|;
    hide FateOk, Inv, Enabled, Apply;
    forall v | 0 <= v < |s'.fates|
      ensures FateOk(v, s'.fates[v], s')
    {
      if v < |s.fates| {
        if op.Send? { SendFates(s, op, v); } else { OtherFates(s, op, v); }
      }
    }
  }

  lemma IdsKept(s: State, op: Op)
    requires Inv(s) && Enabled(s, op)
    ensures Ids(Apply(s, op).pcs)
  {
    forall t | t in s.pcs && IdOf(s.pcs[t]).Some?
      ensures IdOf(s.pcs[t]).value < s.nextId
    {
      assert ThreadOk(t, s.pcs[t], s);
    }
    var s' := Apply(s, op);
    assert op.t in s.pcs && Ids(s.pcs);
    assert s'.pcs == s.pcs[op.t := s'.pcs[op.t]];
    assert IdOf(s'.pcs[op.t]) in {None, IdOf(s.pcs[op.t]), Some(s.nextId)} by { hide Wanted, ClientOk, Meets; }
    hide Inv, Apply, Enabled, IdOf;
  }

  lemma CacheKept(s: State, op: Op)
    requires Inv(s) && Enabled(s, op)
    ensures var s' := Apply(s, op);
            && |s'.fates| == |s'.writes|
            && s'.cache == (if s'.writes == [] then None else Some(s'.writes[|s'.writes| - 1]))
            && s'.receivers <= s'.pcs.Keys && s'.capacity > 0
  {
    hide ThreadOk, FateOk, Ids, Taken;
  }

  lemma StepKeepsInv(s: State, op: Op)
    requires Inv(s) && Enabled(s, op)
    ensures Inv(Apply(s, op))
  {
    CacheKept(s, op);
    ThreadsKept(s, op);
    FatesKept(s, op);
    IdsKept(s, op);
    hide Apply, Enabled, ThreadOk, FateOk, Ids;
  }

  lemma {:induction false} RunKeepsInv(s: State, ops: seq<Op>)
    requires Inv(s) && Feasible(s, ops)
    ensures Inv(Run(s, ops))
    decreases |ops|
  {
    hide Inv, Enabled, Apply;
    if ops != [] {
      StepKeepsInv(s, ops[0]);
      RunKeepsInv(Apply(s, ops[0]), ops[1..]);
    }
  }

  // ---------------------------------------------------------------- results

  /** No key-frame gap: in every interleaving, each key frame ever cached is, for each subscribed client,
      the one it read or an older one superseded by it, or still on its way by a dispatcher, or in the
      channel at or after the point where the client's receiver was attached, unless the gateway had shut
      down and refused that very frame. */
  lemma NoKeyFrameGap(capacity: nat, threads: set<Tid>, ops: seq<Op>, t: Tid, v: nat)
    requires Feasible(Init(capacity, threads), ops)
    requires var s := Run(Init(capacity, threads), ops); t in s.pcs && s.pcs[t].Subscribed? && v < |s.writes|
    ensures var s := Run(Init(capacity, threads), ops);
            var c := s.pcs[t].client;
            || (v < c.read <= |s.writes| && c.initial == Some(s.writes[c.read - 1]))
            || (exists d :: d in s.pcs && OnItsWay(s.pcs[d], v) && s.pcs[d].frame == s.writes[v])
            || (exists at :: c.attach <= at < |s.log| && s.log[at] == s.writes[v])
            || (v < |s.fates| && s.fates[v].Refused? && !s.open)
  {
    var s := Run(Init(capacity, threads), ops);
    RunKeepsInv(Init(capacity, threads), ops);
    assert ThreadOk(t, s.pcs[t], s) && FateOk(v, s.fates[v], s);
    if s.fates[v].Pending? {
      var d := s.fates[v].tid;
      assert ThreadOk(d, s.pcs[d], s);
      assert OnItsWay(s.pcs[d], v) && s.pcs[d].frame == s.writes[v];
    } else if s.fates[v].Sent? {
      assert s.log[s.fates[v].at] == s.writes[v];
    }
    hide Ids, Wanted;
  }

  /** A client that never lagged and has drained its receiver, on a gateway that is open with no key frame
      on its way, has been handed every wanted key frame since the one it started from. */
  lemma DrainedClientHasKeyFrames(capacity: nat, threads: set<Tid>, ops: seq<Op>, t: Tid, v: nat)
    requires Feasible(Init(capacity, threads), ops)
    requires var s := Run(Init(capacity, threads), ops);
             && t in s.pcs && s.pcs[t].Subscribed? && s.pcs[t].client.read <= v < |s.writes|
             && s.pcs[t].client.skipped == 0 && s.pcs[t].client.cursor == |s.log| && s.open
             && (forall d, w :: d in s.pcs ==> !OnItsWay(s.pcs[d], w))
             && Meets(s.writes[v].mask, s.pcs[t].client.mask)
    ensures var s := Run(Init(capacity, threads), ops); s.writes[v] in s.pcs[t].client.got
  {
    var s := Run(Init(capacity, threads), ops);
    var c := s.pcs[t].client;
    RunKeepsInv(Init(capacity, threads), ops);
    assert ThreadOk(t, s.pcs[t], s) && FateOk(v, s.fates[v], s);
    hide Ids, Wanted, Meets;
    var at := s.fates[v].at;
    var seen := s.log[c.attach..c.cursor];
    assert seen[at - c.attach] == s.writes[v];
    WantedHas(seen, c.mask, at - c.attach);
  }

  /** Client ids are never shared, so leaving deactivates the leaver's peer node only. */
  lemma ClientIdsDiffer(capacity: nat, threads: set<Tid>, ops: seq<Op>, t: Tid, u: Tid)
    requires Feasible(Init(capacity, threads), ops)
    requires var s := Run(Init(capacity, threads), ops);
             t in s.pcs && u in s.pcs && t != u && s.pcs[t].Subscribed? && s.pcs[u].Subscribed?
    ensures var s := Run(Init(capacity, threads), ops); s.pcs[t].client.id != s.pcs[u].client.id
  {
    RunKeepsInv(Init(capacity, threads), ops);
    hide ThreadOk, FateOk;
  }

  lemma {:induction false} WantedAppend(a: seq<Frame>, b: seq<Frame>, mask: nat)
    ensures Wanted(a + b, mask) == Wanted(a, mask) + Wanted(b, mask)
    decreases |b|
  {
    hide Meets;
    if b == [] {
      assert a + b == a;
    } else {
      var front, last := b[..|b| - 1], b[|b| - 1];
      assert (a + b)[..|a + b| - 1] == a + front && (a + b)[|a + b| - 1] == last;
      WantedAppend(a, front, mask);
    }
  }

  lemma WantedSplit(log: seq<Frame>, i: nat, j: nat, k: nat, mask: nat)
    requires i <= j <= k <= |log|
    ensures Wanted(log[i..k], mask) == Wanted(log[i..j], mask) + Wanted(log[j..k], mask)
  {
    assert log[i..k] == log[i..j] + log[j..k];
    WantedAppend(log[i..j], log[j..k], mask);
  }

  /** What a client misses behind the key frame it started from, exactly. The key frame stands in the channel at
      `at`. If the receiver was attached by then, or right behind it, what the client has been handed ends
      with every wanted frame sent since the key frame. Otherwise what it misses of those are the wanted
      frames sent between the key frame and its attach point, and nothing else; so it misses none if and only
      if no wanted frame was sent there. */
  lemma MissedBehindKeyFrame(capacity: nat, threads: set<Tid>, ops: seq<Op>, t: Tid)
    requires Feasible(Init(capacity, threads), ops)
    requires var s := Run(Init(capacity, threads), ops);
             && t in s.pcs && s.pcs[t].Subscribed? && s.pcs[t].client.skipped == 0
             && 0 < s.pcs[t].client.read <= |s.fates| && s.fates[s.pcs[t].client.read - 1].Sent?
             && s.fates[s.pcs[t].client.read - 1].at < s.pcs[t].client.cursor
    ensures var s := Run(Init(capacity, threads), ops);
            var c := s.pcs[t].client;
            var at := s.fates[c.read - 1].at;
            && at < c.cursor <= |s.log| && c.attach <= c.cursor && c.initial == Some(s.log[at])
            && var since := Wanted(s.log[at + 1..c.cursor], c.mask);
               if c.attach <= at + 1
               then c.got == Wanted(s.log[c.attach..at + 1], c.mask) + since
               else since == Wanted(s.log[at + 1..c.attach], c.mask) + c.got
  {
    var s := Run(Init(capacity, threads), ops);
    var c := s.pcs[t].client;
    RunKeepsInv(Init(capacity, threads), ops);
    assert ThreadOk(t, s.pcs[t], s) && FateOk(c.read - 1, s.fates[c.read - 1], s);
    hide Ids, Wanted, Run, Feasible, Init;
    var at := s.fates[c.read - 1].at;
    if c.attach <= at + 1 {
      WantedSplit(s.log, c.attach, at + 1, c.cursor, c.mask);
    } else {
      WantedSplit(s.log, at + 1, c.attach, c.cursor, c.mask);
    }
  }

  // ---------------------------------------------------------------- lag

  /** One turn of a client's receive loop. A client more than the capacity behind loses exactly the entries over
      it; one that is not loses none, and takes the next entry if it shares a bit with its interest. */
  lemma ReceivesExactly(s: State, t: Tid)
    requires Enabled(s, Receive(t))
    ensures var c := s.pcs[t].client;
            var behind := |s.log| - c.cursor;
            Apply(s, Receive(t)) == s.(pcs := s.pcs[t := Subscribed(
              if behind > s.capacity
              then c.(cursor := |s.log| - s.capacity, skipped := c.skipped + (behind - s.capacity))
              else if ShareBit(s.log[c.cursor].mask, c.mask)
              then c.(cursor := c.cursor + 1, got := c.got + [s.log[c.cursor]])
              else c.(cursor := c.cursor + 1))])
  {
    hide ShareBit, Meets;
    var c := s.pcs[t].client;
    MeetsIffShareBit(s.log[c.cursor].mask, c.mask);
  }

  /** In every step of the run in which t receives, it is at most `capacity` entries behind. */
  ghost predicate KeepsUp(s: State, ops: seq<Op>, t: Tid, capacity: nat)
    requires Feasible(s, ops)
    decreases |ops|
  {
    ops == [] || (
      && (ops[0] == Receive(t) ==> |s.log| - s.pcs[t].client.cursor <= capacity)
      && KeepsUp(Apply(s, ops[0]), ops[1..], t, capacity))
  }

  predicate Unlagged(s: State, t: Tid) {
    t in s.pcs && (s.pcs[t].Subscribed? ==> s.pcs[t].client.skipped == 0)
  }

  lemma {:induction false} KeepingUpSkipsNothing(s: State, ops: seq<Op>, t: Tid)
    requires Feasible(s, ops) && KeepsUp(s, ops, t, s.capacity) && Unlagged(s, t)
    ensures Unlagged(Run(s, ops), t)
    decreases |ops|
  {
    if ops != [] {
      StaysUnlagged(s, ops[0], t);
      hide Apply, Enabled, Unlagged;
      KeepingUpSkipsNothing(Apply(s, ops[0]), ops[1..], t);
    }
  }

  lemma StaysUnlagged(s: State, op: Op, t: Tid)
    requires Enabled(s, op) && Unlagged(s, t)
    requires op == Receive(t) ==> |s.log| - s.pcs[t].client.cursor <= s.capacity
    ensures Unlagged(Apply(s, op), t) && Apply(s, op).capacity == s.capacity
  {
    hide Meets;
  }

  /** A client that keeps up loses nothing: if, whenever it receives, it is at most as many entries behind as the
      channel was asked to hold (or two), then at every moment of every interleaving it has got exactly the
      entries of the channel it wants, in order, from where it was attached to where it stands. */
  lemma KeepingUpLosesNothing(capacity: nat, threads: set<Tid>, ops: seq<Op>, t: Tid)
    requires t in threads && Feasible(Init(capacity, threads), ops)
    requires KeepsUp(Init(capacity, threads), ops, t, if capacity < 2 then 2 else capacity)
    ensures var s := Run(Init(capacity, threads), ops);
            t in s.pcs && (s.pcs[t].Subscribed? ==>
              var c := s.pcs[t].client;
              c.skipped == 0 && c.attach <= c.cursor <= |s.log|
              && c.got == Wanted(s.log[c.attach..c.cursor], c.mask))
  {
    KeepingUpSkipsNothing(Init(capacity, threads), ops, t);
    RunKeepsInv(Init(capacity, threads), ops);
    var s := Run(Init(capacity, threads), ops);
    assert Unlagged(s, t);
    assert ThreadOk(t, s.pcs[t], s);
    hide Wanted, KeepsUp, Run, Feasible;
  }
}
