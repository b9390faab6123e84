/** The circuit breaker, over any log of calls, each call taken as atomic. Its counters are 32 bits
    wide and wrap. */
module CircuitBreaker {
  import opened Bytes

  const SUCCESS_THRESHOLD: nat := 3

  datatype Phase = Closed | Open | HalfOpen

  datatype State = State(phase: Phase, failures: nat, successes: nat, lastChange: nat)

  datatype Config = Config(threshold: nat, cooldown: nat)

  /** A call with the clock reading it takes, in milliseconds. */
  datatype Call = Allow(now: nat) | Success | Failure(now: nat) | Reset

  const INITIAL := State(Closed, 0, 0, 0)

  /** What a 32-bit counter holds of a number. */
  function Wrap(n: nat): (r: nat)
    ensures r < U32 && r <= n
    ensures n < U32 ==> r == n
  {
    if n < U32 then n else n % U32
  }

  predicate CooledDown(cfg: Config, s: State, now: nat) {
    (if now > s.lastChange then now - s.lastChange else 0) >= cfg.cooldown
  }

  /** What allow_request answers. */
  predicate Allowed(cfg: Config, s: State, now: nat) {
    s.phase != Open || CooledDown(cfg, s, now)
  }

  function Apply(cfg: Config, s: State, call: Call): State {
    match call
    case Allow(now) =>
      if s.phase == Open && CooledDown(cfg, s, now) then s.(phase := HalfOpen, successes := 0) else s
    case Success =>
      if s.phase == HalfOpen then
        var count := s.successes + 1;
        if count >= SUCCESS_THRESHOLD then State(Closed, 0, Wrap(count), s.lastChange)
        else s.(successes := Wrap(count))
      else if s.phase == Closed then s.(failures := 0)
      else s
    case Failure(now) =>
      var count := Wrap(s.failures + 1);
      if count >= cfg.threshold then s.(phase := Open, failures := count, lastChange := now)
      else s.(failures := count)
    case Reset => State(Closed, 0, 0, s.lastChange)
  }

  class StreamCircuitBreaker {
    var phase: Phase
    var failureCount: nat
    var successCount: nat
    var lastStateChangeMs: nat
    const failureThreshold: nat
    const cooldownMs: nat

    function View(): State
      reads this
    {
      State(phase, failureCount, successCount, lastStateChangeMs)
    }

    function Cfg(): Config { Config(failureThreshold, cooldownMs) }

    constructor (threshold: nat, cooldown: nat)
      ensures View() == INITIAL
      ensures Cfg() == Config(if threshold < 1 then 1 else threshold, cooldown)
    {
      phase, failureCount, successCount, lastStateChangeMs := Closed, 0, 0, 0;
      failureThreshold := if threshold < 1 then 1 else threshold;
      cooldownMs := cooldown;
    }

    method AllowRequest(now: nat) returns (allowed: bool)
      modifies this
      ensures View() == Apply(Cfg(), old(View()), Allow(now))
      ensures allowed == Allowed(Cfg(), old(View()), now)
    {
      match phase
      case Closed => allowed := true;
      case HalfOpen => allowed := true;
      case Open =>
        var since := if now >= lastStateChangeMs then now - lastStateChangeMs else 0;
        if since >= cooldownMs {
          phase := HalfOpen;
          successCount := 0;
          return true;
        }
        allowed := false;
    }

    method RecordSuccess()
      modifies this
      ensures View() == Apply(Cfg(), old(View()), Success)
    {
      if phase == HalfOpen {
        var count := successCount + 1;
        successCount := Wrap(count);
        if count >= SUCCESS_THRESHOLD {
          failureCount := 0;
          phase := Closed;
        }
      } else if phase == Closed {
        failureCount := 0;
      }
    }

    method RecordFailure(now: nat)
      modifies this
      ensures View() == Apply(Cfg(), old(View()), Failure(now))
    {
      failureCount := Wrap(failureCount + 1);
      if failureCount >= failureThreshold {
        phase := Open;
        lastStateChangeMs := now;
      }
    }

    method ResetBreaker()
      modifies this
      ensures View() == Apply(Cfg(), old(View()), Reset)
    {
      phase := Closed;
      failureCount := 0;
      successCount := 0;
    }
  }

  // ---------------------------------------------------------------- what a log says, without the breaker

  function After(cfg: Config, log: seq<Call>): State {
    if log == [] then INITIAL else Apply(cfg, After(cfg, log[..|log| - 1]), log[|log| - 1])
  }

  /** Failures since the last success or reset. */
  function TrailingFailures(log: seq<Call>): nat {
    if log == [] then 0
    else
      var before := log[..|log| - 1];
      match log[|log| - 1]
      case Failure(_) => TrailingFailures(before) + 1
      case Allow(_) => TrailingFailures(before)
      case _ => 0
  }

  predicate HasFailure(log: seq<Call>) {
    exists i :: 0 <= i < |log| && log[i].Failure?
  }

  /** The clock reading of the most recent failure. */
  function LastFailure(log: seq<Call>): nat {
    if log == [] then 0
    else match log[|log| - 1] case Failure(now) => now case _ => LastFailure(log[..|log| - 1])
  }

  function Successes(log: seq<Call>): nat {
    if log == [] then 0
    else Successes(log[..|log| - 1]) + (if log[|log| - 1].Success? then 1 else 0)
  }

  /** The call zeroes the failure count: a reset, a success in Closed, or the success that closes. */
  predicate Zeroes(s: State, call: Call) {
    || call.Reset?
    || (call.Success? && s.phase == Closed)
    || (call.Success? && s.phase == HalfOpen && s.successes + 1 >= SUCCESS_THRESHOLD)
  }

  /** Failures since the count was last zeroed. */
  function Unzeroed(cfg: Config, log: seq<Call>): nat {
    if log == [] then 0
    else
      var before, call := log[..|log| - 1], log[|log| - 1];
      if Zeroes(After(cfg, before), call) then 0
      else Unzeroed(cfg, before) + if call.Failure? then 1 else 0
  }

  /** The 32-bit count the last failure was compared with reaches the threshold. */
  predicate Reaches(cfg: Config, log: seq<Call>) {
    Wrap(Unzeroed(cfg, log)) >= cfg.threshold
  }

  /** The clock reading of the most recent failure whose count reached the threshold. */
  function LastRecorded(cfg: Config, log: seq<Call>): nat {
    if log == [] then 0
    else
      var before := log[..|log| - 1];
      match log[|log| - 1]
      case Failure(now) => if Reaches(cfg, log) then now else LastRecorded(cfg, before)
      case _ => LastRecorded(cfg, before)
  }

  predicate U32Threshold(cfg: Config) {
    1 <= cfg.threshold < U32
  }

  // ---------------------------------------------------------------- what the counters are

  ghost predicate CountersInv(cfg: Config, log: seq<Call>) {
    var s := After(cfg, log);
    && s.failures == Wrap(Unzeroed(cfg, log))
    && s.lastChange == LastRecorded(cfg, log)
    && (s.phase == Closed ==> s.failures == TrailingFailures(log) < cfg.threshold)
    && (s.phase != Closed ==> Unzeroed(cfg, log) >= cfg.threshold && HasFailure(log))
  }

  lemma {:induction false} Counters(cfg: Config, log: seq<Call>)
    requires U32Threshold(cfg)
    ensures CountersInv(cfg, log)
  {
    if log != [] {
      Counters(cfg, log[..|log| - 1]);
      CountersStep(cfg, log);
    }
  }

  lemma CountersStep(cfg: Config, log: seq<Call>)
    requires U32Threshold(cfg) && log != [] && CountersInv(cfg, log[..|log| - 1])
    ensures CountersInv(cfg, log)
  {
    var before, call := log[..|log| - 1], log[|log| - 1];
    CountStep(cfg, log);
    RecordStep(cfg, log);
    PhaseStep(cfg, log);
    if HasFailure(before) || call.Failure? { StillFailed(log); }
    var s, after := After(cfg, before), After(cfg, log);
    assert after.phase != Closed ==> s.phase != Closed || call.Failure?;
    hide After, Unzeroed, LastRecorded, TrailingFailures, HasFailure;
  }

  /** The count after a call, from the number of failures `n` since it was zeroed. */
  lemma CountApplied(cfg: Config, s: State, call: Call, n: nat)
    requires s.failures == Wrap(n)
    ensures Apply(cfg, s, call).failures == Wrap(if Zeroes(s, call) then 0 else n + if call.Failure? then 1 else 0)
  {
    NextCount(n);
    hide Wrap;
  }

  lemma UnzeroedStep(cfg: Config, log: seq<Call>)
    requires log != []
    ensures var before, call := log[..|log| - 1], log[|log| - 1];
            && After(cfg, log) == Apply(cfg, After(cfg, before), call)
            && Unzeroed(cfg, log) ==
               if Zeroes(After(cfg, before), call) then 0 else Unzeroed(cfg, before) + if call.Failure? then 1 else 0
  {
    hide Apply, Zeroes;
  }

  lemma CountStep(cfg: Config, log: seq<Call>)
    requires log != [] && After(cfg, log[..|log| - 1]).failures == Wrap(Unzeroed(cfg, log[..|log| - 1]))
    ensures After(cfg, log).failures == Wrap(Unzeroed(cfg, log))
  {
    hide Wrap, After, Unzeroed, Apply, Zeroes;
    UnzeroedStep(cfg, log);
    CountApplied(cfg, After(cfg, log[..|log| - 1]), log[|log| - 1], Unzeroed(cfg, log[..|log| - 1]));
  }

  lemma RecordStep(cfg: Config, log: seq<Call>)
    requires log != [] && CountersInv(cfg, log[..|log| - 1])
    ensures After(cfg, log).lastChange == LastRecorded(cfg, log)
  {
    hide Wrap;
    NextCount(Unzeroed(cfg, log[..|log| - 1]));
    hide HasFailure, TrailingFailures;
  }

  lemma PhaseStep(cfg: Config, log: seq<Call>)
    requires U32Threshold(cfg) && log != [] && CountersInv(cfg, log[..|log| - 1])
    ensures var s := After(cfg, log);
            && (s.phase == Closed ==> s.failures == TrailingFailures(log) < cfg.threshold)
            && (s.phase != Closed ==> Unzeroed(cfg, log) >= cfg.threshold)
  {
    var before, call := log[..|log| - 1], log[|log| - 1];
    var s, n := After(cfg, before), Unzeroed(cfg, before);
    NextCount(n);
    assert After(cfg, log) == Apply(cfg, s, call);
    assert Unzeroed(cfg, log) == if Zeroes(s, call) then 0 else n + if call.Failure? then 1 else 0;
    hide Wrap, HasFailure, LastRecorded, After, Unzeroed;
  }

  lemma StillFailed(log: seq<Call>)
    requires log != [] && (HasFailure(log[..|log| - 1]) || log[|log| - 1].Failure?)
    ensures HasFailure(log)
  {
    if !log[|log| - 1].Failure? {
      var i :| 0 <= i < |log| - 1 && log[..|log| - 1][i].Failure?;
      assert log[i].Failure?;
    }
  }

  lemma WrapIsModulo(n: nat)
    ensures Wrap(n) == n % U32
  {
    if n < U32 { SmallModulo(n, U32); }
  }

  lemma NextCount(count: nat)
    ensures Wrap(Wrap(count) + 1) == Wrap(count + 1)
    ensures count == U32 ==> Wrap(count) == 0
  {
    var q, r := count / U32, count % U32;
    assert count == U32 * q + r;
    WrapIsModulo(count);
    WrapIsModulo(count + 1);
    WrapIsModulo(r + 1);
    hide Wrap;
    if r + 1 < U32 {
      ModUnique(count + 1, U32, q, r + 1);
      SmallModulo(r + 1, U32);
    } else {
      ModUnique(count + 1, U32, q + 1, 0);
      ModUnique(U32, U32, 1, 0);
    }
    if count == U32 { ModUnique(U32, U32, 1, 0); }
  }

  /** A count that reaches the threshold was the last failure's, so that failure was recorded. */
  lemma {:induction false} ReachedIsRecorded(cfg: Config, log: seq<Call>)
    requires U32Threshold(cfg) && Reaches(cfg, log)
    ensures LastRecorded(cfg, log) == LastFailure(log)
  {
    if log != [] && !log[|log| - 1].Failure? { ReachedIsRecorded(cfg, log[..|log| - 1]); }
  }

  // ---------------------------------------------------------------- what a half-open breaker counts

  /** Call `e` let a probe through an open breaker, and since then there were only requests, successes, and
      failures whose wrapped count was below the threshold. */
  predicate ProbingSince(cfg: Config, log: seq<Call>, e: nat) {
    && e < |log| && log[e].Allow?
    && After(cfg, log[..e]).phase == Open && After(cfg, log[..e + 1]).phase == HalfOpen
    && forall i :: e < i < |log| ==> Harmless(cfg, log, i)
  }

  predicate Harmless(cfg: Config, log: seq<Call>, i: nat)
    requires i < |log|
  {
    log[i].Allow? || log[i].Success? || (log[i].Failure? && !Reaches(cfg, log[..i + 1]))
  }

  ghost predicate ProbeInv(cfg: Config, log: seq<Call>) {
    After(cfg, log).phase == HalfOpen ==> exists e: nat :: Probe(cfg, log, e)
  }

  ghost predicate Probe(cfg: Config, log: seq<Call>, e: nat) {
    ProbingSince(cfg, log, e) && After(cfg, log).successes == Successes(log[e + 1..]) < SUCCESS_THRESHOLD
  }

  lemma {:induction false} ProbeLog(cfg: Config, log: seq<Call>)
    requires U32Threshold(cfg)
    ensures ProbeInv(cfg, log)
  {
    if log != [] {
      ProbeLog(cfg, log[..|log| - 1]);
      Counters(cfg, log[..|log| - 1]);
      ProbeStep(cfg, log);
    }
  }

  lemma ProbeStep(cfg: Config, log: seq<Call>)
    requires U32Threshold(cfg) && log != []
    requires CountersInv(cfg, log[..|log| - 1]) && ProbeInv(cfg, log[..|log| - 1])
    ensures ProbeInv(cfg, log)
  {
    var before, call := log[..|log| - 1], log[|log| - 1];
    var s := After(cfg, before);
    hide Wrap;
    NextCount(Unzeroed(cfg, before));
    assert log[..|log|] == log;
    assert call.Failure? ==> (Reaches(cfg, log) <==> Wrap(s.failures + 1) >= cfg.threshold);
    hide ProbingSince, Successes, Reaches;
    if After(cfg, log).phase == HalfOpen {
      if s.phase == HalfOpen {
        var e: nat :| Probe(cfg, before, e);
        assert Harmless(cfg, log, |log| - 1);
        ProbeGoesOn(cfg, log, e);
        assert Probe(cfg, log, e);
      } else {
        ProbeStarts(cfg, log);
        assert Probe(cfg, log, |log| - 1);
      }
    }
  }

  lemma ProbeGoesOn(cfg: Config, log: seq<Call>, e: nat)
    requires log != [] && ProbingSince(cfg, log[..|log| - 1], e) && Harmless(cfg, log, |log| - 1)
    ensures ProbingSince(cfg, log, e)
    ensures Successes(log[e + 1..]) ==
            Successes(log[..|log| - 1][e + 1..]) + (if log[|log| - 1].Success? then 1 else 0)
  {
    hide Reaches;
    var before := log[..|log| - 1];
    assert before[..e] == log[..e] && before[..e + 1] == log[..e + 1];
    forall i | e < i < |log|
      ensures Harmless(cfg, log, i)
    {
      if i < |before| {
        assert Harmless(cfg, before, i);
        assert before[..i + 1] == log[..i + 1];
      }
    }
    var tail := log[e + 1..];
    assert tail[..|tail| - 1] == before[e + 1..] && tail[|tail| - 1] == log[|log| - 1];
  }

  lemma ProbeStarts(cfg: Config, log: seq<Call>)
    requires log != [] && log[|log| - 1].Allow?
    requires After(cfg, log[..|log| - 1]).phase == Open && After(cfg, log).phase == HalfOpen
    ensures ProbingSince(cfg, log, |log| - 1) && Successes(log[|log| - 1 + 1..]) == 0
  {
    assert log[..|log|] == log;
  }

  // ---------------------------------------------------------------- results

  lemma Last(log: seq<Call>, call: Call)
    ensures var longer := log + [call]; longer[..|longer| - 1] == log && longer[|longer| - 1] == call
  {
  }

  /** In Closed the breaker trips exactly on the threshold-th failure since the last success or reset. */
  lemma TripsOnThreshold(cfg: Config, log: seq<Call>, now: nat)
    requires U32Threshold(cfg) && After(cfg, log).phase == Closed
    ensures After(cfg, log + [Failure(now)]).phase == Open <==> TrailingFailures(log + [Failure(now)]) == cfg.threshold
    ensures After(cfg, log + [Failure(now)]).phase != HalfOpen
  {
    Counters(cfg, log);
    Last(log, Failure(now));
  }

  /** Open turns requests away until the cooldown has passed since the most recent recorded failure, and only
      until then; Closed and Half-Open never do. The most recent recorded failure is the most recent failure
      if the 32-bit count of failures reaches the threshold, and in Open it does until it has wrapped. */
  lemma OpenWaitsForCooldown(cfg: Config, log: seq<Call>, now: nat)
    requires U32Threshold(cfg)
    ensures var s, since := After(cfg, log), LastRecorded(cfg, log);
            && (Allowed(cfg, s, now) <==> s.phase != Open || (if now > since then now - since else 0) >= cfg.cooldown)
            && (After(cfg, log + [Allow(now)]).phase == Open <==> !Allowed(cfg, s, now))
            && (Reaches(cfg, log) ==> since == LastFailure(log))
            && (s.phase == Open ==> HasFailure(log) && (Unzeroed(cfg, log) < U32 ==> Reaches(cfg, log)))
  {
    Counters(cfg, log);
    hide Wrap;
    NextCount(Unzeroed(cfg, log));
    Last(log, Allow(now));
    if Reaches(cfg, log) { ReachedIsRecorded(cfg, log); }
  }

  /** A failure is recorded, restarting the cooldown and opening the breaker whatever its phase, if and only
      if the 32-bit count it brings about reaches the threshold. */
  lemma FailureRecorded(cfg: Config, log: seq<Call>, now: nat)
    requires U32Threshold(cfg)
    ensures var s, after := After(cfg, log), After(cfg, log + [Failure(now)]);
            if Wrap(Unzeroed(cfg, log) + 1) >= cfg.threshold
            then after.phase == Open && after.lastChange == now
            else after.phase == s.phase && after.lastChange == s.lastChange
  {
    Counters(cfg, log);
    hide Wrap;
    NextCount(Unzeroed(cfg, log));
    Last(log, Failure(now));
  }

  /** One failure while probing opens the breaker again at once, if and only if the count has not just
      wrapped below the threshold; so always, for the first 2^32 - 1 failures since it was zeroed. */
  lemma ProbeFailureReopens(cfg: Config, log: seq<Call>, now: nat)
    requires U32Threshold(cfg) && After(cfg, log).phase == HalfOpen
    ensures After(cfg, log + [Failure(now)]).phase == Open <==> Wrap(Unzeroed(cfg, log) + 1) >= cfg.threshold
    ensures Unzeroed(cfg, log) + 1 < U32 ==> After(cfg, log + [Failure(now)]).phase == Open
  {
    Counters(cfg, log);
    FailureRecorded(cfg, log, now);
    hide Wrap;
    NextCount(Unzeroed(cfg, log) + 1);
  }

  /** Of successes exactly the third since a probe was let through closes Half-Open, and of other calls a
      reset. In between there were only requests, successes and failures whose count had wrapped below the
      threshold; none of the last kind while fewer than 2^32 failures came since the count was zeroed. */
  lemma ClosesOnThirdSuccess(cfg: Config, log: seq<Call>) returns (e: nat)
    requires U32Threshold(cfg) && After(cfg, log).phase == HalfOpen
    ensures ProbingSince(cfg, log, e)
    ensures After(cfg, log + [Success]).phase == Closed <==> Successes((log + [Success])[e + 1..]) == 3
    ensures forall call: Call :: !call.Success? ==> (After(cfg, log + [call]).phase == Closed <==> call.Reset?)
    ensures Unzeroed(cfg, log) < U32 ==> forall i :: e < i < |log| ==> log[i].Allow? || log[i].Success?
  {
    ProbeLog(cfg, log);
    OnlyResetCloses(cfg, log);
    e :| Probe(cfg, log, e);
    var longer := log + [Success];
    Last(log, Success);
    assert Harmless(cfg, longer, |log|);
    ProbeGoesOn(cfg, longer, e);
    if Unzeroed(cfg, log) < U32 {
      forall i | e < i < |log|
        ensures log[i].Allow? || log[i].Success?
      {
        if log[i].Failure? { FailureHasWrapped(cfg, log, e, i); }
        assert Harmless(cfg, log, i);
      }
    }
  }

  lemma OnlyResetCloses(cfg: Config, log: seq<Call>)
    requires After(cfg, log).phase == HalfOpen
    ensures forall call: Call :: !call.Success? ==> (After(cfg, log + [call]).phase == Closed <==> call.Reset?)
  {
    forall call: Call | !call.Success?
      ensures After(cfg, log + [call]).phase == Closed <==> call.Reset?
    {
      Last(log, call);
    }
  }

  /** While probing the count is not zeroed, so it only grows. */
  lemma {:induction false} ProbeCountGrows(cfg: Config, log: seq<Call>, e: nat, j: nat)
    requires U32Threshold(cfg) && ProbingSince(cfg, log, e) && After(cfg, log).phase == HalfOpen && e < j <= |log|
    ensures Unzeroed(cfg, log[..j]) <= Unzeroed(cfg, log) && Unzeroed(cfg, log[..j]) >= cfg.threshold
    decreases |log|
  {
    if j == |log| {
      assert log[..j] == log;
      Counters(cfg, log);
    } else {
      var before := log[..|log| - 1];
      ProbeWasOn(cfg, log, e);
      assert before[..j] == log[..j];
      ProbeCountGrows(cfg, before, e, j);
    }
  }

  /** Nothing harmless opens a half-open or closed breaker. */
  lemma {:induction false} ProbeNeverOpens(cfg: Config, log: seq<Call>, e: nat)
    requires U32Threshold(cfg) && ProbingSince(cfg, log, e)
    ensures After(cfg, log).phase != Open
    decreases |log|
  {
    if |log| == e + 1 {
      assert log[..e + 1] == log;
    } else {
      var before := log[..|log| - 1];
      ProbeFront(cfg, log, e);
      ProbeNeverOpens(cfg, before, e);
      Counters(cfg, before);
      hide Wrap;
      NextCount(Unzeroed(cfg, before));
      assert Harmless(cfg, log, |log| - 1) && log[..|log|] == log;
    }
  }

  lemma ProbeFront(cfg: Config, log: seq<Call>, e: nat)
    requires ProbingSince(cfg, log, e) && e + 1 < |log|
    ensures ProbingSince(cfg, log[..|log| - 1], e)
  {
    hide Reaches;
    var before := log[..|log| - 1];
    assert before[..e] == log[..e] && before[..e + 1] == log[..e + 1];
    forall i | e < i < |before|
      ensures Harmless(cfg, before, i)
    {
      assert Harmless(cfg, log, i) && before[..i + 1] == log[..i + 1];
    }
  }

  lemma ProbeWasOn(cfg: Config, log: seq<Call>, e: nat)
    requires U32Threshold(cfg) && ProbingSince(cfg, log, e) && After(cfg, log).phase == HalfOpen && e + 1 < |log|
    ensures ProbingSince(cfg, log[..|log| - 1], e) && After(cfg, log[..|log| - 1]).phase == HalfOpen
    ensures Unzeroed(cfg, log[..|log| - 1]) <= Unzeroed(cfg, log)
  {
    ProbeFront(cfg, log, e);
    ProbeNeverOpens(cfg, log[..|log| - 1], e);
    assert Harmless(cfg, log, |log| - 1);
    hide ProbingSince, Reaches;
  }

  lemma BelowThreshold(cfg: Config, log: seq<Call>)
    requires U32Threshold(cfg) && !Reaches(cfg, log)
    ensures Unzeroed(cfg, log) < cfg.threshold || Unzeroed(cfg, log) >= U32
  {
    hide Unzeroed;
  }

  /** A failure during a probe that did not reopen the breaker was the 2^32-th since the count was zeroed, or
      a later one. */
  lemma FailureHasWrapped(cfg: Config, log: seq<Call>, e: nat, i: nat)
    requires U32Threshold(cfg) && ProbingSince(cfg, log, e) && After(cfg, log).phase == HalfOpen
    requires e < i < |log| && log[i].Failure?
    ensures Unzeroed(cfg, log) >= U32
  {
    hide Wrap, After, Unzeroed;
    assert Harmless(cfg, log, i);
    BelowThreshold(cfg, log[..i + 1]);
    hide ProbingSince, Harmless, Reaches;
    ProbeCountGrows(cfg, log, e, i + 1);
  }

  // ---------------------------------------------------------------- the wrap

  function Failures(n: nat, now: nat): (log: seq<Call>)
    ensures |log| == n
  {
    seq(n, i => Failure(now))
  }

  lemma {:induction false} ManyFailures(cfg: Config, n: nat, now: nat)
    requires U32Threshold(cfg) && n < U32
    ensures After(cfg, Failures(n, now)) ==
            State(if n < cfg.threshold then Closed else Open, n, 0, if n < cfg.threshold then 0 else now)
    ensures Unzeroed(cfg, Failures(n, now)) == n
  {
    if n > 0 {
      ManyFailures(cfg, n - 1, now);
      assert Failures(n, now)[..n - 1] == Failures(n - 1, now);
      NextCount(n);
      NextCount(n - 1);
    }
  }

  /** The wrap is real, at any threshold: the 2^32-th failure since the count was zeroed neither restarts the
      cooldown of an open breaker nor reopens a probing one. */
  lemma WrapForgetsFailures(cfg: Config, first: nat, now: nat)
    requires U32Threshold(cfg)
    ensures var open := Failures(U32 - 1, first);
            && After(cfg, open).phase == Open && LastFailure(open + [Failure(now)]) == now
            && After(cfg, open + [Failure(now)]).phase == Open && After(cfg, open + [Failure(now)]).lastChange == first
            && var probing := open + [Allow(first + cfg.cooldown)];
               After(cfg, probing).phase == HalfOpen && After(cfg, probing + [Failure(now)]).phase == HalfOpen
  {
    var open := Failures(U32 - 1, first);
    var probing := open + [Allow(first + cfg.cooldown)];
    hide Wrap;
    NextCount(U32);
    ManyFailures(cfg, U32 - 1, first);
    Last(open, Failure(now));
    Last(open, Allow(first + cfg.cooldown));
    Last(probing, Failure(now));
    FailureRecorded(cfg, open, now);
    FailureRecorded(cfg, probing, now);
    hide Failures;
  }
}
