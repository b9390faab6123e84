/** The FPS governor and its second form, the FPS filter coroutine. Intervals and timestamps are
    microseconds as naturals; the frame rate is a real. */
module Governor {
  import opened OptionValue

  const U64_MAX: nat := 0xFFFF_FFFF_FFFF_FFFF

  /** (1_000_000.0 / fps) as u64, the cast saturating. */
  function IntervalOf(fps: real): nat
    requires fps > 0.0
  {
    var exact := (1000000.0 / fps).Floor;
    if exact < 0 then 0 else if exact > U64_MAX then U64_MAX else exact
  }

  function GovernorInterval(fps: real): nat {
    IntervalOf(if fps <= 0.0 then 30.0 else fps)
  }

  function FilterInterval(fps: real): nat {
    if fps > 0.0 then IntervalOf(fps) else 0
  }

  /** What the interval is: the whole microseconds of one period at that rate, until the 64 bits are full. A rate
      that is not positive counts as 30 for the governor, whose interval is then 33333, and switches the
      coroutine's filter off. */
  lemma IntervalIsPeriod(fps: real)
    ensures GovernorInterval(fps) == if fps > 0.0 then IntervalOf(fps) else 33333
    ensures FilterInterval(fps) == if fps > 0.0 then GovernorInterval(fps) else 0
    ensures fps > 0.0 ==>
      && GovernorInterval(fps) as real * fps <= 1000000.0
      && (if 1000000.0 < 18446744073709551616.0 * fps
          then 1000000.0 < (GovernorInterval(fps) as real + 1.0) * fps
          else GovernorInterval(fps) == 18446744073709551615)
  {
    if fps > 0.0 { IntervalBounds(fps, 1000000.0 / fps); }
  }

  lemma IntervalBounds(fps: real, exact: real)
    requires fps > 0.0 && exact == 1000000.0 / fps
    ensures IntervalOf(fps) as real * fps <= 1000000.0
    ensures if 1000000.0 < 18446744073709551616.0 * fps
            then 1000000.0 < (IntervalOf(fps) as real + 1.0) * fps
            else IntervalOf(fps) == 18446744073709551615
  {
    Quotient(exact, fps, 1000000.0);
    var interval := IntervalOf(fps);
    Compared(interval as real, exact, fps, 1000000.0);
    Compared(18446744073709551616.0, exact, fps, 1000000.0);
    Compared(interval as real + 1.0, exact, fps, 1000000.0);
    assert exact.Floor as real <= exact < exact.Floor as real + 1.0;
  }

  lemma Quotient(quotient: real, divisor: real, dividend: real)
    requires divisor > 0.0 && dividend > 0.0 && quotient == dividend / divisor
    ensures quotient * divisor == dividend && quotient > 0.0
  {
  }

  lemma Compared(n: real, quotient: real, divisor: real, dividend: real)
    requires divisor > 0.0 && quotient * divisor == dividend
    ensures n <= quotient <==> n * divisor <= dividend
  {
    if n <= quotient { Scaled(n, quotient, divisor); } else { ScaledStrictly(quotient, n, divisor); }
  }

  lemma Scaled(a: real, b: real, factor: real)
    requires a <= b && factor > 0.0
    ensures a * factor <= b * factor
  {
  }

  lemma ScaledStrictly(a: real, b: real, factor: real)
    requires a < b && factor > 0.0
    ensures a * factor < b * factor
  {
  }

  /** Whether a frame at `ts` passes when the last passed frame was at `last`. */
  predicate Passes(last: Option<nat>, interval: nat, ts: nat) {
    last.None? || ts >= last.value + interval
  }

  class FpsGovernor {
    var targetFps: real
    var minIntervalUs: nat
    var lastDispatchedUs: Option<nat>
    var framesPassed: nat
    var framesDropped: nat

    predicate Valid()
      reads this
    {
      targetFps > 0.0 && minIntervalUs == IntervalOf(targetFps)
    }

    constructor (fps: real)
      ensures Valid() && minIntervalUs == GovernorInterval(fps)
      ensures lastDispatchedUs == None && framesPassed == 0 && framesDropped == 0
    {
      targetFps := if fps <= 0.0 then 30.0 else fps;
      minIntervalUs := IntervalOf(if fps <= 0.0 then 30.0 else fps);
      lastDispatchedUs, framesPassed, framesDropped := None, 0, 0;
    }

    /** A new rate applies to the next frame; nothing else changes. */
    method SetTargetFps(fps: real)
      modifies this`targetFps, this`minIntervalUs
      ensures Valid() && minIntervalUs == GovernorInterval(fps)
    {
      targetFps := if fps <= 0.0 then 30.0 else fps;
      minIntervalUs := IntervalOf(targetFps);
    }

    method ShouldDispatch(timestampUs: nat) returns (dispatched: bool)
      requires Valid()
      modifies this`lastDispatchedUs, this`framesPassed, this`framesDropped
      ensures Valid()
      ensures dispatched == Passes(old(lastDispatchedUs), minIntervalUs, timestampUs)
      ensures lastDispatchedUs == if dispatched then Some(timestampUs) else old(lastDispatchedUs)
      ensures framesPassed == old(framesPassed) + (if dispatched then 1 else 0)
      ensures framesPassed + framesDropped == old(framesPassed) + old(framesDropped) + 1
    {
      match lastDispatchedUs
      case None =>
        lastDispatchedUs := Some(timestampUs);
        framesPassed := framesPassed + 1;
        dispatched := true;
      case Some(last) =>
        if timestampUs >= last + minIntervalUs {
          lastDispatchedUs := Some(timestampUs);
          framesPassed := framesPassed + 1;
          dispatched := true;
        } else {
          framesDropped := framesDropped + 1;
          dispatched := false;
        }
    }

    /** A stream of frames at a fixed rate: the decisions are those of `Decisions`, and the counters
        account for every frame. */
    method DispatchAll(timestamps: seq<nat>) returns (decisions: seq<bool>)
      requires Valid()
      modifies this`lastDispatchedUs, this`framesPassed, this`framesDropped
      ensures decisions == Decisions(old(lastDispatchedUs), minIntervalUs, timestamps)
      ensures framesPassed == old(framesPassed) + Passed(old(lastDispatchedUs), minIntervalUs, timestamps)
      ensures framesPassed + framesDropped == old(framesPassed) + old(framesDropped) + |timestamps|
    {
      decisions := [];
      var i := 0;
      assert timestamps[0..] == timestamps;
      while i < |timestamps|
        invariant 0 <= i <= |timestamps| && Valid()
        invariant decisions + Decisions(lastDispatchedUs, minIntervalUs, timestamps[i..])
               == Decisions(old(lastDispatchedUs), minIntervalUs, timestamps)
        invariant framesPassed + Passed(lastDispatchedUs, minIntervalUs, timestamps[i..])
               == old(framesPassed) + Passed(old(lastDispatchedUs), minIntervalUs, timestamps)
        invariant framesPassed + framesDropped == old(framesPassed) + old(framesDropped) + i
      {
        assert timestamps[i..][1..] == timestamps[i + 1..] && timestamps[i..][0] == timestamps[i];
        var dispatched := ShouldDispatch(timestamps[i]);
        decisions := decisions + [dispatched];
        i := i + 1;
      }
    }
  }

  /** The decision on every frame of a stream, at a fixed interval. */
  function Decisions(last: Option<nat>, interval: nat, ts: seq<nat>): (d: seq<bool>)
    ensures |d| == |ts|
    decreases |ts|
  {
    if ts == [] then []
    else
      var pass := Passes(last, interval, ts[0]);
      [pass] + Decisions(if pass then Some(ts[0]) else last, interval, ts[1..])
  }

  /** How many frames of a stream pass. */
  function Passed(last: Option<nat>, interval: nat, ts: seq<nat>): nat
    decreases |ts|
  {
    if ts == [] then 0
    else if Passes(last, interval, ts[0]) then 1 + Passed(Some(ts[0]), interval, ts[1..])
    else Passed(last, interval, ts[1..])
  }

  // ---------------------------------------------------------------- greedy is optimal

  predicate NonDecreasing(ts: seq<nat>) {
    forall i, j :: 0 <= i < j < |ts| ==> ts[i] <= ts[j]
  }

  /** A selection marks some frames of `ts`: any two of them, and any of them and `last`, are at least
      `interval` apart. */
  ghost predicate Spaced(last: Option<nat>, interval: nat, ts: seq<nat>, picks: seq<bool>) {
    && |picks| == |ts|
    && (forall i, j :: 0 <= i < j < |ts| && picks[i] && picks[j] ==> ts[j] >= ts[i] + interval)
    && (forall i :: 0 <= i < |ts| && picks[i] && last.Some? ==> ts[i] >= last.value + interval)
  }

  function Size(picks: seq<bool>): nat {
    if picks == [] then 0 else (if picks[0] then 1 else 0) + Size(picks[1..])
  }

  /** The passed frames keep their distance: the governor never exceeds its rate. */
  lemma {:induction false} PassedAreSpaced(last: Option<nat>, interval: nat, ts: seq<nat>)
    ensures Spaced(last, interval, ts, Decisions(last, interval, ts))
    ensures Size(Decisions(last, interval, ts)) == Passed(last, interval, ts)
    decreases |ts|
  {
    if ts != [] {
      var next := if Passes(last, interval, ts[0]) then Some(ts[0]) else last;
      var d, rest := Decisions(last, interval, ts), Decisions(next, interval, ts[1..]);
      PassedAreSpaced(next, interval, ts[1..]);
      assert d[1..] == rest;
      forall i | 0 < i < |ts| && d[i]
        ensures next.Some? ==> ts[i] >= next.value + interval
      {
        assert d[i] == rest[i - 1] && ts[i] == ts[1..][i - 1];
      }
      forall i, j | 0 < i < j < |ts| && d[i] && d[j]
        ensures ts[j] >= ts[i] + interval
      {
        assert d[i] == rest[i - 1] && ts[i] == ts[1..][i - 1];
        assert d[j] == rest[j - 1] && ts[j] == ts[1..][j - 1];
      }
    }
  }

  /** Having last passed a later frame can only cost frames. */
  lemma {:induction false} EarlierIsBetter(a: nat, b: nat, interval: nat, ts: seq<nat>)
    requires a <= b
    requires NonDecreasing(ts) && (ts != [] ==> b <= ts[0])
    ensures Passed(Some(a), interval, ts) >= Passed(Some(b), interval, ts)
    ensures Passed(Some(a), interval, ts) <= 1 + Passed(Some(b), interval, ts)
    decreases |ts|
  {
    if ts != [] {
      var t, rest := ts[0], ts[1..];
      if t >= a + interval {
        if t >= b + interval {
        } else {
          EarlierIsBetter(b, t, interval, rest);
        }
      } else {
        EarlierIsBetter(a, b, interval, rest);
      }
    }
  }

  /** No spaced selection of frames is larger than what the governor passes. */
  lemma {:induction false} NoSelectionIsLarger(last: Option<nat>, interval: nat, ts: seq<nat>, picks: seq<bool>)
    requires NonDecreasing(ts) && (last.Some? && ts != [] ==> last.value <= ts[0])
    requires Spaced(last, interval, ts, picks)
    ensures Size(picks) <= Passed(last, interval, ts)
    decreases |ts|
  {
    if ts != [] {
      var t, rest := ts[0], ts[1..];
      if picks[0] {
        assert Spaced(Some(t), interval, rest, picks[1..]);
        NoSelectionIsLarger(Some(t), interval, rest, picks[1..]);
      } else {
        assert Spaced(last, interval, rest, picks[1..]);
        NoSelectionIsLarger(last, interval, rest, picks[1..]);
        if Passes(last, interval, t) { PassingIsNeverWorse(last, t, interval, rest); }
      }
    }
  }

  lemma PassingIsNeverWorse(last: Option<nat>, t: nat, interval: nat, rest: seq<nat>)
    requires NonDecreasing(rest) && (rest != [] ==> t <= rest[0]) && (last.Some? ==> last.value <= t)
    ensures Passed(last, interval, rest) <= 1 + Passed(Some(t), interval, rest)
  {
    if last.Some? {
      EarlierIsBetter(last.value, t, interval, rest);
    } else if rest != [] {
      EarlierIsBetter(t, rest[0], interval, rest[1..]);
    }
  }

  /** Optimality: on non-decreasing timestamps the frames the governor passes are a spaced selection,
      and no spaced selection is larger. */
  lemma GovernorIsOptimal(interval: nat, ts: seq<nat>)
    requires NonDecreasing(ts)
    ensures Spaced(None, interval, ts, Decisions(None, interval, ts))
    ensures Size(Decisions(None, interval, ts)) == Passed(None, interval, ts)
    ensures forall picks :: Spaced(None, interval, ts, picks) ==> Size(picks) <= Passed(None, interval, ts)
  {
    PassedAreSpaced(None, interval, ts);
    forall picks | Spaced(None, interval, ts, picks)
      ensures Size(picks) <= Passed(None, interval, ts)
    {
      NoSelectionIsLarger(None, interval, ts, picks);
    }
  }

  /** The rate is kept: over any stream the passed frames but the first take one interval each, so at `fps`
      they are at most (1 + the stream's length in periods), up to the fraction of a microsecond that the
      interval drops. */
  lemma RateIsKept(fps: real, ts: seq<nat>)
    requires 0.0 < fps && 1000000.0 < 18446744073709551616.0 * fps
    requires NonDecreasing(ts) && ts != []
    ensures var later := (Passed(None, GovernorInterval(fps), ts) - 1) as real;
            later >= 0.0 && later * (1000000.0 - fps) <= (ts[|ts| - 1] - ts[0]) as real * fps
  {
    var interval := GovernorInterval(fps);
    IntervalIsPeriod(fps);
    var later := LaterTakeTime(interval, ts);
    hide GovernorInterval, Passed, NonDecreasing;
    RateOf(later as real, interval as real, (ts[|ts| - 1] - ts[0]) as real, fps);
  }

  lemma LaterTakeTime(interval: nat, ts: seq<nat>) returns (later: nat)
    requires NonDecreasing(ts) && ts != []
    ensures Passed(None, interval, ts) == 1 + later
    ensures later as real * interval as real <= (ts[|ts| - 1] - ts[0]) as real
  {
    assert [ts[0]] + ts[1..] == ts;
    PassedTakeTime(ts[0], interval, ts[1..]);
    later := Passed(Some(ts[0]), interval, ts[1..]);
    assert later * interval <= ts[|ts| - 1] - ts[0];
    RealProduct(later, interval);
  }

  lemma RealProduct(a: nat, b: nat)
    ensures a as real * b as real == (a * b) as real
  {
  }

  lemma RateOf(later: real, interval: real, span: real, fps: real)
    requires later >= 0.0 && later * interval <= span && fps > 0.0 && 1000000.0 < (interval + 1.0) * fps
    ensures later * (1000000.0 - fps) <= span * fps
  {
    var perPeriod := interval * fps;
    assert (interval + 1.0) * fps == perPeriod + fps;
    RateScaled(later, perPeriod, 1000000.0 - fps);
    Regrouped(later, interval, fps);
    Scaled(later * interval, span, fps);
  }

  lemma RateScaled(later: real, perPeriod: real, least: real)
    requires later >= 0.0 && least < perPeriod
    ensures later * least <= later * perPeriod
  {
    if later > 0.0 { ScaledStrictly(least, perPeriod, later); }
  }

  lemma Regrouped(a: real, b: real, c: real)
    ensures a * (b * c) == (a * b) * c
  {
  }

  /** Each frame that passes after one at `last` costs an interval. */
  lemma {:induction false} PassedTakeTime(last: nat, interval: nat, ts: seq<nat>)
    requires NonDecreasing([last] + ts)
    ensures Passed(Some(last), interval, ts) * interval <= ([last] + ts)[|ts|] - last
    decreases |ts|
  {
    if ts != [] {
      var t, rest := ts[0], ts[1..];
      Dropped(last, ts);
      var next := if t >= last + interval then t else last;
      PassedTakeTime(next, interval, rest);
      var later := Passed(Some(next), interval, rest);
      assert Passed(Some(last), interval, ts) == (if t >= last + interval then 1 + later else later);
      hide Passed, NonDecreasing;
      OneMore(later, interval);
    }
  }

  lemma OneMore(n: nat, interval: nat)
    ensures (1 + n) * interval == n * interval + interval
  {
  }

  /** Leaving out the first or the second timestamp. */
  lemma Dropped(last: nat, ts: seq<nat>)
    requires ts != [] && NonDecreasing([last] + ts)
    ensures NonDecreasing([ts[0]] + ts[1..]) && NonDecreasing([last] + ts[1..]) && last <= ts[0]
    ensures ([ts[0]] + ts[1..])[|ts| - 1] == ([last] + ts)[|ts|]
    ensures ([last] + ts[1..])[|ts| - 1] == if |ts| == 1 then last else ([last] + ts)[|ts|]
  {
    var all := [last] + ts;
    assert [ts[0]] + ts[1..] == all[1..];
    assert all[1] == ts[0] && all[0] == last;
    var skipped := [last] + ts[1..];
    assert forall i :: 0 < i < |skipped| ==> skipped[i] == all[i + 1];
    assert skipped[0] == all[0];
  }

  // ---------------------------------------------------------------- the coroutine form

  class FpsFilterCoroutine {
    const intervalUs: nat
    var lastDispatchedUs: nat
    var hasDispatched: bool

    constructor (fps: real)
      ensures intervalUs == FilterInterval(fps) && !hasDispatched
    {
      intervalUs := FilterInterval(fps);
      lastDispatchedUs, hasDispatched := 0, false;
    }

    function Last(): Option<nat>
      reads this
    {
      if hasDispatched then Some(lastDispatchedUs) else None
    }

    /** resume: true for Continue, false for Skip. */
    method Resume(ts: nat, isKeyframe: bool) returns (passed: bool)
      modifies this
      ensures passed == (isKeyframe || FilterPasses(old(Last()), intervalUs, ts))
      ensures Last() == if passed then Some(ts) else old(Last())
    {
      var elapsed := if ts > lastDispatchedUs then ts - lastDispatchedUs else 0;
      if isKeyframe || !hasDispatched || elapsed >= intervalUs {
        lastDispatchedUs := ts;
        hasDispatched := true;
        passed := true;
      } else {
        passed := false;
      }
    }

    /** A stream without key frames. */
    method ResumeAll(timestamps: seq<nat>) returns (decisions: seq<bool>)
      modifies this
      ensures decisions == FilterDecisions(old(Last()), intervalUs, timestamps)
    {
      decisions := [];
      var i := 0;
      assert timestamps[0..] == timestamps;
      while i < |timestamps|
        invariant 0 <= i <= |timestamps|
        invariant decisions + FilterDecisions(Last(), intervalUs, timestamps[i..])
               == FilterDecisions(old(Last()), intervalUs, timestamps)
      {
        assert timestamps[i..][1..] == timestamps[i + 1..];
        var passed := Resume(timestamps[i], false);
        decisions := decisions + [passed];
        i := i + 1;
      }
    }
  }

  /** The coroutine's test, with a subtraction that stops at zero. */
  predicate FilterPasses(last: Option<nat>, interval: nat, ts: nat) {
    last.None? || (if ts > last.value then ts - last.value else 0) >= interval
  }

  function FilterDecisions(last: Option<nat>, interval: nat, ts: seq<nat>): (d: seq<bool>)
    ensures |d| == |ts|
    decreases |ts|
  {
    if ts == [] then []
    else
      var pass := FilterPasses(last, interval, ts[0]);
      [pass] + FilterDecisions(if pass then Some(ts[0]) else last, interval, ts[1..])
  }

  /** Both forms decide alike on every frame of a stream without key frames, except at interval zero on
      a stream whose timestamps go back: there the coroutine passes every frame and the governor does
      not. */
  lemma FormsAgree(interval: nat, ts: seq<nat>)
    ensures FilterDecisions(None, interval, ts) == Decisions(None, interval, ts)
            <==> (interval > 0 || NonDecreasing(ts))
  {
    if ts == [] {
    } else {
      var rest := ts[1..];
      if interval > 0 {
        SameAtPositiveInterval(Some(ts[0]), interval, rest);
      } else {
        SameAtZero(ts[0], rest);
        assert [ts[0]] + rest == ts;
        assert FilterDecisions(None, 0, ts)[1..] == FilterDecisions(Some(ts[0]), 0, rest);
        assert Decisions(None, 0, ts)[1..] == Decisions(Some(ts[0]), 0, rest);
      }
    }
  }

  lemma {:induction false} SameAtPositiveInterval(last: Option<nat>, interval: nat, ts: seq<nat>)
    requires interval > 0
    ensures FilterDecisions(last, interval, ts) == Decisions(last, interval, ts)
    decreases |ts|
  {
    if ts != [] {
      SameAtPositiveInterval(if Passes(last, interval, ts[0]) then Some(ts[0]) else last, interval, ts[1..]);
    }
  }

  /** At interval zero the coroutine passes everything, the governor only what does not go back. */
  lemma {:induction false} SameAtZero(last: nat, ts: seq<nat>)
    ensures FilterDecisions(Some(last), 0, ts) == Decisions(Some(last), 0, ts) <==> NonDecreasing([last] + ts)
    decreases |ts|
  {
    NonDecreasingFront([last] + ts);
    assert ([last] + ts)[1..] == ts;
    if ts != [] {
      var f, d := FilterDecisions(Some(last), 0, ts), Decisions(Some(last), 0, ts);
      assert f[0] == true && d[0] == (ts[0] >= last);
      if ts[0] >= last {
        SameAtZero(ts[0], ts[1..]);
        assert f[1..] == FilterDecisions(Some(ts[0]), 0, ts[1..]) && d[1..] == Decisions(Some(ts[0]), 0, ts[1..]);
        assert [ts[0]] + ts[1..] == ts;
      }
    }
  }

  lemma NonDecreasingFront(ts: seq<nat>)
    requires ts != []
    ensures NonDecreasing(ts) <==> NonDecreasing(ts[1..]) && (|ts| > 1 ==> ts[0] <= ts[1])
  {
    if NonDecreasing(ts[1..]) && (|ts| > 1 ==> ts[0] <= ts[1]) {
      forall i, j | 0 <= i < j < |ts|
        ensures ts[i] <= ts[j]
      {
        assert ts[j] == ts[1..][j - 1];
        if i > 0 { assert ts[i] == ts[1..][i - 1]; } else { assert ts[1] == ts[1..][0]; }
      }
    }
  }
}
