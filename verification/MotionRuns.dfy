/** What the motion detector does over runs of frames: convergence of the baseline and the life of the
    motion flag. */
module MotionRuns {
  import opened OptionValue
  import opened Motion

  // ---------------------------------------------------------------- a repeated frame

  /** The state after observing the same cells at each of the given times. */
  function Repeat(s: State, cells: seq<real>, times: seq<int>): State
    requires cells != []
  {
    if times == [] then s
    else Observe(Repeat(s, cells, times[..|times| - 1]), cells, times[|times| - 1])
  }

  /** Three quarters, `k` times. */
  function Shrink(k: nat): (r: real)
    ensures r > 0.0
  {
    if k == 0 then 1.0 else 0.75 * Shrink(k - 1)
  }

  lemma {:induction false} ShrinkAdds(a: nat, b: nat)
    ensures Shrink(a + b) == Shrink(a) * Shrink(b)
  {
    if a > 0 { ShrinkAdds(a - 1, b); }
  }

  lemma ShrinkValues()
    ensures 255.0 * Shrink(16) >= 2.0 > 255.0 * Shrink(17)
  {
    assert Shrink(1) == 0.75;
    ShrinkAdds(1, 1);
    ShrinkAdds(2, 2);
    ShrinkAdds(4, 4);
    ShrinkAdds(8, 8);
    assert Shrink(8) == 0.1001129150390625;
    assert Shrink(17) == 0.75 * Shrink(16);
  }

  lemma {:induction false} ShrinkDecreases(a: nat, b: nat)
    requires a <= b
    ensures Shrink(b) <= Shrink(a)
    decreases b
  {
    if a < b { ShrinkDecreases(a, b - 1); }
  }

  ghost predicate Ready(s: State, cells: seq<real>) {
    && cells != [] && Intensities(cells)
    && s.hasBaseline && |s.baseline| == |cells| && Intensities(s.baseline)
  }

  lemma ObserveBlends(s: State, cells: seq<real>, now: int, i: nat)
    requires Ready(s, cells) && i < |cells|
    ensures var after := Observe(s, cells, now);
            && Ready(after, cells) && after.config == s.config
            && after.baseline[i] == (1.0 - 0.25) * s.baseline[i] + 0.25 * cells[i]
  {
    ObserveKeepsRange(s, cells, now);
    assert Observe(s, cells, now).baseline == Blend(cells, s.baseline);
  }

  /** What is left of a distance after `k` frames. */
  function Left(k: nat, distance: real): real {
    Shrink(k) * distance
  }

  lemma LeftSteps(before: real, cell: real, k: nat, distance: real)
    ensures Left(0, distance) == distance
    ensures before - cell == Left(k, distance) ==>
      (1.0 - 0.25) * before + 0.25 * cell - cell == Left(k + 1, distance)
  {
    assert 0.75 * (Shrink(k) * distance) == (0.75 * Shrink(k)) * distance;
  }

  /** Under a repeated frame every cell's distance to the baseline shrinks by 3/4 per frame. */
  lemma {:induction false} DistanceShrinks(s: State, cells: seq<real>, times: seq<int>, i: nat)
    requires Ready(s, cells) && i < |cells|
    ensures var after := Repeat(s, cells, times);
            && Ready(after, cells) && after.config == s.config
            && after.baseline[i] - cells[i] == Left(|times|, s.baseline[i] - cells[i])
  {
    hide Observe, Left;
    if times == [] {
      LeftSteps(0.0, 0.0, 0, s.baseline[i] - cells[i]);
    } else {
      var front := times[..|times| - 1];
      DistanceShrinks(s, cells, front, i);
      var before := Repeat(s, cells, front);
      ObserveBlends(before, cells, times[|times| - 1], i);
      LeftSteps(before.baseline[i], cells[i], |front|, s.baseline[i] - cells[i]);
    }
  }

  lemma BaselineIndex(s: State, cells: seq<real>, i: nat)
    requires Ready(s, cells) && i < |cells|
    ensures i < |s.baseline| && 0.0 <= s.baseline[i] <= 255.0 && 0.0 <= cells[i] <= 255.0
  {
  }

  lemma CellIsQuiet(s: State, cells: seq<real>, times: seq<int>, i: nat)
    requires Ready(s, cells) && |times| >= 17 && i < |cells|
    ensures i < |Repeat(s, cells, times).baseline| && Abs(cells[i] - Repeat(s, cells, times).baseline[i]) < 2.0
  {
    hide Repeat, Ready, Shrink;
    DistanceShrinks(s, cells, times, i);
    BaselineIndex(s, cells, i);
    BaselineIndex(Repeat(s, cells, times), cells, i);
    ShrinkValues();
    ShrinkDecreases(17, |times|);
    SmallProduct(Shrink(|times|), s.baseline[i] - cells[i], Shrink(17));
    var gap := Repeat(s, cells, times).baseline[i] - cells[i];
    assert gap == Left(|times|, s.baseline[i] - cells[i]);
    assert -255.0 * Shrink(17) <= gap <= 255.0 * Shrink(17);
    assert -2.0 < gap < 2.0;
  }

  /** From the eighteenth identical frame on no cell is active, whatever the configuration. */
  lemma QuietFromEighteenth(s: State, cells: seq<real>, times: seq<int>)
    requires Ready(s, cells) && |times| >= 17
    ensures Ready(Repeat(s, cells, times), cells) && Repeat(s, cells, times).config == s.config
    ensures ActiveCells(cells, Repeat(s, cells, times).baseline, EffectiveThreshold(s.config)) == 0
  {
    hide Repeat, ActiveCells, EffectiveThreshold;
    DistanceShrinks(s, cells, times, 0);
    var baseline := Repeat(s, cells, times).baseline;
    forall i | 0 <= i < |cells|
      ensures Abs(cells[i] - baseline[i]) < 2.0
    {
      CellIsQuiet(s, cells, times, i);
    }
    NoneActive(cells, baseline, EffectiveThreshold(s.config));
  }

  lemma SmallProduct(factor: real, distance: real, bound: real)
    requires 0.0 < factor <= bound && -255.0 <= distance <= 255.0
    ensures -255.0 * bound <= factor * distance <= 255.0 * bound
  {
    if distance >= 0.0 {
      assert factor * distance <= factor * 255.0;
    } else {
      assert factor * -distance <= factor * 255.0;
    }
  }

  lemma {:induction false} NoneActive(cells: seq<real>, baseline: seq<real>, threshold: real)
    requires |cells| == |baseline| && threshold >= 2.0
    requires forall i :: 0 <= i < |cells| ==> Abs(cells[i] - baseline[i]) < 2.0
    ensures ActiveCells(cells, baseline, threshold) == 0
  {
    if cells != [] { NoneActive(cells[1..], baseline[1..], threshold); }
  }

  // ---------------------------------------------------------------- a detector's life

  /** What can happen to a detector: a frame is analyzed, a configuration is set, or the stream is reset.
      Frames that AnalyzeFrame refuses change nothing and are left out. */
  datatype Happening = Seen(cells: seq<real>, now: int) | Configured(config: Config) | Forgotten

  const START := State(DEFAULT_CONFIG, [], false, false, 0, 0)

  function Happen(s: State, h: Happening): State {
    match h
    case Seen(cells, now) => if cells == [] then s else Observe(s, cells, now)
    case Configured(config) =>
      (match Validate(config) case Ok(c) => s.(config := c, hasBaseline := false) case Err(_) => s)
    case Forgotten => START
  }

  /** Every frame has cells, as many as the configuration in force asks for. */
  predicate WellSized(hs: seq<Happening>) {
    hs == [] || (
      var before := hs[..|hs| - 1];
      && WellSized(before)
      && (hs[|hs| - 1].Seen? ==> hs[|hs| - 1].cells != [] && GridSize(Watch(before).config) == |hs[|hs| - 1].cells|))
  }

  function GridSize(c: Config): int {
    c.columns * c.rows
  }

  /** The detector after a life that starts with the first mention of its stream. */
  function Watch(hs: seq<Happening>): State {
    if hs == [] then START else Happen(Watch(hs[..|hs| - 1]), hs[|hs| - 1])
  }

  /** A configuration has been accepted since the last frame. */
  predicate RenewedSinceFrame(hs: seq<Happening>) {
    hs != [] &&
    match hs[|hs| - 1]
    case Seen(_, _) => false
    case Configured(config) => Validate(config).Ok? || RenewedSinceFrame(hs[..|hs| - 1])
    case Forgotten => false
  }

  /** The time of the most recent frame with motion since the stream was reset. */
  function LatestMotion(hs: seq<Happening>): Option<int> {
    if hs == [] then None
    else
      var before := hs[..|hs| - 1];
      match hs[|hs| - 1]
      case Seen(cells, now) => if Moves(Watch(before), cells) then Some(now) else LatestMotion(before)
      case Configured(_) => LatestMotion(before)
      case Forgotten => None
  }

  /** The frame has a baseline to compare with and enough cells differ from it. */
  predicate Moves(s: State, cells: seq<real>) {
    s.hasBaseline && |s.baseline| == |cells| && cells != [] && InstantMotion(s.config, cells, s.baseline)
  }

  predicate LifeInv(hs: seq<Happening>) {
    var s := Watch(hs);
    && ValidConfig(s.config)
    && (s.hasBaseline ==> |s.baseline| == GridSize(s.config))
    && (s.active ==> LatestMotion(hs) == Some(s.lastMotion) && s.hasBaseline == !RenewedSinceFrame(hs))
  }

  lemma {:induction false} LifeKeepsInv(hs: seq<Happening>)
    requires WellSized(hs)
    ensures LifeInv(hs)
  {
    if hs != [] {
      hide InstantMotion, Blend;
      LifeKeepsInv(hs[..|hs| - 1]);
    }
  }

  /** When a set flag clears, exactly: on a frame, a set flag is cleared if and only if a configuration was
      accepted since the last frame, or the frame shows no motion and comes at least the cooldown after the
      most recent frame with motion. */
  lemma ClearsExactlyWhen(hs: seq<Happening>, cells: seq<real>, now: int)
    requires WellSized(hs) && Watch(hs).active && |cells| == GridSize(Watch(hs).config) && cells != []
    ensures LatestMotion(hs).Some?
    ensures var s := Watch(hs);
            !Observe(s, cells, now).active <==>
              || RenewedSinceFrame(hs)
              || (&& !Moves(s, cells)
                  && now - LatestMotion(hs).value >= s.config.cooldownSeconds * 1_000_000_000)
  {
    LifeKeepsInv(hs);
    hide InstantMotion, Blend;
  }

  /** Everything between frames keeps a set flag set, but a reset of the stream. */
  lemma OnlyFramesAndResetsClear(hs: seq<Happening>, h: Happening)
    requires Watch(hs).active && !h.Seen?
    ensures Happen(Watch(hs), h).active <==> !h.Forgotten?
  {
  }

  /** The frame that raised the flag: motion was off before it, it shows motion, and motion has been on since. */
  ghost predicate RaisedAt(hs: seq<Happening>, i: nat) {
    && i < |hs| && hs[i].Seen? && hs[i].cells != []
    && !Watch(hs[..i]).active && Moves(Watch(hs[..i]), hs[i].cells)
    && forall j :: i < j <= |hs| ==> Watch(hs[..j]).active
  }

  /** While the flag is set, its start is the time of the frame that raised it: the duration an event reports
      runs from there, whatever happened in between. */
  lemma {:induction false} StartIsRaisingFrame(hs: seq<Happening>) returns (i: nat)
    requires Watch(hs).active
    ensures RaisedAt(hs, i) && Watch(hs).motionStart == hs[i].now
    decreases |hs|
  {
    assert hs != [];
    var front, last := hs[..|hs| - 1], hs[|hs| - 1];
    var before := Watch(front);
    HappenKeepsStart(before, last);
    assert hs[..|hs|] == hs;
    hide Happen, InstantMotion;
    if before.active {
      i := StartIsRaisingFrame(front);
      assert front[..i] == hs[..i] && forall j :: i < j <= |front| ==> front[..j] == hs[..j];
    } else {
      i := |front|;
      assert forall j :: i < j <= |hs| ==> hs[..j] == hs;
    }
  }

  lemma HappenKeepsStart(s: State, h: Happening)
    requires Happen(s, h).active
    ensures s.active ==> Happen(s, h).motionStart == s.motionStart
    ensures !s.active ==> h.Seen? && h.cells != [] && Moves(s, h.cells) && Happen(s, h).motionStart == h.now
  {
    hide InstantMotion, Blend;
  }

  // ---------------------------------------------------------------- two frames, black and white

  function Uniform(n: nat, v: real): (cells: seq<real>)
    ensures |cells| == n && forall i :: 0 <= i < n ==> cells[i] == v
  {
    seq(n, i => v)
  }

  lemma {:induction false} AllActive(cells: seq<real>, baseline: seq<real>, threshold: real)
    requires |cells| == |baseline|
    requires forall i :: 0 <= i < |cells| ==> Abs(cells[i] - baseline[i]) >= threshold
    ensures ActiveCells(cells, baseline, threshold) == |cells|
  {
    if cells != [] { AllActive(cells[1..], baseline[1..], threshold); }
  }

  lemma AllActiveMoves(s: State, cells: seq<real>)
    requires ValidConfig(s.config) && s.hasBaseline && |s.baseline| == |cells| && cells != []
    requires ActiveCells(cells, s.baseline, EffectiveThreshold(s.config)) == |cells|
    ensures Moves(s, cells)
  {
  }

  /** A new configuration clears a set flag on the next frame, inside the cooldown, whatever the frame shows
      and however soon it comes. */
  lemma ReconfiguringClears(hs: seq<Happening>, config: Config, cells: seq<real>, now: int)
    requires Watch(hs).active && Validate(config).Ok? && cells != []
    ensures var s := Watch(hs + [Configured(config)]);
            s.active && s.lastMotion == Watch(hs).lastMotion && !Observe(s, cells, now).active
  {
    hide Blend, InstantMotion;
    var longer := hs + [Configured(config)];
    assert longer[..|longer| - 1] == hs && longer[|longer| - 1] == Configured(config);
  }

  /** Such a life exists: a black frame, a white one, and the same configuration set again. A frame at the
      very time of the white one then clears the flag. */
  lemma ReconfiguringClearsAtOnce(now: int, cells: seq<real>) returns (hs: seq<Happening>)
    requires |cells| == GridSize(DEFAULT_CONFIG)
    ensures WellSized(hs) && Watch(hs).active && Watch(hs).lastMotion == now
    ensures !Observe(Watch(hs), cells, now).active
  {
    hs := BlackThenWhite(now);
    ReconfiguringClears(hs, DEFAULT_CONFIG, cells, now);
    hide Watch, Observe, Validate;
    var longer := hs + [Configured(DEFAULT_CONFIG)];
    assert longer[..|longer| - 1] == hs && longer[|longer| - 1] == Configured(DEFAULT_CONFIG);
    hs := longer;
  }

  lemma BlackThenWhite(now: int) returns (hs: seq<Happening>)
    ensures WellSized(hs) && Watch(hs).active && Watch(hs).lastMotion == now
  {
    var black, white := Uniform(192, 0.0), Uniform(192, 255.0);
    var first := [Seen(black, now)];
    hs := [Seen(black, now), Seen(white, now)];
    assert first[..0] == [] && hs[..1] == first;
    assert Watch([]) == START && WellSized([]);
    var s := State(DEFAULT_CONFIG, black, true, false, 0, 0);
    assert Watch(first) == s && WellSized(first);
    DefaultThreshold();
    AllActive(white, black, EffectiveThreshold(DEFAULT_CONFIG));
    AllActiveMoves(s, white);
    hide Blend, InstantMotion, EffectiveThreshold, Uniform;
    assert Watch(hs) == Observe(s, white, now);
  }

  lemma DefaultThreshold()
    ensures EffectiveThreshold(DEFAULT_CONFIG) <= 255.0
  {
  }

  /** The bound is tight for every accepted configuration whose threshold is at its least: on a grid that was
      black and turns white, every cell is still active, and motion still seen, on the seventeenth white
      frame. */
  lemma SeventeenthIsActive(config: Config, times: seq<int>)
    requires ValidConfig(config) && EffectiveThreshold(config) == 2.0 && |times| == 16
    ensures GridSize(config) >= 4
    ensures var white := Uniform(GridSize(config), 255.0);
            var before := Repeat(Blackened(config), white, times);
            && Ready(before, white) && before.config == config
            && ActiveCells(white, before.baseline, EffectiveThreshold(config)) == GridSize(config)
            && Moves(before, white)
  {
    BlackIsReady(config);
    var white, s := Uniform(GridSize(config), 255.0), Blackened(config);
    var before := Repeat(s, white, times);
    DistanceShrinks(s, white, times, 0);
    assert s.config == config;
    hide Repeat, Shrink, EffectiveThreshold, Uniform, Abs, Blackened, ActiveCells, ValidConfig, GridSize;
    forall i | 0 <= i < |white|
      ensures Abs(white[i] - before.baseline[i]) >= 2.0
    {
      SeventeenthCell(s, white, times, i);
    }
    AllActive(white, before.baseline, 2.0);
    AllActiveMoves(before, white);
  }

  lemma BlackIsReady(config: Config)
    requires ValidConfig(config)
    ensures GridSize(config) >= 4
    ensures var s, white := Blackened(config), Uniform(GridSize(config), 255.0);
            Ready(s, white) && forall i :: 0 <= i < |white| ==> i < |s.baseline| && s.baseline[i] == 0.0
  {
    GridIsAtLeastFour(config);
    hide GridSize;
  }

  /** A cell that jumped from black to white, sixteen frames later. */
  lemma SeventeenthCell(s: State, cells: seq<real>, times: seq<int>, i: nat)
    requires Ready(s, cells) && |times| == 16 && i < |cells| && i < |s.baseline|
    requires s.baseline[i] == 0.0 && cells[i] == 255.0
    ensures i < |Repeat(s, cells, times).baseline|
    ensures Abs(cells[i] - Repeat(s, cells, times).baseline[i]) >= 2.0
  {
    hide Repeat, Left, Shrink, Abs;
    DistanceShrinks(s, cells, times, i);
    hide Ready;
    FarEnough(Repeat(s, cells, times).baseline[i], s.baseline[i] - cells[i]);
  }

  lemma FarEnough(v: real, distance: real)
    requires distance == -255.0 && v - 255.0 == Left(16, distance)
    ensures Abs(255.0 - v) >= 2.0
  {
    ShrinkValues();
    assert v - 255.0 == -255.0 * Shrink(16);
    hide Shrink;
  }

  lemma GridIsAtLeastFour(c: Config)
    requires ValidConfig(c)
    ensures GridSize(c) >= 4
  {
    MulMono(2, c.columns, c.rows);
    assert 2 * c.rows >= 4;
  }

  /** The detector that was given a configuration and then a black frame. */
  function Blackened(config: Config): State
    requires ValidConfig(config)
  {
    GridIsAtLeastFour(config);
    State(config, Uniform(GridSize(config), 0.0), true, false, 0, 0)
  }

  lemma BlackenedIsReached(config: Config, now: int)
    requires ValidConfig(config)
    ensures GridSize(config) >= 4
    ensures var hs := [Configured(config), Seen(Uniform(GridSize(config), 0.0), now)];
            WellSized(hs) && Watch(hs) == Blackened(config)
  {
    GridIsAtLeastFour(config);
    var hs := [Configured(config), Seen(Uniform(GridSize(config), 0.0), now)];
    assert hs[..1] == [Configured(config)] && [Configured(config)][..0] == [];
    assert WellSized([]) && WellSized([Configured(config)]);
    assert Watch([Configured(config)]) == START.(config := config);
  }

  /** Such configurations exist: this one is accepted as it stands. */
  const KEENEST := Config(2, 2, 100.0, 10.0, 0.02, 5, 5)

  lemma KeenestIsAccepted()
    ensures Validate(KEENEST) == Ok(KEENEST) && EffectiveThreshold(KEENEST) == 2.0
  {
  }

  /** A scene that stops moving is reported still: the flag is clear on every identical frame past the
      seventeenth that comes at least the cooldown after the seventeenth. */
  lemma StillSceneClears(s: State, cells: seq<real>, times: seq<int>)
    requires Ready(s, cells) && ValidConfig(s.config) && |times| >= 18
    requires forall i, j :: 0 <= i < j < |times| ==> times[i] <= times[j]
    requires s.lastMotion <= times[0]
    requires times[|times| - 1] - times[16] >= s.config.cooldownSeconds * 1_000_000_000
    ensures !Repeat(s, cells, times).active
  {
    var last := |times| - 1;
    var before := Repeat(s, cells, times[..last]);
    LastMotionIsOld(s, cells, times[..last], times[16]);
    QuietFromEighteenth(s, cells, times[..last]);
    QuietIsNoMotion(before, cells);
  }

  lemma QuietIsNoMotion(s: State, cells: seq<real>)
    requires Ready(s, cells) && ValidConfig(s.config)
    requires ActiveCells(cells, s.baseline, EffectiveThreshold(s.config)) == 0
    ensures !InstantMotion(s.config, cells, s.baseline)
  {
  }

  lemma {:induction false} LastMotionIsOld(s: State, cells: seq<real>, times: seq<int>, limit: int)
    requires Ready(s, cells) && ValidConfig(s.config) && s.lastMotion <= limit
    requires forall i :: 0 <= i < |times| && i <= 16 ==> times[i] <= limit
    ensures Repeat(s, cells, times).lastMotion <= limit
  {
    if times != [] {
      var front := times[..|times| - 1];
      LastMotionIsOld(s, cells, front, limit);
      if |front| >= 17 {
        QuietFromEighteenth(s, cells, front);
        QuietIsNoMotion(Repeat(s, cells, front), cells);
      }
    }
  }
}
