/** What the motion detector's numbers mean: when a frame counts as motion, what the threshold does, and what a
    cell's average is an average of. */
module MotionLaws {
  import opened Bytes
  import opened Motion

  // ---------------------------------------------------------------- motion

  /** The cells that differ from the baseline by at least t, one way or the other. */
  function Differing(cells: seq<real>, baseline: seq<real>, t: real): set<nat>
    requires |cells| == |baseline|
  {
    set i: nat | i < |cells| && (cells[i] - baseline[i] >= t || baseline[i] - cells[i] >= t)
  }

  lemma {:induction false} ActiveAreDiffering(cells: seq<real>, baseline: seq<real>, t: real)
    requires |cells| == |baseline| && t > 0.0
    ensures ActiveCells(cells, baseline, t) == |Differing(cells, baseline, t)|
  {
    if cells == [] {
      assert Differing(cells, baseline, t) == {};
    } else {
      var rest := Differing(cells[1..], baseline[1..], t);
      ActiveAreDiffering(cells[1..], baseline[1..], t);
      ShiftedIs(rest);
      DifferingStep(cells, baseline, t);
      hide Differing, Shifted;
    }
  }

  lemma DifferingStep(cells: seq<real>, baseline: seq<real>, t: real)
    requires |cells| == |baseline| && cells != []
    ensures var shifted := Shifted(Differing(cells[1..], baseline[1..], t));
            && 0 !in shifted
            && Differing(cells, baseline, t) == if Abs(cells[0] - baseline[0]) >= t then shifted + {0} else shifted
  {
    var rest, all := Differing(cells[1..], baseline[1..], t), Differing(cells, baseline, t);
    ShiftedIs(rest);
    assert forall i :: 0 < i < |cells| ==> cells[1..][i - 1] == cells[i] && baseline[1..][i - 1] == baseline[i];
    forall i: nat
      ensures i in all <==> i in Shifted(rest) || (i == 0 && Abs(cells[0] - baseline[0]) >= t)
    {
      assert i > 0 ==> (i in all <==> i - 1 in rest);
    }
    hide Shifted, Differing, Abs;
  }

  /** Every number of the set, plus one. */
  function Shifted(s: set<nat>): set<nat> {
    set i | i in s :: i + 1
  }

  lemma {:induction false} ShiftedIs(s: set<nat>)
    ensures |Shifted(s)| == |s|
    ensures forall i: nat :: i in Shifted(s) <==> i > 0 && i - 1 in s
  {
    if s == {} {
      assert Shifted(s) == {};
    } else {
      var x :| x in s;
      ShiftedIs(s - {x});
      assert Shifted(s) == Shifted(s - {x}) + {x + 1};
    }
    forall i: nat
      ensures i in Shifted(s) <==> i > 0 && i - 1 in s
    {
      if i > 0 && i - 1 in s { assert (i - 1) + 1 in Shifted(s); }
    }
  }

  lemma RatioIs(n: nat, m: nat, ratio: real)
    requires m > 0
    ensures n as real / m as real >= ratio <==> n as real >= ratio * m as real
  {
    var q := n as real / m as real;
    assert q * m as real == n as real;
    if q >= ratio { MulReal(ratio, q, m as real); } else { MulRealStrict(q, ratio, m as real); }
  }

  lemma MulReal(a: real, b: real, c: real)
    requires a <= b && c >= 0.0
    ensures a * c <= b * c
  {
    assert (b - a) * c >= 0.0;
  }

  lemma MulRealStrict(a: real, b: real, c: real)
    requires a < b && c > 0.0
    ensures a * c < b * c
  {
    assert (b - a) * c > 0.0;
  }

  /** A frame that has a baseline counts as motion if and only if the cells that differ from it are at least the
      configured share of all cells. Then, and only then, it sets the flag and dates the motion; otherwise the
      date stays and the flag is not set anew. */
  lemma FrameCountsAsMotion(s: State, cells: seq<real>, now: int)
    requires s.hasBaseline && |s.baseline| == |cells| && cells != []
    ensures var moved := |Differing(cells, s.baseline, EffectiveThreshold(s.config))|;
            var next := Observe(s, cells, now);
            if moved as real >= s.config.activeRatioMin * |cells| as real
            then next.active && next.lastMotion == now
            else next.lastMotion == s.lastMotion && (next.active ==> s.active)
  {
    ShareOfCells(s.config, cells, s.baseline);
    hide ActiveCells, EffectiveThreshold, Differing, Blend, InstantMotion;
  }

  lemma ShareOfCells(c: Config, cells: seq<real>, baseline: seq<real>)
    requires |baseline| == |cells| && cells != []
    ensures InstantMotion(c, cells, baseline) <==>
            |Differing(cells, baseline, EffectiveThreshold(c))| as real >= c.activeRatioMin * |cells| as real
  {
    hide *;
    var t := EffectiveThreshold(c);
    ActiveAreDiffering(cells, baseline, t);
    MotionIsRatio(c, cells, baseline);
    RatioIs(|Differing(cells, baseline, t)|, |cells|, c.activeRatioMin);
  }

  lemma MotionIsRatio(c: Config, cells: seq<real>, baseline: seq<real>)
    requires |baseline| == |cells| && cells != []
    ensures InstantMotion(c, cells, baseline) <==>
            ActiveCells(cells, baseline, EffectiveThreshold(c)) as real / |cells| as real >= c.activeRatioMin
  {
    hide ActiveCells, EffectiveThreshold;
  }

  // ---------------------------------------------------------------- the threshold

  /** The threshold is the configured one at sensitivity 50, twice that at 0 and a fifth of it from 90 on, but
      never below 2. */
  lemma ThresholdAt(c: Config)
    requires ValidConfig(c)
    ensures var t := EffectiveThreshold(c);
            && t >= 2.0
            && (c.sensitivity == 0.0 ==> t == Max(2.0, 2.0 * c.cellThreshold))
            && (c.sensitivity == 50.0 ==> t == Max(2.0, c.cellThreshold))
            && (c.sensitivity == 75.0 ==> t == Max(2.0, 0.5 * c.cellThreshold))
            && (c.sensitivity >= 90.0 ==> t == Max(2.0, 0.2 * c.cellThreshold))
  {
  }

  /** It falls as the sensitivity rises, and rises with the configured threshold. */
  lemma ThresholdFalls(c: Config, sensitivity: real, cellThreshold: real)
    requires ValidConfig(c) && c.sensitivity <= sensitivity <= 100.0 && 0.0 < cellThreshold <= c.cellThreshold
    ensures EffectiveThreshold(c.(sensitivity := sensitivity, cellThreshold := cellThreshold)) <= EffectiveThreshold(c)
  {
    var f, f' := Max(0.2, (100.0 - c.sensitivity) / 50.0), Max(0.2, (100.0 - sensitivity) / 50.0);
    assert 0.2 <= f' <= f;
    Products(cellThreshold, c.cellThreshold, f', f);
    hide Max;
    MaxMonotone(cellThreshold * f', c.cellThreshold * f);
  }

  lemma Products(a: real, b: real, f: real, g: real)
    requires 0.0 < a <= b && 0.0 < f <= g
    ensures a * f <= b * g
  {
    MulReal(a, b, f);
    assert (g - f) * b >= 0.0;
  }

  lemma MaxMonotone(a: real, b: real)
    requires a <= b
    ensures Max(2.0, a) <= Max(2.0, b)
  {
  }

  // ---------------------------------------------------------------- samples

  /** The luminance of a pixel, 0 for one that cannot be read. */
  function Light(data: seq<byte>, width: int, height: int, channels: int, x: int, y: int): real {
    if ValidFrame(data, width, height, channels) && 0 <= x < width && 0 <= y < height
       && !(Tight(data, width, height, channels) && x == width - 1 && y == height - 1)
    then Luminance(data, width, height, channels, x, y) else 0.0
  }

  /** The pixel's bytes stand behind one another at its place in row order; one channel is the luminance, and
      otherwise red, green and blue have the weights of ITU-R BT.601. */
  lemma LightIs(data: seq<byte>, width: int, height: int, channels: int, x: int, y: int)
    requires ValidFrame(data, width, height, channels) && 0 <= x < width && 0 <= y < height && channels != 2
    ensures var at := (y * width + x) * channels;
            && 0 <= at && at + channels <= |data|
            && Light(data, width, height, channels, x, y) ==
               if channels == 1 then data[at] as real
               else 0.299 * data[at] as real + 0.587 * data[at + 1] as real + 0.114 * data[at + 2] as real
  {
    PixelInBounds(data, width, height, channels, x, y);
    Distribute(y * width, x, channels);
  }

  /** The second frame is the first but for pixel (px, py), which is lighter by d. */
  ghost predicate Lighter(
    data: seq<byte>, data': seq<byte>, width: int, height: int, channels: int, px: int, py: int, d: real)
  {
    forall x, y :: Light(data', width, height, channels, x, y) ==
      Light(data, width, height, channels, x, y) + if x == px && y == py then d else 0.0
  }

  /** Every second position from `from` and below `end`. */
  predicate Steps(from: int, end: int, i: int) {
    from <= i < end && (i - from) % STEP == 0
  }

  lemma {:induction false} SampleCountIs(from: int, end: int)
    requires from <= end + 1
    ensures SampleCount(from, end) == (end - from + 1) / 2
    decreases end - from
  {
    if from < end { SampleCountIs(from + STEP, end); }
  }

  lemma {:induction false} CellCountIs(a: Area, y: int)
    requires a.xStart <= a.xEnd + 1 && y <= a.yEnd + 1
    ensures CellCount(a, y) == ((a.xEnd - a.xStart + 1) / 2) * ((a.yEnd - y + 1) / 2)
    decreases a.yEnd - y
  {
    SampleCountIs(a.xStart, a.xEnd);
    if y < a.yEnd {
      CellCountIs(a, y + STEP);
      var n, m := (a.xEnd - a.xStart + 1) / 2, (a.yEnd - (y + STEP) + 1) / 2;
      assert (a.yEnd - y + 1) / 2 == m + 1;
      Distribute(m, 1, n);
    }
  }

  lemma {:induction false} RowLighter(
    data: seq<byte>, data': seq<byte>, width: int, height: int, channels: int, y: int, x: int, xEnd: int,
    px: int, py: int, d: real)
    requires ValidFrame(data, width, height, channels) && ValidFrame(data', width, height, channels)
    requires 0 <= x && xEnd <= width && 0 <= y < height
    requires !(Tight(data, width, height, channels) && y == height - 1 && ReachesLast(x, xEnd, width))
    requires !(Tight(data', width, height, channels) && y == height - 1 && ReachesLast(x, xEnd, width))
    requires Lighter(data, data', width, height, channels, px, py, d)
    ensures RowSum(data', width, height, channels, y, x, xEnd) ==
            RowSum(data, width, height, channels, y, x, xEnd) + if y == py && Steps(x, xEnd, px) then d else 0.0
    decreases xEnd - x
  {
    hide Luminance, ValidFrame, Tight;
    if x < xEnd {
      RowLighter(data, data', width, height, channels, y, x + STEP, xEnd, px, py, d);
      assert Light(data', width, height, channels, x, y) ==
        Light(data, width, height, channels, x, y) + if x == px && y == py then d else 0.0;
      LightInRow(data, width, height, channels, y, x, xEnd);
      LightInRow(data', width, height, channels, y, x, xEnd);
    }
  }

  lemma LightInRow(data: seq<byte>, width: int, height: int, channels: int, y: int, x: int, xEnd: int)
    requires ValidFrame(data, width, height, channels) && 0 <= x < xEnd && xEnd <= width && 0 <= y < height
    requires !(Tight(data, width, height, channels) && y == height - 1 && ReachesLast(x, xEnd, width))
    ensures RowSum(data, width, height, channels, y, x, xEnd) ==
            Light(data, width, height, channels, x, y) + RowSum(data, width, height, channels, y, x + STEP, xEnd)
  {
    hide Luminance;
  }

  /** The rows of the area from y down may be sampled. */
  predicate MayRead(data: seq<byte>, width: int, height: int, channels: int, a: Area, y: int) {
    !(&& Tight(data, width, height, channels)
      && ReachesLast(a.xStart, a.xEnd, width) && ReachesLast(y, a.yEnd, height))
  }

  lemma MayReadOn(data: seq<byte>, width: int, height: int, channels: int, a: Area, y: int)
    requires MayRead(data, width, height, channels, a, y) && y < a.yEnd
    ensures MayRead(data, width, height, channels, a, y + STEP)
    ensures !(Tight(data, width, height, channels) && y == height - 1 && a.yEnd <= height
              && ReachesLast(a.xStart, a.xEnd, width))
  {
    hide Tight;
  }

  lemma CellStep(data: seq<byte>, width: int, height: int, channels: int, a: Area, y: int)
    requires ValidFrame(data, width, height, channels) && MayRead(data, width, height, channels, a, y)
    requires 0 <= a.xStart && a.xEnd <= width && 0 <= y < a.yEnd <= height
    ensures MayRead(data, width, height, channels, a, y + STEP)
    ensures !(Tight(data, width, height, channels) && y == height - 1 && ReachesLast(a.xStart, a.xEnd, width))
    ensures CellSum(data, width, height, channels, a, y) ==
            RowSum(data, width, height, channels, y, a.xStart, a.xEnd)
            + CellSum(data, width, height, channels, a, y + STEP)
  {
    MayReadOn(data, width, height, channels, a, y);
    hide ValidFrame, Tight, RowSum;
  }

  lemma {:induction false} CellLighter(
    data: seq<byte>, data': seq<byte>, width: int, height: int, channels: int, a: Area, y: int,
    px: int, py: int, d: real)
    requires ValidFrame(data, width, height, channels) && ValidFrame(data', width, height, channels)
    requires 0 <= a.xStart && a.xEnd <= width && 0 <= y && a.yEnd <= height
    requires MayRead(data, width, height, channels, a, y) && MayRead(data', width, height, channels, a, y)
    requires Lighter(data, data', width, height, channels, px, py, d)
    ensures CellSum(data', width, height, channels, a, y) ==
            CellSum(data, width, height, channels, a, y)
            + if Steps(y, a.yEnd, py) && Steps(a.xStart, a.xEnd, px) then d else 0.0
    decreases a.yEnd - y
  {
    hide ValidFrame, Lighter;
    if y < a.yEnd {
      MayReadOn(data, width, height, channels, a, y);
      MayReadOn(data', width, height, channels, a, y);
      CellStep(data, width, height, channels, a, y);
      CellStep(data', width, height, channels, a, y);
      assert Steps(y, a.yEnd, py) <==> y == py || Steps(y + STEP, a.yEnd, py);
      hide MayRead, CellSum, RowSum, Steps, Tight, ReachesLast;
      RowLighter(data, data', width, height, channels, y, a.xStart, a.xEnd, px, py, d);
      CellLighter(data, data', width, height, channels, a, y + STEP, px, py, d);
    }
  }

  /** How many pixels a cell samples. */
  function Samples(c: Config, width: int, height: int): int
    requires GridFits(c, width, height)
  {
    ((width / c.columns + 1) / 2) * ((height / c.rows + 1) / 2)
  }

  /** The pixel is one of those the cell samples. */
  predicate SampledIn(c: Config, width: int, height: int, cx: int, cy: int, px: int, py: int)
    requires GridFits(c, width, height)
  {
    var cellW, cellH := width / c.columns, height / c.rows;
    Steps(cx * cellW, cx * cellW + cellW, px) && Steps(cy * cellH, cy * cellH + cellH, py)
  }

  lemma CellIsSumByCount(
    data: seq<byte>, width: int, height: int, channels: int, c: Config, cx: int, cy: int)
    requires ValidFrame(data, width, height, channels) && GridFits(c, width, height)
    requires Readable(data, width, height, channels, c) && 0 <= cx < c.columns && 0 <= cy < c.rows
    ensures var a, y := CellArea(c, width, height, cx, cy), cy * (height / c.rows);
            && 0 <= a.xStart && a.xEnd <= width && 0 <= y && a.yEnd <= height && Samples(c, width, height) > 0
            && MayRead(data, width, height, channels, a, y)
            && CellAverage(data, width, height, channels, c, cx, cy) ==
               CellSum(data, width, height, channels, a, y) / Samples(c, width, height) as real
  {
    AreaInFrame(c, width, height, cx, cy);
    CellReadable(data, width, height, channels, c, cx, cy);
    CountIsSamples(c, width, height, cx, cy);
    hide ValidFrame, Tight, Readable, CellSum, ReachesLast, CellCount, Samples;
  }

  /** A cell's average is the mean of the pixels it samples: making one pixel of the frame lighter by d raises
      the average of a cell that samples it by d divided by the number of samples, and of no other cell. */
  lemma AverageIsMean(
    data: seq<byte>, data': seq<byte>, width: int, height: int, channels: int, c: Config, cx: int, cy: int,
    px: int, py: int, d: real)
    requires ValidFrame(data, width, height, channels) && ValidFrame(data', width, height, channels)
    requires GridFits(c, width, height) && 0 <= cx < c.columns && 0 <= cy < c.rows
    requires Readable(data, width, height, channels, c) && Readable(data', width, height, channels, c)
    requires Lighter(data, data', width, height, channels, px, py, d)
    ensures Samples(c, width, height) > 0
    ensures CellAverage(data', width, height, channels, c, cx, cy) ==
            CellAverage(data, width, height, channels, c, cx, cy)
            + if SampledIn(c, width, height, cx, cy, px, py) then d / Samples(c, width, height) as real else 0.0
  {
    CellIsSumByCount(data, width, height, channels, c, cx, cy);
    CellIsSumByCount(data', width, height, channels, c, cx, cy);
    var a, y := CellArea(c, width, height, cx, cy), cy * (height / c.rows);
    CellLighter(data, data', width, height, channels, a, y, px, py, d);
    var n := Samples(c, width, height) as real;
    var sum := CellSum(data, width, height, channels, a, y);
    assert SampledIn(c, width, height, cx, cy, px, py) <==> Steps(y, a.yEnd, py) && Steps(a.xStart, a.xEnd, px);
    hide ValidFrame, Tight, Readable, CellSum, CellAverage, Lighter, ReachesLast, GridFits, SampledIn, Samples;
    SumOfQuotients(sum, d, n);
  }

  lemma SumOfQuotients(a: real, b: real, n: real)
    requires n > 0.0
    ensures (a + b) / n == a / n + b / n && (a + 0.0) / n == a / n + 0.0
  {
  }

  lemma {:induction false} RowUniform(
    data: seq<byte>, width: int, height: int, channels: int, y: int, x: int, xEnd: int, v: real)
    requires ValidFrame(data, width, height, channels) && 0 <= x && xEnd <= width && 0 <= y < height
    requires !(Tight(data, width, height, channels) && y == height - 1 && ReachesLast(x, xEnd, width))
    requires forall i :: Steps(x, xEnd, i) ==> Light(data, width, height, channels, i, y) == v
    ensures RowSum(data, width, height, channels, y, x, xEnd) == Total(v, SampleCount(x, xEnd))
    decreases xEnd - x
  {
    hide ValidFrame, Tight, Light, Total;
    if x < xEnd {
      assert Steps(x, xEnd, x);
      assert forall i :: Steps(x + STEP, xEnd, i) ==> Steps(x, xEnd, i);
      LightInRow(data, width, height, channels, y, x, xEnd);
      Totals(v, 1, SampleCount(x + STEP, xEnd));
      hide Steps, RowSum;
      RowUniform(data, width, height, channels, y, x + STEP, xEnd, v);
    } else {
      Totals(v, 0, 0);
    }
  }

  /** n samples of v. */
  function Total(v: real, n: nat): real {
    v * n as real
  }

  lemma Totals(v: real, n: nat, m: nat)
    ensures Total(v, 0) == 0.0 && Total(v, 1) == v && Total(v, n) + Total(v, m) == Total(v, n + m)
  {
    assert v * n as real + v * m as real == v * (n as real + m as real);
  }

  /** The sampled pixels of the area from row y down all have luminance v. */
  ghost predicate AreaLit(
    data: seq<byte>, width: int, height: int, channels: int, a: Area, y: int, v: real)
  {
    forall i, j :: Steps(a.xStart, a.xEnd, i) && Steps(y, a.yEnd, j) ==>
      Light(data, width, height, channels, i, j) == v
  }

  lemma {:induction false} CellUniform(
    data: seq<byte>, width: int, height: int, channels: int, a: Area, y: int, v: real)
    requires ValidFrame(data, width, height, channels)
    requires 0 <= a.xStart && a.xEnd <= width && 0 <= y && a.yEnd <= height
    requires MayRead(data, width, height, channels, a, y) && AreaLit(data, width, height, channels, a, y, v)
    ensures CellSum(data, width, height, channels, a, y) == Total(v, CellCount(a, y))
    decreases a.yEnd - y
  {
    hide ValidFrame, Light, Total;
    if y < a.yEnd {
      NextRowLit(data, width, height, channels, a, y, v);
      CellStep(data, width, height, channels, a, y);
      hide MayRead, CellSum, RowSum, Tight, ReachesLast, AreaLit, Steps, SampleCount;
      RowUniform(data, width, height, channels, y, a.xStart, a.xEnd, v);
      CellUniform(data, width, height, channels, a, y + STEP, v);
      Totals(v, SampleCount(a.xStart, a.xEnd), CellCount(a, y + STEP));
    } else {
      Totals(v, 0, 0);
    }
  }

  lemma NextRowLit(data: seq<byte>, width: int, height: int, channels: int, a: Area, y: int, v: real)
    requires AreaLit(data, width, height, channels, a, y, v) && y < a.yEnd
    ensures AreaLit(data, width, height, channels, a, y + STEP, v)
    ensures forall i :: Steps(a.xStart, a.xEnd, i) ==> Light(data, width, height, channels, i, y) == v
  {
    hide Light;
    assert Steps(y, a.yEnd, y);
    assert forall j :: Steps(y + STEP, a.yEnd, j) ==> Steps(y, a.yEnd, j);
  }

  /** A cell whose sampled pixels all have the same luminance averages to it. */
  lemma UniformCell(
    data: seq<byte>, width: int, height: int, channels: int, c: Config, cx: int, cy: int, v: real)
    requires ValidFrame(data, width, height, channels) && GridFits(c, width, height)
    requires Readable(data, width, height, channels, c) && 0 <= cx < c.columns && 0 <= cy < c.rows
    requires forall px, py :: SampledIn(c, width, height, cx, cy, px, py) ==>
               Light(data, width, height, channels, px, py) == v
    ensures CellAverage(data, width, height, channels, c, cx, cy) == v
  {
    hide *;
    CellIsSumByCount(data, width, height, channels, c, cx, cy);
    CountIsSamples(c, width, height, cx, cy);
    AreaOfCell(data, width, height, channels, c, cx, cy, v);
    var a, y := CellArea(c, width, height, cx, cy), cy * (height / c.rows);
    CellUniform(data, width, height, channels, a, y, v);
    TotalOver(v, Samples(c, width, height));
  }

  lemma CountIsSamples(c: Config, width: int, height: int, cx: int, cy: int)
    requires GridFits(c, width, height) && 0 <= cx < c.columns && 0 <= cy < c.rows
    ensures Samples(c, width, height) > 0
    ensures CellCount(CellArea(c, width, height, cx, cy), cy * (height / c.rows)) == Samples(c, width, height)
  {
    AreaInFrame(c, width, height, cx, cy);
    CellCountIs(CellArea(c, width, height, cx, cy), cy * (height / c.rows));
    hide CellCount;
  }

  lemma AreaOfCell(
    data: seq<byte>, width: int, height: int, channels: int, c: Config, cx: int, cy: int, v: real)
    requires GridFits(c, width, height)
    requires forall px, py :: SampledIn(c, width, height, cx, cy, px, py) ==>
               Light(data, width, height, channels, px, py) == v
    ensures AreaLit(data, width, height, channels, CellArea(c, width, height, cx, cy), cy * (height / c.rows), v)
  {
    var a, y := CellArea(c, width, height, cx, cy), cy * (height / c.rows);
    hide Light, Steps;
    forall i, j | Steps(a.xStart, a.xEnd, i) && Steps(y, a.yEnd, j)
      ensures Light(data, width, height, channels, i, j) == v
    {
      assert SampledIn(c, width, height, cx, cy, i, j);
    }
  }

  lemma TotalOver(v: real, n: nat)
    requires n > 0
    ensures Total(v, n) / n as real == v
  {
  }

  /** The cells of a frame stand row by row. */
  lemma CellsAreRowByRow(data: seq<byte>, width: int, height: int, channels: int, c: Config, cx: int, cy: int)
    requires ValidFrame(data, width, height, channels) && GridFits(c, width, height)
    requires Readable(data, width, height, channels, c) && 0 <= cx < c.columns && 0 <= cy < c.rows
    ensures 0 <= cy * c.columns + cx < |Cells(data, width, height, channels, c)|
    ensures Cells(data, width, height, channels, c)[cy * c.columns + cx]
         == CellAverage(data, width, height, channels, c, cx, cy)
  {
    CellIndex(c, cx, cy);
    hide CellAverage, Readable, ValidFrame;
  }

  // ---------------------------------------------------------------- configurations

  /** An accepted configuration keeps its grid and sensitivity, and every other field that is in range; a field
      out of range takes its default. */
  lemma ValidatedFields(c: Config)
    requires Validate(c).Ok?
    ensures var v := Validate(c).value;
            && v.columns == c.columns && v.rows == c.rows && v.sensitivity == c.sensitivity
            && v.cellThreshold == (if c.cellThreshold > 0.0 then c.cellThreshold else 18.0)
            && v.activeRatioMin == (if 0.0 < c.activeRatioMin <= 1.0 then c.activeRatioMin else 0.02)
            && v.cooldownSeconds == (if c.cooldownSeconds > 0 then c.cooldownSeconds else 5)
            && v.preBufferSec == (if c.preBufferSec > 0 then c.preBufferSec else 5)
  {
  }
}
