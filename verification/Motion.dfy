/** The cell motion detector of one stream: subsampled cell averages, a moving baseline, and a motion
    flag with cooldown. Intensities are reals; times are nanoseconds. */
module Motion {
  import opened Bytes

  const NANOS_PER_SECOND: int := 1_000_000_000
  const STEP: nat := 2

  datatype Config = Config(
    columns: int, rows: int, sensitivity: real, cellThreshold: real, activeRatioMin: real,
    cooldownSeconds: int, preBufferSec: int)

  const DEFAULT_CONFIG := Config(16, 12, 75.0, 18.0, 0.02, 5, 5)

  datatype Error = InvalidGridDimensions | InvalidSensitivity | InvalidFrameDimensions | InvalidFrameBuffer
    | IndexOutOfRange  // the run-time panic of a read past the buffer

  datatype Result<+T> = Ok(value: T) | Err(error: Error)

  predicate ValidConfig(c: Config) {
    && 2 <= c.columns <= 64 && 2 <= c.rows <= 64 && 0.0 <= c.sensitivity <= 100.0
    && c.cellThreshold > 0.0 && 0.0 < c.activeRatioMin <= 1.0 && c.cooldownSeconds > 0 && c.preBufferSec > 0
  }

  /** Validate: refuses a bad grid or sensitivity and replaces the other fields when out of range. */
  function Validate(c: Config): (r: Result<Config>)
    ensures r.Ok? ==> ValidConfig(r.value)
    ensures ValidConfig(c) ==> r == Ok(c)
    ensures r.Err? <==> !(2 <= c.columns <= 64 && 2 <= c.rows <= 64 && 0.0 <= c.sensitivity <= 100.0)
  {
    if c.columns < 2 || c.columns > 64 || c.rows < 2 || c.rows > 64 then Err(InvalidGridDimensions)
    else if c.sensitivity < 0.0 || c.sensitivity > 100.0 then Err(InvalidSensitivity)
    else Ok(c.(
      cellThreshold := if c.cellThreshold <= 0.0 then 18.0 else c.cellThreshold,
      activeRatioMin := if c.activeRatioMin <= 0.0 || c.activeRatioMin > 1.0 then 0.02 else c.activeRatioMin,
      cooldownSeconds := if c.cooldownSeconds <= 0 then 5 else c.cooldownSeconds,
      preBufferSec := if c.preBufferSec <= 0 then 5 else c.preBufferSec))
  }

  // ---------------------------------------------------------------- sampling

  /** A frame buffer long enough for its dimensions. */
  predicate ValidFrame(data: seq<byte>, width: int, height: int, channels: int) {
    width > 0 && height > 0 && channels > 0 && |data| >= width * height * channels
  }

  /** A two-channel buffer with nothing behind its last pixel. Two channels are sampled as if they were
      three, so the last pixel must not be sampled. */
  predicate Tight(data: seq<byte>, width: int, height: int, channels: int) {
    channels == 2 && |data| == width * height * channels
  }

  /** Every second number from `from` and below `end` reaches the last one below n. */
  predicate ReachesLast(from: int, end: int, n: int) {
    from < end == n && (n - 1 - from) % STEP == 0
  }

  lemma MulMono(a: int, b: int, c: int)
    requires 0 <= a <= b && 0 <= c
    ensures a * c <= b * c && 0 <= a * c
  {
  }

  lemma PixelIndex(width: int, height: int, x: int, y: int)
    requires 0 <= x < width && 0 <= y < height
    ensures 0 <= y * width && y * width + x + 1 <= width * height
  {
    MulMono(y, height - 1, width);
    assert (height - 1) * width == height * width - width;
  }

  lemma Scaled(pixel: int, total: int, channels: int)
    requires 0 <= pixel && pixel + 1 <= total && 0 < channels
    ensures 0 <= pixel * channels && pixel * channels + channels <= total * channels
  {
    MulMono(pixel + 1, total, channels);
    assert (pixel + 1) * channels == pixel * channels + channels;
    MulMono(0, pixel, channels);
  }

  lemma Distribute(a: int, b: int, c: int)
    ensures (a + b) * c == a * c + b * c
  {
  }

  /** Every byte of every pixel inside the frame is inside the buffer. */
  lemma PixelInBounds(data: seq<byte>, width: int, height: int, channels: int, x: int, y: int)
    requires ValidFrame(data, width, height, channels) && 0 <= x < width && 0 <= y < height
    ensures 0 <= y * width * channels + x * channels
    ensures y * width * channels + x * channels + channels <= |data|
  {
    PixelIndex(width, height, x, y);
    Scaled(y * width + x, width * height, channels);
    Distribute(y * width, x, channels);
  }

  /** With two channels, the byte behind any pixel but the last is inside the buffer too. */
  lemma BehindInBounds(data: seq<byte>, width: int, height: int, x: int, y: int)
    requires ValidFrame(data, width, height, 2) && 0 <= x < width && 0 <= y < height
    requires !(Tight(data, width, height, 2) && x == width - 1 && y == height - 1)
    ensures y * width * 2 + x * 2 + 2 < |data|
  {
    PixelIndex(width, height, x, y);
    Distribute(y * width, x, 2);
    if y * width + x + 1 == width * height && |data| == width * height * 2 {
      MulMono(y + 1, height, width);
      if y < height - 1 { MulMono(y + 2, height, width); }
    }
  }

  /** Intensity of the pixel: its only channel, or its ITU-R BT.601 luminance. */
  function Luminance(data: seq<byte>, width: int, height: int, channels: int, x: int, y: int): (v: real)
    requires ValidFrame(data, width, height, channels) && 0 <= x < width && 0 <= y < height
    requires !(Tight(data, width, height, channels) && x == width - 1 && y == height - 1)
    ensures 0.0 <= v <= 255.0
  {
    ReadInBounds(data, width, height, channels, x, y);
    var offset := y * width * channels + x * channels;
    if channels == 1 then data[offset] as real
    else 0.299 * data[offset] as real + 0.587 * data[offset + 1] as real + 0.114 * data[offset + 2] as real
  }

  /** How far behind the start of a pixel it is read. */
  function Reach(channels: int): (r: nat) {
    if channels == 1 then 0 else 2
  }

  lemma ReadInBounds(data: seq<byte>, width: int, height: int, channels: int, x: int, y: int)
    requires ValidFrame(data, width, height, channels) && 0 <= x < width && 0 <= y < height
    requires !(Tight(data, width, height, channels) && x == width - 1 && y == height - 1)
    ensures 0 <= y * width * channels + x * channels
    ensures y * width * channels + x * channels + Reach(channels) < |data|
  {
    PixelInBounds(data, width, height, channels, x, y);
    if channels == 2 { BehindInBounds(data, width, height, x, y); }
  }

  /** Sum and number of the samples of one row, every second pixel from `x`. */
  function RowSum(data: seq<byte>, width: int, height: int, channels: int, y: int, x: int, xEnd: int): real
    requires ValidFrame(data, width, height, channels) && 0 <= x && xEnd <= width && 0 <= y < height
    requires !(Tight(data, width, height, channels) && y == height - 1 && ReachesLast(x, xEnd, width))
    decreases xEnd - x
  {
    if x >= xEnd then 0.0
    else Luminance(data, width, height, channels, x, y) + RowSum(data, width, height, channels, y, x + STEP, xEnd)
  }

  function SampleCount(from: int, end: int): (n: nat)
    ensures n > 0 <==> from < end
    decreases end - from
  {
    if from >= end then 0 else 1 + SampleCount(from + STEP, end)
  }

  datatype Area = Area(xStart: int, xEnd: int, yEnd: int)

  /** Sum and number of the samples of a cell from row `y` down. */
  function CellSum(data: seq<byte>, width: int, height: int, channels: int, a: Area, y: int): real
    requires ValidFrame(data, width, height, channels)
    requires 0 <= a.xStart && a.xEnd <= width && 0 <= y && a.yEnd <= height
    requires !(&& Tight(data, width, height, channels)
               && ReachesLast(a.xStart, a.xEnd, width) && ReachesLast(y, a.yEnd, height))
    decreases a.yEnd - y
  {
    if y >= a.yEnd then 0.0
    else RowSum(data, width, height, channels, y, a.xStart, a.xEnd)
         + CellSum(data, width, height, channels, a, y + STEP)
  }

  function CellCount(a: Area, y: int): (n: nat)
    ensures a.xStart < a.xEnd && y < a.yEnd ==> n > 0
    decreases a.yEnd - y
  {
    if y >= a.yEnd then 0 else SampleCount(a.xStart, a.xEnd) + CellCount(a, y + STEP)
  }

  lemma {:induction false} RowSumRange(
    data: seq<byte>, width: int, height: int, channels: int, y: int, x: int, xEnd: int)
    requires ValidFrame(data, width, height, channels) && 0 <= x && xEnd <= width && 0 <= y < height
    requires !(Tight(data, width, height, channels) && y == height - 1 && ReachesLast(x, xEnd, width))
    ensures 0.0 <= RowSum(data, width, height, channels, y, x, xEnd) <= 255.0 * SampleCount(x, xEnd) as real
    decreases xEnd - x
  {
    hide Luminance, ValidFrame, Tight;
    if x < xEnd { RowSumRange(data, width, height, channels, y, x + STEP, xEnd); }
  }

  lemma {:induction false} CellSumRange(data: seq<byte>, width: int, height: int, channels: int, a: Area, y: int)
    requires ValidFrame(data, width, height, channels)
    requires 0 <= a.xStart && a.xEnd <= width && 0 <= y && a.yEnd <= height
    requires !(&& Tight(data, width, height, channels)
               && ReachesLast(a.xStart, a.xEnd, width) && ReachesLast(y, a.yEnd, height))
    ensures 0.0 <= CellSum(data, width, height, channels, a, y) <= 255.0 * CellCount(a, y) as real
    decreases a.yEnd - y
  {
    hide ValidFrame, Tight;
    if y < a.yEnd {
      RowSumRange(data, width, height, channels, y, a.xStart, a.xEnd);
      CellSumRange(data, width, height, channels, a, y + STEP);
    }
  }

  /** The grid divides the frame into cells of at least one pixel. */
  predicate GridFits(c: Config, width: int, height: int) {
    ValidConfig(c) && width / c.columns > 0 && height / c.rows > 0
  }

  function CellArea(c: Config, width: int, height: int, cx: int, cy: int): Area
    requires GridFits(c, width, height)
  {
    var cellW, cellH := width / c.columns, height / c.rows;
    Area(cx * cellW, cx * cellW + cellW, cy * cellH + cellH)
  }

  lemma AreaInFrame(c: Config, width: int, height: int, cx: int, cy: int)
    requires GridFits(c, width, height) && 0 <= cx < c.columns && 0 <= cy < c.rows
    ensures var a := CellArea(c, width, height, cx, cy);
            && 0 <= a.xStart < a.xEnd <= width
            && 0 <= cy * (height / c.rows) < a.yEnd <= height
  {
    SliceInside(width, c.columns, cx);
    SliceInside(height, c.rows, cy);
  }

  lemma SliceInside(n: int, parts: int, i: int)
    requires 0 < parts && 0 <= i < parts && n / parts > 0
    ensures 0 <= i * (n / parts) && i * (n / parts) + n / parts <= n
  {
    var size := n / parts;
    MulMono(i + 1, parts, size);
    assert (i + 1) * size == i * size + size;
    assert parts * size <= n;
    MulMono(0, i, size);
  }

  /** The last of `n` positions is sampled when they are divided into `parts` cells. */
  predicate LastSampled(n: int, parts: int)
    requires parts > 0
  {
    n % parts == 0 && (n / parts) % STEP == 1
  }

  /** No read goes past the buffer. */
  predicate Readable(data: seq<byte>, width: int, height: int, channels: int, c: Config)
    requires ValidConfig(c)
  {
    !(Tight(data, width, height, channels) && LastSampled(width, c.columns) && LastSampled(height, c.rows))
  }

  /** A cell that reaches the last position is the last cell, and the last position is sampled. */
  lemma ReachingCell(n: int, parts: int, i: int)
    requires 0 < parts && 0 <= i < parts && n / parts > 0
    requires ReachesLast(i * (n / parts), i * (n / parts) + n / parts, n)
    ensures LastSampled(n, parts)
  {
    var size := n / parts;
    MulMono(i + 1, parts, size);
    assert (i + 1) * size == i * size + size;
    assert n == parts * size + n % parts;
  }

  /** The average intensity of a cell. */
  function CellAverage(data: seq<byte>, width: int, height: int, channels: int, c: Config, cx: int, cy: int): (v: real)
    requires ValidFrame(data, width, height, channels) && GridFits(c, width, height)
    requires Readable(data, width, height, channels, c) && 0 <= cx < c.columns && 0 <= cy < c.rows
    ensures 0.0 <= v <= 255.0
  {
    AreaInFrame(c, width, height, cx, cy);
    CellReadable(data, width, height, channels, c, cx, cy);
    var a := CellArea(c, width, height, cx, cy);
    var y := cy * (height / c.rows);
    CellSumRange(data, width, height, channels, a, y);
    var sum, count := CellSum(data, width, height, channels, a, y), CellCount(a, y);
    AverageRange(sum, count as real);
    sum / count as real
  }

  lemma CellReadable(data: seq<byte>, width: int, height: int, channels: int, c: Config, cx: int, cy: int)
    requires GridFits(c, width, height) && Readable(data, width, height, channels, c)
    requires 0 <= cx < c.columns && 0 <= cy < c.rows
    ensures var a := CellArea(c, width, height, cx, cy);
            !(&& Tight(data, width, height, channels)
              && ReachesLast(a.xStart, a.xEnd, width) && ReachesLast(cy * (height / c.rows), a.yEnd, height))
  {
    hide Tight, LastSampled;
    var a := CellArea(c, width, height, cx, cy);
    if ReachesLast(a.xStart, a.xEnd, width) { ReachingCell(width, c.columns, cx); }
    if ReachesLast(cy * (height / c.rows), a.yEnd, height) { ReachingCell(height, c.rows, cy); }
  }

  lemma AverageRange(sum: real, count: real)
    requires count > 0.0 && 0.0 <= sum <= 255.0 * count
    ensures 0.0 <= sum / count <= 255.0
  {
  }

  predicate Intensities(cells: seq<real>) {
    forall i :: 0 <= i < |cells| ==> 0.0 <= cells[i] <= 255.0
  }

  // ---------------------------------------------------------------- baseline and flag

  function Max(a: real, b: real): real { if a > b then a else b }

  function Abs(v: real): real { if v < 0.0 then -v else v }

  function EffectiveThreshold(c: Config): (t: real)
    ensures t >= 2.0
  {
    Max(2.0, c.cellThreshold * Max(0.2, (100.0 - c.sensitivity) / 50.0))
  }

  function ActiveCells(cells: seq<real>, baseline: seq<real>, threshold: real): (n: nat)
    requires |cells| == |baseline|
    ensures n <= |cells|
  {
    if cells == [] then 0
    else (if Abs(cells[0] - baseline[0]) >= threshold then 1 else 0) + ActiveCells(cells[1..], baseline[1..], threshold)
  }

  /** The moving average with weight 1/4. */
  function Blend(cells: seq<real>, baseline: seq<real>): (r: seq<real>)
    requires |cells| == |baseline|
    ensures |r| == |cells| && forall i :: 0 <= i < |r| ==> r[i] == (1.0 - 0.25) * baseline[i] + 0.25 * cells[i]
  {
    if cells == [] then [] else [(1.0 - 0.25) * baseline[0] + 0.25 * cells[0]] + Blend(cells[1..], baseline[1..])
  }

  datatype State = State(
    config: Config, baseline: seq<real>, hasBaseline: bool, active: bool, lastMotion: int, motionStart: int)

  /** Enough cells differ from the baseline. */
  predicate InstantMotion(c: Config, cells: seq<real>, baseline: seq<real>)
    requires |cells| == |baseline| && cells != []
  {
    ActiveCells(cells, baseline, EffectiveThreshold(c)) as real / |cells| as real >= c.activeRatioMin
  }

  /** The state after a frame whose cell averages are `cells`. */
  function Observe(s: State, cells: seq<real>, now: int): State
    requires cells != []
  {
    if !s.hasBaseline || |s.baseline| != |cells| then s.(baseline := cells, hasBaseline := true, active := false)
    else
      var next := s.(baseline := Blend(cells, s.baseline));
      if InstantMotion(s.config, cells, s.baseline) then
        next.(lastMotion := now, active := true, motionStart := if s.active then s.motionStart else now)
      else if s.active && now - s.lastMotion >= s.config.cooldownSeconds * NANOS_PER_SECOND then next.(active := false)
      else next
  }

  /** What a frame's event says: how many cells there are and how many differ from the baseline, as a share
      too, and whether motion is on and since when. */
  predicate Reports(e: Event, before: State, cells: seq<real>, after: State, now: int) {
    && e.totalCells == |cells|
    && e.activeCells ==
       (if before.hasBaseline && |before.baseline| == |cells|
        then ActiveCells(cells, before.baseline, EffectiveThreshold(before.config)) else 0)
    && e.activeRatio * |cells| as real == e.activeCells as real
    && e.isMotionActive == after.active
    && e.durationNanos == if after.active then now - after.motionStart else 0
  }

  datatype Event = Event(activeCells: nat, totalCells: nat, activeRatio: real, isMotionActive: bool, durationNanos: int)

  /** The cell averages of a frame, row by row. */
  function Cells(data: seq<byte>, width: int, height: int, channels: int, c: Config): (cells: seq<real>)
    requires ValidFrame(data, width, height, channels) && GridFits(c, width, height)
    requires Readable(data, width, height, channels, c)
    ensures |cells| == c.columns * c.rows
  {
    MulMono(1, c.columns, c.rows);
    seq(c.columns * c.rows, i requires 0 <= i < c.columns * c.rows => CellAt(data, width, height, channels, c, i))
  }

  function CellAt(data: seq<byte>, width: int, height: int, channels: int, c: Config, i: int): (v: real)
    requires ValidFrame(data, width, height, channels) && GridFits(c, width, height)
    requires Readable(data, width, height, channels, c)
    requires 0 <= i < c.columns * c.rows
    ensures 0.0 <= v <= 255.0
  {
    CellPosition(c, i);
    CellAverage(data, width, height, channels, c, i % c.columns, i / c.columns)
  }

  lemma CellPosition(c: Config, i: int)
    requires ValidConfig(c) && 0 <= i < c.columns * c.rows
    ensures 0 <= i % c.columns < c.columns && 0 <= i / c.columns < c.rows
  {
    QuotientBelow(i, c.columns, c.rows);
  }

  lemma QuotientBelow(i: int, d: int, n: int)
    requires 0 < d && 0 <= i < d * n
    ensures 0 <= i / d < n
  {
    var q := i / d;
    assert i == d * q + i % d;
    if q >= n && n >= 0 { MulMono(n, q, d); }
  }

  lemma CellIndex(c: Config, cx: int, cy: int)
    requires ValidConfig(c) && 0 <= cx < c.columns && 0 <= cy < c.rows
    ensures var i := cy * c.columns + cx;
            0 <= i < c.columns * c.rows && i % c.columns == cx && i / c.columns == cy
  {
    PixelIndex(c.columns, c.rows, cx, cy);
    ModUnique(cy * c.columns + cx, c.columns, cy, cx);
  }

  /** The averages and the baseline stay intensities, whatever frames are observed. */
  lemma ObserveKeepsRange(s: State, cells: seq<real>, now: int)
    requires cells != [] && Intensities(cells) && (s.hasBaseline ==> Intensities(s.baseline))
    ensures Observe(s, cells, now).hasBaseline && Intensities(Observe(s, cells, now).baseline)
    ensures |Observe(s, cells, now).baseline| == |cells|
  {
  }

  lemma CellsAreIntensities(data: seq<byte>, width: int, height: int, channels: int, c: Config)
    requires ValidFrame(data, width, height, channels) && GridFits(c, width, height)
    requires Readable(data, width, height, channels, c)
    ensures Intensities(Cells(data, width, height, channels, c))
  {
  }

  /** The state kept for a stream. */
  class StreamMotionState {
    var config: Config
    var prevCellValues: array<real>
    var hasBaseline: bool
    var isMotionActive: bool
    var lastMotionTime: int
    var motionStart: int

    ghost predicate Valid()
      reads this
    {
      ValidConfig(config)
    }

    ghost function View(): State
      reads this, prevCellValues
    {
      State(config, prevCellValues[..], hasBaseline, isMotionActive, lastMotionTime, motionStart)
    }

    constructor ()
      ensures Valid() && fresh(prevCellValues)
      ensures View() == State(DEFAULT_CONFIG, [], false, false, 0, 0)
    {
      config := DEFAULT_CONFIG;
      prevCellValues := new real[0];
      hasBaseline, isMotionActive, lastMotionTime, motionStart := false, false, 0, 0;
    }

    /** SetConfig: a refused configuration changes nothing, an accepted one drops the baseline. */
    method SetConfig(c: Config) returns (r: Result<Config>)
      requires Valid()
      modifies this`config, this`hasBaseline
      ensures Valid() && r == Validate(c)
      ensures r.Err? ==> config == old(config) && hasBaseline == old(hasBaseline)
      ensures r.Ok? ==> config == r.value && !hasBaseline
    {
      r := Validate(c);
      if r.Ok? {
        config := r.value;
        hasBaseline := false;
      }
    }

    /** The inner loop: every second pixel of one row of a cell. */
    static method SampleSpan(data: seq<byte>, width: int, height: int, channels: int, y: int, xStart: int, xEnd: int)
      returns (sum: real, count: int)
      requires ValidFrame(data, width, height, channels) && 0 <= xStart && xEnd <= width && 0 <= y < height
      requires !(Tight(data, width, height, channels) && y == height - 1 && ReachesLast(xStart, xEnd, width))
      ensures sum == RowSum(data, width, height, channels, y, xStart, xEnd) && count == SampleCount(xStart, xEnd)
    {
      hide ValidFrame, Tight;
      sum, count := 0.0, 0;
      var x := xStart;
      while x < xEnd
        invariant xStart <= x && (x - xStart) % STEP == 0
        invariant sum + RowSum(data, width, height, channels, y, x, xEnd)
               == RowSum(data, width, height, channels, y, xStart, xEnd)
        invariant count >= 0 && count + SampleCount(x, xEnd) == SampleCount(xStart, xEnd)
      {
        sum := sum + Sample(data, width, height, channels, x, y);
        count := count + 1;
        x := x + STEP;
      }
    }

    /** Average of one cell: every second pixel of every second row. */
    method AverageCell(data: seq<byte>, width: int, height: int, channels: int, cx: int, cy: int)
      returns (average: real)
      requires ValidFrame(data, width, height, channels) && GridFits(config, width, height)
      requires Readable(data, width, height, channels, config)
      requires 0 <= cx < config.columns && 0 <= cy < config.rows
      ensures average == CellAverage(data, width, height, channels, config, cx, cy)
    {
      AreaInFrame(config, width, height, cx, cy);
      CellReadable(data, width, height, channels, config, cx, cy);
      var cellW, cellH := width / config.columns, height / config.rows;
      var yStart, xStart := cy * cellH, cx * cellW;
      var yEnd, xEnd := yStart + cellH, xStart + cellW;
      ghost var a := CellArea(config, width, height, cx, cy);
      assert a == Area(xStart, xEnd, yEnd);
      var sum, count := SampleArea(data, width, height, channels, xStart, xEnd, yStart, yEnd);
      average := sum / count as real;
      hide ValidFrame, Tight, Readable, LastSampled, ReachesLast, GridFits;
    }

    /** The two inner loops: every second row. */
    static method SampleArea(data: seq<byte>, width: int, height: int, channels: int, xStart: int, xEnd: int,
                             yStart: int, yEnd: int) returns (sum: real, count: int)
      requires ValidFrame(data, width, height, channels)
      requires 0 <= xStart && xEnd <= width && 0 <= yStart && yEnd <= height
      requires !(&& Tight(data, width, height, channels)
                 && ReachesLast(xStart, xEnd, width) && ReachesLast(yStart, yEnd, height))
      ensures sum == CellSum(data, width, height, channels, Area(xStart, xEnd, yEnd), yStart)
      ensures count == CellCount(Area(xStart, xEnd, yEnd), yStart)
    {
      ghost var a := Area(xStart, xEnd, yEnd);
      hide ValidFrame, Tight;
      sum, count := 0.0, 0;
      var y := yStart;
      while y < yEnd
        invariant yStart <= y && (y - yStart) % STEP == 0
        invariant sum + CellSum(data, width, height, channels, a, y)
               == CellSum(data, width, height, channels, a, yStart)
        invariant count >= 0 && count + CellCount(a, y) == CellCount(a, yStart)
      {
        var rowSum, rowCount := SampleSpan(data, width, height, channels, y, xStart, xEnd);
        sum, count := sum + rowSum, count + rowCount;
        y := y + STEP;
      }
    }

    static function Sample(data: seq<byte>, width: int, height: int, channels: int, x: int, y: int): (v: real)
      requires ValidFrame(data, width, height, channels) && 0 <= x < width && 0 <= y < height
      requires !(Tight(data, width, height, channels) && x == width - 1 && y == height - 1)
      ensures v == Luminance(data, width, height, channels, x, y)
    {
      ReadInBounds(data, width, height, channels, x, y);
      var rowOffset := y * width * channels;
      var pxOffset := rowOffset + x * channels;
      if channels == 1 then data[pxOffset] as real
      else
        var r, g, b := data[pxOffset] as real, data[pxOffset + 1] as real, data[pxOffset + 2] as real;
        0.299 * r + 0.587 * g + 0.114 * b
    }

    /** One row of the grid. */
    method SampleRow(data: seq<byte>, width: int, height: int, channels: int, cy: int, cells: array<real>)
      requires ValidFrame(data, width, height, channels) && GridFits(config, width, height) && 0 <= cy < config.rows
      requires Readable(data, width, height, channels, config)
      requires cells.Length == config.columns * config.rows && 0 <= cy * config.columns
      requires (cy + 1) * config.columns == cy * config.columns + config.columns <= cells.Length
      modifies cells
      ensures forall i :: 0 <= i < cy * config.columns ==> cells[i] == old(cells[i])
      ensures forall i :: cy * config.columns <= i < (cy + 1) * config.columns ==>
                cells[i] == CellAt(data, width, height, channels, config, i)
    {
      hide ValidFrame, CellAverage, Readable;
      var row := cy * config.columns;
      var cx := 0;
      while cx < config.columns
        invariant 0 <= cx <= config.columns
        invariant forall i :: 0 <= i < row ==> cells[i] == old(cells[i])
        invariant forall i :: row <= i < row + cx ==> cells[i] == CellAt(data, width, height, channels, config, i)
      {
        var average := AverageCell(data, width, height, channels, cx, cy);
        CellIndex(config, cx, cy);
        cells[row + cx] := average;
        cx := cx + 1;
      }
    }

    /** The grid, row by row. */
    method SampleCells(data: seq<byte>, width: int, height: int, channels: int) returns (cells: array<real>)
      requires ValidFrame(data, width, height, channels) && GridFits(config, width, height)
      requires Readable(data, width, height, channels, config)
      ensures fresh(cells) && cells[..] == Cells(data, width, height, channels, config)
    {
      hide ValidFrame, CellAt, Readable;
      var total := config.columns * config.rows;
      MulMono(1, config.columns, config.rows);
      cells := new real[total];
      var cy := 0;
      while cy < config.rows
        invariant 0 <= cy <= config.rows && 0 <= cy * config.columns <= total
        invariant forall i :: 0 <= i < cy * config.columns ==>
                    cells[i] == CellAt(data, width, height, channels, config, i)
      {
        Distribute(cy, 1, config.columns);
        MulMono(cy + 1, config.rows, config.columns);
        SampleRow(data, width, height, channels, cy, cells);
        cy := cy + 1;
      }
    }

    /** How many cells reach the threshold. */
    method CountActive(cells: array<real>, threshold: real) returns (count: nat)
      requires cells.Length == prevCellValues.Length
      ensures count == ActiveCells(cells[..], prevCellValues[..], threshold)
    {
      count := 0;
      var i := 0;
      while i < cells.Length
        invariant 0 <= i <= cells.Length
        invariant count + ActiveCells(cells[i..], prevCellValues[i..], threshold)
               == ActiveCells(cells[..], prevCellValues[..], threshold)
      {
        var delta := Abs(cells[i] - prevCellValues[i]);
        assert cells[i..][1..] == cells[i + 1..] && prevCellValues[i..][1..] == prevCellValues[i + 1..];
        if delta >= threshold { count := count + 1; }
        i := i + 1;
      }
    }

    /** Moves the baseline a quarter of the way to the frame, in place. */
    method UpdateBaseline(cells: array<real>)
      requires cells.Length == prevCellValues.Length && cells != prevCellValues
      modifies prevCellValues
      ensures prevCellValues[..] == Blend(cells[..], old(prevCellValues[..]))
    {
      var alpha := 0.25;
      for i := 0 to cells.Length
        invariant forall j :: 0 <= j < i ==>
          prevCellValues[j] == (1.0 - 0.25) * old(prevCellValues[j]) + 0.25 * cells[j]
        invariant forall j :: i <= j < cells.Length ==> prevCellValues[j] == old(prevCellValues[j])
        invariant forall j :: 0 <= j < cells.Length ==> cells[j] == old(cells[j])
      {
        prevCellValues[i] := (1.0 - alpha) * prevCellValues[i] + alpha * cells[i];
      }
      assert prevCellValues[..] == Blend(cells[..], old(prevCellValues[..]));
    }

    /** The flag: motion sets it at once, and it goes only when the cooldown is over. */
    method UpdateFlag(hasInstantMotion: bool, now: int)
      modifies this`lastMotionTime, this`isMotionActive, this`motionStart
      ensures hasInstantMotion ==>
        isMotionActive && lastMotionTime == now && motionStart == if old(isMotionActive) then old(motionStart) else now
      ensures !hasInstantMotion ==>
        && lastMotionTime == old(lastMotionTime) && motionStart == old(motionStart)
        && isMotionActive == (old(isMotionActive) && now - lastMotionTime < config.cooldownSeconds * NANOS_PER_SECOND)
    {
      if hasInstantMotion {
        lastMotionTime := now;
        if !isMotionActive {
          isMotionActive := true;
          motionStart := now;
        }
      } else if isMotionActive {
        if now - lastMotionTime >= config.cooldownSeconds * NANOS_PER_SECOND { isMotionActive := false; }
      }
    }

    /** The part of AnalyzeFrame behind the sampling. */
    method AnalyzeCells(currentCells: array<real>, now: int) returns (event: Event)
      requires currentCells.Length > 0 && currentCells != prevCellValues
      modifies this, prevCellValues
      ensures config == old(config)
      ensures View() == Observe(old(View()), old(currentCells[..]), now)
      ensures Reports(event, old(View()), old(currentCells[..]), View(), now)
    {
      hide Blend, ActiveCells;
      ghost var cells, before := currentCells[..], View();
      var totalCells := currentCells.Length;
      if !hasBaseline || prevCellValues.Length != totalCells {
        prevCellValues := currentCells;
        hasBaseline := true;
        isMotionActive := false;
        return Event(0, totalCells, 0.0, false, 0);
      }
      var sensFactor := Max(0.2, (100.0 - config.sensitivity) / 50.0);
      var effectiveThreshold := Max(2.0, config.cellThreshold * sensFactor);
      var activeCount := CountActive(currentCells, effectiveThreshold);
      assert effectiveThreshold == EffectiveThreshold(config);
      assert activeCount == ActiveCells(cells, before.baseline, EffectiveThreshold(config));
      var activeRatio := activeCount as real / totalCells as real;
      assert (activeRatio >= config.activeRatioMin) == InstantMotion(config, cells, before.baseline);
      UpdateBaseline(currentCells);
      assert prevCellValues[..] == Blend(cells, before.baseline);
      UpdateFlag(activeRatio >= config.activeRatioMin, now);
      var duration := if isMotionActive then now - motionStart else 0;
      event := Event(activeCount, totalCells, activeRatio, isMotionActive, duration);
    }

    /** AnalyzeFrame. Non-positive channel counts are taken as one. */
    method AnalyzeFrame(data: seq<byte>, width: int, height: int, channels: int, now: int) returns (r: Result<Event>)
      requires Valid()
      modifies this, prevCellValues
      ensures Valid() && config == old(config)
      ensures var used := if channels <= 0 then 1 else channels;
              if width <= 0 || height <= 0 then r == Err(InvalidFrameDimensions)
              else if |data| < width * height * used then r == Err(InvalidFrameBuffer)
              else if !GridFits(config, width, height) then r == Err(InvalidFrameDimensions)
              else if !Readable(data, width, height, used, config) then r == Err(IndexOutOfRange)
              else
                var cells := Cells(data, width, height, used, config);
                var before := old(View());
                && r.Ok? && View() == Observe(before, cells, now)
                && Reports(r.value, before, cells, View(), now)
      ensures r.Err? ==> View() == old(View())
    {
      if width <= 0 || height <= 0 { return Err(InvalidFrameDimensions); }
      var used := if channels <= 0 then 1 else channels;
      if |data| < width * height * used { return Err(InvalidFrameBuffer); }
      if width / config.columns <= 0 || height / config.rows <= 0 { return Err(InvalidFrameDimensions); }
      if used == 2 && |data| == width * height * used
        && LastSampled(width, config.columns) && LastSampled(height, config.rows)
      {
        return Err(IndexOutOfRange);
      }
      MulMono(2, config.columns, config.rows);
      hide Cells, Observe, ActiveCells, Reports;
      var currentCells := SampleCells(data, width, height, used);
      var event := AnalyzeCells(currentCells, now);
      r := Ok(event);
    }
  }

  // ---------------------------------------------------------------- reads past the buffer

  /** Position i is one of those sampled when n positions are divided into `parts` cells: an even distance
      from the start of its cell. */
  predicate SampledAt(n: int, parts: int, i: int)
    requires parts > 0 && n / parts > 0
  {
    0 <= i < parts * (n / parts) && (i % (n / parts)) % STEP == 0
  }

  lemma LastSampledAt(n: int, parts: int)
    requires parts > 0 && n / parts > 0
    ensures SampledAt(n, parts, n - 1) <==> LastSampled(n, parts)
  {
    var size := n / parts;
    assert n == parts * size + n % parts;
    if n % parts == 0 {
      assert n - 1 == size * (parts - 1) + (size - 1) by { Distribute(parts - 1, 1, size); }
      MulMono(0, parts - 1, size);
      ModUnique(n - 1, size, parts - 1, size - 1);
    }
  }

  /** The byte farthest behind the start of pixel (x, y) that its sample reads lies outside the buffer. */
  predicate ReadsPast(data: seq<byte>, width: int, channels: int, x: int, y: int) {
    y * width * channels + x * channels + Reach(channels) >= |data|
  }

  /** A frame that AnalyzeFrame accepts by its length makes the sampling read past the buffer if and only if
      it has two channels and no byte behind its last pixel, and the grid samples that pixel: columns and rows
      divide the frame evenly into cells of odd width and height. */
  lemma ReadsPastIffUnreadable(data: seq<byte>, width: int, height: int, channels: int, c: Config)
    requires ValidFrame(data, width, height, channels) && GridFits(c, width, height)
    ensures (exists x, y :: SampledAt(width, c.columns, x) && SampledAt(height, c.rows, y)
               && ReadsPast(data, width, channels, x, y))
            <==> !Readable(data, width, height, channels, c)
  {
    LastSampledAt(width, c.columns);
    LastSampledAt(height, c.rows);
    if !Readable(data, width, height, channels, c) {
      LastReadsPast(data, width, height);
      assert ReadsPast(data, width, channels, width - 1, height - 1);
    }
    forall x, y
      | SampledAt(width, c.columns, x) && SampledAt(height, c.rows, y) && ReadsPast(data, width, channels, x, y)
      ensures !Readable(data, width, height, channels, c)
    {
      SampledInside(width, c.columns, x);
      SampledInside(height, c.rows, y);
      if !(Tight(data, width, height, channels) && x == width - 1 && y == height - 1) {
        ReadInBounds(data, width, height, channels, x, y);
        assert false;
      }
    }
  }

  lemma SampledInside(n: int, parts: int, i: int)
    requires parts > 0 && n / parts > 0 && SampledAt(n, parts, i)
    ensures 0 <= i < n
  {
    assert n == parts * (n / parts) + n % parts;
  }

  lemma LastReadsPast(data: seq<byte>, width: int, height: int)
    requires width > 0 && height > 0 && |data| == width * height * 2
    ensures ReadsPast(data, width, 2, width - 1, height - 1)
  {
    Distribute(height - 1, 1, width);
    Distribute((height - 1) * width, width - 1, 2);
  }
}
