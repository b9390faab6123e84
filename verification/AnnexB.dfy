/** Annex-B byte streams (Annex B of ITU-T H.264): the incremental splitter that cuts FFmpeg's output
    into NAL units, and what it recovers. */
module AnnexB {
  import opened Bytes
  import opened OptionValue
  import opened Seqs

  const START_CODE: seq<byte> := [0, 0, 0, 1]

  /** A start code of three or four bytes at `i`, with at least four bytes left to look at. */
  predicate IsBoundary(s: seq<byte>, i: nat) {
    && i + 3 < |s|
    && s[i] == 0 && s[i + 1] == 0
    && (s[i + 2] == 1 || (s[i + 2] == 0 && s[i + 3] == 1))
  }

  /** The least boundary at or after `from`. */
  function NextCut(s: seq<byte>, from: nat): (cut: Option<nat>)
    ensures cut.Some? ==>
      from <= cut.value && IsBoundary(s, cut.value) && forall i :: from <= i < cut.value ==> !IsBoundary(s, i)
    ensures cut.None? ==> forall i :: from <= i ==> !IsBoundary(s, i)
    decreases |s| - from
  {
    if from + 3 >= |s| then None
    else if IsBoundary(s, from) then Some(from)
    else NextCut(s, from + 1)
  }

  /** find_nal_boundary: scans for the first start code. */
  method FindNalBoundary(data: seq<byte>) returns (pos: Option<nat>)
    ensures pos.Some? ==> IsBoundary(data, pos.value) && forall i :: 0 <= i < pos.value ==> !IsBoundary(data, i)
    ensures pos.None? ==> forall i: nat :: !IsBoundary(data, i)
  {
    if |data| < 4 { return None; }
    for i := 0 to |data| - 3
      invariant forall j :: 0 <= j < i ==> !IsBoundary(data, j)
    {
      if data[i] == 0 && data[i + 1] == 0 && (data[i + 2] == 1 || (data[i + 2] == 0 && data[i + 3] == 1)) {
        return Some(i);
      }
    }
    pos := None;
  }

  /** The units cut off so far and the bytes still accumulated. */
  datatype Parse = Parse(units: seq<seq<byte>>, acc: seq<byte>)

  /** Cuts at every boundary that leaves at least four bytes in the unit before it. */
  function Split(s: seq<byte>): (p: Parse)
    requires |s| >= 4
    ensures |p.acc| >= 4
    decreases |s|
  {
    match NextCut(s, 4)
    case None => Parse([], s)
    case Some(cut) => Parse([s[..cut]] + Split(s[cut..]).units, Split(s[cut..]).acc)
  }

  lemma SplitUnfolds(s: seq<byte>)
    requires |s| >= 4
    ensures var cut := NextCut(s, 4);
            Split(s) ==
            if cut.None? then Parse([], s)
            else Parse([s[..cut.value]] + Split(s[cut.value..]).units, Split(s[cut.value..]).acc)
  {
  }

  /** Nothing is lost or reordered: the units followed by the accumulator are the input. */
  lemma {:induction false} SplitConserves(s: seq<byte>)
    requires |s| >= 4
    ensures Concat(Split(s).units) + Split(s).acc == s
    decreases |s|
  {
    hide Split;
    SplitUnfolds(s);
    var cut := NextCut(s, 4);
    if cut.Some? {
      hide NextCut, Concat;
      var rest := Split(s[cut.value..]);
      SplitConserves(s[cut.value..]);
      ConcatCons(s[..cut.value], rest.units);
      Assoc(s[..cut.value], Concat(rest.units), rest.acc);
      assert s[..cut.value] + s[cut.value..] == s;
    } else {
      Empty(s);
    }
  }

  /** Every cut is at a start code and no start code past the first four bytes of a unit is missed. */
  lemma {:induction false} SplitCutsAtStartCodes(s: seq<byte>)
    requires |s| >= 4
    ensures var p := Split(s);
            && (forall k, i :: 0 <= k < |p.units| && 4 <= i ==> |p.units[k]| >= 4 && !IsBoundary(p.units[k], i))
            && (forall i :: 4 <= i ==> !IsBoundary(p.acc, i))
            && (forall k :: 1 <= k < |p.units| ==> HasStartCode(p.units[k]))
            && (|p.units| > 0 ==> HasStartCode(p.acc))
    decreases |s|
  {
    var cut := NextCut(s, 4);
    if cut.Some? {
      var rest := s[cut.value..];
      SplitCutsAtStartCodes(rest);
      var p, q := Split(s), Split(rest);
      forall i | 4 <= i
        ensures !IsBoundary(s[..cut.value], i)
      {
        assert i < cut.value ==> !IsBoundary(s, i);
      }
      assert IsBoundary(rest, 0);
      var rcut := NextCut(rest, 4);
      if rcut.Some? {
        assert q.units[0] == rest[..rcut.value];
        assert HasStartCode(q.units[0]);
      } else {
        assert HasStartCode(q.acc);
      }
    }
  }

  /** Starts with a three- or four-byte start code. */
  predicate HasStartCode(u: seq<byte>) {
    |u| >= 4 && u[0] == 0 && u[1] == 0 && (u[2] == 1 || (u[2] == 0 && u[3] == 1))
  }

  // ---------------------------------------------------------------- independence of read boundaries

  /** A boundary found before more bytes arrive is the boundary found after. */
  lemma CutIsStable(a: seq<byte>, b: seq<byte>)
    requires NextCut(a, 4).Some?
    ensures NextCut(a + b, 4) == NextCut(a, 4)
  {
    var cut := NextCut(a, 4).value;
    assert forall i :: 0 <= i && i + 3 < |a| ==> (IsBoundary(a + b, i) <==> IsBoundary(a, i));
    assert IsBoundary(a + b, cut);
  }

  /** Splitting, then appending and splitting the accumulator, is splitting everything at once. */
  lemma {:induction false} SplitAppend(a: seq<byte>, b: seq<byte>)
    requires |a| >= 4
    ensures Split(a + b) == Parse(Split(a).units + Split(Split(a).acc + b).units, Split(Split(a).acc + b).acc)
    decreases |a|
  {
    hide Split, NextCut;
    SplitUnfolds(a);
    var cut := NextCut(a, 4);
    if cut.Some? {
      var head, tail := a[..cut.value], a[cut.value..];
      assert (a + b)[..cut.value] == head && (a + b)[cut.value..] == tail + b;
      CutIsStable(a, b);
      SplitUnfolds(a + b);
      SplitAppend(tail, b);
      Assoc([head], Split(tail).units, Split(Split(tail).acc + b).units);
    } else {
      Empty(Split(a + b).units);
    }
  }

  /** The reader loop over a list of reads; an empty read is the end of the stream. `Panicked` is the
      slice `accumulator[4..]` out of range. */
  datatype Outcome = Panicked | Finished(p: Parse)

  function Fold(chunks: seq<seq<byte>>, p: Parse): Outcome {
    if chunks == [] || chunks[0] == [] then Finished(p)
    else
      var acc := p.acc + chunks[0];
      if |acc| < 4 then Panicked
      else Fold(chunks[1..], Parse(p.units + Split(acc).units, Split(acc).acc))
  }

  lemma {:induction false} FoldIsSplit(chunks: seq<seq<byte>>, p: Parse)
    requires |p.acc| >= 4 && forall i :: 0 <= i < |chunks| ==> chunks[i] != []
    requires Split(p.acc) == Parse([], p.acc)
    ensures var whole := Split(p.acc + Concat(chunks));
            Fold(chunks, p) == Finished(Parse(p.units + whole.units, whole.acc))
  {
    hide Split;
    if chunks == [] {
      Empty(p.acc);
      Empty(p.units);
    } else {
      var acc := p.acc + chunks[0];
      var later := Concat(chunks[1..]);
      var next := Parse(p.units + Split(acc).units, Split(acc).acc);
      SplitAccIsFixed(acc);
      FoldIsSplit(chunks[1..], next);
      SplitAppend(acc, later);
      Assoc(p.acc, chunks[0], later);
      Assoc(p.units, Split(acc).units, Split(next.acc + later).units);
    }
  }

  lemma {:induction false} SplitAccIsFixed(s: seq<byte>)
    requires |s| >= 4
    ensures Split(Split(s).acc) == Parse([], Split(s).acc)
    decreases |s|
  {
    hide Split, NextCut;
    SplitUnfolds(s);
    var cut := NextCut(s, 4);
    if cut.Some? { SplitAccIsFixed(s[cut.value..]); }
  }

  /** Read boundaries do not matter: for any partition of a stream into non-empty reads the loop ends
      with the batch split of the whole stream, unless the very first read is shorter than four bytes,
      in which case, and only then, it panics. */
  lemma ReadBoundariesDoNotMatter(chunks: seq<seq<byte>>)
    requires chunks != [] && forall i :: 0 <= i < |chunks| ==> chunks[i] != []
    ensures Fold(chunks, Parse([], [])).Panicked? <==> |chunks[0]| < 4
    ensures |chunks[0]| >= 4 ==>
      |Concat(chunks)| >= 4 && Fold(chunks, Parse([], [])) == Finished(Split(Concat(chunks)))
  {
    hide Split;
    Empty(chunks[0]);
    if |chunks[0]| >= 4 {
      var first := Split(chunks[0]);
      SplitAccIsFixed(chunks[0]);
      Empty(first.units);
      FoldIsSplit(chunks[1..], first);
      SplitAppend(chunks[0], Concat(chunks[1..]));
    }
  }

  // ---------------------------------------------------------------- NAL unit types

  const FLAG_KEYFRAME: nat := 1
  const FLAG_SPS_PPS: nat := 2
  const FLAG_DELTA_FRAME: nat := 4

  datatype NalType = H264Idr | H264Sps | H264Pps | H264NonIdr | H265Idr | H265VpsSpsPps | H265NonIdr | Unknown

  /** The bytes behind the start code; data without one is taken whole. */
  function FindNalStart(data: seq<byte>): seq<byte> {
    if |data| < 3 then []
    else if data[0] == 0 && data[1] == 0 && data[2] == 1 then data[3..]
    else if |data| >= 4 && data[0] == 0 && data[1] == 0 && data[2] == 0 && data[3] == 1 then data[4..]
    else data
  }

  function ParseNalType(data: seq<byte>, hevc: bool): NalType {
    var payload := FindNalStart(data);
    if payload == [] then Unknown else UnitType(payload[0], hevc)
  }

  function UnitType(first: byte, hevc: bool): NalType {
    if !hevc then
      match first % 32 case 5 => H264Idr case 7 => H264Sps case 8 => H264Pps case 1 => H264NonIdr case _ => Unknown
    else
      var t := first / 2 % 64;
      if t == 19 || t == 20 then H265Idr
      else if 32 <= t <= 34 then H265VpsSpsPps
      else if t == 1 || t == 2 then H265NonIdr
      else Unknown
  }

  function ClassifyFrameFlags(data: seq<byte>, hevc: bool): nat {
    match ParseNalType(data, hevc)
    case H264Idr => FLAG_KEYFRAME + FLAG_SPS_PPS
    case H265Idr => FLAG_KEYFRAME + FLAG_SPS_PPS
    case H264NonIdr => FLAG_DELTA_FRAME
    case H265NonIdr => FLAG_DELTA_FRAME
    case Unknown => 0
    case _ => FLAG_SPS_PPS
  }

  /** Which units carry which flags. A unit is a start code of three or four bytes, its first byte and a
      payload. In H.264 the first byte is a forbidden bit, a nal_ref_idc and a type: type 5 is a key frame
      that also counts as parameter sets (1 + 2), types 7 and 8 are parameter sets (2), type 1 is a delta
      frame (4), and any other type carries nothing. */
  lemma FlagsOfH264(forbidden: nat, refIdc: nat, kind: nat, payload: seq<byte>)
    requires forbidden < 2 && refIdc < 4 && kind < 32
    ensures var first := (forbidden * 128 + refIdc * 32 + kind) as byte;
            var flags := if kind == 5 then 3 else if kind == 7 || kind == 8 then 2 else if kind == 1 then 4 else 0;
            && ClassifyFrameFlags([0, 0, 0, 1] + [first] + payload, false) == flags
            && ClassifyFrameFlags([0, 0, 1] + [first] + payload, false) == flags
  {
    var first := (forbidden * 128 + refIdc * 32 + kind) as byte;
    ModUnique(first, 32, forbidden * 4 + refIdc, kind);
    UnitStart([first] + payload);
    FlagsByFirst([first] + payload, false);
    hide FindNalStart, ClassifyFrameFlags, ParseNalType;
    assert [0, 0, 0, 1] + [first] + payload == [0, 0, 0, 1] + ([first] + payload);
    assert [0, 0, 1] + [first] + payload == [0, 0, 1] + ([first] + payload);
  }

  /** In H.265 the type is the six bits behind the forbidden bit: types 19 and 20 are key frames, 32 to 34
      parameter sets, 1 and 2 delta frames. */
  lemma FlagsOfH265(forbidden: nat, kind: nat, layerBit: nat, payload: seq<byte>)
    requires forbidden < 2 && kind < 64 && layerBit < 2
    ensures var first := (forbidden * 128 + kind * 2 + layerBit) as byte;
            var flags := if kind == 19 || kind == 20 then 3 else if kind == 32 || kind == 33 || kind == 34 then 2
                         else if kind == 1 || kind == 2 then 4 else 0;
            && ClassifyFrameFlags([0, 0, 0, 1] + [first] + payload, true) == flags
            && ClassifyFrameFlags([0, 0, 1] + [first] + payload, true) == flags
  {
    var first := (forbidden * 128 + kind * 2 + layerBit) as byte;
    ModUnique(first, 2, forbidden * 64 + kind, layerBit);
    ModUnique(first / 2, 64, forbidden, kind);
    UnitStart([first] + payload);
    FlagsByFirst([first] + payload, true);
    hide FindNalStart, ClassifyFrameFlags, ParseNalType;
    assert [0, 0, 0, 1] + [first] + payload == [0, 0, 0, 1] + ([first] + payload);
    assert [0, 0, 1] + [first] + payload == [0, 0, 1] + ([first] + payload);
  }

  function FlagsOf(kind: NalType): nat {
    match kind
    case H264Idr => 3
    case H265Idr => 3
    case H264NonIdr => 4
    case H265NonIdr => 4
    case Unknown => 0
    case _ => 2
  }

  lemma FlagsByFirst(unit: seq<byte>, hevc: bool)
    requires unit != []
    ensures ClassifyFrameFlags([0, 0, 0, 1] + unit, hevc) == FlagsOf(UnitType(unit[0], hevc))
    ensures ClassifyFrameFlags([0, 0, 1] + unit, hevc) == FlagsOf(UnitType(unit[0], hevc))
  {
    UnitStart(unit);
    hide UnitType, FindNalStart;
  }

  lemma UnitStart(unit: seq<byte>)
    requires unit != []
    ensures FindNalStart([0, 0, 0, 1] + unit) == unit && FindNalStart([0, 0, 1] + unit) == unit
  {
    assert ([0, 0, 0, 1] + unit)[4..] == unit && ([0, 0, 1] + unit)[3..] == unit;
  }

  /** A unit that ends with its start code carries no flag, and data too short for one neither. Data without a
      start code is classified by its own first byte. */
  lemma FlagsWithoutUnit(data: seq<byte>, hevc: bool)
    ensures |data| < 3 || data == [0, 0, 1] || data == [0, 0, 0, 1] ==> ClassifyFrameFlags(data, hevc) == 0
    ensures |data| >= 3 && !([0, 0, 1] <= data) && !([0, 0, 0, 1] <= data) ==>
      ClassifyFrameFlags(data, hevc) == ClassifyFrameFlags([0, 0, 0, 1] + data, hevc)
  {
    if data == [0, 0, 1] { assert data[3..] == []; }
    if data == [0, 0, 0, 1] { assert data[4..] == []; }
    if |data| >= 3 { UnitStart(data); }
  }

  // ---------------------------------------------------------------- the reader loop

  datatype Frame = Frame(number: nat, flags: nat, nalu: seq<byte>)

  /** The frames published for a list of units, numbered from `first`. */
  function Frames(units: seq<seq<byte>>, first: nat): seq<Frame> {
    if units == [] then []
    else [Frame(first, ClassifyFrameFlags(units[0], false), units[0])] + Frames(units[1..], first + 1)
  }

  lemma {:induction false} FramesAppend(a: seq<seq<byte>>, b: seq<seq<byte>>, first: nat)
    ensures Frames(a + b, first) == Frames(a, first) + Frames(b, first + |a|)
  {
    hide ClassifyFrameFlags;
    if a == [] {
      Empty(b);
      Empty(Frames(b, first));
    } else {
      Tail(a, b);
      FramesAppend(a[1..], b, first + 1);
      Assoc([Frame(first, ClassifyFrameFlags(a[0], false), a[0])], Frames(a[1..], first + 1), Frames(b, first + |a|));
    }
  }

  /** Each published frame carries its unit, the number of its place, and the flags of an H.264 unit. */
  lemma {:induction false} FrameOfUnit(
    units: seq<seq<byte>>, first: nat, i: nat, forbidden: nat, refIdc: nat, kind: nat, payload: seq<byte>)
    requires i < |units| && forbidden < 2 && refIdc < 4 && kind < 32
    requires var rest := [(forbidden * 128 + refIdc * 32 + kind) as byte] + payload;
             units[i] == [0, 0, 0, 1] + rest || units[i] == [0, 0, 1] + rest
    ensures |Frames(units, first)| == |units|
    ensures var flags := if kind == 5 then 3 else if kind == 7 || kind == 8 then 2 else if kind == 1 then 4 else 0;
            Frames(units, first)[i] == Frame(first + i, flags, units[i])
    decreases |units|
  {
    hide ClassifyFrameFlags;
    if i == 0 {
      FlagsOfH264(forbidden, refIdc, kind, payload);
      var head := [(forbidden * 128 + refIdc * 32 + kind) as byte];
      Assoc([0, 0, 0, 1], head, payload);
      Assoc([0, 0, 1], head, payload);
      FramesLength(units[1..], first + 1);
    } else {
      FrameOfUnit(units[1..], first + 1, i - 1, forbidden, refIdc, kind, payload);
    }
  }

  lemma {:induction false} FramesLength(units: seq<seq<byte>>, first: nat)
    ensures |Frames(units, first)| == |units|
  {
    hide ClassifyFrameFlags;
    if units != [] { FramesLength(units[1..], first + 1); }
  }

  lemma NoFrames(first: nat)
    ensures Frames([], first) == []
  {
  }

  /** The state of the reader task: the accumulator, drained in place, and what it has published. */
  class SplitterTask {
    var accumulator: seq<byte>
    var frameSeq: nat
    var published: seq<Frame>

    constructor ()
      ensures accumulator == [] && frameSeq == 0 && published == []
    {
      accumulator, frameSeq, published := [], 0, [];
    }

    /** Publishes one unit under the next frame number. */
    method Publish(nalu: seq<byte>)
      modifies this`frameSeq, this`published
      ensures frameSeq == old(frameSeq) + 1
      ensures published == old(published) + Frames([nalu], frameSeq)
    {
      frameSeq := frameSeq + 1;
      var flags := ClassifyFrameFlags(nalu, false);
      published := published + [Frame(frameSeq, flags, nalu)];
    }

    /** The inner loop: cuts every complete unit off the accumulator and publishes it. */
    method DrainUnits()
      requires |accumulator| >= 4
      modifies this
      ensures accumulator == Split(old(accumulator)).acc
      ensures published == old(published) + Frames(Split(old(accumulator)).units, old(frameSeq) + 1)
      ensures frameSeq == old(frameSeq) + |Split(old(accumulator)).units|
    {
      hide Split, NextCut, Frames;
      ghost var whole := Split(accumulator);
      ghost var done: seq<seq<byte>> := [];
      ghost var first, before := frameSeq + 1, published;
      Empty(whole.units);
      NoFrames(first);
      Empty(before);
      var pos := FindNalBoundary(accumulator[4..]);
      ShiftedCut(accumulator, pos);
      while pos.Some?
        invariant |accumulator| >= 4
        invariant done + Split(accumulator).units == whole.units && Split(accumulator).acc == whole.acc
        invariant published == before + Frames(done, first) && frameSeq + 1 == first + |done|
        invariant NextCut(accumulator, 4) == if pos.Some? then Some(pos.value + 4) else None
        decreases |accumulator|
      {
        var splitIdx := pos.value + 4;
        var nalu := accumulator[..splitIdx];
        SplitUnfolds(accumulator);
        ghost var later := Split(accumulator[splitIdx..]);
        Assoc(done, [nalu], later.units);
        FramesAppend(done, [nalu], first);
        Assoc(before, Frames(done, first), Frames([nalu], first + |done|));
        accumulator := accumulator[splitIdx..];
        Publish(nalu);
        done := done + [nalu];
        pos := FindNalBoundary(accumulator[4..]);
        ShiftedCut(accumulator, pos);
      }
      SplitUnfolds(accumulator);
      Empty(done);
    }

    /** reader_loop over a list of reads; `panicked` is the out-of-range slice. */
    method ReaderLoop(chunks: seq<seq<byte>>) returns (panicked: bool)
      requires accumulator == [] && frameSeq == 0 && published == []
      modifies this
      ensures panicked == Fold(chunks, Parse([], [])).Panicked?
      ensures !panicked ==>
        var p := Fold(chunks, Parse([], [])).p;
        accumulator == p.acc && published == Frames(p.units, 1) && frameSeq == |p.units|
    {
      hide Split, Frames;
      NoFrames(1);
      ghost var p := Parse([], []);
      var i := 0;
      while i < |chunks| && chunks[i] != []
        invariant 0 <= i <= |chunks|
        invariant Fold(chunks[i..], p) == Fold(chunks, Parse([], []))
        invariant accumulator == p.acc && published == Frames(p.units, 1) && frameSeq == |p.units|
      {
        accumulator := accumulator + chunks[i];
        if |accumulator| < 4 { return true; }
        ghost var cut := Split(accumulator);
        DrainUnits();
        FramesAppend(p.units, cut.units, 1);
        p := Parse(p.units + cut.units, cut.acc);
        i := i + 1;
      }
      panicked := false;
    }
  }

  /** Scanning behind the first four bytes finds the next cut. */
  lemma ShiftedCut(s: seq<byte>, pos: Option<nat>)
    requires |s| >= 4
    requires pos.Some? ==> IsBoundary(s[4..], pos.value) && forall i :: 0 <= i < pos.value ==> !IsBoundary(s[4..], i)
    requires pos.None? ==> forall i: nat :: !IsBoundary(s[4..], i)
    ensures NextCut(s, 4) == if pos.Some? then Some(pos.value + 4) else None
  {
    hide NextCut, IsBoundary;
    var cut := NextCut(s, 4);
    if cut.Some? { BoundaryShift(s, cut.value - 4); }
    if pos.Some? { BoundaryShift(s, pos.value); }
  }

  lemma BoundaryShift(s: seq<byte>, i: nat)
    requires |s| >= 4
    ensures IsBoundary(s[4..], i) <==> IsBoundary(s, i + 4)
  {
  }
}
