/** AVCC (length-prefixed) video data, its conversion to Annex-B, and what splitting the result recovers. */
module Avcc {
  import opened Bytes
  import opened OptionValue
  import opened Seqs
  import opened AnnexB

  type Unit = seq<byte>

  /** Each unit behind a four-byte start code. */
  function Coded(units: seq<Unit>): (r: seq<seq<byte>>)
    ensures |r| == |units|
  {
    if units == [] then [] else [START_CODE + units[0]] + Coded(units[1..])
  }

  function ToAnnexB(units: seq<Unit>): seq<byte> {
    if units == [] then [] else START_CODE + units[0] + ToAnnexB(units[1..])
  }

  /** Each unit behind its length in `width` bytes. */
  function Prefixed(units: seq<Unit>, width: nat): seq<byte> {
    if units == [] then [] else BigEndian(|units[0]|, width) + units[0] + Prefixed(units[1..], width)
  }

  /** Not even one more whole unit fits in the bytes left. */
  predicate Truncated(s: seq<byte>, width: nat) {
    |s| < width || |s| < width + FromBigEndian(s[..width])
  }

  /** The whole units at the front of `s`, each behind its length in `width` bytes. */
  function Units(s: seq<byte>, width: nat): seq<Unit>
    requires width > 0
    decreases |s|
  {
    if Truncated(s, width) then []
    else
      var end := width + FromBigEndian(s[..width]);
      [s[width..end]] + Units(s[end..], width)
  }

  /** convert_avcc_to_annexb: walks the length prefixes, appending to `out`, and stops at the first
      unit that is not whole. */
  method ConvertAvccToAnnexB(avcc: seq<byte>, out: seq<byte>) returns (result: seq<byte>)
    ensures result == out + ToAnnexB(Units(avcc, 4))
  {
    hide Units, ToAnnexB;
    result := out;
    var cursor := 0;
    ghost var done: seq<Unit> := [];
    Empty(Units(avcc, 4));
    Empty(out);
    NothingCoded();
    assert avcc[0..] == avcc;
    while cursor + 4 <= |avcc|
      invariant 0 <= cursor <= |avcc|
      invariant done + Units(avcc[cursor..], 4) == Units(avcc, 4)
      invariant result == out + ToAnnexB(done)
    {
      var rest := avcc[cursor..];
      UnitsUnfold(rest, 4);
      var naluLen := FromBigEndian(avcc[cursor..cursor + 4]);
      assert rest[..4] == avcc[cursor..cursor + 4];
      cursor := cursor + 4;
      if cursor + naluLen > |avcc| {
        break;
      }
      var nalu := avcc[cursor..cursor + naluLen];
      assert rest[4..4 + naluLen] == nalu && rest[4 + naluLen..] == avcc[cursor + naluLen..];
      result := result + START_CODE;
      result := result + nalu;
      CodedAppend(done, [nalu]);
      OneCoded(nalu);
      Assoc(out + ToAnnexB(done), START_CODE, nalu);
      Assoc(out, ToAnnexB(done), START_CODE + nalu);
      Assoc(done, [nalu], Units(rest[4 + naluLen..], 4));
      cursor := cursor + naluLen;
      done := done + [nalu];
    }
    if cursor + 4 > |avcc| { UnitsUnfold(avcc[cursor..], 4); }
    Empty(done);
  }

  lemma NothingCoded()
    ensures ToAnnexB([]) == []
  {
  }

  lemma OneCoded(u: Unit)
    ensures ToAnnexB([u]) == START_CODE + u
  {
  }

  lemma UnitsUnfold(s: seq<byte>, width: nat)
    requires width > 0
    ensures Units(s, width) ==
            if Truncated(s, width) then []
            else [s[width..width + FromBigEndian(s[..width])]] + Units(s[width + FromBigEndian(s[..width])..], width)
  {
    hide FromBigEndian;
  }

  lemma {:induction false} CodedAppend(a: seq<Unit>, b: seq<Unit>)
    ensures ToAnnexB(a + b) == ToAnnexB(a) + ToAnnexB(b)
  {
    if a == [] {
      Empty(b);
      Empty(ToAnnexB(b));
    } else {
      Tail(a, b);
      CodedAppend(a[1..], b);
      Assoc(START_CODE + a[0], ToAnnexB(a[1..]), ToAnnexB(b));
    }
  }

  // ---------------------------------------------------------------- the longest well-formed prefix

  predicate Fits(units: seq<Unit>, width: nat) {
    forall i :: 0 <= i < |units| ==> |units[i]| < Power256(width)
  }

  lemma PrefixedFront(u: Unit, rest: seq<byte>, width: nat)
    requires width > 0 && |u| < Power256(width)
    ensures var s := BigEndian(|u|, width) + u + rest;
            && !Truncated(s, width) && FromBigEndian(s[..width]) == |u|
            && s[width..width + |u|] == u && s[width + |u|..] == rest
  {
    hide BigEndian, FromBigEndian, Power256;
    BigEndianRoundTrip(|u|, width);
    SmallModulo(|u|, Power256(width));
    Three(BigEndian(|u|, width), u, rest);
  }

  /** Reading length-prefixed units back, with anything behind them that is not a whole unit. */
  lemma {:induction false} PrefixedRoundTrip(units: seq<Unit>, tail: seq<byte>, width: nat)
    requires width > 0 && Fits(units, width)
    ensures Units(Prefixed(units, width) + tail, width) == units + Units(tail, width)
  {
    hide Units, FromBigEndian, Truncated;
    if units == [] {
      Empty(tail);
      Empty(Units(tail, width));
    } else {
      var u := units[0];
      var rest := Prefixed(units[1..], width) + tail;
      PrefixedRoundTrip(units[1..], tail, width);
      Assoc(BigEndian(|u|, width) + u, Prefixed(units[1..], width), tail);
      PrefixedFront(u, rest, width);
      UnitsUnfold(BigEndian(|u|, width) + u + rest, width);
      Assoc([u], units[1..], Units(tail, width));
      assert [u] + units[1..] == units;
    }
  }

  /** Every byte string is some whole units followed by a truncated rest. */
  lemma {:induction false} Decompose(s: seq<byte>, width: nat) returns (tail: seq<byte>)
    requires width > 0
    ensures Truncated(tail, width) && Fits(Units(s, width), width)
    ensures s == Prefixed(Units(s, width), width) + tail
    decreases |s|
  {
    hide Units;
    UnitsUnfold(s, width);
    if Truncated(s, width) {
      tail := s;
      Empty(s);
    } else {
      var n := FromBigEndian(s[..width]);
      var u := s[width..width + n];
      tail := Decompose(s[width + n..], width);
      BigEndianBound(s[..width]);
      BigEndianInverse(s[..width]);
      var rest := Units(s[width + n..], width);
      assert ([u] + rest)[1..] == rest;
      assert s == s[..width] + u + s[width + n..];
      Assoc(s[..width] + u, Prefixed(rest, width), tail);
    }
  }

  /** Encoding what was decoded gives the bytes back. */
  lemma {:induction false} BigEndianInverse(s: seq<byte>)
    ensures BigEndian(FromBigEndian(s), |s|) == s
  {
    if s != [] {
      var front := s[..|s| - 1];
      BigEndianInverse(front);
      ModUnique(FromBigEndian(s), 256, FromBigEndian(front), s[|s| - 1]);
      assert front + [s[|s| - 1]] == s;
    }
  }

  /** Whole units come out of `s` exactly when they are a prefix of what is read from it: reading
      stops at the longest well-formed prefix and not before. */
  lemma LongestPrefix(s: seq<byte>, units: seq<Unit>, tail: seq<byte>, width: nat)
    requires width > 0 && Fits(units, width) && s == Prefixed(units, width) + tail
    ensures units <= Units(s, width)
    ensures Truncated(tail, width) <==> units == Units(s, width)
  {
    hide Units;
    PrefixedRoundTrip(units, tail, width);
    UnitsUnfold(tail, width);
    Front(units, Units(tail, width));
    Empty(units);
  }

  // ---------------------------------------------------------------- splitting recovers the units

  /** Holds 00 00 01 somewhere. */
  predicate HasEmbeddedCode(u: Unit) {
    exists i :: 0 <= i && i + 2 < |u| && u[i] == 0 && u[i + 1] == 0 && u[i + 2] == 1
  }

  /** Holds a start code the splitter would cut at: 00 00 01 with a byte behind it, or 00 00 00 01. */
  predicate HasBoundary(u: Unit) {
    exists i :: 0 <= i < |u| && IsBoundary(u, i)
  }

  /** No unit but the last embeds 00 00 01, and the last embeds no boundary. */
  predicate Separable(units: seq<Unit>) {
    && units != []
    && (forall i :: 0 <= i < |units| - 1 ==> !HasEmbeddedCode(units[i]))
    && !HasBoundary(units[|units| - 1])
  }

  lemma BoundaryBehindUnit(u: Unit, rest: seq<byte>)
    requires |rest| >= 4 && rest[0] == 0 && rest[1] == 0 && rest[2] == 0 && rest[3] == 1
    ensures IsBoundary(START_CODE + u + rest, 4 + |u|)
  {
    var s := START_CODE + u + rest;
    assert forall k :: 0 <= k < 4 ==> s[4 + |u| + k] == rest[k];
    assert s[4 + |u| + 0] == 0 && s[4 + |u| + 1] == 0 && s[4 + |u| + 2] == 0 && s[4 + |u| + 3] == 1;
  }

  lemma EmbeddedIsBoundary(u: Unit, rest: seq<byte>) returns (i: nat)
    requires rest != [] && HasEmbeddedCode(u)
    ensures 4 <= i < 4 + |u| && IsBoundary(START_CODE + u + rest, i)
  {
    var k :| 0 <= k && k + 2 < |u| && u[k] == 0 && u[k + 1] == 0 && u[k + 2] == 1;
    var s := START_CODE + u + rest;
    assert s[4 + k] == u[k] && s[4 + k + 1] == u[k + 1] && s[4 + k + 2] == u[k + 2];
    i := 4 + k;
  }

  /** Behind a unit with nothing embedded, the next start code is where the next unit begins. */
  lemma CutBehindUnit(u: Unit, rest: seq<byte>)
    requires |rest| >= 4 && rest[..4] == START_CODE
    ensures NextCut(START_CODE + u + rest, 4) == Some(4 + |u|) <==> !HasEmbeddedCode(u)
    ensures NextCut(START_CODE + u + rest, 4).Some?
  {
    hide NextCut, HasEmbeddedCode, IsBoundary;
    assert rest[0] == START_CODE[0] && rest[1] == START_CODE[1] && rest[2] == START_CODE[2] && rest[3] == START_CODE[3];
    BoundaryBehindUnit(u, rest);
    if HasEmbeddedCode(u) {
      var i := EmbeddedIsBoundary(u, rest);
    } else {
      forall i | 4 <= i < 4 + |u|
        ensures !IsBoundary(START_CODE + u + rest, i)
      {
        NoBoundaryInside(u, rest, i - 4);
      }
    }
  }

  lemma NoBoundaryInside(u: Unit, rest: seq<byte>, i: nat)
    requires |rest| >= 4 && rest[0] == 0 && rest[1] == 0 && rest[2] == 0 && rest[3] == 1
    requires !HasEmbeddedCode(u) && i < |u|
    ensures !IsBoundary(START_CODE + u + rest, i + 4)
  {
    var s := START_CODE + u + rest;
    assert forall k :: 0 <= k < |u| ==> s[4 + k] == u[k];
    assert forall k :: 0 <= k < 4 ==> s[4 + |u| + k] == rest[k];
    if i + 2 < |u| {
      assert !(u[i] == 0 && u[i + 1] == 0 && u[i + 2] == 1);
      if i + 3 < |u| {
        assert !(u[i + 1] == 0 && u[i + 1 + 1] == 0 && u[i + 1 + 2] == 1);
      }
    }
  }

  /** In the last unit only whole boundaries count. */
  lemma CutInLastUnit(u: Unit)
    ensures NextCut(START_CODE + u, 4) == None <==> !HasBoundary(u)
  {
    var s := START_CODE + u;
    assert s[4..] == u;
    if HasBoundary(u) {
      var i :| 0 <= i < |u| && IsBoundary(u, i);
      BoundaryShift(s, i);
    } else if NextCut(s, 4).Some? {
      BoundaryShift(s, NextCut(s, 4).value - 4);
    }
  }

  lemma CodedFront(units: seq<Unit>)
    requires units != []
    ensures |ToAnnexB(units)| >= 4 && ToAnnexB(units)[..4] == START_CODE
  {
  }

  /** What the splitter should give for a stream of units: all but the last cut off, the last in the
      accumulator. */
  function Recovered(units: seq<Unit>): Parse
    requires units != []
  {
    Parse(Coded(units[..|units| - 1]), START_CODE + units[|units| - 1])
  }

  /** Splitting an Annex-B stream recovers its units, start codes attached, if and only if no unit but
      the last embeds 00 00 01 and the last embeds no boundary. Trailing zero bytes do no harm. */
  lemma {:induction false} SplitRecoversUnits(units: seq<Unit>)
    requires units != []
    ensures |ToAnnexB(units)| >= 4
    ensures Split(ToAnnexB(units)) == Recovered(units) <==> Separable(units)
  {
    hide Split, NextCut, HasBoundary, HasEmbeddedCode;
    CodedFront(units);
    var s := ToAnnexB(units);
    SplitUnfolds(s);
    var u := units[0];
    if |units| == 1 {
      assert s == START_CODE + u;
      CutInLastUnit(u);
    } else {
      var tail := units[1..];
      var rest := ToAnnexB(tail);
      CodedFront(tail);
      SplitRecoversUnits(tail);
      CutBehindUnit(u, rest);
      RecoveredCons(units);
      SeparableCons(units);
      var cut := NextCut(s, 4).value;
      if cut == 4 + |u| {
        assert s[..cut] == START_CODE + u && s[cut..] == rest;
        SameHead(START_CODE + u, Split(rest), Recovered(tail));
      } else {
        DifferentHead(s[..cut], START_CODE + u, Split(s[cut..]), Recovered(tail));
      }
    }
  }

  lemma SameHead(head: seq<byte>, p: Parse, q: Parse)
    ensures Parse([head] + p.units, p.acc) == Parse([head] + q.units, q.acc) <==> p == q
  {
    assert ([head] + p.units)[1..] == p.units && ([head] + q.units)[1..] == q.units;
  }

  lemma DifferentHead(a: seq<byte>, b: seq<byte>, p: Parse, q: Parse)
    requires |a| != |b|
    ensures Parse([a] + p.units, p.acc) != Parse([b] + q.units, q.acc)
  {
    assert ([a] + p.units)[0] == a && ([b] + q.units)[0] == b;
  }

  lemma RecoveredCons(units: seq<Unit>)
    requires |units| > 1
    ensures Recovered(units) ==
            Parse([START_CODE + units[0]] + Recovered(units[1..]).units, Recovered(units[1..]).acc)
  {
    assert units[..|units| - 1][1..] == units[1..][..|units| - 2];
  }

  lemma SeparableCons(units: seq<Unit>)
    requires |units| > 1
    ensures Separable(units) <==> !HasEmbeddedCode(units[0]) && Separable(units[1..])
  {
    hide HasEmbeddedCode, HasBoundary;
    var tail := units[1..];
    assert tail[|tail| - 1] == units[|units| - 1];
    if !HasEmbeddedCode(units[0]) && Separable(tail) {
      forall i | 0 <= i < |units| - 1
        ensures !HasEmbeddedCode(units[i])
      {
        if i > 0 { assert units[i] == tail[i - 1]; }
      }
    }
    if Separable(units) {
      forall i | 0 <= i < |tail| - 1
        ensures !HasEmbeddedCode(tail[i])
      {
        assert tail[i] == units[i + 1];
      }
    }
  }

  /** AVCC to Annex-B to NAL units: converting length-prefixed units, whatever truncated bytes follow,
      and splitting the result recovers exactly those units, under exactly the same condition. */
  lemma AvccToUnits(units: seq<Unit>, tail: seq<byte>)
    requires units != [] && Fits(units, 4) && Truncated(tail, 4)
    ensures var annexb := ToAnnexB(Units(Prefixed(units, 4) + tail, 4));
            |annexb| >= 4 && (Split(annexb) == Recovered(units) <==> Separable(units))
  {
    LongestPrefix(Prefixed(units, 4) + tail, units, tail, 4);
    SplitRecoversUnits(units);
  }

  /** The type of a recovered unit is read off the unit's own first byte. */
  lemma CodedUnitType(u: Unit, hevc: bool)
    ensures ParseNalType(START_CODE + u, hevc) == if u == [] then Unknown else UnitType(u[0], hevc)
  {
    assert (START_CODE + u)[4..] == u;
  }
}
