/** RTMP video messages: parameter sets, frame numbering, and the path from the wire to Annex-B frames. */
module Video {
  import opened Bytes
  import opened OptionValue
  import opened Seqs
  import opened AnnexB
  import opened Avcc
  import opened RtmpChunk
  import opened RtmpWriter
  import opened RtmpSession

  const MSG_VIDEO: nat := 9
  const CODEC_AVC_H264: nat := 7
  const CODEC_HEVC_H265: nat := 12

  // ---------------------------------------------------------------- decoder configuration records

  /** The parameter sets read from a list, the bytes behind them, and whether all were whole. */
  datatype Sets = Sets(units: seq<Unit>, rest: seq<byte>, complete: bool)

  function TakeSets(s: seq<byte>, count: nat): Sets
    decreases count
  {
    if count == 0 then Sets([], s, true)
    else if Truncated(s, 2) then Sets([], s, false)
    else
      var end := 2 + FromBigEndian(s[..2]);
      var later := TakeSets(s[end..], count - 1);
      later.(units := [s[2..end]] + later.units)
  }

  /** The SPS and PPS units of a record; None if it is too short or an SPS is cut off. A PPS list that
      is cut off keeps its whole entries. */
  function RecordUnits(record: seq<byte>): Option<seq<Unit>> {
    if |record| < 7 then None
    else
      var sps := TakeSets(record[6..], record[5] % 32);
      if !sps.complete then None
      else if sps.rest == [] then Some(sps.units)
      else Some(sps.units + TakeSets(sps.rest[1..], sps.rest[0]).units)
  }

  /** extract_sps_pps_from_avcc. */
  function ExtractSpsPps(record: seq<byte>): Option<seq<byte>> {
    match RecordUnits(record)
    case None => None
    case Some(units) => if units == [] then None else Some(ToAnnexB(units))
  }

  /** One of the two loops: copies up to `count` length-prefixed sets behind start codes. */
  method CopySets(record: seq<byte>, start: nat, count: nat, out: seq<byte>)
    returns (result: seq<byte>, cursor: nat, complete: bool)
    requires start <= |record|
    ensures var taken := TakeSets(record[start..], count);
            && result == out + ToAnnexB(taken.units) && complete == taken.complete
            && (complete ==> cursor <= |record| && record[cursor..] == taken.rest)
  {
    hide TakeSets, ToAnnexB, FromBigEndian;
    result, cursor := out, start;
    ghost var whole := TakeSets(record[start..], count);
    ghost var done: seq<Unit> := [];
    Empty(whole.units);
    Empty(out);
    NothingCoded();
    var i := 0;
    while i < count
      invariant 0 <= i <= count && cursor <= |record|
      invariant result == out + ToAnnexB(done)
      invariant var later := TakeSets(record[cursor..], count - i);
                whole == Sets(done + later.units, later.rest, later.complete)
    {
      var rest := record[cursor..];
      TakeSetsUnfold(rest, count - i);
      if cursor + 2 > |record| {
        Empty(done);
        return result, cursor, false;
      }
      var length := FromBigEndian(record[cursor..cursor + 2]);
      assert rest[..2] == record[cursor..cursor + 2];
      cursor := cursor + 2;
      if cursor + length > |record| {
        Empty(done);
        return result, cursor, false;
      }
      var unit := record[cursor..cursor + length];
      assert rest[2..2 + length] == unit && rest[2 + length..] == record[cursor + length..];
      result := result + START_CODE;
      result := result + unit;
      CodedAppend(done, [unit]);
      OneCoded(unit);
      Assoc(out + ToAnnexB(done), START_CODE, unit);
      Assoc(out, ToAnnexB(done), START_CODE + unit);
      Assoc(done, [unit], TakeSets(rest[2 + length..], count - i - 1).units);
      cursor := cursor + length;
      done := done + [unit];
      i := i + 1;
    }
    TakeSetsUnfold(record[cursor..], 0);
    Empty(done);
    complete := true;
  }

  lemma TakeSetsUnfold(s: seq<byte>, count: nat)
    ensures TakeSets(s, count) ==
            if count == 0 then Sets([], s, true)
            else if Truncated(s, 2) then Sets([], s, false)
            else
              var end := 2 + FromBigEndian(s[..2]);
              var later := TakeSets(s[end..], count - 1);
              Sets([s[2..end]] + later.units, later.rest, later.complete)
  {
    hide FromBigEndian;
  }

  method ExtractSpsPpsFromAvcc(record: seq<byte>) returns (annexb: Option<seq<byte>>)
    ensures annexb == ExtractSpsPps(record)
  {
    hide TakeSets;
    if |record| < 7 { return None; }
    var numSps := record[5] % 32;
    ghost var sps := TakeSets(record[6..], numSps);
    var out, cursor, complete := CopySets(record, 6, numSps, []);
    if !complete { return None; }
    Empty(ToAnnexB(sps.units));
    ghost var units := sps.units;
    if cursor < |record| {
      var numPps := record[cursor];
      assert sps.rest[0] == numPps && record[cursor + 1..] == sps.rest[1..];
      ghost var pps := TakeSets(sps.rest[1..], numPps);
      out, cursor, complete := CopySets(record, cursor + 1, numPps, out);
      CodedAppend(sps.units, pps.units);
      units := sps.units + pps.units;
    }
    assert RecordUnits(record) == Some(units);
    EmptyCode(units);
    if out == [] { return None; }
    annexb := Some(out);
  }

  lemma EmptyCode(units: seq<Unit>)
    ensures ToAnnexB(units) == [] <==> units == []
  {
  }

  /** A record in the layout of section 5.3.3.1.2 of ISO/IEC 14496-15, with anything behind it. */
  function Record(head: seq<byte>, reserved: nat, sps: seq<Unit>, pps: seq<Unit>, extra: seq<byte>): seq<byte>
    requires |head| == 5 && reserved < 8 && |sps| < 32 && |pps| < 256
  {
    head + [reserved * 32 + |sps|] + (Prefixed(sps, 2) + ([|pps|] + (Prefixed(pps, 2) + extra)))
  }

  lemma {:induction false} TakeSetsRoundTrip(units: seq<Unit>, tail: seq<byte>)
    requires Fits(units, 2)
    ensures TakeSets(Prefixed(units, 2) + tail, |units|) == Sets(units, tail, true)
  {
    hide TakeSets, FromBigEndian, Truncated;
    TakeSetsUnfold(Prefixed(units, 2) + tail, |units|);
    if units == [] {
      Empty(tail);
    } else {
      var u := units[0];
      var rest := Prefixed(units[1..], 2) + tail;
      TakeSetsRoundTrip(units[1..], tail);
      Assoc(BigEndian(|u|, 2) + u, Prefixed(units[1..], 2), tail);
      PrefixedFront(u, rest, 2);
      TakeSetsUnfold(BigEndian(|u|, 2) + u + rest, |units|);
      assert [u] + units[1..] == units;
    }
  }

  lemma RecordFields(head: seq<byte>, reserved: nat, sps: seq<Unit>, pps: seq<Unit>, extra: seq<byte>)
    requires |head| == 5 && reserved < 8 && |sps| < 32 && |pps| < 256
    ensures var r := Record(head, reserved, sps, pps, extra);
            && |r| >= 7 && r[5] % 32 == |sps|
            && r[6..] == Prefixed(sps, 2) + ([|pps|] + (Prefixed(pps, 2) + extra))
  {
    hide Prefixed;
    var r := Record(head, reserved, sps, pps, extra);
    var behind := [|pps|] + (Prefixed(pps, 2) + extra);
    Three(head, [reserved * 32 + |sps|], Prefixed(sps, 2) + behind);
    assert r[5] == reserved * 32 + |sps| by { assert r[5..6][0] == reserved * 32 + |sps|; }
    ModUnique(r[5], 32, reserved, |sps|);
  }

  /** Every well-formed record gives back its parameter sets, SPS before PPS, in Annex-B form. */
  lemma RecordRoundTrip(head: seq<byte>, reserved: nat, sps: seq<Unit>, pps: seq<Unit>, extra: seq<byte>)
    requires |head| == 5 && reserved < 8 && |sps| < 32 && |pps| < 256 && Fits(sps, 2) && Fits(pps, 2)
    ensures ExtractSpsPps(Record(head, reserved, sps, pps, extra)) ==
            if sps + pps == [] then None else Some(ToAnnexB(sps + pps))
  {
    var behind := [|pps|] + (Prefixed(pps, 2) + extra);
    RecordFields(head, reserved, sps, pps, extra);
    TakeSetsRoundTrip(sps, behind);
    TakeSetsRoundTrip(pps, extra);
    Front([|pps|], Prefixed(pps, 2) + extra);
    hide TakeSets, ToAnnexB, Record, Prefixed, Fits;
    assert behind[0] == |pps| && behind[1..] == Prefixed(pps, 2) + extra;
  }

  // ---------------------------------------------------------------- video messages

  datatype VideoFrame = VideoFrame(frameId: nat, keyframe: bool, data: seq<byte>)

  /** The part of the session state that messages update: `gateways` lists what each gateway installed so far
      was given, the one in use last, and `writers` the same for the shared-memory writers. */
  datatype VideoState = VideoState(
    cachedSeqHeader: Option<seq<byte>>, frameSeq: nat, gateways: seq<seq<VideoFrame>>, writers: seq<seq<seq<byte>>>)

  const FRESH := VideoState(None, 0, [], [])

  /** Adds to what the one in use was given; without one it is lost. */
  function Give<T>(all: seq<seq<T>>, x: T): (r: seq<seq<T>>)
    ensures |r| == |all|
  {
    if all == [] then [] else all[..|all| - 1] + [all[|all| - 1] + [x]]
  }

  /** The Annex-B bytes of a coded-picture payload; a key frame is led by the cached parameter sets. */
  function FrameData(cached: Option<seq<byte>>, keyframe: bool, raw: seq<byte>): seq<byte> {
    (if keyframe && cached.Some? then cached.value else []) + ToAnnexB(Units(raw, 4))
  }

  predicate KnownCodec(payload: seq<byte>) {
    |payload| >= 5 && (payload[0] % 16 == CODEC_AVC_H264 || payload[0] % 16 == CODEC_HEVC_H265)
  }

  /** The frame a video message makes, if it makes one. */
  function Made(st: VideoState, payload: seq<byte>): (r: Option<(bool, seq<byte>)>)
    ensures r.Some? ==> r.value.1 != []
  {
    if !KnownCodec(payload) || payload[1] != 1 then None
    else
      var keyframe := payload[0] / 16 == 1;
      var data := FrameData(st.cachedSeqHeader, keyframe, payload[5..]);
      if data == [] then None else Some((keyframe, data))
  }

  function HandleVideo(st: VideoState, payload: seq<byte>): VideoState {
    if KnownCodec(payload) && payload[1] == 0 then (
      match ExtractSpsPps(payload[5..])
      case Some(seqHeader) => st.(cachedSeqHeader := Some(seqHeader))
      case None => st)
    else
      match Made(st, payload)
      case None => st
      case Some((keyframe, data)) =>
        st.(frameSeq := st.frameSeq + 1,
            gateways := Give(st.gateways, VideoFrame(st.frameSeq + 1, keyframe, data)),
            writers := Give(st.writers, data))
  }

  /** An AMF0 command message whose command name is "publish". */
  predicate IsPublish(m: Message) {
    m.msgType == MSG_AMF0_COMMAND && PUBLISH <= m.payload
  }

  /** The AMF0 string "publish": marker, two length bytes, seven characters. */
  const PUBLISH: seq<byte> := [2, 0, 7, 112, 117, 98, 108, 105, 115, 104]

  /** A publish command installs a new gateway, and a new writer if its mapping could be created. */
  function Publish(st: VideoState, created: bool): VideoState {
    st.(gateways := st.gateways + [[]], writers := if created then st.writers + [[]] else st.writers)
  }

  /** Handling one message; `created(k)` says whether the k-th publish command can create its mapping. */
  function HandleMessage(st: VideoState, m: Message, created: nat -> bool): VideoState {
    if m.msgType == MSG_VIDEO then HandleVideo(st, m.payload)
    else if IsPublish(m) then Publish(st, created(|st.gateways|))
    else st
  }

  /** The part of the session state that video messages and publish commands update. */
  class VideoSession {
    var cachedSeqHeader: Option<seq<byte>>
    var frameSeq: nat
    var gateway: Option<nat>           // which of `dispatched` is in use
    var shmWriter: Option<nat>         // which of `written` is in use
    var dispatched: seq<seq<VideoFrame>>
    var written: seq<seq<seq<byte>>>

    predicate Valid()
      reads this
    {
      && gateway == (if dispatched == [] then None else Some(|dispatched| - 1))
      && shmWriter == (if written == [] then None else Some(|written| - 1))
    }

    function View(): VideoState
      reads this
    {
      VideoState(cachedSeqHeader, frameSeq, dispatched, written)
    }

    constructor ()
      ensures Valid() && View() == FRESH
    {
      cachedSeqHeader, frameSeq, gateway, shmWriter, dispatched, written := None, 0, None, None, [], [];
    }

    /** The part of the publish command that touches frames: a new writer if it could be created, and a new
        gateway. The frame number is not reset. */
    method HandlePublish(created: bool)
      requires Valid()
      modifies this
      ensures Valid() && View() == Publish(old(View()), created)
    {
      if created {
        written := written + [[]];
        shmWriter := Some(|written| - 1);
      }
      dispatched := dispatched + [[]];
      gateway := Some(|dispatched| - 1);
    }

    /** handle_video_message. */
    method HandleVideoMessage(payload: seq<byte>)
      requires Valid()
      modifies this
      ensures Valid() && View() == HandleVideo(old(View()), payload)
    {
      if |payload| < 5 { return; }
      var codec := payload[0] % 16;
      if codec != CODEC_AVC_H264 && codec != CODEC_HEVC_H265 { return; }
      var raw := payload[5..];
      if payload[1] == 0 {
        var annexbSeq := ExtractSpsPpsFromAvcc(raw);
        if annexbSeq.Some? { cachedSeqHeader := annexbSeq; }
        return;
      }
      if payload[1] == 1 {
        var keyframe := payload[0] / 16 == 1;
        var annexbFrame := [];
        if keyframe && cachedSeqHeader.Some? { annexbFrame := cachedSeqHeader.value; }
        annexbFrame := ConvertAvccToAnnexB(raw, annexbFrame);
        if annexbFrame == [] { return; }
        Emit(keyframe, annexbFrame);
      }
    }

    /** Numbers a frame and gives it to the writer and the gateway, where there is one. */
    method Emit(keyframe: bool, annexbFrame: seq<byte>)
      requires Valid()
      modifies this`frameSeq, this`written, this`dispatched
      ensures Valid() && frameSeq == old(frameSeq) + 1
      ensures dispatched == Give(old(dispatched), VideoFrame(frameSeq, keyframe, annexbFrame))
      ensures written == Give(old(written), annexbFrame)
    {
      frameSeq := frameSeq + 1;
      if shmWriter.Some? {
        var w := shmWriter.value;
        written := written[w := written[w] + [annexbFrame]];
      }
      if gateway.Some? {
        var g := gateway.value;
        dispatched := dispatched[g := dispatched[g] + [VideoFrame(frameSeq, keyframe, annexbFrame)]];
      }
    }
  }

  function VideoRun(st: VideoState, ms: seq<Message>, created: nat -> bool): VideoState
    decreases |ms|
  {
    if ms == [] then st else VideoRun(HandleMessage(st, ms[0], created), ms[1..], created)
  }

  lemma {:induction false} VideoRunAppend(st: VideoState, a: seq<Message>, b: seq<Message>, created: nat -> bool)
    ensures VideoRun(st, a + b, created) == VideoRun(VideoRun(st, a, created), b, created)
    decreases |a|
  {
    hide HandleMessage;
    if a == [] {
      Empty(b);
    } else {
      Tail(a, b);
      VideoRunAppend(HandleMessage(st, a[0], created), a[1..], b, created);
    }
  }

  // ---------------------------------------------------------------- numbering

  /** How many of the messages make a frame. */
  function FramesMade(st: VideoState, ms: seq<Message>, created: nat -> bool): nat
    decreases |ms|
  {
    if ms == [] then 0
    else (if ms[0].msgType == MSG_VIDEO && Made(st, ms[0].payload).Some? then 1 else 0)
         + FramesMade(HandleMessage(st, ms[0], created), ms[1..], created)
  }

  /** The frames are non-empty and numbered from base + 1 on. */
  predicate NumberedFrom(frames: seq<VideoFrame>, base: nat) {
    forall i :: 0 <= i < |frames| ==> frames[i].frameId == base + i + 1 && frames[i].data != []
  }

  /** The messages install no gateway. */
  predicate NoPublish(ms: seq<Message>) {
    forall i :: 0 <= i < |ms| ==> ms[i].msgType == MSG_VIDEO || !IsPublish(ms[i])
  }

  /** While one gateway is in use, all it is given are the frames made, numbered on from where the count was;
      the other gateways are given nothing. */
  lemma {:induction false} OneGatewaysFrames(
    st: VideoState, ms: seq<Message>, created: nat -> bool, base: nat, frames: seq<VideoFrame>)
    requires NoPublish(ms) && NumberedFrom(frames, base) && st.frameSeq == base + |frames|
    requires st.gateways != [] && st.gateways[|st.gateways| - 1] == frames
    ensures var after := VideoRun(st, ms, created);
            && |after.gateways| == |st.gateways|
            && after.gateways[..|st.gateways| - 1] == st.gateways[..|st.gateways| - 1]
            && var now := after.gateways[|st.gateways| - 1];
               && NumberedFrom(now, base) && frames <= now
               && |now| == |frames| + FramesMade(st, ms, created) && after.frameSeq == base + |now|
    decreases |ms|
  {
    if ms != [] {
      OneMessagesFrame(st, ms[0], created, base, frames);
      hide HandleMessage, Made, NumberedFrom;
      var next := HandleMessage(st, ms[0], created);
      assert NoPublish(ms[1..]);
      OneGatewaysFrames(next, ms[1..], created, base, next.gateways[|st.gateways| - 1]);
    }
  }

  lemma OneMessagesFrame(st: VideoState, m: Message, created: nat -> bool, base: nat, frames: seq<VideoFrame>)
    requires m.msgType == MSG_VIDEO || !IsPublish(m)
    requires NumberedFrom(frames, base) && st.frameSeq == base + |frames|
    requires st.gateways != [] && st.gateways[|st.gateways| - 1] == frames
    ensures var next := HandleMessage(st, m, created);
            && |next.gateways| == |st.gateways|
            && next.gateways[..|st.gateways| - 1] == st.gateways[..|st.gateways| - 1]
            && var now := next.gateways[|st.gateways| - 1];
               && NumberedFrom(now, base) && frames <= now && next.frameSeq == base + |now|
               && |now| == |frames| + if m.msgType == MSG_VIDEO && Made(st, m.payload).Some? then 1 else 0
  {
    hide Made, ExtractSpsPps;
    var next := HandleMessage(st, m, created);
    if m.msgType == MSG_VIDEO && Made(st, m.payload).Some? {
      var made := Made(st, m.payload).value;
      MadeIsPicture(st, m.payload);
      NumberedMore(frames, base, VideoFrame(st.frameSeq + 1, made.0, made.1));
      assert next.gateways == Give(st.gateways, VideoFrame(st.frameSeq + 1, made.0, made.1));
    } else {
      assert next.gateways == st.gateways;
    }
    hide NumberedFrom, HandleMessage;
  }

  lemma MadeIsPicture(st: VideoState, payload: seq<byte>)
    requires Made(st, payload).Some?
    ensures |payload| >= 2 && payload[1] == 1
  {
  }

  lemma NumberedMore(frames: seq<VideoFrame>, base: nat, f: VideoFrame)
    requires NumberedFrom(frames, base) && f.frameId == base + |frames| + 1 && f.data != []
    ensures NumberedFrom(frames + [f], base)
  {
  }

  /** With no gateway, frames are made and counted, and nobody is given any. */
  lemma {:induction false} CountOnly(st: VideoState, ms: seq<Message>, created: nat -> bool)
    ensures VideoRun(st, ms, created).frameSeq == st.frameSeq + FramesMade(st, ms, created)
    ensures NoPublish(ms) ==> |VideoRun(st, ms, created).gateways| == |st.gateways|
    decreases |ms|
  {
    if ms != [] {
      hide Made, ExtractSpsPps;
      var next := HandleMessage(st, ms[0], created);
      CountOnly(next, ms[1..], created);
      if NoPublish(ms) { assert NoPublish(ms[1..]); }
    }
  }

  /** The frames of one gateway. Whatever came before its publish command, the gateway is given the frames
      made from then until the next publish command, every one, non-empty, consecutively numbered. The numbers
      start at 1 if and only if no message before the publish command had made a frame. */
  lemma GatewaysFramesAreConsecutive(before: seq<Message>, publish: Message, ms: seq<Message>, created: nat -> bool)
    requires IsPublish(publish) && NoPublish(ms)
    ensures var base := FramesMade(FRESH, before, created);
            var installed := VideoRun(FRESH, before + [publish], created);
            var after := VideoRun(FRESH, before + [publish] + ms, created);
            && |after.gateways| == |installed.gateways| > 0
            && var frames := after.gateways[|after.gateways| - 1];
               && |frames| == FramesMade(installed, ms, created) && NumberedFrom(frames, base)
               && (frames != [] ==> (frames[0].frameId == 1 <==> base == 0))
  {
    var st := VideoRun(FRESH, before, created);
    var installed := HandleMessage(st, publish, created);
    CountOnly(FRESH, before, created);
    VideoRunAppend(FRESH, before, [publish], created);
    VideoRunAppend(FRESH, before + [publish], ms, created);
    assert VideoRun(FRESH, before + [publish], created) == installed by { OneRun(st, publish, created); }
    assert installed == Publish(st, created(|st.gateways|));
    hide Made, HandleMessage, VideoRun;
    OneGatewaysFrames(installed, ms, created, st.frameSeq, []);
  }

  lemma OneRun(st: VideoState, m: Message, created: nat -> bool)
    ensures VideoRun(st, [m], created) == HandleMessage(st, m, created)
  {
    hide HandleMessage;
    var next := HandleMessage(st, m, created);
    assert [m][1..] == [] && VideoRun(next, [], created) == next;
  }

  /** All gateways together: what the gateways were given, one after the other, are consecutive frames, and
      every frame made since the first publish command was given to exactly one of them. */
  ghost predicate Handed(gateways: seq<seq<VideoFrame>>, first: nat, end: nat) {
    NumberedFrom(Concat(gateways), first) && first + |Concat(gateways)| == end
  }

  lemma {:induction false} FramesStayNumbered(st: VideoState, ms: seq<Message>, created: nat -> bool, first: nat)
    requires st.gateways != [] && Handed(st.gateways, first, st.frameSeq)
    ensures var after := VideoRun(st, ms, created); Handed(after.gateways, first, after.frameSeq)
    decreases |ms|
  {
    if ms != [] {
      StaysHanded(st, ms[0], created, first);
      hide HandleMessage, Handed;
      FramesStayNumbered(HandleMessage(st, ms[0], created), ms[1..], created, first);
    }
  }

  lemma StaysHanded(st: VideoState, m: Message, created: nat -> bool, first: nat)
    requires st.gateways != [] && Handed(st.gateways, first, st.frameSeq)
    ensures var next := HandleMessage(st, m, created);
            next.gateways != [] && Handed(next.gateways, first, next.frameSeq)
  {
    hide Made, ExtractSpsPps;
    var next := HandleMessage(st, m, created);
    if next.frameSeq != st.frameSeq {
      var made := Made(st, m.payload).value;
      GiveConcat(st.gateways, VideoFrame(st.frameSeq + 1, made.0, made.1));
    } else if next.gateways != st.gateways {
      ConcatAppend(st.gateways, [[]]);
      assert Concat<VideoFrame>([[]]) == [];
      Empty(Concat(st.gateways));
    }
  }

  lemma GiveConcat<T>(all: seq<seq<T>>, x: T)
    requires all != []
    ensures Concat(Give(all, x)) == Concat(all) + [x]
  {
    var front, last := all[..|all| - 1], all[|all| - 1];
    assert all == front + [last];
    ConcatAppend(front, [last]);
    ConcatAppend(front, [last + [x]]);
    OnePart(last);
    OnePart(last + [x]);
    Assoc(Concat(front), last, [x]);
  }

  lemma OnePart<T>(part: seq<T>)
    ensures Concat([part]) == part
  {
    assert [part][1..] == [] && Concat<T>([]) == [];
    Empty(part);
  }

  /** The cached header is always a non-empty list of parameter sets. */
  ghost predicate HeaderOk(st: VideoState) {
    st.cachedSeqHeader.Some? ==> exists sets :: sets != [] && st.cachedSeqHeader.value == ToAnnexB(sets)
  }

  lemma {:induction false} HeaderStaysParameterSets(st: VideoState, ms: seq<Message>, created: nat -> bool)
    requires HeaderOk(st)
    ensures HeaderOk(VideoRun(st, ms, created))
    decreases |ms|
  {
    if ms != [] {
      hide Units, RecordUnits;
      var next := HandleMessage(st, ms[0], created);
      if next.cachedSeqHeader != st.cachedSeqHeader {
        var sets := RecordUnits(ms[0].payload[5..]).value;
        assert sets != [] && next.cachedSeqHeader.value == ToAnnexB(sets);
      }
      HeaderStaysParameterSets(next, ms[1..], created);
    }
  }

  /** A picture message: frame type and codec, packet type 1, composition time, length-prefixed units. */
  function Picture(keyframe: bool, codec: nat, time: seq<byte>, units: seq<Unit>, tail: seq<byte>): seq<byte>
    requires codec < 16 && |time| == 3
  {
    [(if keyframe then 16 else 32) + codec, 1] + time + (Prefixed(units, 4) + tail)
  }

  /** A configuration message: packet type 0 and a decoder configuration record. */
  function Configuration(codec: nat, time: seq<byte>, record: seq<byte>): seq<byte>
    requires codec < 16 && |time| == 3
  {
    [16 + codec, 0] + time + record
  }

  lemma ConfigurationHandled(st: VideoState, codec: nat, time: seq<byte>, record: seq<byte>)
    requires (codec == CODEC_AVC_H264 || codec == CODEC_HEVC_H265) && |time| == 3
    ensures HandleVideo(st, Configuration(codec, time, record)) ==
            if ExtractSpsPps(record).Some? then st.(cachedSeqHeader := ExtractSpsPps(record)) else st
  {
    hide ExtractSpsPps;
    var config := Configuration(codec, time, record);
    Three([16 + codec, 0], time, record);
    assert config[0] == 16 + codec && config[1] == 0;
    ModUnique(config[0], 16, 1, codec);
  }

  /** The next frame is numbered and given to the gateway and the writer in use, if there are any. */
  function Emitted(st: VideoState, keyframe: bool, data: seq<byte>): VideoState {
    st.(frameSeq := st.frameSeq + 1,
        gateways := Give(st.gateways, VideoFrame(st.frameSeq + 1, keyframe, data)),
        writers := Give(st.writers, data))
  }

  lemma PictureHandled(
    st: VideoState, keyframe: bool, codec: nat, time: seq<byte>, units: seq<Unit>, tail: seq<byte>)
    requires (codec == CODEC_AVC_H264 || codec == CODEC_HEVC_H265) && |time| == 3
    requires units != [] && Fits(units, 4) && Truncated(tail, 4)
    ensures var lead := if keyframe && st.cachedSeqHeader.Some? then st.cachedSeqHeader.value else [];
            HandleVideo(st, Picture(keyframe, codec, time, units, tail)) ==
              Emitted(st, keyframe, lead + ToAnnexB(units))
  {
    hide ToAnnexB, Units, Truncated, Prefixed;
    var picture := Picture(keyframe, codec, time, units, tail);
    var raw := Prefixed(units, 4) + tail;
    var first := (if keyframe then 16 else 32) + codec;
    Three([first, 1], time, raw);
    assert picture[0] == first && picture[1] == 1;
    ModUnique(picture[0], 16, if keyframe then 1 else 2, codec);
    LongestPrefix(raw, units, tail, 4);
    EmptyCode(units);
  }

  /** A key frame behind a configuration message carries the SPS, the PPS and its own units, in that
      order and nothing else; any other picture carries its own units only. Bytes of a cut-off last
      unit are dropped. */
  lemma KeyframeCarriesParameterSets(
    st: VideoState, codec: nat, time: seq<byte>,
    head: seq<byte>, reserved: nat, sps: seq<Unit>, pps: seq<Unit>, extra: seq<byte>,
    keyframe: bool, units: seq<Unit>, tail: seq<byte>)
    requires (codec == CODEC_AVC_H264 || codec == CODEC_HEVC_H265) && |time| == 3
    requires |head| == 5 && reserved < 8 && |sps| < 32 && |pps| < 256 && Fits(sps, 2) && Fits(pps, 2)
    requires sps + pps != [] && units != [] && Fits(units, 4) && Truncated(tail, 4)
    ensures var configured := HandleVideo(st, Configuration(codec, time, Record(head, reserved, sps, pps, extra)));
            var after := HandleVideo(configured, Picture(keyframe, codec, time, units, tail));
            after == Emitted(configured, keyframe, ToAnnexB(if keyframe then sps + pps + units else units))
  {
    hide HandleVideo, ExtractSpsPps, ToAnnexB, Truncated, Record, Configuration, Picture;
    var record := Record(head, reserved, sps, pps, extra);
    RecordRoundTrip(head, reserved, sps, pps, extra);
    ConfigurationHandled(st, codec, time, record);
    var configured := HandleVideo(st, Configuration(codec, time, record));
    PictureHandled(configured, keyframe, codec, time, units, tail);
    CodedAppend(sps + pps, units);
    Empty(ToAnnexB(units));
  }

  /** A picture before the publish command is made, numbered, and given to nobody: the first frame the
      gateway gets is number 2. */
  lemma PictureBeforePublish(codec: nat, time: seq<byte>, units: seq<Unit>, publish: Message, created: nat -> bool)
    requires (codec == CODEC_AVC_H264 || codec == CODEC_HEVC_H265) && |time| == 3 && units != [] && Fits(units, 4)
    requires IsPublish(publish)
    ensures var picture := Message(6, MSG_VIDEO, 0, 1, Picture(false, codec, time, units, []));
            VideoRun(FRESH, [picture, publish, picture], created).gateways ==
              [[VideoFrame(2, false, ToAnnexB(units))]]
  {
    hide ToAnnexB, HandleVideo, Picture, VideoRun;
    var picture := Message(6, MSG_VIDEO, 0, 1, Picture(false, codec, time, units, []));
    var first := VideoState(None, 1, [], []);
    var second := Publish(first, created(0));
    Empty(ToAnnexB(units));
    PictureHandled(FRESH, false, codec, time, units, []);
    PictureHandled(second, false, codec, time, units, []);
    RunCons(FRESH, picture, [publish, picture], created);
    RunCons(first, publish, [picture], created);
    OneRun(second, picture, created);
    FirstGiven(VideoFrame(2, false, ToAnnexB(units)));
    assert HandleMessage(FRESH, picture, created) == first;
    assert HandleMessage(first, publish, created) == second && second.gateways == [[]];
    assert [picture] + [publish, picture] == [picture, publish, picture] && [publish] + [picture] == [publish, picture];
  }

  lemma FirstGiven(f: VideoFrame)
    ensures Give([[]], f) == [[f]]
  {
    var all: seq<seq<VideoFrame>> := [[]];
    assert all[..0] == [] && all[0] + [f] == [f];
    Empty([[f]]);
  }

  lemma RunCons(st: VideoState, m: Message, ms: seq<Message>, created: nat -> bool)
    ensures VideoRun(st, [m] + ms, created) == VideoRun(HandleMessage(st, m, created), ms, created)
  {
    hide HandleMessage;
    Tail([m], ms);
    Empty(ms);
  }

  /** From the writer's messages to frames: what the session decodes from a written run leads to the
      same frames as the messages themselves. */
  lemma WireToFrames(ms: seq<Message>, st: VideoState, states: States, chunkSize: nat, created: nat -> bool)
    requires chunkSize > 0 && forall i :: 0 <= i < |ms| ==> Writable(ms[i]) && Faithful(ms[i])
    ensures VideoRun(st, SessionRun(WriteAll(ms, chunkSize), states, chunkSize).messages, created) ==
            VideoRun(st, ms, created)
  {
    WrittenRunRead(ms, states, chunkSize);
    EmptyMessagesDoNothing(st, ms, created);
  }

  lemma {:induction false} EmptyMessagesDoNothing(st: VideoState, ms: seq<Message>, created: nat -> bool)
    ensures VideoRun(st, NonEmpty(ms), created) == VideoRun(st, ms, created)
    decreases |ms|
  {
    if ms != [] {
      hide HandleMessage;
      var next := HandleMessage(st, ms[0], created);
      EmptyMessagesDoNothing(next, ms[1..], created);
      if ms[0].payload == [] {
        EmptyPayload(st, ms[0], created);
        Empty(NonEmpty(ms[1..]));
      } else {
        Tail([ms[0]], NonEmpty(ms[1..]));
        Empty(NonEmpty(ms[1..]));
      }
    }
  }

  lemma EmptyPayload(st: VideoState, m: Message, created: nat -> bool)
    requires m.payload == []
    ensures HandleMessage(st, m, created) == st
  {
  }
}
