/** What a publishing session owes its shared-memory writers, which video messages make a frame, and what a
    damaged decoder configuration record yields. */
module VideoLaws {
  import opened Bytes
  import opened OptionValue
  import opened Seqs
  import opened AnnexB
  import opened Avcc
  import opened RtmpChunk
  import opened Video

  // ---------------------------------------------------------------- writers

  /** The bytes of the frames, which is what a writer is given. */
  function Data(frames: seq<VideoFrame>): (d: seq<seq<byte>>)
    ensures |d| == |frames| && forall i :: 0 <= i < |d| ==> d[i] == frames[i].data
  {
    seq(|frames|, i requires 0 <= i < |frames| => frames[i].data)
  }

  /** No publish command from the `from`-th up to the `to`-th can create its mapping. */
  ghost predicate NoneCreated(created: nat -> bool, from: nat, to: nat) {
    forall k :: from <= k < to ==> !created(k)
  }

  /** The writer in use has been given `more`. */
  function WithMore(writers: seq<seq<seq<byte>>>, more: seq<seq<byte>>): seq<seq<seq<byte>>>
    requires writers != []
  {
    writers[..|writers| - 1] + [writers[|writers| - 1] + more]
  }

  lemma {:induction false} GatewaysStay(st: VideoState, ms: seq<Message>, created: nat -> bool)
    ensures |VideoRun(st, ms, created).gateways| >= |st.gateways|
    decreases |ms|
  {
    if ms != [] {
      hide Made, ExtractSpsPps;
      GatewaysStay(HandleMessage(st, ms[0], created), ms[1..], created);
    }
  }

  /** One message adds a frame to what the gateways together were given, and the same bytes to the writer in use,
      or adds to neither. */
  lemma OneMessageGives(st: VideoState, m: Message, created: nat -> bool) returns (fs: seq<VideoFrame>)
    requires st.gateways != [] && st.writers != []
    requires m.msgType != MSG_VIDEO && IsPublish(m) ==> !created(|st.gateways|)
    ensures var next := HandleMessage(st, m, created);
            && next.gateways != [] && Concat(next.gateways) == Concat(st.gateways) + fs
            && next.writers == WithMore(st.writers, Data(fs))
    ensures |fs| == if m.msgType == MSG_VIDEO && Made(st, m.payload).Some? then 1 else 0
    ensures NumberedFrom(fs, st.frameSeq) && HandleMessage(st, m, created).frameSeq == st.frameSeq + |fs|
  {
    var next := HandleMessage(st, m, created);
    hide Made, ExtractSpsPps, Concat;
    if m.msgType == MSG_VIDEO && Made(st, m.payload).Some? {
      MadeIsPicture(st, m.payload);
      var f := VideoFrame(st.frameSeq + 1, Made(st, m.payload).value.0, Made(st, m.payload).value.1);
      assert next.gateways == Give(st.gateways, f) && next.writers == Give(st.writers, f.data);
      GiveConcat(st.gateways, f);
      fs := [f];
      assert Data(fs) == [f.data];
    } else {
      fs := [];
      Empty(Concat(st.gateways));
      assert next.writers == st.writers && Data(fs) == [];
      NothingMore(st.writers);
      if next.gateways != st.gateways { EmptyGateway(st.gateways); }
    }
  }

  lemma NothingMore(writers: seq<seq<seq<byte>>>)
    requires writers != []
    ensures WithMore(writers, []) == writers
  {
    Empty(writers[|writers| - 1]);
  }

  lemma EmptyGateway(gateways: seq<seq<VideoFrame>>)
    ensures Concat(gateways + [[]]) == Concat(gateways)
  {
    ConcatAppend(gateways, [[]]);
    assert Concat<VideoFrame>([[]]) == [];
    Empty(Concat(gateways));
  }

  lemma MoreTwice(writers: seq<seq<seq<byte>>>, a: seq<VideoFrame>, b: seq<VideoFrame>)
    requires writers != []
    ensures WithMore(WithMore(writers, Data(a)), Data(b)) == WithMore(writers, Data(a + b))
  {
    assert Data(a + b) == Data(a) + Data(b);
    var last := writers[|writers| - 1];
    Assoc(last, Data(a), Data(b));
    Front(writers[..|writers| - 1], [last + Data(a)]);
  }

  /** While no new writer is created, the writer in use is given the bytes of every frame that is made. */
  lemma {:induction false} WriterGetsAll(st: VideoState, ms: seq<Message>, created: nat -> bool)
    returns (fs: seq<VideoFrame>)
    requires st.gateways != [] && st.writers != []
    requires NoneCreated(created, |st.gateways|, |VideoRun(st, ms, created).gateways|)
    ensures Concat(VideoRun(st, ms, created).gateways) == Concat(st.gateways) + fs
    ensures VideoRun(st, ms, created).writers == WithMore(st.writers, Data(fs))
    ensures |fs| == FramesMade(st, ms, created) && NumberedFrom(fs, st.frameSeq)
    decreases |ms|
  {
    if ms == [] {
      fs := [];
      Empty(Concat(st.gateways));
      NothingMore(st.writers);
      assert Data(fs) == [];
    } else {
      var next := HandleMessage(st, ms[0], created);
      GatewaysStay(next, ms[1..], created);
      CreatedInRange(st, ms[0], created, |VideoRun(next, ms[1..], created).gateways|);
      var first := OneMessageGives(st, ms[0], created);
      hide HandleMessage, Made, Concat, Data, WithMore, NumberedFrom;
      var later := WriterGetsAll(next, ms[1..], created);
      fs := first + later;
      NumberedTogether(first, later, st.frameSeq);
      MoreTwice(st.writers, first, later);
      Assoc(Concat(st.gateways), first, later);
    }
  }

  lemma NumberedTogether(a: seq<VideoFrame>, b: seq<VideoFrame>, base: nat)
    requires NumberedFrom(a, base) && NumberedFrom(b, base + |a|)
    ensures NumberedFrom(a + b, base)
  {
    assert forall i :: |a| <= i < |a + b| ==> (a + b)[i] == b[i - |a|];
  }

  lemma CreatedInRange(st: VideoState, m: Message, created: nat -> bool, end: nat)
    requires NoneCreated(created, |st.gateways|, end) && |HandleMessage(st, m, created).gateways| <= end
    ensures m.msgType != MSG_VIDEO && IsPublish(m) ==> !created(|st.gateways|)
    ensures NoneCreated(created, |HandleMessage(st, m, created).gateways|, end)
  {
    hide Made, ExtractSpsPps;
  }

  /** The frames of one writer. A publish command that creates its mapping installs a writer; from then until
      the next publish command that does, it is given the bytes of every frame made, in order, the very frames
      the gateways are given, and numbered on from those made before. A publish command whose mapping cannot be
      created changes the gateway and keeps the writer. */
  lemma WritersFramesAreTheGateways(
    before: seq<Message>, publish: Message, ms: seq<Message>, created: nat -> bool)
    returns (fs: seq<VideoFrame>)
    requires publish.msgType == 20 && IsPublish(publish) && created(|VideoRun(FRESH, before, created).gateways|)
    requires NoneCreated(created, |VideoRun(FRESH, before + [publish], created).gateways|,
                         |VideoRun(FRESH, before + [publish] + ms, created).gateways|)
    ensures var earlier := VideoRun(FRESH, before, created);
            var installed := VideoRun(FRESH, before + [publish], created);
            var after := VideoRun(FRESH, before + [publish] + ms, created);
            && after.writers == earlier.writers + [Data(fs)]
            && Concat(after.gateways) == Concat(earlier.gateways) + fs
            && |fs| == FramesMade(installed, ms, created)
            && NumberedFrom(fs, FramesMade(FRESH, before, created))
  {
    var st := VideoRun(FRESH, before, created);
    var installed := HandleMessage(st, publish, created);
    CountOnly(FRESH, before, created);
    VideoRunAppend(FRESH, before, [publish], created);
    VideoRunAppend(FRESH, before + [publish], ms, created);
    OneRun(st, publish, created);
    assert installed == Publish(st, true) && installed.frameSeq == FramesMade(FRESH, before, created);
    EmptyGateway(st.gateways);
    hide Made, HandleMessage, VideoRun, Concat;
    fs := WriterGetsAll(installed, ms, created);
    Front(st.writers, [[]]);
    Empty(Data(fs));
  }

  // ---------------------------------------------------------------- which messages make a frame

  /** Messages of type 9 are video messages. A message of type 20 whose payload starts with the string "publish"
      is a publish command. Any other message leaves frames, gateways, writers and cached header alone. */
  lemma MessagesByType(st: VideoState, m: Message, created: nat -> bool)
    ensures HandleMessage(st, m, created) ==
            if m.msgType == 9 then HandleVideo(st, m.payload)
            else if m.msgType == 20 && [2, 0, 7] + ['p' as byte, 'u' as byte, 'b' as byte, 'l' as byte, 'i' as byte,
                                                    's' as byte, 'h' as byte] <= m.payload
            then st.(gateways := st.gateways + [[]],
                     writers := if created(|st.gateways|) then st.writers + [[]] else st.writers)
            else st
  {
  }

  /** A video message, exactly. With fewer than five bytes, a codec other than 7 and 12, or a packet type other
      than 0 and 1, it changes nothing. With packet type 0 it can only change the cached header. With packet
      type 1 it makes a frame unless that would be empty: the frame is a key frame exactly if the upper half of
      the first byte is 1, and a key frame is led by the cached header. The bytes behind the fifth are whole
      units and a cut-off rest. */
  lemma VideoMessageExactly(st: VideoState, payload: seq<byte>, units: seq<Unit>, tail: seq<byte>)
    requires |payload| >= 5 ==>
      payload[5..] == Prefixed(units, 4) + tail && Fits(units, 4) && Truncated(tail, 4)
    ensures var after := HandleVideo(st, payload);
            if |payload| < 5 || (payload[0] % 16 != 7 && payload[0] % 16 != 12) || payload[1] > 1 then after == st
            else if payload[1] == 0 then
              after == st.(cachedSeqHeader := after.cachedSeqHeader)
              && after.cachedSeqHeader == if ExtractSpsPps(payload[5..]).Some? then ExtractSpsPps(payload[5..])
                                          else st.cachedSeqHeader
            else
              var keyframe := 16 <= payload[0] < 32;
              var data := (if keyframe && st.cachedSeqHeader.Some? then st.cachedSeqHeader.value else [])
                          + ToAnnexB(units);
              after == if data == [] then st else Emitted(st, keyframe, data)
  {
    hide ExtractSpsPps, ToAnnexB, Units, Prefixed, Truncated, Fits;
    if |payload| >= 5 { LongestPrefix(payload[5..], units, tail, 4); }
  }

  // ---------------------------------------------------------------- damaged records

  /** A list that is cut off keeps its whole entries and is reported as such. */
  lemma {:induction false} TakeSetsCutOff(units: seq<Unit>, tail: seq<byte>, count: nat)
    requires Fits(units, 2) && |units| < count && Truncated(tail, 2)
    ensures TakeSets(Prefixed(units, 2) + tail, count) == Sets(units, tail, false)
    decreases |units|
  {
    hide TakeSets, FromBigEndian, Truncated;
    TakeSetsUnfold(Prefixed(units, 2) + tail, count);
    if units == [] {
      Empty(tail);
    } else {
      var u := units[0];
      var rest := Prefixed(units[1..], 2) + tail;
      TakeSetsCutOff(units[1..], tail, count - 1);
      Assoc(BigEndian(|u|, 2) + u, Prefixed(units[1..], 2), tail);
      PrefixedFront(u, rest, 2);
      TakeSetsUnfold(BigEndian(|u|, 2) + u + rest, count);
      assert [u] + units[1..] == units;
    }
  }

  /** Damaged records, exactly. `sps` of the announced `count` sets are whole. A record of less than seven bytes,
      or with a set cut off, yields nothing; a record that ends behind its last SPS yields those alone; and one
      whose PPS list is cut off yields the whole entries. */
  lemma DamagedRecords(
    head: seq<byte>, reserved: nat, count: nat, sps: seq<Unit>, tail: seq<byte>, announced: byte, pps: seq<Unit>)
    requires |head| == 5 && reserved < 8 && count < 32 && Fits(sps, 2) && Fits(pps, 2) && Truncated(tail, 2)
    ensures var start := head + [reserved * 32 + count];
            && (|sps| < count && |Prefixed(sps, 2) + tail| > 0 ==>
                  ExtractSpsPps(start + (Prefixed(sps, 2) + tail)) == None)
            && (|sps| == count > 0 ==> ExtractSpsPps(start + Prefixed(sps, 2)) == Some(ToAnnexB(sps)))
            && (|sps| == count && |pps| < announced ==>
                  ExtractSpsPps(start + (Prefixed(sps, 2) + ([announced] + (Prefixed(pps, 2) + tail))))
                    == if sps + pps == [] then None else Some(ToAnnexB(sps + pps)))
    ensures forall record: seq<byte> :: |record| < 7 ==> ExtractSpsPps(record) == None
  {
    hide TakeSets, ToAnnexB, Truncated, Prefixed, Fits;
    var start := head + [reserved * 32 + count];
    if |sps| < count && |Prefixed(sps, 2) + tail| > 0 {
      RecordStart(head, reserved, count, Prefixed(sps, 2) + tail);
      TakeSetsCutOff(sps, tail, count);
    } else if |sps| == count {
      TakeSetsRoundTrip(sps, []);
      Empty(Prefixed(sps, 2));
      if count > 0 {
        LongEnough(sps);
        RecordStart(head, reserved, count, Prefixed(sps, 2));
      }
      if |pps| < announced {
        var behind := [announced] + (Prefixed(pps, 2) + tail);
        RecordStart(head, reserved, count, Prefixed(sps, 2) + behind);
        TakeSetsRoundTrip(sps, behind);
        TakeSetsCutOff(pps, tail, announced);
        Front([announced], Prefixed(pps, 2) + tail);
        assert behind[0] == announced && behind[1..] == Prefixed(pps, 2) + tail;
      }
    }
  }

  lemma LongEnough(units: seq<Unit>)
    requires units != []
    ensures |Prefixed(units, 2)| >= 2
  {
  }

  lemma RecordStart(head: seq<byte>, reserved: nat, count: nat, rest: seq<byte>)
    requires |head| == 5 && reserved < 8 && count < 32
    ensures var r := head + [reserved * 32 + count] + rest; |r| == 6 + |rest| && r[5] % 32 == count && r[6..] == rest
  {
    var r := head + [reserved * 32 + count] + rest;
    assert r[5] == reserved * 32 + count;
    ModUnique(r[5], 32, reserved, count);
  }
}
