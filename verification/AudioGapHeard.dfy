/** What a track remembers of the stream, read off the arriving packets alone: the last
    PTS, the stream id and the format; and from these, where silence is inserted and what
    it carries (sls-patch/src/core/SLSMapData.cpp). */
module AudioGapHeard {
  import opened Bytes
  import opened GapRule
  import opened AudioFormat
  import opened SilentPacket
  import opened TsInfoRecord
  import opened AudioGap
  import opened AudioGapRuns
  import opened AudioGapChunks
  import opened AudioGapRing

  // -------------------------------------------------------------- one packet

  /** A PES start of an audio stream with a readable PTS. */
  predicate TimedStart(p: Packet) {
    IsStart(p) && ReadPes(p).Some? && ReadPes(p).value.pts.Some?
  }

  function PtsIn(p: Packet): (pts: Pts)
    requires TimedStart(p)
  {
    ReadPes(p).value.pts.value
  }

  /** The elementary stream bytes behind the PES header, by its length byte. */
  function EsIn(p: Packet): seq<byte>
    requires TimedStart(p)
  {
    var at := ReadPes(p).value.pos + 9 + (p[ReadPes(p).value.pos + 8] as int);
    if at < 188 then p[at..] else []
  }

  /** The part of a track that describes its format. */
  datatype Format = Format(known: bool, sampleRate: int, channels: int, sampleRateIndex: int, channelConfig: int,
                           profile: int, bitrateIndex: int)

  function FormatOf(t: AudioTrack): Format {
    Format(t.formatDetected, t.sampleRate, t.channels, t.sampleRateIndex, t.channelConfig, t.profile, t.bitrateIndex)
  }

  /** What a packet would teach a track of this type that knows nothing. */
  function Taught(streamType: int, p: Packet): Format
    requires TimedStart(p)
  {
    FormatOf(DetectFormat(EsIn(p), NewTrack(0, streamType, 0xC0)))
  }

  lemma NothingInNoBytes(t: AudioTrack)
    ensures DetectFormat([], t) == t
  {
  }

  /** A track that has not detected its format has no format yet. */
  predicate BlankFormat(t: AudioTrack) {
    !t.formatDetected ==> FormatOf(t) == Format(false, 0, 0, 0, 0, 0, 0)
  }

  lemma DetectionOfBlank(es: seq<byte>, t: AudioTrack)
    requires !t.formatDetected && BlankFormat(t)
    ensures FormatOf(DetectFormat(es, t)) == FormatOf(DetectFormat(es, NewTrack(0, t.streamType, 0xC0)))
    ensures BlankFormat(DetectFormat(es, t))
  {
  }

  /** The format of a track after one of its packets. */
  function FormatAfter(f: Format, streamType: int, p: Packet): Format {
    if f.known || !TimedStart(p) then f else Taught(streamType, p)
  }

  lemma ListenLearns(t: AudioTrack, p: Packet)
    requires TrackOk(t) && BlankFormat(t) && TimedStart(p)
    ensures var d := Listen(t, p, ReadPes(p).value);
      && FormatOf(d) == FormatAfter(FormatOf(t), t.streamType, p) && BlankFormat(d)
      && d.streamId == ReadPes(p).value.streamId && d.lastPts == t.lastPts && d.pid == t.pid
      && d.streamType == t.streamType
  {
    hide ReadPes, IsStart, DetectFormat;
    var t1 := t.(streamId := ReadPes(p).value.streamId);
    assert TrackOk(t1);
    if !t.formatDetected {
      DetectionOfBlank(EsIn(p), t1);
      NothingInNoBytes(t1);
      NothingInNoBytes(NewTrack(0, t.streamType, 0xC0));
      KeepsTransport(EsIn(p), t1);
    }
  }

  lemma KeepsTransport(es: seq<byte>, t: AudioTrack)
    requires TrackOk(t) && !t.formatDetected
    ensures var d := DetectFormat(es, t);
      d.streamId == t.streamId && d.lastPts == t.lastPts && d.pid == t.pid && d.streamType == t.streamType
  {
    hide DetectFormat, FormatOk;
    DetectionKeepsTrack(es, t);
  }

  /** What a track remembers after one of its packets. */
  lemma StepRemembers(t: AudioTrack, p: Packet)
    requires TrackOk(t) && BlankFormat(t)
    ensures var d := StepTrack(t, p).track;
      && d.lastPts == (if TimedStart(p) then PtsIn(p) else t.lastPts)
      && d.streamId == (if IsStart(p) && ReadPes(p).Some? then ReadPes(p).value.streamId else t.streamId)
      && FormatOf(d) == FormatAfter(FormatOf(t), t.streamType, p) && BlankFormat(d)
      && d.streamType == t.streamType && d.pid == t.pid
  {
    hide ReadPes, IsStart, FormatOk, Listen, GapFrames, GapTimes, SilentBlocks, VoiceOf, CounterAfter, Taught, BlankFormat;
    if !IsOrphan(t, p) && IsStart(p) {
      var t1, p1 := Renumbered(t, p), WithCounter(p, NextCounter(t, p));
      CounterIsInvisible(t, p, NextCounter(t, p));
      SameBlank(t, t1);
      if TimedStart(p) {
        TaughtAlike(t.streamType, p, p1);
        ListenLearns(t1, p1);
        InsertRemembers(Listen(t1, p1, ReadPes(p1).value), p1, PtsIn(p1));
      } else if ReadPes(p).Some? {
        ListenWithoutPts(t1, p1);
      }
    } else {
      SameBlank(t, t.(partialPesDropped := t.partialPesDropped + 1));
      SameBlank(t, Renumbered(t, p));
    }
  }

  lemma SameBlank(t: AudioTrack, d: AudioTrack)
    requires BlankFormat(t) && FormatOf(t) == FormatOf(d)
    ensures BlankFormat(d)
  {
  }

  lemma TaughtAlike(streamType: int, p: Packet, q: Packet)
    requires TimedStart(p) && TimedStart(q) && ReadPes(p) == ReadPes(q)
    requires forall k :: 4 <= k <= 188 ==> q[k..] == p[k..]
    ensures Taught(streamType, q) == Taught(streamType, p)
  {
    hide DetectFormat, ReadPes, IsStart;
    var at := ReadPes(p).value.pos + 8;
    assert q[at] == q[at..][0] == p[at..][0] == p[at];
  }

  lemma ListenWithoutPts(t: AudioTrack, p: Packet)
    requires TrackOk(t) && ReadPes(p).Some? && ReadPes(p).value.pts.None?
    ensures Listen(t, p, ReadPes(p).value) == t.(streamId := ReadPes(p).value.streamId)
    ensures BlankFormat(t) ==> BlankFormat(Listen(t, p, ReadPes(p).value))
  {
    hide ReadPes, FormatOk;
  }

  lemma InsertRemembers(t: AudioTrack, p: Packet, pts: Pts)
    requires TrackOk(t)
    ensures var d := Insert(t, p, pts).track;
      && d.lastPts == pts && FormatOf(d) == FormatOf(t) && d.streamId == t.streamId && d.pid == t.pid
      && d.streamType == t.streamType
    ensures BlankFormat(t) ==> BlankFormat(Insert(t, p, pts).track)
  {
    hide FormatOk, GapFrames, GapTimes, SilentBlocks, VoiceOf, CounterAfter;
  }

  // -------------------------------------------------------------- whole runs

  /** Packet `k` of the run belongs to the track and tells it a PTS. */
  predicate HeardAt(s: AudioState, ops: seq<Op>, k: nat, i: nat)
    requires k < |ops|
  {
    ops[k].Arrive? && IsMine(s, ops[k].packet, i) && TimedStart(ops[k].packet)
  }

  /** The PTS of the last such packet; before the first one what the track began with. */
  function LastHeardPts(s: AudioState, ops: seq<Op>, i: nat): int
    requires i < |s.tracks|
  {
    if |ops| == 0 then s.tracks[i].lastPts
    else if HeardAt(s, ops, |ops| - 1, i) then PtsIn(ops[|ops| - 1].packet)
    else LastHeardPts(s, ops[..|ops| - 1], i)
  }

  /** The format that the packets of the run have taught the track: the first that teaches
      one counts. */
  function HeardFormat(s: AudioState, ops: seq<Op>, i: nat): Format
    requires i < |s.tracks|
  {
    if |ops| == 0 then FormatOf(s.tracks[i])
    else
      var before := HeardFormat(s, ops[..|ops| - 1], i);
      if !before.known && HeardAt(s, ops, |ops| - 1, i)
      then Taught(s.tracks[i].streamType, ops[|ops| - 1].packet) else before
  }

  lemma ClearRemembers(s: AudioState, i: nat)
    requires i < |s.tracks|
    ensures |Cleared(s).tracks| == |s.tracks|
    ensures var t, d := s.tracks[i], Cleared(s).tracks[i];
      && d.lastPts == t.lastPts && FormatOf(d) == FormatOf(t) && d.streamType == t.streamType && d.pid == t.pid
      && (BlankFormat(t) ==> BlankFormat(d))
  {
  }

  lemma ApplyRemembers(s: AudioState, now: AudioState, op: Op, i: nat)
    requires TracksOk(now.tracks) && |now.tracks| == |s.tracks| && i < |s.tracks| && SamePids(s.tracks, now.tracks)
    requires BlankFormat(now.tracks[i])
    ensures var t, d := now.tracks[i], Apply(now, op).tracks[i];
      && BlankFormat(d) && d.streamType == t.streamType
      && (if op.Arrive? && IsMine(s, op.packet, i) then
            d.lastPts == (if TimedStart(op.packet) then PtsIn(op.packet) else t.lastPts)
            && FormatOf(d) == FormatAfter(FormatOf(t), t.streamType, op.packet)
          else d.lastPts == t.lastPts && FormatOf(d) == FormatOf(t))
  {
    hide StepStream, StepTrack, FormatOk, TrackIndex, TimedStart, PtsIn, FormatAfter, BlankFormat, Cleared;
    match op
    case ClearStats => ClearRemembers(now, i);
    case Arrive(p) =>
      SameIndex(s.tracks, now.tracks, PacketPid(p));
      StepOfTrack(now, p, i);
      if IsMine(s, p, i) {
        StepRemembers(now.tracks[i], p);
      }
  }

  /** After any run of packets and clears, the last PTS is the one read from the last
      packet of the track that tells one, and the format is the one read from the first
      packet that teaches one. */
  lemma {:induction false} RunRemembers(s: AudioState, ops: seq<Op>, i: nat)
    requires TracksOk(s.tracks) && i < |s.tracks| && BlankFormat(s.tracks[i])
    ensures var t := After(s, ops).tracks[i];
      && t.lastPts == LastHeardPts(s, ops, i) && FormatOf(t) == HeardFormat(s, ops, i)
      && t.streamType == s.tracks[i].streamType && BlankFormat(t)
  {
    hide Apply, TrackOk, TimedStart, PtsIn, Taught, IsMine, BlankFormat;
    if |ops| > 0 {
      var n := |ops| - 1;
      RunRemembers(s, ops[..n], i);
      AfterKeepsPids(s, ops[..n]);
      ApplyRemembers(s, After(s, ops[..n]), ops[n], i);
    }
  }

  /** Packet `k` is the last that tells the track a PTS. */
  predicate LastHeardAt(s: AudioState, ops: seq<Op>, k: nat, i: nat) {
    k < |ops| && HeardAt(s, ops, k, i) && forall j :: k < j < |ops| ==> !HeardAt(s, ops, j, i)
  }

  lemma HeardInPrefix(s: AudioState, ops: seq<Op>, n: nat, i: nat)
    requires n <= |ops|
    ensures forall j :: 0 <= j < n ==> (HeardAt(s, ops[..n], j, i) <==> HeardAt(s, ops, j, i))
  {
  }

  lemma {:induction false} LastHeardIs(s: AudioState, ops: seq<Op>, k: nat, i: nat)
    requires i < |s.tracks| && LastHeardAt(s, ops, k, i)
    ensures LastHeardPts(s, ops, i) == PtsIn(ops[k].packet)
  {
    hide HeardAt, PtsIn;
    var n := |ops| - 1;
    if k < n {
      HeardInPrefix(s, ops, n, i);
      LastHeardIs(s, ops[..n], k, i);
    }
  }

  lemma {:induction false} SomethingWasHeard(s: AudioState, ops: seq<Op>, i: nat)
    requires i < |s.tracks| && s.tracks[i].lastPts == INVALID_PTS
    ensures LastHeardPts(s, ops, i) != INVALID_PTS <==> exists k: nat :: LastHeardAt(s, ops, k, i)
  {
    hide HeardAt, PtsIn;
    if |ops| > 0 {
      var n := |ops| - 1;
      HeardInPrefix(s, ops, n, i);
      SomethingWasHeard(s, ops[..n], i);
      if HeardAt(s, ops, n, i) {
        assert LastHeardAt(s, ops, n, i);
      } else {
        assert forall k: nat :: LastHeardAt(s, ops, k, i) <==> LastHeardAt(s, ops[..n], k, i);
      }
    }
  }

  /** A known format is never lost or changed. */
  lemma {:induction false} KnownFormatStays(s: AudioState, ops: seq<Op>, more: seq<Op>, i: nat)
    requires i < |s.tracks| && HeardFormat(s, ops, i).known
    ensures HeardFormat(s, ops + more, i) == HeardFormat(s, ops, i)
  {
    hide HeardAt, Taught;
    if |more| == 0 {
      assert ops + more == ops;
    } else {
      var n := |more| - 1;
      KnownFormatStays(s, ops, more[..n], i);
      assert (ops + more)[..|ops + more| - 1] == ops + more[..n];
    }
  }

  // ------------------------------------------------------- gaps between packets

  /** The two packets are at least one and a half frames and at most five seconds apart on
      the 90 kHz clock of 33 bits: a frame has 1152 samples in MPEG audio, 960 in Opus and
      1024 in AAC. */
  predicate Apart(from: Pts, to: Pts, sampleRate: int, streamType: int) {
    && sampleRate > 0
    && var frame := (if IsMp3(streamType) then 1152 else if IsOpus(streamType) then 960 else 1024) * 90000 / sampleRate;
       var distance := (to - from) % 0x2_0000_0000;
    && 2 * distance >= 3 * frame && distance <= 5 * 90000
  }

  lemma ApartIs(from: Pts, to: Pts, sampleRate: int, streamType: int)
    requires sampleRate > 0
    ensures Apart(from, to, sampleRate, streamType) <==>
      && 2 * Forward(from, to) >= 3 * FrameDuration(sampleRate, streamType) && Forward(from, to) <= MAX_PTS_GAP
  {
    assert Forward(from, to) == (to - from) % 0x2_0000_0000;
  }

  lemma GapOpensExactlyWhen(t: AudioTrack, p: Packet)
    requires TrackOk(t) && BlankFormat(t)
    ensures GapOpens(t, p) <==>
      && TimedStart(p) && t.lastPts != INVALID_PTS
      && var f := FormatAfter(FormatOf(t), t.streamType, p);
      && f.known && Apart(t.lastPts, PtsIn(p), f.sampleRate, t.streamType)
  {
    hide ReadPes, IsStart, FormatOk, Listen, FormatAfter, FrameDuration, BlankFormat, Apart;
    if TimedStart(p) {
      ListenLearns(t, p);
      var heard := Listen(t, p, ReadPes(p).value);
      if heard.formatDetected {
        DetectedRate(heard);
        if t.lastPts != INVALID_PTS {
          ApartIs(t.lastPts, PtsIn(p), heard.sampleRate, t.streamType);
        }
      }
    }
  }

  /** Where silence is inserted, on arriving packets: in front of `p`, from a track that
      began fresh, exactly if `p` tells a PTS, some packet of the track before it does, the
      packets up to `p` have taught the format, and the last PTS before `p` and that of `p`
      are apart. */
  lemma SilenceExactlyBetween(s: AudioState, ops: seq<Op>, i: nat, p: Packet)
    requires TracksOk(s.tracks) && i < |s.tracks| && BlankFormat(s.tracks[i]) && s.tracks[i].lastPts == INVALID_PTS
    requires IsMine(s, p, i)
    ensures StepTrack(After(s, ops).tracks[i], p).frames > 0 <==>
      && TimedStart(p)
      && var f := HeardFormat(s, ops + [Arrive(p)], i);
      && f.known
      && exists k: nat :: LastHeardAt(s, ops, k, i)
           && Apart(PtsIn(ops[k].packet), PtsIn(p), f.sampleRate, s.tracks[i].streamType)
  {
    hide StepTrack, After, FormatOk, TimedStart, PtsIn, Taught, IsMine, BlankFormat, GapOpens, LastHeardAt, LastHeardPts,
      Apart;
    var t := After(s, ops).tracks[i];
    RunRemembers(s, ops, i);
    InsertsExactlyWhereGapOpens(t, p);
    GapOpensExactlyWhen(t, p);
    SomethingWasHeard(s, ops, i);
    FormatPush(s, ops, i, p);
    OnlyOneLast(s, ops, i);
    if TimedStart(p) && t.lastPts != INVALID_PTS {
      var k: nat :| LastHeardAt(s, ops, k, i);
      LastHeardIs(s, ops, k, i);
    }
  }

  lemma OnlyOneLast(s: AudioState, ops: seq<Op>, i: nat)
    ensures forall j: nat, k: nat :: LastHeardAt(s, ops, j, i) && LastHeardAt(s, ops, k, i) ==> j == k
    ensures forall k: nat :: LastHeardAt(s, ops, k, i) ==> k < |ops| && ops[k].Arrive? && TimedStart(ops[k].packet)
  {
  }

  lemma FormatPush(s: AudioState, ops: seq<Op>, i: nat, p: Packet)
    requires i < |s.tracks| && IsMine(s, p, i)
    ensures HeardFormat(s, ops + [Arrive(p)], i)
      == FormatAfter(HeardFormat(s, ops, i), s.tracks[i].streamType, p)
  {
    hide IsMine, TimedStart, Taught;
    assert (ops + [Arrive(p)])[..|ops|] == ops;
  }

  /** What is inserted: silence on the track's PID with the stream id of the packet behind
      it, one frame after the other from the last PTS on, as many as leave a last step of
      at least half and less than one and a half frames (or 250). */
  lemma SilenceFillsTheStep(t: AudioTrack, p: Packet)
    requires TrackOk(t) && BlankFormat(t) && StepTrack(t, p).frames > 0
    ensures TimedStart(p) && t.lastPts != INVALID_PTS
    ensures var d := StepTrack(t, p); var f := FormatAfter(FormatOf(t), t.streamType, p);
      var frame := FrameDuration(f.sampleRate, t.streamType); var delta := Forward(t.lastPts, PtsIn(p));
      && |d.fill| == d.frames * 188 && d.frames <= 250 && frame > 0
      && (2 * delta < 503 * frame ==> frame <= 2 * (delta - d.frames * frame) < 3 * frame)
      && (2 * delta >= 503 * frame ==> d.frames == 250)
      && (!(IsMp3(t.streamType) && f.profile != 3) ==>
            forall j :: 0 <= j < d.frames ==> SilenceAt(d.fill, j, t.pid, ReadPes(p).value.streamId,
                                                        t.lastPts, frame))
  {
    hide ReadPes, IsStart, FormatOk, Listen, FormatAfter, FrameDuration, BlankFormat, GapFrames, Insert, WithCounter,
      SilenceAt, GapOpens;
    InsertsExactlyWhereGapOpens(t, p);
    GapOpensExactlyWhen(t, p);
    var t1, p1 := Renumbered(t, p), WithCounter(p, NextCounter(t, p));
    CounterIsInvisible(t, p, NextCounter(t, p));
    SameAsBefore(t, p);
    StepIsInsert(t, p);
    InsertFillsTheStep(Listen(t1, p1, ReadPes(p).value), p1, PtsIn(p));
  }

  /** Block `j` of a fill is a silent packet `j + 1` frames behind the last PTS. */
  predicate SilenceAt(fill: seq<byte>, j: nat, pid: int, streamId: int, last: int, frame: int) {
    && (j + 1) * 188 <= |fill|
    && var q := Block(fill, j);
    && q[0] == TS_SYNC_BYTE && TimedStart(q) && PacketPid(q) == pid
    && ReadPes(q).value.streamId == streamId && PtsIn(q) == (last + (j + 1) * frame) % 0x2_0000_0000
  }

  /** Renumbering does not change what the packet teaches. */
  lemma SameAsBefore(t: AudioTrack, p: Packet)
    requires TrackOk(t) && BlankFormat(t) && TimedStart(p)
    ensures var t1, p1 := Renumbered(t, p), WithCounter(p, NextCounter(t, p)); var d := Listen(t1, p1, ReadPes(p).value);
      && ReadPes(p1) == ReadPes(p) && TimedStart(p1) && d.lastPts == t.lastPts && d.pid == t.pid
      && d.streamType == t.streamType && d.streamId == ReadPes(p).value.streamId
      && FormatOf(d) == FormatAfter(FormatOf(t), t.streamType, p)
  {
    hide ReadPes, IsStart, FormatOk, Listen, Taught, BlankFormat;
    var t1, p1 := Renumbered(t, p), WithCounter(p, NextCounter(t, p));
    CounterIsInvisible(t, p, NextCounter(t, p));
    SameBlank(t, t1);
    TaughtAlike(t.streamType, p, p1);
    ListenLearns(t1, p1);
  }

  lemma StepIsInsert(t: AudioTrack, p: Packet)
    requires TrackOk(t) && TimedStart(p)
    requires ReadPes(WithCounter(p, NextCounter(t, p))) == ReadPes(p)
    ensures StepTrack(t, p)
      == Insert(Listen(Renumbered(t, p), WithCounter(p, NextCounter(t, p)), ReadPes(p).value),
                WithCounter(p, NextCounter(t, p)), PtsIn(p))
  {
    hide ReadPes, IsStart, FormatOk, Listen, Insert, WithCounter;
  }

  lemma InsertFillsTheStep(t: AudioTrack, p: Packet, pts: Pts)
    requires TrackOk(t) && Insert(t, p, pts).frames > 0
    ensures var d := Insert(t, p, pts); var frame := FrameDuration(t.sampleRate, t.streamType);
      t.lastPts != INVALID_PTS
      && var delta := Forward(t.lastPts, pts);
      && |d.fill| == d.frames * 188 && d.frames <= 250 && frame > 0
      && (2 * delta < 503 * frame ==> frame <= 2 * (delta - d.frames * frame) < 3 * frame)
      && (2 * delta >= 503 * frame ==> d.frames == 250)
      && (!(IsMp3(t.streamType) && t.profile != 3) ==>
            forall j :: 0 <= j < d.frames ==>
              SilenceAt(d.fill, j, t.pid, t.streamId, t.lastPts, frame))
  {
    hide FormatOk, SilentBlocks, VoiceOf, ReadPes, FrameDuration, SilenceAt;
    var frame, delta := FrameDuration(t.sampleRate, t.streamType), Forward(t.lastPts, pts);
    FillCountFits(delta, frame);
    if !(IsMp3(t.streamType) && t.profile != 3) {
      BuiltExactlyWhen(t);
      forall j | 0 <= j < Insert(t, p, pts).frames
        ensures SilenceAt(Insert(t, p, pts).fill, j, t.pid, t.streamId, t.lastPts, frame)
      {
        BlockIsSilence(t, t.lastPts, pts, t.expectedCc, j);
      }
    }
  }

  lemma BlockIsSilence(t: AudioTrack, last: Pts, pts: Pts, cc: int, j: nat)
    requires TrackOk(t) && j < GapFrames(t, last, pts) && VoiceOf(t).Buildable() && 0 <= cc < 16
    ensures SilenceAt(SilentBlocks(VoiceOf(t), GapTimes(t, last, pts), cc), j, t.pid, t.streamId, last,
                      FrameDuration(t.sampleRate, t.streamType))
  {
    hide SilentBlocks, ReadPes, FormatOk, FrameDuration, SilentFrame, IsStart;
    FillReadsBack(VoiceOf(t), GapTimes(t, last, pts), cc, j);
  }
}
