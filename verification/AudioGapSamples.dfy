/** A stream on which the filler's promises about order fail: two Opus packets in one
    chunk, three frames apart. */
module AudioGapSamples {
  import opened Bytes
  import opened GapRule
  import opened AudioFormat
  import opened SilentPacket
  import opened TsInfoRecord
  import opened AudioGap
  import opened AudioGapRuns
  import opened AudioGapSafety
  import opened AudioGapRing

  function SampleVoice(): (v: Voice)
    ensures v.Valid() && v.Buildable()
  {
    Voice(0x100, 0xC0, [0x7E, 0xFC])
  }

  /** PTS 0, then PTS 5400. */
  function SampleChunk(): (data: seq<byte>)
    ensures |data| == 2 * 188
  {
    SilentTs(SampleVoice(), 0, 0) + SilentTs(SampleVoice(), 5400, 1)
  }

  function SampleState(): AudioState {
    AudioState([NewTrack(0x100, 0x06, 0xC0)], 0, 0, 0, 0)
  }

  /** The first PES start of an Opus track teaches it its format and its PTS. */
  lemma FirstOpusStart(t: AudioTrack, p: Packet, h: PesHead)
    requires TrackOk(t) && t.streamType == 0x06 && !t.formatDetected && t.lastPts == INVALID_PTS
    requires IsStart(p) && ReadPes(p) == Some(h) && h.pts.Some? && h.pos < 174 && p[h.pos + 8] == 5
    ensures var d := StepTrack(t, p).track;
      d.lastPts == h.pts.value && d.formatDetected && d.streamType == 0x06 && d.sampleRate == 48000
  {
    hide FormatOk, ReadPes, GapFrames;
    var cc := NextCounter(t, p);
    CounterIsInvisible(t, p, cc);
    ListenAfterRenumbering(t, p, h);
    NoFillWithoutPts(Listen(Renumbered(t, p), WithCounter(p, cc), h), h.pts.value);
  }

  lemma SamplePacketReads(pts: Pts, cc: int)
    requires 0 <= cc < 16
    ensures var p := SilentTs(SampleVoice(), pts, cc);
      && p[0] == TS_SYNC_BYTE && IsStart(p) && PacketPid(p) == 0x100
      && ReadPes(p) == Some(PesHead(172, 0xC0, Some(pts))) && p[180] == 5
  {
    hide SilentTs, ReadPes;
    SilentTsRoundTrip(SampleVoice(), pts, cc);
    SilentTsLengthsAgree(SampleVoice(), pts, cc);
  }

  lemma SecondOpensGap(t: AudioTrack, p: Packet)
    requires TrackOk(t) && t.lastPts == 0 && t.formatDetected && t.streamType == 0x06 && t.sampleRate == 48000
    requires IsStart(p) && ReadPes(p) == Some(PesHead(172, 0xC0, Some(5400)))
    ensures GapOpens(t, p) && !IsMp3(Listen(t, p, ReadPes(p).value).streamType)
  {
    hide FormatOk, ReadPes;
  }

  /** What the track knows after the first packet. */
  lemma AfterFirst(p: Packet)
    requires p == SilentTs(SampleVoice(), 0, 0)
    ensures TracksOk(SampleState().tracks) && Unheard(SampleState().tracks[0])
    ensures Survives(SampleState(), p, 0)
    ensures var t := Apply(SampleState(), Arrive(p)).tracks[0];
      TrackOk(t) && t.lastPts == 0 && t.formatDetected && t.streamType == 0x06 && t.sampleRate == 48000
    ensures TrackIndex(Apply(SampleState(), Arrive(p)).tracks, 0x100) == 0
  {
    hide SilentTs, StepTrack, FormatOk, ReadPes, IsStart;
    var s := SampleState();
    SamplePacketReads(0, 0);
    NewTrackIsOk();
    FirstOpusStart(s.tracks[0], p, PesHead(172, 0xC0, Some(0)));
    assert TrackIndex(s.tracks, 0x100) == 0;
    StepOfTrack(s, p, 0);
    ApplyKeepsPids(s, Arrive(p));
    SameIndex(s.tracks, Apply(s, Arrive(p)).tracks, 0x100);
  }

  lemma SampleBlocks()
    ensures Block(SampleChunk(), 0) == SilentTs(SampleVoice(), 0, 0)
    ensures Block(SampleChunk(), 1) == SilentTs(SampleVoice(), 5400, 1)
  {
    hide SilentTs;
  }

  /** The gap opens behind a packet that survives. */
  lemma SampleGap()
    ensures TracksOk(SampleState().tracks) && Unheard(SampleState().tracks[0])
    ensures GapBehindSurvivor(SampleState(), SampleChunk(), 2, 0)
    ensures Insertions(SampleState(), Arrivals(SampleChunk(), 2), 0) > 0
  {
    hide SilentTs, Apply, FormatOk, ReadPes, GapOpens, Listen, Block, After, Arrivals, SampleChunk, Survives, TrackIndex,
      Insertions, SampleState;
    var s, data := SampleState(), SampleChunk();
    var q := Block(data, 1);
    SampleBlocks();
    AfterFirst(Block(data, 0));
    SamplePacketReads(5400, 1);
    SecondOpensGap(Apply(s, Arrive(Block(data, 0))).tracks[0], q);
    AfterTwo(s, data);
    assert SurvivesAt(s, data, 0, 0) && OpensAudibleGapAt(s, data, 1, 0);
  }

  lemma NewTrackIsOk()
    ensures TrackOk(NewTrack(0x100, 0x06, 0xC0)) && Unheard(NewTrack(0x100, 0x06, 0xC0))
  {
  }

  lemma AfterTwo(s: AudioState, data: seq<byte>)
    requires TracksOk(s.tracks) && |data| == 2 * 188 && |s.tracks| > 0
    ensures After(s, Arrivals(data, 0)) == s && After(s, Arrivals(data, 1)) == Apply(s, Arrive(Block(data, 0)))
    ensures Insertions(s, Arrivals(data, 2), 0)
      >= if IsMine(After(s, Arrivals(data, 1)), Block(data, 1), 0)
            && GapOpens(After(s, Arrivals(data, 1)).tracks[0], Block(data, 1)) then 1 else 0
  {
    hide Apply, TrackOk, GapOpens, IsMine, Block;
    assert Arrivals(data, 1)[..0] == Arrivals(data, 0) == [];
    assert Arrivals(data, 2)[..1] == Arrivals(data, 1);
  }

  /** The counters of the sample are not sequential, and the ring does not even receive
      them in the order in which they were numbered. */
  lemma SampleBreaksTheOrder()
    ensures TracksOk(SampleState().tracks)
    ensures var e := Emissions(SampleState(), Arrivals(SampleChunk(), 2), 0);
      var bytes := RingBytes(SampleState(), SampleChunk(), 2);
      && (exists k :: 1 <= k < |e| && !Consecutive(e, k))
      && |bytes| % 188 == 0 && ReadCounters(bytes, |bytes| / 188, 0x100) != CountersOf(e)
  {
    hide SampleChunk, Emissions, Insertions, RingBytes, ReadCounters, GapBehindSurvivor, TrackOk, Consecutive, CountersOf;
    SampleGap();
    var e := Emissions(SampleState(), Arrivals(SampleChunk(), 2), 0);
    SequentialExactlyWhenNothingInserted(SampleState(), Arrivals(SampleChunk(), 2), 0);
    assert !(forall k :: 1 <= k < |e| ==> Consecutive(e, k));
    RingOrderIsNumberingOrderExactlyWhen(SampleState(), SampleChunk(), 2, 0);
  }

  /** A continuation packet of the track. */
  function SampleContinuation(): Packet { [0x47, 0x01, 0x00, 0x10] + Fill(184, 0) }

  lemma ContinuationReads()
    ensures SampleContinuation()[0] == TS_SYNC_BYTE && PacketPid(SampleContinuation()) == 0x100
  {
  }

  lemma SamplePidIsTracked(p: Packet)
    requires p[0] == TS_SYNC_BYTE && PacketPid(p) == 0x100
    ensures IsMine(SampleState(), p, 0)
  {
  }

  lemma SampleStarts()
    ensures TracksOk(SampleState().tracks) && SampleState().tracks[0].inGap
    ensures IsStartOf(SampleState(), Arrivals(SampleChunk(), 2), 0, 0)
  {
    hide SilentTs, IsStart, FormatOk, Block, SampleChunk, IsMine;
    NewTrackIsOk();
    SampleBlocks();
    SamplePacketReads(0, 0);
    SamplePidIsTracked(Block(SampleChunk(), 0));
  }

  /** Right behind the gap a continuation packet is not nulled. */
  lemma SampleContinuationSurvives()
    ensures TracksOk(SampleState().tracks)
    ensures var s := After(SampleState(), Arrivals(SampleChunk(), 2));
      PacketPid(StepStream(s, SampleContinuation()).packet) == 0x100
  {
    hide After, StepStream, SampleChunk, SampleContinuation, Arrivals, TrackOk, IsStart, IsMine, IsStartOf;
    SampleStarts();
    ContinuationReads();
    SamplePidIsTracked(SampleContinuation());
    NulledExactlyBeforeFirstStart(SampleState(), Arrivals(SampleChunk(), 2), 0, SampleContinuation());
  }
}
