/** The order in which the publisher ring receives what the filler emits.

    `check_audio_gap` puts the silence of a chunk into the ring while it walks the
    chunk; the chunk itself is put afterwards.  The counters were numbered packet by
    packet, so the ring order is the numbering order only for some chunks. */
module AudioGapRing {
  import opened Bytes
  import opened GapRule
  import opened AudioFormat
  import opened SilentPacket
  import opened TsInfoRecord
  import opened AudioGap
  import opened AudioGapRuns
  import opened AudioGapSafety

  /** What a reader that follows one PID takes from a packet. */
  function PidCounters(p: Packet, pid: int): seq<int> {
    if p[0] == TS_SYNC_BYTE && PacketPid(p) == pid then [Counter(p)] else []
  }

  /** The counters of one PID in the first `n` packets of a byte sequence. */
  function ReadCounters(bytes: seq<byte>, n: nat, pid: int): seq<int>
    requires n * 188 <= |bytes|
  {
    if n == 0 then [] else ReadCounters(bytes, n - 1, pid) + PidCounters(Block(bytes, n - 1), pid)
  }

  function SilentOf(e: seq<Emission>): seq<int> {
    if |e| == 0 then []
    else SilentOf(e[..|e| - 1]) + if e[|e| - 1].silent then [e[|e| - 1].counter] else []
  }

  function LiveOf(e: seq<Emission>): seq<int> {
    if |e| == 0 then []
    else LiveOf(e[..|e| - 1]) + if e[|e| - 1].silent then [] else [e[|e| - 1].counter]
  }

  lemma PartsPush(a: seq<Emission>, x: Emission)
    ensures SilentOf(a + [x]) == SilentOf(a) + (if x.silent then [x.counter] else [])
    ensures LiveOf(a + [x]) == LiveOf(a) + (if x.silent then [] else [x.counter])
  {
    assert (a + [x])[..|a|] == a;
  }

  lemma {:induction false} PartsOfConcat(a: seq<Emission>, b: seq<Emission>)
    ensures SilentOf(a + b) == SilentOf(a) + SilentOf(b) && LiveOf(a + b) == LiveOf(a) + LiveOf(b)
  {
    if |b| == 0 {
      assert a + b == a;
    } else {
      hide SilentOf, LiveOf;
      var init, x := b[..|b| - 1], b[|b| - 1];
      PartsOfConcat(a, init);
      PartsPush(a + init, x);
      PartsPush(init, x);
      assert b == init + [x] && a + b == (a + init) + [x];
    }
  }

  lemma {:induction false} ReadPrefix(a: seq<byte>, b: seq<byte>, n: nat, pid: int)
    requires n * 188 <= |a| && n * 188 <= |b| && a[..n * 188] == b[..n * 188]
    ensures ReadCounters(a, n, pid) == ReadCounters(b, n, pid)
  {
    hide PidCounters;
    if n > 0 {
      assert a[..(n - 1) * 188] == a[..n * 188][..(n - 1) * 188] == b[..(n - 1) * 188];
      ReadPrefix(a, b, n - 1, pid);
      assert Block(a, n - 1) == a[..n * 188][(n - 1) * 188..] == Block(b, n - 1);
    }
  }

  lemma {:induction false} ReadConcat(a: seq<byte>, m: nat, b: seq<byte>, n: nat, pid: int)
    requires |a| == m * 188 && n * 188 <= |b|
    ensures (m + n) * 188 <= |a + b|
    ensures ReadCounters(a + b, m + n, pid) == ReadCounters(a, m, pid) + ReadCounters(b, n, pid)
  {
    hide PidCounters, Block;
    if n == 0 {
      assert (a + b)[..m * 188] == a[..m * 188];
      ReadPrefix(a + b, a, m, pid);
    } else {
      ReadConcat(a, m, b, n - 1, pid);
      BlockBehind(a, m, b, n - 1);
    }
  }

  lemma BlockBehind(a: seq<byte>, m: nat, b: seq<byte>, k: nat)
    requires |a| == m * 188 && (k + 1) * 188 <= |b|
    ensures (m + k + 1) * 188 <= |a + b| && Block(a + b, m + k) == Block(b, k)
  {
    var at := (m + k) * 188;
    assert at == |a| + k * 188;
    assert (a + b)[|a| + k * 188..|a| + k * 188 + 188] == b[k * 188..k * 188 + 188];
  }

  // ------------------------------------------------------------ one packet

  /** Silence of one voice, read on one PID. */
  lemma {:induction false} ReadSilence(v: Voice, times: seq<Pts>, cc: int, n: nat, pid: int)
    requires v.Valid() && 0 <= cc < 16 && 0xC0 <= v.streamId <= 0xDF && n <= |times|
    ensures ReadCounters(SilentBlocks(v, times, cc), n, pid)
      == if v.pid == pid then SilentCounters(SilentBlocks(v, times, cc), n) else []
  {
    hide SilentBlocks, Block, PidCounters, BlockCounters;
    if n > 0 {
      ReadSilence(v, times, cc, n - 1, pid);
      ReadSilentBlock(v, times, cc, n - 1, pid);
    }
  }

  lemma ReadSilentBlock(v: Voice, times: seq<Pts>, cc: int, i: nat, pid: int)
    requires v.Valid() && 0 <= cc < 16 && 0xC0 <= v.streamId <= 0xDF && i < |times|
    ensures PidCounters(Block(SilentBlocks(v, times, cc), i), pid)
      == if v.pid == pid then BlockCounters(Block(SilentBlocks(v, times, cc), i)) else []
  {
    hide SilentBlocks, SilentTs, Block, ReadPes;
    BlockAt(v, times, cc, i);
    UnbuiltLeavesNoTrace(v, times[i], CounterAfter(v, cc, i));
    if v.Buildable() {
      FillReadsBack(v, times, cc, i);
    }
  }

  lemma ReadInsertion(t: AudioTrack, p: Packet, pts: int, pid: int)
    requires TrackOk(t) && 0 <= pts < PTS_WRAP
    ensures var d := Insert(t, p, pts);
      |d.fill| == d.frames * 188
      && ReadCounters(d.fill, d.frames, pid) == if t.pid == pid then SilentCounters(d.fill, d.frames) else []
  {
    hide SilentBlocks, BlockCounters, Block, FormatOk, SilentFrame, SilentCounters, ReadCounters;
    var n := GapFrames(t, t.lastPts, pts);
    if n > 0 {
      ReadSilence(VoiceOf(t), GapTimes(t, t.lastPts, pts), t.expectedCc, n, pid);
    } else {
      ReadNothing(pid);
    }
  }

  lemma ReadNothing(pid: int)
    ensures ReadCounters([], 0, pid) == [] && SilentCounters([], 0) == []
  {
  }

  /** The fill of a step, read on any PID, is the track's own silence or nothing. */
  lemma ReadStepFill(t: AudioTrack, p: Packet, pid: int)
    requires TrackOk(t)
    ensures var d := StepTrack(t, p);
      |d.fill| == d.frames * 188
      && ReadCounters(d.fill, d.frames, pid) == if t.pid == pid then SilentCounters(d.fill, d.frames) else []
  {
    hide Insert, ReadPes, FormatOk, SilentCounters, ReadCounters, Renumbered, Listen;
    ReadNothing(pid);
    if !IsOrphan(t, p) && IsStart(p) {
      KeepsPid(t, p);
      var t1 := Renumbered(t, p);
      var p1 := WithCounter(p, t1.cc);
      if ReadPes(p1).Some? && ReadPes(p1).value.pts.Some? {
        ReadInsertion(Listen(t1, p1, ReadPes(p1).value), p1, ReadPes(p1).value.pts.value, pid);
      }
    }
  }

  lemma KeepsPid(t: AudioTrack, p: Packet)
    requires TrackOk(t)
    ensures var t1 := Renumbered(t, p);
      t1.pid == t.pid && 0 <= t1.cc < 16
      && forall h: PesHead :: 0xC0 <= h.streamId <= 0xDF && h.pos < 175 ==>
           Listen(t1, WithCounter(p, t1.cc), h).pid == t.pid
  {
    hide DetectFormat, FormatOk;
  }

  /** For one packet of the stream: the bytes given to the ring carry, on the track's
      PID, exactly the counters of its silent emissions, and the rewritten packet
      exactly those of its live emissions. */
  lemma StepReads(s: AudioState, p: Packet, i: nat)
    requires TracksOk(s.tracks) && i < |s.tracks|
    requires s.tracks[i].pid != 0x1FFF && TrackIndex(s.tracks, s.tracks[i].pid) == i
    ensures var r := StepStream(s, p); var out := Emitted(s, p, i); var pid := s.tracks[i].pid;
      && |r.fill| % 188 == 0
      && ReadCounters(r.fill, |r.fill| / 188, pid) == SilentOf(out)
      && PidCounters(r.packet, pid) == LiveOf(out)
  {
    hide StepTrack, FormatOk, ReadCounters, SilentCounters, SilentOf, LiveOf;
    var pid := s.tracks[i].pid;
    var r := StepStream(s, p);
    var j := TrackIndex(s.tracks, PacketPid(p));
    ReadNothing(pid);
    PartsOfNothing();
    if p[0] == TS_SYNC_BYTE && j < |s.tracks| {
      ReadStepFill(s.tracks[j], p, pid);
      if IsOrphan(s.tracks[j], p) {
        OrphanReads(s.tracks[j], p);
      } else {
        StepCounts(s.tracks[j], p);
        if j == i {
          EmittedParts(s, p, i);
        }
      }
    }
  }

  lemma PartsOfNothing()
    ensures SilentOf([]) == [] && LiveOf([]) == []
  {
  }

  lemma OrphanReads(t: AudioTrack, p: Packet)
    requires TrackOk(t) && IsOrphan(t, p)
    ensures StepTrack(t, p).packet == Nulled(p) && StepTrack(t, p).fill == [] && PacketPid(Nulled(p)) == 0x1FFF
  {
  }

  lemma EmittedParts(s: AudioState, p: Packet, i: nat)
    requires TracksOk(s.tracks) && i < |s.tracks| && IsMine(s, p, i) && !IsOrphan(s.tracks[i], p)
    ensures var d := StepTrack(s.tracks[i], p); var out := Emitted(s, p, i);
      && |d.fill| == d.frames * 188
      && SilentOf(out) == SilentCounters(d.fill, d.frames) && LiveOf(out) == [Counter(d.packet)]
  {
    hide StepTrack, TrackOk, SilentCounters, LiveOf, SilentOf;
    StepCounts(s.tracks[i], p);
    var d := StepTrack(s.tracks[i], p);
    var c := SilentCounters(d.fill, d.frames);
    var head := seq(|c|, k requires 0 <= k < |c| => Emission(c[k], true, k == 0));
    var last := [Emission(Counter(d.packet), false, d.frames > 0 && |c| == 0)];
    PartsOfConcat(head, last);
    PartsOfSilence(head, c);
    PartsOfOne(last[0]);
  }

  lemma PartsOfOne(x: Emission)
    ensures SilentOf([x]) == (if x.silent then [x.counter] else [])
    ensures LiveOf([x]) == (if x.silent then [] else [x.counter])
  {
    assert [x][..0] == [];
  }

  lemma {:induction false} PartsOfSilence(e: seq<Emission>, c: seq<int>)
    requires |e| == |c| && forall k :: 0 <= k < |e| ==> e[k].silent && e[k].counter == c[k]
    ensures SilentOf(e) == c && LiveOf(e) == []
  {
    if |e| > 0 {
      PartsOfSilence(e[..|e| - 1], c[..|e| - 1]);
    }
  }

  // ------------------------------------------------------------- one chunk

  /** Everything the ring receives for a chunk of `n` packets. */
  function RingBytes(s: AudioState, data: seq<byte>, n: nat): seq<byte>
    requires TracksOk(s.tracks) && |data| == n * 188
  {
    RunPackets(s, data, n).fills + RunPackets(s, data, n).data
  }

  lemma EmissionsNext(s: AudioState, data: seq<byte>, n: nat, i: nat)
    requires TracksOk(s.tracks) && 0 < n && n * 188 <= |data| && i < |s.tracks|
    ensures Emissions(s, Arrivals(data, n), i)
      == Emissions(s, Arrivals(data, n - 1), i) + Emitted(After(s, Arrivals(data, n - 1)), Block(data, n - 1), i)
  {
    hide TrackOk, Emitted, After, Block;
    assert Arrivals(data, n)[..n - 1] == Arrivals(data, n - 1);
  }

  lemma {:induction false} PartsOfChunk(s: AudioState, data: seq<byte>, n: nat, i: nat)
    requires TracksOk(s.tracks) && n * 188 <= |data| && i < |s.tracks|
    requires s.tracks[i].pid != 0x1FFF && TrackIndex(s.tracks, s.tracks[i].pid) == i
    ensures var r := RunPackets(s, data, n); var e := Emissions(s, Arrivals(data, n), i);
      && |r.fills| % 188 == 0
      && ReadCounters(r.fills, |r.fills| / 188, s.tracks[i].pid) == SilentOf(e)
      && ReadCounters(r.data, n, s.tracks[i].pid) == LiveOf(e)
  {
    hide StepStream, TrackOk, ReadCounters, SilentOf, LiveOf, Emitted, TrackIndex, RunPackets, Emissions, After, Block;
    var pid := s.tracks[i].pid;
    if n == 0 {
      NoParts(s, data, i);
    } else {
      PartsOfChunk(s, data, n - 1, i);
      var before := RunPackets(s, data, n - 1);
      var p := Block(before.data, n - 1);
      RunPacketsNext(s, data, n - 1);
      ChunkIsARun(s, data, n - 1);
      EmissionsNext(s, data, n, i);
      AfterKeepsPids(s, Arrivals(data, n - 1));
      SameIndex(s.tracks, before.state.tracks, pid);
      StepReads(before.state, p, i);
      var d := StepStream(before.state, p);
      ReadConcat(before.fills, |before.fills| / 188, d.fill, |d.fill| / 188, pid);
      PartsOfConcat(Emissions(s, Arrivals(data, n - 1), i), Emitted(before.state, p, i));
      ReadLast(before.data, RunPackets(s, data, n).data, d.packet, n, pid);
    }
  }

  lemma NoParts(s: AudioState, data: seq<byte>, i: nat)
    requires TracksOk(s.tracks) && i < |s.tracks|
    ensures var r := RunPackets(s, data, 0); var e := Emissions(s, Arrivals(data, 0), i); var pid := s.tracks[i].pid;
      && r.fills == [] && ReadCounters(r.fills, 0, pid) == SilentOf(e) && ReadCounters(r.data, 0, pid) == LiveOf(e)
  {
  }

  lemma ReadLast(was: seq<byte>, now: seq<byte>, p: Packet, n: nat, pid: int)
    requires n > 0 && n * 188 <= |was| && |now| == |was|
    requires now == was[..(n - 1) * 188] + p + was[(n - 1) * 188 + 188..]
    ensures ReadCounters(now, n, pid) == ReadCounters(was, n - 1, pid) + PidCounters(p, pid)
  {
    hide PidCounters;
    assert Block(now, n - 1) == p;
    assert now[..(n - 1) * 188] == was[..(n - 1) * 188];
    ReadPrefix(now, was, n - 1, pid);
  }

  /** What a reader of the ring sees on the track's PID for one chunk: first all the
      silence of the chunk, then all its surviving packets. */
  lemma RingSeesSilenceFirst(s: AudioState, data: seq<byte>, n: nat, i: nat)
    requires TracksOk(s.tracks) && |data| == n * 188 && i < |s.tracks|
    requires s.tracks[i].pid != 0x1FFF && TrackIndex(s.tracks, s.tracks[i].pid) == i
    ensures var bytes := RingBytes(s, data, n); var e := Emissions(s, Arrivals(data, n), i);
      |bytes| % 188 == 0
      && ReadCounters(bytes, |bytes| / 188, s.tracks[i].pid) == SilentOf(e) + LiveOf(e)
  {
    hide RunPackets, Emissions, TrackOk, ReadCounters, SilentOf, LiveOf, TrackIndex;
    PartsOfChunk(s, data, n, i);
    var r := RunPackets(s, data, n);
    ReadConcat(r.fills, |r.fills| / 188, r.data, n, s.tracks[i].pid);
  }

  /** Some silence was numbered after a live packet of the same chunk. */
  predicate SilenceAfterLive(e: seq<Emission>) {
    exists j, k :: 0 <= j < k < |e| && !e[j].silent && e[k].silent
  }

  function Reordered(e: seq<Emission>): seq<Emission> {
    OnlySilent(e, true) + OnlySilent(e, false)
  }

  function OnlySilent(e: seq<Emission>, silent: bool): (r: seq<Emission>)
    ensures |r| <= |e| && forall k :: 0 <= k < |r| ==> r[k].silent == silent
  {
    if |e| == 0 then []
    else OnlySilent(e[..|e| - 1], silent) + if e[|e| - 1].silent == silent then [e[|e| - 1]] else []
  }

  lemma {:induction false} PartitionKeeps(e: seq<Emission>)
    requires !SilenceAfterLive(e)
    ensures Reordered(e) == e
  {
    if |e| > 0 {
      var n := |e| - 1;
      assert !SilenceAfterLive(e[..n]);
      PartitionKeeps(e[..n]);
      if e[n].silent {
        AllSilent(e[..n]);
      }
    }
  }

  lemma {:induction false} AllSilent(e: seq<Emission>)
    requires forall k :: 0 <= k < |e| ==> e[k].silent
    ensures OnlySilent(e, false) == []
  {
    if |e| > 0 {
      AllSilent(e[..|e| - 1]);
    }
  }

  lemma {:induction false} CountersOfParts(e: seq<Emission>)
    ensures |SilentOf(e)| == |OnlySilent(e, true)| && |LiveOf(e)| == |OnlySilent(e, false)|
    ensures forall k :: 0 <= k < |SilentOf(e)| ==> SilentOf(e)[k] == OnlySilent(e, true)[k].counter
    ensures forall k :: 0 <= k < |LiveOf(e)| ==> LiveOf(e)[k] == OnlySilent(e, false)[k].counter
  {
    if |e| > 0 {
      CountersOfParts(e[..|e| - 1]);
    }
  }

  /** Joined: what a reader of the ring sees for one chunk is the counters of the
      reordered emissions. */
  lemma RingReadsReordered(s: AudioState, data: seq<byte>, n: nat, i: nat)
    requires TracksOk(s.tracks) && |data| == n * 188 && i < |s.tracks|
    requires s.tracks[i].pid != 0x1FFF && TrackIndex(s.tracks, s.tracks[i].pid) == i
    ensures var bytes := RingBytes(s, data, n); var r := Reordered(Emissions(s, Arrivals(data, n), i));
      && |bytes| % 188 == 0
      && |ReadCounters(bytes, |bytes| / 188, s.tracks[i].pid)| == |r|
      && forall k :: 0 <= k < |r| ==> ReadCounters(bytes, |bytes| / 188, s.tracks[i].pid)[k] == r[k].counter
  {
    hide RingBytes, Emissions, TrackOk, ReadCounters, SilentOf, LiveOf, TrackIndex, OnlySilent;
    RingSeesSilenceFirst(s, data, n, i);
    CountersOfParts(Emissions(s, Arrivals(data, n), i));
  }

  // ------------------------------------------------- when the order is right

  /** The counters of emissions in the order in which they were numbered. */
  function CountersOf(e: seq<Emission>): (c: seq<int>)
    ensures |c| == |e| && forall k :: 0 <= k < |e| ==> c[k] == e[k].counter
  {
    seq(|e|, k requires 0 <= k < |e| => e[k].counter)
  }

  /** A packet of the track that is not nulled. */
  predicate Survives(s: AudioState, p: Packet, i: nat)
    requires i < |s.tracks|
  {
    IsMine(s, p, i) && !IsOrphan(s.tracks[i], p)
  }

  /** A packet of the track that opens a gap on a codec for which silence can be built:
      every codec but MPEG-2 and MPEG-2.5 MP3. */
  predicate OpensAudibleGap(s: AudioState, p: Packet, i: nat)
    requires TracksOk(s.tracks) && i < |s.tracks|
  {
    && IsMine(s, p, i) && GapOpens(s.tracks[i], p)
    && var heard := Listen(s.tracks[i], p, ReadPes(p).value);
       !(IsMp3(heard.streamType) && heard.profile != 3)
  }

  predicate SurvivesAt(s: AudioState, data: seq<byte>, k: nat, i: nat)
    requires TracksOk(s.tracks) && (k + 1) * 188 <= |data| && i < |s.tracks|
  {
    Survives(After(s, Arrivals(data, k)), Block(data, k), i)
  }

  predicate OpensAudibleGapAt(s: AudioState, data: seq<byte>, k: nat, i: nat)
    requires TracksOk(s.tracks) && (k + 1) * 188 <= |data| && i < |s.tracks|
  {
    OpensAudibleGap(After(s, Arrivals(data, k)), Block(data, k), i)
  }

  /** Some packet of the chunk survives on the track. */
  predicate AnySurvives(s: AudioState, data: seq<byte>, n: nat, i: nat)
    requires TracksOk(s.tracks) && n * 188 <= |data| && i < |s.tracks|
  {
    exists j :: 0 <= j < n && SurvivesAt(s, data, j, i)
  }

  /** In the chunk an audible gap opens behind a packet of the track that survives. */
  predicate GapBehindSurvivor(s: AudioState, data: seq<byte>, n: nat, i: nat)
    requires TracksOk(s.tracks) && n * 188 <= |data| && i < |s.tracks|
  {
    exists j, k :: 0 <= j < k < n && SurvivesAt(s, data, j, i) && OpensAudibleGapAt(s, data, k, i)
  }

  lemma InsertionIsAudibleExactlyWhen(t: AudioTrack, p: Packet, pts: Pts)
    requires TrackOk(t) && GapFrames(t, t.lastPts, pts) > 0
    ensures var d := Insert(t, p, pts);
      |d.fill| == d.frames * 188 && d.frames > 0
      && (Built(d) > 0 <==> !(IsMp3(t.streamType) && t.profile != 3))
  {
    hide SilentBlocks, BlockCounters, Block, SilentFrame, SilentCounters, FillCount;
    BuiltExactlyWhen(t);
    SilentCountersOfFill(VoiceOf(t), GapTimes(t, t.lastPts, pts), t.expectedCc, GapFrames(t, t.lastPts, pts));
  }

  /** A step emits silence exactly when an audible gap opens. */
  lemma SilentExactlyWhen(t: AudioTrack, p: Packet)
    requires TrackOk(t) && !IsOrphan(t, p)
    ensures var d := StepTrack(t, p);
      |d.fill| == d.frames * 188
      && (d.frames > 0 && Built(d) > 0 <==>
            GapOpens(t, p)
            && var heard := Listen(t, p, ReadPes(p).value); !(IsMp3(heard.streamType) && heard.profile != 3))
  {
    hide FormatOk, Insert, GapFrames, Listen, ReadPes, SilentCounters, WithCounter;
    InsertsExactlyWhereGapOpens(t, p);
    StepCounts(t, p);
    if GapOpens(t, p) {
      var h := ReadPes(p).value;
      var p1 := WithCounter(p, NextCounter(t, p));
      CounterIsInvisible(t, p, NextCounter(t, p));
      ListenAfterRenumbering(t, p, h);
      var t2 := Listen(Renumbered(t, p), p1, h);
      InsertFills(t2, p1, h.pts.value);
      InsertionIsAudibleExactlyWhen(t2, p1, h.pts.value);
    }
  }

  lemma InsertFills(t: AudioTrack, p: Packet, pts: Pts)
    requires TrackOk(t) && Insert(t, p, pts).frames > 0
    ensures GapFrames(t, t.lastPts, pts) > 0
  {
    hide FormatOk, GapFrames;
  }

  /** Emissions of a packet: at most one live, and silence exactly for an audible gap. */
  lemma EmittedKinds(s: AudioState, p: Packet, i: nat)
    requires TracksOk(s.tracks) && i < |s.tracks|
    ensures var out := Emitted(s, p, i);
      && (|out| > 0 <==> Survives(s, p, i))
      && (|out| > 0 ==> !out[|out| - 1].silent && forall k :: 0 <= k < |out| - 1 ==> out[k].silent)
      && (|out| > 1 <==> OpensAudibleGap(s, p, i))
  {
    hide StepTrack, FormatOk, Listen, ReadPes, SilentCounters, Emitted, TrackIndex;
    if Survives(s, p, i) {
      EmittedCounts(s, p, i);
      SilentExactlyWhen(s.tracks[i], p);
    } else {
      NothingEmitted(s, p, i);
    }
  }

  predicate AnyLive(e: seq<Emission>) { exists j :: 0 <= j < |e| && !e[j].silent }

  lemma OrderOfConcat(a: seq<Emission>, b: seq<Emission>)
    requires |b| > 0 ==> !b[|b| - 1].silent && forall k :: 0 <= k < |b| - 1 ==> b[k].silent
    ensures AnyLive(a + b) <==> AnyLive(a) || |b| > 0
    ensures SilenceAfterLive(a + b) <==> SilenceAfterLive(a) || (AnyLive(a) && |b| > 1)
  {
    var c := a + b;
    if |b| > 0 {
      assert !c[|c| - 1].silent;
    }
    if AnyLive(a) {
      var j :| 0 <= j < |a| && !a[j].silent;
      assert !c[j].silent;
      if |b| > 1 {
        assert c[|a|].silent;
      }
    }
    if SilenceAfterLive(a) {
      var j, k :| 0 <= j < k < |a| && !a[j].silent && a[k].silent;
      assert !c[j].silent && c[k].silent;
    }
  }

  /** Emissions of a chunk read off its packets. */
  lemma {:induction false} ChunkOrder(s: AudioState, data: seq<byte>, n: nat, i: nat)
    requires TracksOk(s.tracks) && n * 188 <= |data| && i < |s.tracks|
    ensures var e := Emissions(s, Arrivals(data, n), i);
      && (AnyLive(e) <==> AnySurvives(s, data, n, i))
      && (SilenceAfterLive(e) <==> GapBehindSurvivor(s, data, n, i))
      && |LiveOf(e)| <= n
  {
    hide StepStream, TrackOk, Emitted, SilenceAfterLive, AnyLive, LiveOf, SilentOf, Survives, OpensAudibleGap, After;
    if n == 0 {
      NoOrder();
    } else {
      ChunkOrder(s, data, n - 1, i);
      var before := After(s, Arrivals(data, n - 1));
      var a, b := Emissions(s, Arrivals(data, n - 1), i), Emitted(before, Block(data, n - 1), i);
      assert Arrivals(data, n)[..n - 1] == Arrivals(data, n - 1);
      EmittedKinds(before, Block(data, n - 1), i);
      OrderOfConcat(a, b);
      PartsOfConcat(a, b);
      OneLive(b);
      SurvivorsStep(s, data, n, i);
    }
  }

  lemma NoOrder()
    ensures !AnyLive([]) && !SilenceAfterLive([]) && LiveOf([]) == []
  {
  }

  lemma {:induction false} OneLive(b: seq<Emission>)
    requires |b| > 0 ==> forall k :: 0 <= k < |b| - 1 ==> b[k].silent
    ensures |LiveOf(b)| <= 1
  {
    if |b| > 0 {
      PartsOfSilence(b[..|b| - 1], seq(|b| - 1, k requires 0 <= k < |b| - 1 => b[k].counter));
    }
  }

  lemma SurvivorsStep(s: AudioState, data: seq<byte>, n: nat, i: nat)
    requires TracksOk(s.tracks) && 0 < n && n * 188 <= |data| && i < |s.tracks|
    ensures AnySurvives(s, data, n, i) <==> AnySurvives(s, data, n - 1, i) || SurvivesAt(s, data, n - 1, i)
    ensures GapBehindSurvivor(s, data, n, i) <==>
      GapBehindSurvivor(s, data, n - 1, i) || (AnySurvives(s, data, n - 1, i) && OpensAudibleGapAt(s, data, n - 1, i))
  {
    hide TrackOk, SurvivesAt, OpensAudibleGapAt;
    if GapBehindSurvivor(s, data, n - 1, i) {
      var j, k :| 0 <= j < k < n - 1 && SurvivesAt(s, data, j, i) && OpensAudibleGapAt(s, data, k, i);
      assert 0 <= j < k < n;
    }
  }

  // ------------------------------------------------- when the order is wrong

  /** From one emission to a later one the counter climbs by one or two a step. */
  lemma {:induction false} ClimbBetween(e: seq<Emission>, m: nat, q: nat) returns (d: nat)
    requires Chained(e) && m <= q < |e|
    ensures q - m <= d <= 2 * (q - m) && e[q].counter == Nibble(e[m].counter + d)
    decreases q
  {
    hide Nibble;
    if m == q {
      d := 0;
      InRange(e, m);
    } else {
      d := ClimbBetween(e, m, q - 1);
      assert Follows(e, q);
      var step := if e[q].afterSkip then 2 else 1;
      NibbleSum(e[m].counter + d, step);
      d := d + step;
    }
  }

  lemma InRange(e: seq<Emission>, m: nat)
    requires Chained(e) && m < |e|
    ensures e[m].counter == Nibble(e[m].counter + 0)
  {
  }

  /** The parts of a list of silence, then `live` live packets, then silence. */
  lemma {:induction false} PartsOfPrefix(e: seq<Emission>, k: nat)
    requires k <= |e|
    ensures SilentOf(e[..k]) <= SilentOf(e) && |LiveOf(e[..k])| <= |LiveOf(e)|
  {
    hide SilentOf, LiveOf;
    assert e == e[..k] + e[k..];
    PartsOfConcat(e[..k], e[k..]);
  }

  lemma {:induction false} PartsOfLive(e: seq<Emission>)
    requires forall k :: 0 <= k < |e| ==> !e[k].silent
    ensures SilentOf(e) == [] && |LiveOf(e)| == |e|
  {
    if |e| > 0 {
      PartsOfLive(e[..|e| - 1]);
    }
  }

  /** The first silence behind the first live packet is read in that packet's place. */
  lemma MisplacedSilence(e: seq<Emission>, m: nat, q: nat)
    requires m < q < |e| && e[q].silent
    requires forall k :: 0 <= k < m ==> e[k].silent
    requires forall k :: m <= k < q ==> !e[k].silent
    ensures |SilentOf(e)| > m && SilentOf(e)[m] == e[q].counter && q - m <= |LiveOf(e)|
  {
    hide SilentOf, LiveOf;
    var head, mid := e[..m], e[m..q];
    PartsOfSilence(head, CountersOf(head));
    PartsOfLive(mid);
    PartsOfConcat(head, mid);
    PartsOfOne(e[q]);
    PartsOfConcat(head + mid, [e[q]]);
    assert e[..q + 1] == head + mid + [e[q]];
    PartsOfPrefix(e, q + 1);
  }

  lemma FirstMisplaced(e: seq<Emission>) returns (m: nat, q: nat)
    requires SilenceAfterLive(e)
    ensures m < q < |e| && e[q].silent
    ensures forall k :: 0 <= k < m ==> e[k].silent
    ensures forall k :: m <= k < q ==> !e[k].silent
  {
    var j, k :| 0 <= j < k < |e| && !e[j].silent && e[k].silent;
    m := 0;
    while e[m].silent
      invariant m <= j && forall x :: 0 <= x < m ==> e[x].silent
      decreases j - m
    {
      m := m + 1;
    }
    q := m + 1;
    while !e[q].silent
      invariant m < q <= k && forall x :: m <= x < q ==> !e[x].silent
      decreases k - q
    {
      q := q + 1;
    }
  }

  lemma WrongOrder(e: seq<Emission>)
    requires Chained(e) && |LiveOf(e)| <= 7 && SilenceAfterLive(e)
    ensures SilentOf(e) + LiveOf(e) != CountersOf(e)
  {
    hide SilentOf, LiveOf;
    var m, q := FirstMisplaced(e);
    MisplacedSilence(e, m, q);
    var d := ClimbBetween(e, m, q);
    FewStepsShow(e[m].counter, d);
    assert (SilentOf(e) + LiveOf(e))[m] == e[q].counter;
    assert CountersOf(e)[m] == e[m].counter;
  }

  lemma FewStepsShow(c: int, d: nat)
    requires 0 <= c < 16 && 0 < d < 16
    ensures Nibble(c + d) != c
  {
  }

  lemma RightOrder(e: seq<Emission>)
    requires !SilenceAfterLive(e)
    ensures SilentOf(e) + LiveOf(e) == CountersOf(e)
  {
    hide SilentOf, LiveOf, OnlySilent;
    PartitionKeeps(e);
    CountersOfParts(e);
    var c := SilentOf(e) + LiveOf(e);
    forall k | 0 <= k < |e|
      ensures c[k] == e[k].counter
    {
      assert Reordered(e)[k] == e[k];
    }
  }

  /** For every chunk the publisher can read (at most seven packets), whatever came
      before: a reader of the ring sees the counters of the track in the order in which
      they were numbered if and only if no audible gap opens behind a packet of the track
      that survives in the same chunk. */
  lemma RingOrderIsNumberingOrderExactlyWhen(s: AudioState, data: seq<byte>, n: nat, i: nat)
    requires TracksOk(s.tracks) && |data| == n * 188 && n <= 7 && i < |s.tracks|
    requires s.tracks[i].pid != 0x1FFF && TrackIndex(s.tracks, s.tracks[i].pid) == i
    ensures var bytes := RingBytes(s, data, n);
      |bytes| % 188 == 0
      && (ReadCounters(bytes, |bytes| / 188, s.tracks[i].pid) == CountersOf(Emissions(s, Arrivals(data, n), i))
          <==> !GapBehindSurvivor(s, data, n, i))
  {
    hide RingBytes, Emissions, After, TrackOk, ReadCounters, TrackIndex, GapBehindSurvivor, AnySurvives, Chained,
      SilenceAfterLive, CountersOf, SilentOf, LiveOf;
    var e := Emissions(s, Arrivals(data, n), i);
    RingSeesSilenceFirst(s, data, n, i);
    RunIsChained(s, Arrivals(data, n), i);
    ChunkOrder(s, data, n, i);
    if SilenceAfterLive(e) {
      WrongOrder(e);
    } else {
      RightOrder(e);
    }
  }
}
