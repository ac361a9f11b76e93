/** Whole runs of the audio gap filler: any interleaving of packets (however they
    are cut into chunks) and statistics clears. */
module AudioGapRuns {
  import opened Bytes
  import opened GapRule
  import opened AudioFormat
  import opened SilentPacket
  import opened TsInfoRecord
  import opened AudioGap

  datatype Op = Arrive(packet: Packet) | ClearStats

  function Apply(s: AudioState, op: Op): (r: AudioState)
    requires TracksOk(s.tracks)
    ensures TracksOk(r.tracks) && |r.tracks| == |s.tracks|
  {
    match op
    case Arrive(p) => StepStream(s, p).state
    case ClearStats => Cleared(s)
  }

  function After(s: AudioState, ops: seq<Op>): (r: AudioState)
    requires TracksOk(s.tracks)
    ensures TracksOk(r.tracks) && |r.tracks| == |s.tracks|
  {
    if |ops| == 0 then s
    else Apply(After(s, ops[..|ops| - 1]), ops[|ops| - 1])
  }

  function Arrivals(data: seq<byte>, n: nat): (ops: seq<Op>)
    requires n * 188 <= |data|
    ensures |ops| == n
  {
    seq(n, k requires 0 <= k < n => Arrive(Block(data, k)))
  }

  /** A chunk is a run of its packets, so every statement below about runs holds of
      any cutting of the stream into chunks. */
  lemma {:induction false} ChunkIsARun(s: AudioState, data: seq<byte>, n: nat)
    requires TracksOk(s.tracks) && n * 188 <= |data|
    ensures RunPackets(s, data, n).state == After(s, Arrivals(data, n))
  {
    hide StepStream, TrackOk;
    if n > 0 {
      ChunkIsARun(s, data, n - 1);
      assert Arrivals(data, n)[..n - 1] == Arrivals(data, n - 1);
    }
  }

  // --------------------------------------------------------- one track's step

  /** Packet `p` belongs to track `i`. */
  predicate IsMine(s: AudioState, p: Packet, i: nat) {
    p[0] == TS_SYNC_BYTE && TrackIndex(s.tracks, PacketPid(p)) == i
  }

  /** The step seen by track `i` alone. */
  lemma StepOfTrack(s: AudioState, p: Packet, i: nat)
    requires TracksOk(s.tracks) && i < |s.tracks|
    ensures var r := StepStream(s, p);
      if IsMine(s, p, i) then
        var d := StepTrack(s.tracks[i], p);
        r.state.tracks[i] == d.track && r.packet == d.packet && r.fill == d.fill
      else r.state.tracks[i] == s.tracks[i]
  {
    hide StepTrack, TrackOk;
  }

  predicate SamePids(a: seq<AudioTrack>, b: seq<AudioTrack>) {
    |a| == |b| && forall i :: 0 <= i < |a| ==> a[i].pid == b[i].pid
  }

  lemma {:induction false} SameIndex(a: seq<AudioTrack>, b: seq<AudioTrack>, pid: int)
    requires SamePids(a, b)
    ensures TrackIndex(a, pid) == TrackIndex(b, pid)
  {
    if |a| > 0 {
      SameIndex(a[1..], b[1..], pid);
    }
  }

  lemma StepTrackKeepsPid(t: AudioTrack, p: Packet)
    requires TrackOk(t)
    ensures StepTrack(t, p).track.pid == t.pid
  {
    hide GapFrames, GapTimes, SilentBlocks, VoiceOf, ReadPes, FormatOk, DetectFormat;
  }

  lemma ApplyKeepsPids(s: AudioState, op: Op)
    requires TracksOk(s.tracks)
    ensures SamePids(s.tracks, Apply(s, op).tracks)
  {
    hide StepTrack, TrackOk;
    if op.Arrive? {
      var i := TrackIndex(s.tracks, PacketPid(op.packet));
      if i < |s.tracks| {
        StepTrackKeepsPid(s.tracks[i], op.packet);
      }
    }
  }

  lemma {:induction false} AfterKeepsPids(s: AudioState, ops: seq<Op>)
    requires TracksOk(s.tracks)
    ensures SamePids(s.tracks, After(s, ops).tracks)
  {
    hide Apply, TrackOk;
    if |ops| > 0 {
      AfterKeepsPids(s, ops[..|ops| - 1]);
      ApplyKeepsPids(After(s, ops[..|ops| - 1]), ops[|ops| - 1]);
    }
  }

  // ------------------------------------------------------ counters on the wire

  /** The counter a block carries; blocks that were left 0xFF are not packets. */
  function BlockCounters(p: Packet): seq<int> {
    if p[0] == TS_SYNC_BYTE then [Counter(p)] else []
  }

  /** Counters read back from the bytes of a fill. */
  function SilentCounters(fill: seq<byte>, n: nat): seq<int>
    requires n * 188 <= |fill|
  {
    if n == 0 then [] else SilentCounters(fill, n - 1) + BlockCounters(Block(fill, n - 1))
  }

  /** The four-bit counter modulus. */
  function Nibble(x: int): (r: int)
    ensures 0 <= r < 16
  {
    x % 16
  }

  /** A packet of the track leaving the filler, in numbering order. */
  datatype Emission = Emission(counter: int, silent: bool, afterSkip: bool)

  /** What track `i` emits for packet `p`: the silence, then the packet itself. */
  function Emitted(s: AudioState, p: Packet, i: nat): seq<Emission>
    requires TracksOk(s.tracks) && i < |s.tracks|
  {
    if !IsMine(s, p, i) || IsOrphan(s.tracks[i], p) then []
    else
      var d := StepTrack(s.tracks[i], p);
      var c := SilentCounters(d.fill, |d.fill| / 188);
      seq(|c|, k requires 0 <= k < |c| => Emission(c[k], true, k == 0))
      + [Emission(Counter(d.packet), false, d.frames > 0 && |c| == 0)]
  }

  function Emissions(s: AudioState, ops: seq<Op>, i: nat): seq<Emission>
    requires TracksOk(s.tracks) && i < |s.tracks|
  {
    if |ops| == 0 then []
    else
      var init := ops[..|ops| - 1];
      Emissions(s, init, i)
      + match ops[|ops| - 1] case Arrive(p) => Emitted(After(s, init), p, i) case ClearStats => []
  }

  /** The guard of an insertion, on the arriving packet: a PES start with a PTS, on a
      track that has heard a PTS and knows its format (perhaps from this very packet),
      at least one and a half frames and at most five seconds after the last PTS. */
  predicate GapOpens(t: AudioTrack, p: Packet)
    requires TrackOk(t)
  {
    && IsStart(p) && ReadPes(p).Some? && ReadPes(p).value.pts.Some?
    && t.lastPts != INVALID_PTS
    && var h := ReadPes(p).value; var heard := Listen(t, p, h);
    && heard.formatDetected
    && var delta := Forward(t.lastPts, h.pts.value);
       var frame := FrameDuration(heard.sampleRate, heard.streamType);
    && 2 * delta >= 3 * frame && delta <= MAX_PTS_GAP
  }

  /** A fill is not empty exactly when the track's format is known and the distance is
      in range: the detected rates make every frame longer than zero. */
  lemma FillsExactlyWhen(t: AudioTrack, pts: Pts)
    requires TrackOk(t) && t.lastPts != INVALID_PTS
    ensures GapFrames(t, t.lastPts, pts) > 0 <==>
      && t.formatDetected
      && var frame := FrameDuration(t.sampleRate, t.streamType);
      && 2 * Forward(t.lastPts, pts) >= 3 * frame && Forward(t.lastPts, pts) <= MAX_PTS_GAP
  {
    if t.formatDetected {
      DetectedRate(t);
      InsertsExactlyWhen(Forward(t.lastPts, pts), FrameDuration(t.sampleRate, t.streamType));
    }
  }

  lemma DetectedRate(t: AudioTrack)
    requires TrackOk(t) && t.formatDetected
    ensures 0 < t.sampleRate <= 96000 && IsSupported(t.streamType) && FrameDuration(t.sampleRate, t.streamType) >= 900
  {
    var s := SamplesPerFrame(t.streamType) * 90000;
    var d := s / t.sampleRate;
    assert s == t.sampleRate * d + s % t.sampleRate;
    if d < 900 {
      MulLe(t.sampleRate, d, 899);
    }
  }

  /** Rewriting the counter does not change what is read behind it. */
  lemma CounterIsInvisible(t: AudioTrack, p: Packet, cc: int)
    requires TrackOk(t) && 0 <= cc < 16
    ensures var q := WithCounter(p, cc);
      && IsStart(q) == IsStart(p) && PayloadOffset(q) == PayloadOffset(p) && ReadPes(q) == ReadPes(p)
      && forall k :: 4 <= k <= 188 ==> q[k..] == p[k..]
  {
    var q := WithCounter(p, cc);
    assert q[3] / 16 == p[3] / 16;
    var pos := PayloadOffset(p);
    if pos + 13 < 188 {
      assert q[pos + 9..pos + 14] == p[pos + 9..pos + 14];
    }
    forall k | 4 <= k <= 188
      ensures q[k..] == p[k..]
    {
    }
  }

  /** What a start packet teaches depends on the format fields only. */
  lemma ListenAfterRenumbering(t: AudioTrack, p: Packet, h: PesHead)
    requires TrackOk(t) && 0xC0 <= h.streamId <= 0xDF && 4 <= h.pos < 175
    ensures var a := Listen(t, p, h); var b := Listen(Renumbered(t, p), WithCounter(p, NextCounter(t, p)), h);
      && b.formatDetected == a.formatDetected && b.sampleRate == a.sampleRate && b.streamType == a.streamType
      && b.profile == a.profile && b.lastPts == t.lastPts
  {
    hide FormatOk, IsStart;
    CounterIsInvisible(t, p, NextCounter(t, p));
  }

  /** The rewriter inserts exactly where a gap opens. */
  lemma InsertsExactlyWhereGapOpens(t: AudioTrack, p: Packet)
    requires TrackOk(t)
    ensures StepTrack(t, p).frames > 0 <==> GapOpens(t, p)
  {
    hide FormatOk, GapFrames, FrameDuration, Listen, ReadPes, VoiceOf, GapTimes, SilentBlocks, CounterAfter;
    if IsStart(p) {
      var t1, p1 := Renumbered(t, p), WithCounter(p, NextCounter(t, p));
      CounterIsInvisible(t, p, NextCounter(t, p));
      if ReadPes(p).Some? && ReadPes(p).value.pts.Some? {
        var h := ReadPes(p).value;
        ListenAfterRenumbering(t, p, h);
        var t2 := Listen(t1, p1, h);
        if t.lastPts == INVALID_PTS {
          NoFillWithoutPts(t2, h.pts.value);
        } else {
          FillsExactlyWhen(t2, h.pts.value);
        }
      }
    }
  }

  lemma NoFillWithoutPts(t: AudioTrack, pts: Pts)
    requires TrackOk(t) && t.lastPts == INVALID_PTS
    ensures GapFrames(t, t.lastPts, pts) == 0
  {
  }

  /** Gaps opened on track `i` over a run. */
  function Insertions(s: AudioState, ops: seq<Op>, i: nat): nat
    requires TracksOk(s.tracks) && i < |s.tracks|
  {
    if |ops| == 0 then 0
    else
      var init := ops[..|ops| - 1];
      Insertions(s, init, i)
      + match ops[|ops| - 1]
        case Arrive(p) =>
          if IsMine(After(s, init), p, i) && GapOpens(After(s, init).tracks[i], p) then 1 else 0
        case ClearStats => 0
  }

  function Skips(e: seq<Emission>): nat {
    if |e| == 0 then 0
    else Skips(e[..|e| - 1]) + if e[|e| - 1].afterSkip then 1 else 0
  }

  lemma {:induction false} SkipsOfConcat(a: seq<Emission>, b: seq<Emission>)
    ensures Skips(a + b) == Skips(a) + Skips(b)
  {
    if |b| == 0 {
      assert a + b == a;
    } else {
      assert (a + b)[..|a + b| - 1] == a + b[..|b| - 1];
      SkipsOfConcat(a, b[..|b| - 1]);
    }
  }

  lemma CounterOfSilentBlock(v: Voice, times: seq<Pts>, cc: int, i: nat)
    requires v.Valid() && 0 <= cc < 16 && 0xC0 <= v.streamId <= 0xDF && i < |times|
    ensures BlockCounters(Block(SilentBlocks(v, times, cc), i)) == if v.Buildable() then [(cc + i) % 16] else []
  {
    hide SilentBlocks, SilentTs, Block, ReadPes;
    BlockAt(v, times, cc, i);
    UnbuiltLeavesNoTrace(v, times[i], CounterAfter(v, cc, i));
    if v.Buildable() {
      FillReadsBack(v, times, cc, i);
    }
  }

  lemma {:induction false} SilentCountersOfFill(v: Voice, times: seq<Pts>, cc: int, n: nat)
    requires v.Valid() && 0 <= cc < 16 && 0xC0 <= v.streamId <= 0xDF && n <= |times|
    ensures SilentCounters(SilentBlocks(v, times, cc), n)
      == if v.Buildable() then seq(n, k => (cc + k) % 16) else []
  {
    hide SilentBlocks, BlockCounters, Block;
    if n > 0 {
      SilentCountersOfFill(v, times, cc, n - 1);
      CounterOfSilentBlock(v, times, cc, n - 1);
    }
  }

  /** Number of real packets among the blocks of a fill. */
  function Built(d: TrackStep): nat
    requires |d.fill| == d.frames * 188
  {
    |SilentCounters(d.fill, d.frames)|
  }

  /** Consecutive counters starting at `cc`. */
  function CountFrom(cc: int, n: nat): (s: seq<int>)
    ensures |s| == n && forall k :: 0 <= k < n ==> s[k] == (cc + k) % 16
  {
    seq(n, k => (cc + k) % 16)
  }

  /** An insertion numbers its silence from `expectedCc` on, then the packet, then
      leaves the counter one further. */
  lemma InsertCounts(t: AudioTrack, p: Packet, pts: int)
    requires TrackOk(t) && 0 <= pts < PTS_WRAP
    ensures var d := Insert(t, p, pts);
      && |d.fill| == d.frames * 188
      && (d.frames == 0 ==> d.packet == p && d.track == t.(lastPts := pts))
      && (d.frames > 0 ==>
            && t.lastPts != INVALID_PTS && d.track.ccInitialized == t.ccInitialized && d.track.inGap == t.inGap
            && d.track.lastPts == pts && d.packet == WithCounter(p, Counter(d.packet))
            && SilentCounters(d.fill, d.frames) == CountFrom(t.expectedCc, Built(d))
            && Counter(d.packet) == (t.expectedCc + Built(d)) % 16
            && d.track.expectedCc == (Counter(d.packet) + 1) % 16)
  {
    hide SilentBlocks, BlockCounters, Block, FormatOk, SilentFrame, SilentCounters;
    var n := GapFrames(t, t.lastPts, pts);
    if n > 0 {
      var v, times := VoiceOf(t), GapTimes(t, t.lastPts, pts);
      SilentCountersOfFill(v, times, t.expectedCc, n);
      assert SilentCounters(Insert(t, p, pts).fill, n) == CountFrom(t.expectedCc, if v.Buildable() then n else 0);
    }
  }

  /** Behind the counter rewrite: `t` has numbered `p` already. */
  lemma PesCounts(t: AudioTrack, p: Packet)
    requires TrackOk(t) && t.ccInitialized && t.expectedCc == Nibble(Counter(p) + 1)
    ensures var d := AfterRenumbering(t, p);
      && |d.fill| == d.frames * 188 && d.track.ccInitialized && d.track.inGap == t.inGap
      && d.track.expectedCc == Nibble(Counter(d.packet) + 1)
      && d.packet == WithCounter(p, Counter(d.packet))
      && (d.frames == 0 ==> Counter(d.packet) == Counter(p))
      && (d.frames > 0 ==>
            && t.lastPts != INVALID_PTS
            && SilentCounters(d.fill, d.frames) == CountFrom(t.expectedCc, Built(d))
            && Counter(d.packet) == Nibble(t.expectedCc + Built(d)))
  {
    hide Insert, ReadPes, FormatOk, SilentCounters, Listen;
    assert p == WithCounter(p, Counter(p));
    if ReadPes(p).Some? {
      var h := ReadPes(p).value;
      if h.pts.Some? {
        InsertCounts(Listen(t, p, h), p, h.pts.value);
      }
    }
  }

  /** A surviving packet without an insertion takes the next counter; with one, that
      counter is skipped and the silence and the packet take the ones after it. */
  lemma StepCounts(t: AudioTrack, p: Packet)
    requires TrackOk(t) && !IsOrphan(t, p)
    ensures var d := StepTrack(t, p); var e := NextCounter(t, p);
      && |d.fill| == d.frames * 188 && d.track.ccInitialized && d.track.inGap == (t.inGap && !IsStart(p))
      && d.track.expectedCc == Nibble(Counter(d.packet) + 1)
      && d.packet == WithCounter(p, Counter(d.packet))
      && (d.frames == 0 ==> Counter(d.packet) == e)
      && (d.frames > 0 ==>
            && t.lastPts != INVALID_PTS
            && SilentCounters(d.fill, d.frames) == CountFrom(e + 1, Built(d))
            && Counter(d.packet) == Nibble(e + 1 + Built(d)))
  {
    hide AfterRenumbering, FormatOk, SilentCounters, WithCounter, CountFrom, IsStart;
    var e := NextCounter(t, p);
    var t1, p1 := Renumbered(t, p), WithCounter(p, e);
    var d := StepTrack(t, p);
    if IsStart(p) {
      PesCounts(t1, p1);
      RenumberedTwice(p, e, Counter(d.packet));
      CountWraps(e + 1, Built(d));
    }
  }

  lemma RenumberedTwice(p: Packet, a: int, b: int)
    requires 0 <= a < 16 && 0 <= b < 16
    ensures WithCounter(WithCounter(p, a), b) == WithCounter(p, b)
  {
  }

  lemma CountWraps(from: int, n: nat)
    ensures CountFrom(from % 16, n) == CountFrom(from, n)
    ensures Nibble(from % 16 + n) == Nibble(from + n)
  {
    hide CountFrom;
    NibbleAdds(from, n);
    var a, b := CountFrom(from % 16, n), CountFrom(from, n);
    forall k: nat | k < n
      ensures a[k] == b[k]
    {
      NibbleAdds(from, k);
    }
  }

  lemma NibbleAdds(x: int, k: nat)
    ensures Nibble(x % 16 + k) == Nibble(x + k) && (x % 16 + k) % 16 == (x + k) % 16
  {
    var q, r := (x % 16 + k) / 16, (x % 16 + k) % 16;
    DivUnique(x + k, 16, x / 16 + q, r);
  }

  /** The same law read off the emissions. */
  lemma EmittedCounts(s: AudioState, p: Packet, i: nat)
    requires TracksOk(s.tracks) && i < |s.tracks| && IsMine(s, p, i) && !IsOrphan(s.tracks[i], p)
    ensures var t := s.tracks[i]; var d := StepTrack(t, p); var e := NextCounter(t, p); var out := Emitted(s, p, i);
      && |d.fill| == d.frames * 188 && |out| == (if d.frames > 0 then Built(d) else 0) + 1
      && (forall k :: 0 <= k < |out| ==> out[k].counter == Nibble(e + k + if d.frames > 0 then 1 else 0))
      && (forall k :: 0 <= k < |out| ==> out[k].afterSkip == (k == 0 && d.frames > 0))
      && (forall k :: 0 <= k < |out| ==> out[k].silent == (k < |out| - 1))
      && d.track.ccInitialized && d.track.expectedCc == Nibble(out[|out| - 1].counter + 1)
  {
    hide StepTrack, TrackOk;
    StepCounts(s.tracks[i], p);
  }

  // ------------------------------------------------------ counters over a run

  /** The state of a track when the PMT has just announced it. */
  predicate Unheard(t: AudioTrack) {
    !t.ccInitialized && t.inGap && t.lastPts == INVALID_PTS
  }

  predicate Follows(e: seq<Emission>, k: nat)
    requires 1 <= k < |e|
  {
    e[k].counter == Nibble(e[k - 1].counter + if e[k].afterSkip then 2 else 1)
  }

  /** The k-th emission carries the counter right after its predecessor's. */
  predicate Consecutive(e: seq<Emission>, k: nat)
    requires 1 <= k < |e|
  {
    e[k].counter == Nibble(e[k - 1].counter + 1)
  }

  /** Neighbouring emissions are numbered consecutively, one value being skipped
      exactly where an insertion begins. */
  predicate Chained(e: seq<Emission>) {
    && (forall k :: 0 <= k < |e| ==> 0 <= e[k].counter < 16)
    && forall k :: 1 <= k < |e| ==> Follows(e, k)
  }

  /** The same from the very first emission of a track on. */
  predicate Numbered(e: seq<Emission>) {
    Chained(e) && (|e| > 0 ==> !e[0].afterSkip)
  }

  /** Before its first emission a track has heard nothing. */
  predicate Tracks(t: AudioTrack, e: seq<Emission>) {
    |e| == 0 ==> !t.ccInitialized && t.lastPts == INVALID_PTS
  }

  lemma NibbleSum(x: int, d: int)
    ensures Nibble(Nibble(x) + d) == Nibble(x + d)
  {
  }

  lemma NibbleDistinct(c: int)
    ensures Nibble(c + 1) != Nibble(c + 2)
  {
  }

  lemma ChainedAppend(a: seq<Emission>, b: seq<Emission>, e: int, skip: int)
    requires Chained(a) && |b| > 0 && 0 <= e < 16 && skip in {0, 1}
    requires |a| > 0 ==> e == Nibble(a[|a| - 1].counter + 1)
    requires forall k :: 0 <= k < |b| ==> b[k].counter == Nibble(e + k + skip)
    requires forall k :: 0 <= k < |b| ==> b[k].afterSkip == (k == 0 && skip == 1)
    ensures Chained(a + b)
  {
    hide Nibble;
    var c := a + b;
    forall k | 1 <= k < |c|
      ensures Follows(c, k)
    {
      if k > |a| {
        var j := k - |a|;
        assert c[k] == b[j] && c[k - 1] == b[j - 1];
        assert b[j].counter == Nibble(e + j + skip) && b[j - 1].counter == Nibble(e + (j - 1) + skip);
        NibbleSum(e + (j - 1) + skip, 1);
      } else if k == |a| {
        assert c[k] == b[0] && c[k - 1] == a[k - 1];
        NibbleSum(a[k - 1].counter + 1, skip);
      } else {
        assert Follows(a, k);
      }
    }
  }

  /** What the track remembers of its last emission. */
  predicate Continues(t: AudioTrack, e: seq<Emission>) {
    |e| > 0 ==> t.ccInitialized && t.expectedCc == Nibble(e[|e| - 1].counter + 1)
  }

  /** From any state whatever, the emissions of a run are chained. */
  lemma {:induction false} RunIsChained(s: AudioState, ops: seq<Op>, i: nat)
    requires TracksOk(s.tracks) && i < |s.tracks|
    ensures Chained(Emissions(s, ops, i)) && Continues(After(s, ops).tracks[i], Emissions(s, ops, i))
  {
    hide StepTrack, TrackOk, StepStream, IsMine, Emitted;
    if |ops| > 0 {
      var n := |ops| - 1;
      RunIsChained(s, ops[..n], i);
      var before, e := After(s, ops[..n]), Emissions(s, ops[..n], i);
      match ops[n]
      case ClearStats => assert Emissions(s, ops, i) == e;
      case Arrive(p) => StepIsChained(before, p, i, e);
    }
  }

  lemma StepIsChained(s: AudioState, p: Packet, i: nat, e: seq<Emission>)
    requires TracksOk(s.tracks) && i < |s.tracks|
    requires Chained(e) && Continues(s.tracks[i], e)
    ensures Chained(e + Emitted(s, p, i))
    ensures Continues(StepStream(s, p).state.tracks[i], e + Emitted(s, p, i))
  {
    hide StepTrack, StepStream, FormatOk, Emitted, TrackIndex;
    var t := s.tracks[i];
    StepOfTrack(s, p, i);
    var out := Emitted(s, p, i);
    if IsMine(s, p, i) && !IsOrphan(t, p) {
      EmittedCounts(s, p, i);
      StepCounts(t, p);
      ChainedAppend(e, out, NextCounter(t, p), if StepTrack(t, p).frames > 0 then 1 else 0);
    } else {
      NothingEmitted(s, p, i);
      assert e + out == e;
    }
  }

  /** Over any run from an unheard track: its emissions are numbered, and the state
      continues them. */
  lemma RunIsNumbered(s: AudioState, ops: seq<Op>, i: nat)
    requires TracksOk(s.tracks) && i < |s.tracks| && Unheard(s.tracks[i])
    ensures Numbered(Emissions(s, ops, i)) && Continues(After(s, ops).tracks[i], Emissions(s, ops, i))
    ensures Tracks(After(s, ops).tracks[i], Emissions(s, ops, i))
  {
    hide Emissions, After, TrackOk, Chained;
    RunIsChained(s, ops, i);
    FirstIsNotSkipped(s, ops, i);
  }

  /** Nothing can be inserted before the first emission: no PTS has been heard. */
  lemma {:induction false} FirstIsNotSkipped(s: AudioState, ops: seq<Op>, i: nat)
    requires TracksOk(s.tracks) && i < |s.tracks| && Unheard(s.tracks[i])
    ensures var e := Emissions(s, ops, i);
      Tracks(After(s, ops).tracks[i], e) && (|e| > 0 ==> !e[0].afterSkip)
  {
    hide StepTrack, TrackOk, StepStream, IsMine, Emitted, Cleared;
    if |ops| > 0 {
      var n := |ops| - 1;
      FirstIsNotSkipped(s, ops[..n], i);
      var before, e := After(s, ops[..n]), Emissions(s, ops[..n], i);
      match ops[n]
      case ClearStats =>
        assert Emissions(s, ops, i) == e;
        ClearKeepsCounters(before, i);
      case Arrive(p) =>
        if |e| == 0 {
          EmittedWithoutPts(before, p, i);
        }
    }
  }

  /** A statistics clear leaves alone what numbers the packets. */
  lemma ClearKeepsCounters(s: AudioState, i: nat)
    requires i < |s.tracks|
    ensures var t := Cleared(s).tracks;
      && |t| == |s.tracks|
      && t[i].ccInitialized == s.tracks[i].ccInitialized && t[i].expectedCc == s.tracks[i].expectedCc
      && t[i].lastPts == s.tracks[i].lastPts && t[i].inGap == s.tracks[i].inGap
  {
  }

  lemma EmittedWithoutPts(s: AudioState, p: Packet, i: nat)
    requires TracksOk(s.tracks) && i < |s.tracks| && s.tracks[i].lastPts == INVALID_PTS && !s.tracks[i].ccInitialized
    ensures var out := Emitted(s, p, i);
      && (|out| > 0 ==> !out[0].afterSkip)
      && (|out| == 0 ==> Tracks(StepStream(s, p).state.tracks[i], out))
  {
    hide StepTrack, StepStream, TrackOk, Emitted;
    if IsMine(s, p, i) && !IsOrphan(s.tracks[i], p) {
      EmittedCounts(s, p, i);
      StepCounts(s.tracks[i], p);
    } else {
      NothingEmitted(s, p, i);
    }
  }

  /** A packet that is not the track's own, or is orphaned, emits nothing and leaves
      the counter state alone. */
  lemma NothingEmitted(s: AudioState, p: Packet, i: nat)
    requires TracksOk(s.tracks) && i < |s.tracks| && (!IsMine(s, p, i) || IsOrphan(s.tracks[i], p))
    ensures Emitted(s, p, i) == []
    ensures var t := StepStream(s, p).state.tracks[i];
      t.ccInitialized == s.tracks[i].ccInitialized && t.expectedCc == s.tracks[i].expectedCc
      && t.lastPts == s.tracks[i].lastPts && t.inGap == s.tracks[i].inGap
  {
    StepOfTrack(s, p, i);
  }

  lemma SkipsGrow(e: seq<Emission>, k: nat)
    requires k < |e|
    ensures Skips(e[..k + 1]) == Skips(e[..k]) + if e[k].afterSkip then 1 else 0
  {
    assert e[..k + 1][..k] == e[..k];
  }

  lemma NumberedStep(e: seq<Emission>, k: nat)
    requires Numbered(e) && 1 <= k < |e|
    ensures e[k].counter == Nibble(e[k - 1].counter + if e[k].afterSkip then 2 else 1)
  {
    assert Follows(e, k);
  }

  lemma NumberedStart(e: seq<Emission>)
    requires Numbered(e) && |e| > 0
    ensures e[0].counter == Nibble(e[0].counter) && !e[0].afterSkip && Skips(e[..1]) == 0
  {
    assert e[..1][..0] == [];
  }

  lemma NumberedClosedForm(e: seq<Emission>, k: nat)
    requires Numbered(e) && k < |e|
    ensures e[k].counter == Nibble(e[0].counter + k + Skips(e[..k + 1]))
  {
    hide Numbered, Skips, Nibble;
    if k > 0 {
      NumberedClosedForm(e, k - 1);
      SkipsGrow(e, k);
      NumberedStep(e, k);
      NibbleSum(e[0].counter + (k - 1) + Skips(e[..k]), if e[k].afterSkip then 2 else 1);
    } else {
      NumberedStart(e);
    }
  }

  lemma {:induction false} SkipsAreInsertions(s: AudioState, ops: seq<Op>, i: nat)
    requires TracksOk(s.tracks) && i < |s.tracks|
    ensures Skips(Emissions(s, ops, i)) == Insertions(s, ops, i)
  {
    hide StepTrack, StepStream, TrackOk, Emitted, Skips, IsMine, GapOpens;
    if |ops| > 0 {
      var n := |ops| - 1;
      SkipsAreInsertions(s, ops[..n], i);
      var before := After(s, ops[..n]);
      match ops[n]
      case ClearStats => assert Emissions(s, ops, i) == Emissions(s, ops[..n], i);
      case Arrive(p) =>
        SkipsOfConcat(Emissions(s, ops[..n], i), Emitted(before, p, i));
        SkipsOfStep(before, p, i);
    } else {
      assert Skips([]) == 0 by {
        SkipsOfNothing();
      }
    }
  }

  lemma SkipsOfNothing()
    ensures Skips([]) == 0
  {
  }

  lemma {:induction false} SkipsAtMostFirst(e: seq<Emission>)
    requires forall k :: 1 <= k < |e| ==> !e[k].afterSkip
    ensures Skips(e) == if |e| > 0 && e[0].afterSkip then 1 else 0
  {
    if |e| > 1 {
      SkipsAtMostFirst(e[..|e| - 1]);
    } else if |e| == 1 {
      assert e[..0] == [];
    }
  }

  lemma SkipsOfStep(s: AudioState, p: Packet, i: nat)
    requires TracksOk(s.tracks) && i < |s.tracks|
    ensures Skips(Emitted(s, p, i))
      == if IsMine(s, p, i) && GapOpens(s.tracks[i], p) then 1 else 0
  {
    InsertsExactlyWhereGapOpens(s.tracks[i], p);
    if IsMine(s, p, i) && !IsOrphan(s.tracks[i], p) {
      hide StepTrack, TrackOk, Skips, Emitted, GapOpens;
      EmittedCounts(s, p, i);
      SkipsAtMostFirst(Emitted(s, p, i));
    } else {
      hide TrackOk, Listen, ReadPes;
      NothingEmitted(s, p, i);
    }
  }

  /** The counter law.  From an unheard track, after any run, `expected_cc` is the
      first counter plus the packets emitted (surviving and silent) plus the number of
      insertions, modulo 16; and the same closed form numbers every single packet. */
  lemma CounterLaw(s: AudioState, ops: seq<Op>, i: nat)
    requires TracksOk(s.tracks) && i < |s.tracks| && Unheard(s.tracks[i])
    ensures var e := Emissions(s, ops, i); var t := After(s, ops).tracks[i];
      && t.ccInitialized == (|e| > 0)
      && (|e| > 0 ==> t.expectedCc == Nibble(e[0].counter + |e| + Insertions(s, ops, i)))
      && (forall k :: 0 <= k < |e| ==> e[k].counter == Nibble(e[0].counter + k + Skips(e[..k + 1])))
  {
    hide Emissions, After, Insertions, TrackOk, Numbered, Skips, Nibble;
    var e := Emissions(s, ops, i);
    RunIsNumbered(s, ops, i);
    SkipsAreInsertions(s, ops, i);
    forall k | 0 <= k < |e|
      ensures e[k].counter == Nibble(e[0].counter + k + Skips(e[..k + 1]))
    {
      NumberedClosedForm(e, k);
    }
    if |e| > 0 {
      NextAfterLast(e);
    }
  }

  lemma NextAfterLast(e: seq<Emission>)
    requires Numbered(e) && |e| > 0
    ensures Nibble(e[|e| - 1].counter + 1) == Nibble(e[0].counter + |e| + Skips(e))
  {
    hide Numbered, Skips, Nibble;
    var k := |e| - 1;
    assert e[..k + 1] == e;
    NumberedClosedForm(e, k);
    NibbleSum(e[0].counter + k + Skips(e), 1);
  }

  /** The counters a demuxer should see are consecutive: true exactly of the runs in
      which nothing was inserted.  (AUDIO_GAP_FILLING.md promises it of all runs.) */
  lemma SequentialExactlyWhenNothingInserted(s: AudioState, ops: seq<Op>, i: nat)
    requires TracksOk(s.tracks) && i < |s.tracks| && Unheard(s.tracks[i])
    ensures var e := Emissions(s, ops, i);
      (forall k :: 1 <= k < |e| ==> Consecutive(e, k))
      <==> Insertions(s, ops, i) == 0
  {
    hide Emissions, After, Insertions, TrackOk, Numbered, Skips, Tracks, Nibble;
    RunIsNumbered(s, ops, i);
    SkipsAreInsertions(s, ops, i);
    SequentialExactlyWithoutSkips(Emissions(s, ops, i));
  }

  lemma SequentialExactlyWithoutSkips(e: seq<Emission>)
    requires Numbered(e)
    ensures (forall k :: 1 <= k < |e| ==> Consecutive(e, k)) <==> Skips(e) == 0
  {
    hide Skips, Nibble;
    if forall k :: 1 <= k < |e| ==> Consecutive(e, k) {
      forall k | 1 <= k < |e|
        ensures !e[k].afterSkip
      {
        assert Follows(e, k) && Consecutive(e, k);
        NibbleDistinct(e[k - 1].counter);
      }
      SkipsAtMostFirst(e);
    } else {
      var k :| 1 <= k < |e| && !Consecutive(e, k);
      assert Follows(e, k);
      SkipAt(e, k);
    }
  }

  lemma {:induction false} SkipAt(e: seq<Emission>, k: nat)
    requires k < |e| && e[k].afterSkip
    ensures Skips(e) > 0
  {
    if k < |e| - 1 {
      SkipAt(e[..|e| - 1], k);
    }
  }
}
