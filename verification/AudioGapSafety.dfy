/** What every run of the audio gap filler keeps: totals that agree, packets that
    are never nulled once the track has started, and bytes that are never touched. */
module AudioGapSafety {
  import opened Bytes
  import opened GapRule
  import opened AudioFormat
  import opened SilentPacket
  import opened TsInfoRecord
  import opened AudioGap
  import opened AudioGapRuns

  // ------------------------------------------------------------ conservation

  datatype Totals = Totals(gaps: int, frames: int, packets: int, bytes: int) {
    function Plus(o: Totals): Totals {
      Totals(gaps + o.gaps, frames + o.frames, packets + o.packets, bytes + o.bytes)
    }
  }

  function TotalsOf(t: AudioTrack): Totals {
    Totals(t.gapCount, t.silentFrames, t.silentPackets, t.silentBytes)
  }

  function SumOfTracks(tracks: seq<AudioTrack>): Totals {
    if |tracks| == 0 then Totals(0, 0, 0, 0)
    else TotalsOf(tracks[0]).Plus(SumOfTracks(tracks[1..]))
  }

  function StreamTotals(s: AudioState): Totals {
    Totals(s.gapCount, s.silentFrames, s.silentPackets, s.silentBytes)
  }

  /** Stream totals are the sums over the tracks, and bytes are 188 per packet. */
  predicate Conserved(s: AudioState) {
    && StreamTotals(s) == SumOfTracks(s.tracks)
    && s.silentFrames == s.silentPackets && s.silentBytes == 188 * s.silentPackets
    && forall i :: 0 <= i < |s.tracks| ==>
         s.tracks[i].silentFrames == s.tracks[i].silentPackets
         && s.tracks[i].silentBytes == 188 * s.tracks[i].silentPackets
  }

  lemma {:induction false} SumAfterUpdate(tracks: seq<AudioTrack>, i: nat, t: AudioTrack, d: Totals)
    requires i < |tracks| && TotalsOf(t) == TotalsOf(tracks[i]).Plus(d)
    ensures SumOfTracks(tracks[i := t]) == SumOfTracks(tracks).Plus(d)
  {
    if i == 0 {
      assert tracks[i := t][1..] == tracks[1..];
    } else {
      assert tracks[i := t][1..] == tracks[1..][i - 1 := t];
      SumAfterUpdate(tracks[1..], i - 1, t, d);
    }
  }

  /** A step adds its own silence to its track, and nothing else. */
  lemma StepTotals(t: AudioTrack, p: Packet)
    requires TrackOk(t)
    ensures var d := StepTrack(t, p);
      TotalsOf(d.track)
      == TotalsOf(t).Plus(Totals(if d.frames > 0 then 1 else 0, d.frames, d.frames, d.frames * 188))
  {
    hide ReadPes, FormatOk, GapFrames, GapTimes, SilentBlocks, VoiceOf, CounterAfter, DetectFormat;
  }

  lemma {:induction false} SumOfCleared(tracks: seq<AudioTrack>)
    requires forall t :: t in tracks ==> TotalsOf(t) == Totals(0, 0, 0, 0)
    ensures SumOfTracks(tracks) == Totals(0, 0, 0, 0)
  {
    if |tracks| > 0 {
      assert tracks[0] in tracks;
      SumOfCleared(tracks[1..]);
    }
  }

  lemma ApplyConserves(s: AudioState, op: Op)
    requires TracksOk(s.tracks) && Conserved(s)
    ensures Conserved(Apply(s, op))
  {
    hide StepTrack, TrackOk;
    match op
    case ClearStats => SumOfCleared(Cleared(s).tracks);
    case Arrive(p) =>
      var i := TrackIndex(s.tracks, PacketPid(p));
      if p[0] == TS_SYNC_BYTE && i < |s.tracks| {
        var d := StepTrack(s.tracks[i], p);
        StepTotals(s.tracks[i], p);
        SumAfterUpdate(s.tracks, i, d.track,
                       Totals(if d.frames > 0 then 1 else 0, d.frames, d.frames, d.frames * 188));
      }
  }

  /** Totals agree after every run of packets and statistics clears. */
  lemma {:induction false} RunsConserve(s: AudioState, ops: seq<Op>)
    requires TracksOk(s.tracks) && Conserved(s)
    ensures Conserved(After(s, ops))
  {
    hide Apply, TrackOk, Conserved;
    if |ops| > 0 {
      RunsConserve(s, ops[..|ops| - 1]);
      ApplyConserves(After(s, ops[..|ops| - 1]), ops[|ops| - 1]);
    }
  }

  // --------------------------------------------------------- nulled packets

  /** Track `i` has seen a PES start in the run. */
  predicate Started(s: AudioState, ops: seq<Op>, i: nat)
    requires TracksOk(s.tracks)
  {
    exists k :: 0 <= k < |ops| && IsStartOf(s, ops, k, i)
  }

  predicate IsStartOf(s: AudioState, ops: seq<Op>, k: nat, i: nat)
    requires TracksOk(s.tracks) && k < |ops|
  {
    ops[k].Arrive? && IsMine(s, ops[k].packet, i) && IsStart(ops[k].packet)
  }

  /** `in_gap` is exactly "no PES start seen yet". */
  lemma {:induction false} InGapExactlyUntilStart(s: AudioState, ops: seq<Op>, i: nat)
    requires TracksOk(s.tracks) && i < |s.tracks| && s.tracks[i].inGap
    ensures After(s, ops).tracks[i].inGap <==> !Started(s, ops, i)
  {
    hide StepTrack, StepStream, TrackOk, TrackIndex;
    if |ops| > 0 {
      var n := |ops| - 1;
      var before := After(s, ops[..n]);
      InGapExactlyUntilStart(s, ops[..n], i);
      AfterKeepsPids(s, ops[..n]);
      assert forall k :: 0 <= k < n ==> (IsStartOf(s, ops, k, i) <==> IsStartOf(s, ops[..n], k, i));
      assert Started(s, ops, i) <==> Started(s, ops[..n], i) || IsStartOf(s, ops, n, i);
      if ops[n].Arrive? {
        var p := ops[n].packet;
        SameIndex(s.tracks, before.tracks, PacketPid(p));
        StepOfTrack(before, p, i);
        if IsMine(before, p, i) && !IsOrphan(before.tracks[i], p) {
          StepCounts(before.tracks[i], p);
        } else {
          NothingEmitted(before, p, i);
        }
      }
    }
  }

  /** From the announcement of a track on, one of its packets is nulled if and only if
      no PES start of the track has come before it and it is not one itself; so after
      the first PES start no packet of the track is ever nulled again.  A packet that
      is not nulled keeps its PID. */
  lemma NulledExactlyBeforeFirstStart(s: AudioState, ops: seq<Op>, i: nat, p: Packet)
    requires TracksOk(s.tracks) && i < |s.tracks| && s.tracks[i].inGap && IsMine(s, p, i)
    ensures var r := StepStream(After(s, ops), p);
      if !Started(s, ops, i) && !IsStart(p) then r.packet == Nulled(p)
      else r.packet == WithCounter(p, Counter(r.packet)) && PacketPid(r.packet) == PacketPid(p)
  {
    hide StepTrack, StepStream, TrackOk, TrackIndex;
    var now := After(s, ops);
    InGapExactlyUntilStart(s, ops, i);
    AfterKeepsPids(s, ops);
    SameIndex(s.tracks, now.tracks, PacketPid(p));
    StepOfTrack(now, p, i);
    if IsOrphan(now.tracks[i], p) {
      OrphanIsNulled(now.tracks[i], p);
    } else {
      StepCounts(now.tracks[i], p);
    }
  }

  lemma OrphanIsNulled(t: AudioTrack, p: Packet)
    requires TrackOk(t) && IsOrphan(t, p)
    ensures StepTrack(t, p).packet == Nulled(p)
  {
  }

  // ------------------------------------------------------------ bytes changed

  /** `q` differs from `p` at most in bits 0-4 of byte 1, in byte 2 and in the low
      nibble of byte 3. */
  predicate OnlyHeaderBitsChanged(p: Packet, q: Packet) {
    && (forall k :: 0 <= k < 188 && k != 1 && k != 2 && k != 3 ==> q[k] == p[k])
    && q[1] / 32 == p[1] / 32 && q[3] / 16 == p[3] / 16
  }

  lemma StepAltersOnlyHeader(s: AudioState, p: Packet)
    requires TracksOk(s.tracks)
    ensures OnlyHeaderBitsChanged(p, StepStream(s, p).packet)
    ensures StepStream(s, p).packet != p ==>
      p[0] == TS_SYNC_BYTE && TrackIndex(s.tracks, PacketPid(p)) < |s.tracks|
  {
    hide StepTrack, TrackOk, TrackIndex;
    var i := TrackIndex(s.tracks, PacketPid(p));
    if p[0] == TS_SYNC_BYTE && i < |s.tracks| {
      var t := s.tracks[i];
      if IsOrphan(t, p) {
        OrphanIsNulled(t, p);
      } else {
        StepCounts(t, p);
      }
    }
  }

  /** A chunk comes out with the same length, and every packet of it differs from what
      went in only in those header bits, and only if it is a tracked, synchronised
      packet; the incomplete tail is untouched. */
  lemma {:induction false} ChunkAltersOnlyHeaders(s: AudioState, data: seq<byte>, n: nat, k: nat)
    requires TracksOk(s.tracks) && n * 188 <= |data| && k < n
    ensures var r := RunPackets(s, data, n);
      && OnlyHeaderBitsChanged(Block(data, k), Block(r.data, k))
      && (Block(r.data, k) != Block(data, k) ==>
            Block(data, k)[0] == TS_SYNC_BYTE && TrackIndex(s.tracks, PacketPid(Block(data, k))) < |s.tracks|)
      && r.data[n * 188..] == data[n * 188..]
  {
    hide StepStream, TrackOk, OnlyHeaderBitsChanged, RunPackets;
    RunPacketsNext(s, data, n - 1);
    var before, after := RunPackets(s, data, n - 1), RunPackets(s, data, n);
    var p := Block(before.data, n - 1);
    if k < n - 1 {
      ChunkAltersOnlyHeaders(s, data, n - 1, k);
      assert Block(after.data, k) == Block(before.data, k);
    } else {
      StepAltersOnlyHeader(before.state, p);
      ChunkIsARun(s, data, n - 1);
      AfterKeepsPids(s, Arrivals(data, n - 1));
      SameIndex(s.tracks, before.state.tracks, PacketPid(p));
      assert Block(after.data, n - 1) == StepStream(before.state, p).packet;
    }
  }
}
