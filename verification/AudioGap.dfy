/** The in-place pass over every published chunk: counters renumbered, orphan
    packets nulled, silence inserted (`CSLSMapData::check_audio_gap` and the clear
    branch of `get_audio_gap_stats`, sls-patch/src/core/SLSMapData.cpp). */
module AudioGap {
  import opened Bytes
  import opened GapRule
  import opened AudioFormat
  import opened SilentPacket
  import opened TsInfoRecord

  /** Bytes handed to the publisher ring, in order.  The ring itself never refuses a
      fill: a fill is at most 250 packets and a ring is at least 8 MB. */
  class Ring {
    var written: seq<byte>

    constructor ()
      ensures written == []
    {
      written := [];
    }

    method Put(data: array<byte>)
      modifies this
      ensures written == old(written) + data[..]
    {
      written := written + data[..];
    }
  }

  // ------------------------------------------------------------- one packet

  /** First track with this PID, or the number of tracks. */
  function TrackIndex(tracks: seq<AudioTrack>, pid: int): (r: nat)
    ensures r <= |tracks|
    ensures r < |tracks| ==> tracks[r].pid == pid
    ensures forall j :: 0 <= j < r ==> tracks[j].pid != pid
  {
    if |tracks| == 0 then 0
    else if tracks[0].pid == pid then 0
    else 1 + TrackIndex(tracks[1..], pid)
  }

  /** The PID becomes 0x1FFF; nothing else changes. */
  function Nulled(p: Packet): Packet {
    p[1 := p[1] / 32 * 32 + 0x1F][2 := 0xFF]
  }

  /** Only the low nibble of byte 3 changes. */
  function WithCounter(p: Packet, cc: int): (q: Packet)
    requires 0 <= cc < 16
    ensures Counter(q) == cc
  {
    p[3 := p[3] / 16 * 16 + cc]
  }

  /** Counter a surviving packet receives first. */
  function NextCounter(t: AudioTrack, p: Packet): (cc: int)
    requires TrackOk(t)
    ensures 0 <= cc < 16
  {
    if t.ccInitialized then t.expectedCc else Counter(p)
  }

  function Renumbered(t: AudioTrack, p: Packet): (r: AudioTrack)
    requires TrackOk(t)
    ensures TrackOk(r)
  {
    var cc := NextCounter(t, p);
    t.(inGap := t.inGap && !IsStart(p), ccInitialized := true, cc := cc, expectedCc := (cc + 1) % 16)
  }

  /** What the PES header of a surviving start packet teaches the track. */
  function Listen(t: AudioTrack, p: Packet, h: PesHead): (r: AudioTrack)
    requires TrackOk(t) && 0xC0 <= h.streamId <= 0xDF && h.pos < 175
    ensures TrackOk(r)
    ensures OnlyFormatChanged(t.(streamId := h.streamId), r)
  {
    var t1 := t.(streamId := h.streamId);
    if h.pts.None? || t.formatDetected then t1
    else
      var esOffset := h.pos + 9 + (p[h.pos + 8] as int);
      if esOffset < 188 then
        DetectionKeepsTrack(p[esOffset..], t1);
        DetectFormat(p[esOffset..], t1)
      else t1
  }

  datatype TrackStep = TrackStep(track: AudioTrack, packet: Packet, frames: nat, fill: seq<byte>)

  /** The track's own bookkeeping of an insertion of `n` frames before this PTS. */
  function Credited(t: AudioTrack, pts: Pts, n: nat, cc: int): (r: AudioTrack)
    requires TrackOk(t) && t.lastPts != INVALID_PTS && 0 <= cc < 16
    ensures TrackOk(r)
  {
    t.(expectedCc := (cc + 1) % 16, cc := cc, gapCount := t.gapCount + 1,
       silentFrames := t.silentFrames + n, silentPackets := t.silentPackets + n,
       silentBytes := t.silentBytes + n * 188, lastGapPtsDelta := Forward(t.lastPts, pts),
       lastGapFrames := n, partialPesDropped := 0)
  }

  /** Track `t` has just accepted the PES start `p` with this PTS. */
  function Insert(t: AudioTrack, p: Packet, pts: int): (r: TrackStep)
    requires TrackOk(t) && 0 <= pts < PTS_WRAP
    ensures TrackOk(r.track)
  {
    var n := GapFrames(t, t.lastPts, pts);
    if n == 0 then TrackStep(t.(lastPts := pts), p, 0, [])
    else
      var v := VoiceOf(t);
      var cc := CounterAfter(v, t.expectedCc, n);
      TrackStep(
        Credited(t, pts, n, cc).(lastPts := pts),
        WithCounter(p, cc), n, SilentBlocks(v, GapTimes(t, t.lastPts, pts), t.expectedCc))
  }

  predicate IsOrphan(t: AudioTrack, p: Packet) { t.inGap && !IsStart(p) }

  /** The part of the loop body behind the counter rewrite, for a PES start. */
  function AfterRenumbering(t: AudioTrack, p: Packet): (r: TrackStep)
    requires TrackOk(t)
    ensures TrackOk(r.track)
  {
    if ReadPes(p).None? then TrackStep(t, p, 0, [])
    else
      var h := ReadPes(p).value;
      var t2 := Listen(t, p, h);
      if h.pts.None? then TrackStep(t2, p, 0, []) else Insert(t2, p, h.pts.value)
  }

  /** One packet of track `t`. */
  function StepTrack(t: AudioTrack, p: Packet): (r: TrackStep)
    requires TrackOk(t)
    ensures TrackOk(r.track)
  {
    if IsOrphan(t, p) then
      TrackStep(t.(partialPesDropped := t.partialPesDropped + 1), Nulled(p), 0, [])
    else
      var t1 := Renumbered(t, p);
      var p1 := WithCounter(p, t1.cc);
      if IsStart(p) then AfterRenumbering(t1, p1) else TrackStep(t1, p1, 0, [])
  }

  predicate TracksOk(tracks: seq<AudioTrack>) {
    forall i :: 0 <= i < |tracks| ==> TrackOk(tracks[i])
  }

  datatype StreamStep = StreamStep(state: AudioState, packet: Packet, fill: seq<byte>)

  /** The stream-wide bookkeeping of a step of track `i`. */
  function Recorded(s: AudioState, i: nat, d: TrackStep): (r: AudioState)
    requires i < |s.tracks|
    ensures r.tracks == s.tracks[i := d.track]
  {
    var s1 := s.(tracks := s.tracks[i := d.track]);
    if d.frames == 0 then s1
    else s1.(gapCount := s.gapCount + 1, silentFrames := s.silentFrames + d.frames,
             silentPackets := s.silentPackets + d.frames, silentBytes := s.silentBytes + d.frames * 188)
  }

  /** One packet of the stream: untracked packets pass untouched. */
  function StepStream(s: AudioState, p: Packet): (r: StreamStep)
    requires TracksOk(s.tracks)
    ensures TracksOk(r.state.tracks) && |r.state.tracks| == |s.tracks|
  {
    var i := TrackIndex(s.tracks, PacketPid(p));
    if p[0] != TS_SYNC_BYTE || i == |s.tracks| then StreamStep(s, p, [])
    else
      var d := StepTrack(s.tracks[i], p);
      StreamStep(Recorded(s, i, d), d.packet, d.fill)
  }

  /** A chunk is its complete packets in order; a shorter tail is not looked at. */
  datatype ChunkStep = ChunkStep(state: AudioState, data: seq<byte>, fills: seq<byte>)

  function RunPackets(s: AudioState, data: seq<byte>, n: nat): (r: ChunkStep)
    requires TracksOk(s.tracks) && n * 188 <= |data|
    ensures TracksOk(r.state.tracks) && |r.state.tracks| == |s.tracks| && |r.data| == |data|
    ensures r.data[n * 188..] == data[n * 188..]
  {
    if n == 0 then ChunkStep(s, data, [])
    else
      var r := RunPackets(s, data, n - 1);
      assert r.data[n * 188..] == r.data[(n - 1) * 188..][188..] == data[(n - 1) * 188..][188..];
      var d := StepStream(r.state, Block(data, n - 1));
      ChunkStep(d.state, r.data[..(n - 1) * 188] + d.packet + data[n * 188..], r.fills + d.fill)
  }

  function RunChunk(s: AudioState, data: seq<byte>): (r: ChunkStep)
    requires TracksOk(s.tracks)
    ensures TracksOk(r.state.tracks) && |r.state.tracks| == |s.tracks| && |r.data| == |data|
  {
    RunPackets(s, data, |data| / 188)
  }

  // ----------------------------------------------------------- in-place code

  method FindTrack(ti: TsInfo, pid: int) returns (i: nat)
    ensures i == TrackIndex(ti.tracks, pid)
  {
    i := 0;
    while i < |ti.tracks|
      invariant i <= |ti.tracks|
      invariant TrackIndex(ti.tracks, pid) == i + TrackIndex(ti.tracks[i..], pid)
    {
      if ti.tracks[i].pid == pid {
        return;
      }
      assert ti.tracks[i..][1..] == ti.tracks[i + 1..];
      i := i + 1;
    }
  }

  method CreditTrack(t: AudioTrack, pts: Pts, bytes: nat, cc: int) returns (r: AudioTrack)
    requires TrackOk(t) && t.lastPts != INVALID_PTS && 0 <= cc < 16 && bytes % 188 == 0
    ensures r == Credited(t, pts, bytes / 188, cc)
  {
    var n := bytes / TS_PACK_LEN;
    r := t.(expectedCc := (cc + 1) % 16, cc := cc, gapCount := t.gapCount + 1,
            silentFrames := t.silentFrames + n, silentPackets := t.silentPackets + n,
            silentBytes := t.silentBytes + bytes,
            lastGapPtsDelta := if pts >= t.lastPts then pts - t.lastPts else pts - t.lastPts + PTS_WRAP,
            lastGapFrames := n, partialPesDropped := 0);
  }

  /** The start-packet half of the loop body: insertion bookkeeping. */
  method InsertSilence(data: array<byte>, base: nat, ti: TsInfo, i: nat, pts: int, ring: Ring)
    requires base + 188 <= data.Length && i < |ti.tracks| && TrackOk(ti.tracks[i]) && 0 <= pts < PTS_WRAP
    requires data != ti.tsData
    modifies data, ti`tracks, ti`gapCount, ti`silentFrames, ti`silentPackets, ti`silentBytes, ring
    ensures var d := Insert(old(ti.tracks[i]), old(data[base..base + 188]), pts);
      && ti.Audio() == Recorded(old(ti.Audio()), i, d)
      && data[base..base + 188] == d.packet
      && ring.written == old(ring.written) + d.fill
    ensures forall j :: 0 <= j < data.Length && !(base <= j < base + 188) ==> data[j] == old(data[j])
  {
    hide SilentFrame, SilentBlocks, CounterAfter, FormatOk, GapFrames, GapTimes, VoiceOf, Credited;
    var t := ti.tracks[i];
    ghost var p: Packet := data[base..base + 188];
    var packets, cc := GenerateGapPackets(t, t.lastPts, pts, t.expectedCc);
    if packets.Length > 0 {
      var n := packets.Length / 188;
      ring.Put(packets);
      data[base + 3] := data[base + 3] / 16 * 16 + cc;
      t := CreditTrack(t, pts, packets.Length, cc);
      ti.gapCount := ti.gapCount + 1;
      ti.silentFrames := ti.silentFrames + n;
      ti.silentPackets := ti.silentPackets + n;
      ti.silentBytes := ti.silentBytes + packets.Length;
      assert data[base..base + 188] == WithCounter(p, cc);
    }
    t := t.(lastPts := pts);
    ti.tracks := ti.tracks[i := t];
    assert packets.Length == 0 ==> data[base..base + 188] == p && packets[..] == [];
  }

  /** A packet of track `i` from its PES header on: format detection, then the gap. */
  method HearPesStart(data: array<byte>, base: nat, ti: TsInfo, i: nat, ring: Ring)
    requires base + 188 <= data.Length && i < |ti.tracks| && TrackOk(ti.tracks[i]) && data != ti.tsData
    modifies data, ti`tracks, ti`gapCount, ti`silentFrames, ti`silentPackets, ti`silentBytes, ring
    ensures var d := AfterRenumbering(old(ti.tracks[i]), old(data[base..base + 188]));
      && ti.Audio() == Recorded(old(ti.Audio()), i, d)
      && data[base..base + 188] == d.packet && ring.written == old(ring.written) + d.fill
    ensures forall j :: 0 <= j < data.Length && !(base <= j < base + 188) ==> data[j] == old(data[j])
  {
    hide Insert, Listen, ReadPes, FormatOk, DecodePts;
    assert ring.written + [] == ring.written;
    ghost var t0 := ti.tracks[i];
    assert ti.tracks == ti.tracks[i := t0];
    var packet := data[base..base + 188];
    var head := ReadPes(packet);
    if head.None? {
      return;
    }
    var t := Listen(ti.tracks[i], packet, head.value);
    ti.tracks := ti.tracks[i := t];
    if head.value.pts.None? {
      return;
    }
    InsertSilence(data, base, ti, i, head.value.pts.value, ring);
  }

  /** Everything `check_audio_gap` does to a packet of track `i`. */
  method ProcessTracked(data: array<byte>, base: nat, ti: TsInfo, i: nat, ring: Ring)
    requires base + 188 <= data.Length && i < |ti.tracks| && TrackOk(ti.tracks[i]) && data != ti.tsData
    modifies data, ti`tracks, ti`gapCount, ti`silentFrames, ti`silentPackets, ti`silentBytes, ring
    ensures var d := StepTrack(old(ti.tracks[i]), old(data[base..base + 188]));
      && ti.Audio() == Recorded(old(ti.Audio()), i, d)
      && data[base..base + 188] == d.packet && ring.written == old(ring.written) + d.fill
    ensures forall j :: 0 <= j < data.Length && !(base <= j < base + 188) ==> data[j] == old(data[j])
  {
    hide AfterRenumbering, FormatOk;
    ghost var p: Packet := data[base..base + 188];
    assert p[1] == data[base + 1] && p[2] == data[base + 2] && p[3] == data[base + 3];
    assert ring.written + [] == ring.written;
    var isStart := data[base + 1] / 64 % 2 == 1;
    var t := ti.tracks[i];
    if t.inGap && !isStart {
      data[base + 1] := data[base + 1] / 32 * 32 + 0x1F;
      data[base + 2] := 0xFF;
      ti.tracks := ti.tracks[i := t.(partialPesDropped := t.partialPesDropped + 1)];
      assert data[base..base + 188] == Nulled(p);
      return;
    }
    var cc: int := if t.ccInitialized then t.expectedCc else data[base + 3] % 16;
    t := t.(inGap := t.inGap && !isStart, ccInitialized := true, cc := cc, expectedCc := (cc + 1) % 16);
    assert t == Renumbered(ti.tracks[i], p);
    data[base + 3] := data[base + 3] / 16 * 16 + cc;
    ti.tracks := ti.tracks[i := t];
    assert data[base..base + 188] == WithCounter(p, cc);
    if isStart {
      HearPesStart(data, base, ti, i, ring);
    }
  }

  /** One packet of the stream. */
  method ProcessPacket(data: array<byte>, base: nat, ti: TsInfo, ring: Ring)
    requires base + 188 <= data.Length && TracksOk(ti.tracks) && data != ti.tsData
    modifies data, ti`tracks, ti`gapCount, ti`silentFrames, ti`silentPackets, ti`silentBytes, ring
    ensures var d := StepStream(old(ti.Audio()), old(data[base..base + 188]));
      ti.Audio() == d.state && data[base..base + 188] == d.packet && ring.written == old(ring.written) + d.fill
    ensures forall j :: 0 <= j < data.Length && !(base <= j < base + 188) ==> data[j] == old(data[j])
  {
    hide StepTrack, TrackOk, Recorded;
    ghost var p: Packet := data[base..base + 188];
    assert p[0] == data[base] && p[1] == data[base + 1] && p[2] == data[base + 2];
    assert ring.written + [] == ring.written;
    if data[base] != TS_SYNC_BYTE {
      return;
    }
    var i := FindTrack(ti, (data[base + 1] as int) % 32 * 256 + data[base + 2]);
    if i == |ti.tracks| {
      return;
    }
    ProcessTracked(data, base, ti, i, ring);
  }

  lemma RunPacketsStart(s: AudioState, data: seq<byte>)
    requires TracksOk(s.tracks)
    ensures RunPackets(s, data, 0) == ChunkStep(s, data, [])
  {
  }

  /** One turn of the loop, seen on the whole chunk. */
  lemma RunPacketsNext(s: AudioState, data: seq<byte>, n: nat)
    requires TracksOk(s.tracks) && (n + 1) * 188 <= |data|
    ensures var r := RunPackets(s, data, n);
            && Block(r.data, n) == Block(data, n)
            && (var d := StepStream(r.state, Block(r.data, n));
                RunPackets(s, data, n + 1)
                == ChunkStep(d.state, r.data[..n * 188] + d.packet + r.data[n * 188 + 188..], r.fills + d.fill))
  {
    hide StepStream;
    var r := RunPackets(s, data, n);
    assert r.data[n * 188..][..188] == data[n * 188..][..188];
    assert r.data[n * 188..][188..] == data[n * 188..][188..];
  }

  /** Process the n-th packet of a chunk of `len` bytes. */
  method ProcessNth(data: array<byte>, len: nat, base: nat, ghost n: nat, ti: TsInfo, ring: Ring)
    requires base == n * 188 && (n + 1) * 188 <= len <= data.Length && TracksOk(ti.tracks) && data != ti.tsData
    modifies data, ti`tracks, ti`gapCount, ti`silentFrames, ti`silentPackets, ti`silentBytes, ring
    ensures var was := old(data[..len]); var d := StepStream(old(ti.Audio()), Block(was, n));
      && ti.Audio() == d.state
      && data[..len] == was[..n * 188] + d.packet + was[n * 188 + 188..]
      && ring.written == old(ring.written) + d.fill
    ensures data[len..] == old(data[len..])
  {
    hide StepStream, TrackOk;
    ghost var was := data[..len];
    assert Block(was, n) == data[n * 188..n * 188 + 188];
    ProcessPacket(data, base, ti, ring);
    Spliced(was, data[..len], base, base + 188);
    assert data[..len][base..base + 188] == data[base..base + 188];
  }

  /** `check_audio_gap`: one pass over the complete packets of a chunk. */
  method CheckAudioGap(data: array<byte>, len: nat, ti: TsInfo, ring: Ring)
    requires len <= data.Length && TracksOk(ti.tracks) && data != ti.tsData
    modifies data, ti`tracks, ti`gapCount, ti`silentFrames, ti`silentPackets, ti`silentBytes, ring
    ensures !ti.pmtParsed || |ti.tracks| == 0 ==>
      data[..] == old(data[..]) && ti.Audio() == old(ti.Audio()) && ring.written == old(ring.written)
    ensures ti.pmtParsed && |old(ti.tracks)| > 0 ==>
      var r := RunChunk(old(ti.Audio()), old(data[..len]));
      ti.Audio() == r.state && data[..len] == r.data && ring.written == old(ring.written) + r.fills
    ensures data[len..] == old(data[len..])
  {
    hide StepStream, TrackOk, RunPackets;
    if !ti.pmtParsed || |ti.tracks| == 0 {
      return;
    }
    ghost var s0, d0, w0 := ti.Audio(), data[..len], ring.written;
    var i := 0;
    ghost var n := 0;
    assert w0 + [] == w0;
    RunPacketsStart(s0, d0);
    while i + 188 <= len
      invariant i == n * 188 <= len
      invariant TracksOk(ti.tracks) && ti.Audio() == RunPackets(s0, d0, n).state
      invariant data[..len] == RunPackets(s0, d0, n).data
      invariant ring.written == w0 + RunPackets(s0, d0, n).fills
      invariant data[len..] == old(data[len..])
    {
      RunPacketsNext(s0, d0, n);
      ProcessNth(data, len, i, n, ti, ring);
      n := n + 1;
      i := i + TS_PACK_LEN;
    }
    assert n == len / 188;
  }

  // -------------------------------------------------------------- statistics

  function ClearedTrack(t: AudioTrack): (r: AudioTrack)
    ensures TrackOk(t) ==> TrackOk(r)
  {
    t.(gapCount := 0, silentFrames := 0, silentPackets := 0, silentBytes := 0,
       lastGapPtsDelta := 0, lastGapFrames := 0)
  }

  function Cleared(s: AudioState): (r: AudioState)
    ensures TracksOk(s.tracks) ==> TracksOk(r.tracks)
  {
    AudioState(seq(|s.tracks|, i requires 0 <= i < |s.tracks| => ClearedTrack(s.tracks[i])), 0, 0, 0, 0)
  }

  /** The clear branch of `get_audio_gap_stats`. */
  method ClearAudioGapStats(ti: TsInfo)
    modifies ti`tracks, ti`gapCount, ti`silentFrames, ti`silentPackets, ti`silentBytes
    ensures ti.Audio() == Cleared(old(ti.Audio()))
  {
    ti.gapCount := 0;
    ti.silentFrames := 0;
    ti.silentPackets := 0;
    ti.silentBytes := 0;
    ghost var was := ti.tracks;
    for i := 0 to |ti.tracks|
      invariant |ti.tracks| == |was|
      invariant ti.gapCount == ti.silentFrames == ti.silentPackets == ti.silentBytes == 0
      invariant forall j :: 0 <= j < |was| ==> ti.tracks[j] == if j < i then ClearedTrack(was[j]) else was[j]
    {
      ti.tracks := ti.tracks[i := ClearedTrack(ti.tracks[i])];
    }
    assert ti.tracks == Cleared(old(ti.Audio())).tracks;
  }
}
