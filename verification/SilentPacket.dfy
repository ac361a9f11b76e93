/** Silent MPEG-TS packets and the PES reader that must understand them
    (sls/src/core/SLSAudioGapFiller.cpp `write_pes_pts`, `build_silent_ts_packet`,
    `generate_gap_packets`; the reader is the one inside
    `CSLSMapData::check_audio_gap`, sls-patch/src/core/SLSMapData.cpp). */
module SilentPacket {
  import opened Bytes
  import opened GapRule
  import opened AudioFormat

  type Packet = s: seq<byte> | |s| == 188 witness Fill(188, 0)

  // ------------------------------------------------------------------ layout

  /** The five-byte PTS field of section 2.4.3.7 of ISO/IEC 13818-1. */
  function PtsField(pts: Pts, prefix: int): (f: seq<byte>)
    requires 0 <= prefix < 16
    ensures |f| == 5
  {
    [prefix * 16 + pts / 0x4000_0000 % 8 * 2 + 1,
     pts / 0x40_0000 % 256,
     pts / 0x8000 % 128 * 2 + 1,
     pts / 0x80 % 256,
     pts % 128 * 2 + 1]
  }

  /** The decoder of `check_audio_gap`: three, eight, seven, eight and seven bits. */
  function PtsOf(b0: int, b1: int, b2: int, b3: int, b4: int): int {
    b0 / 2 % 8 * 0x4000_0000 + b1 * 0x40_0000 + b2 / 2 * 0x8000 + b3 * 0x80 + b4 / 2
  }

  function DecodePts(f: seq<byte>): (pts: Pts)
    requires |f| == 5
  {
    PtsOf(f[0], f[1], f[2], f[3], f[4])
  }

  /** Decoding inverts encoding for every 33-bit PTS. */
  lemma PtsRoundTrip(pts: Pts, prefix: int)
    requires 0 <= prefix < 16
    ensures DecodePts(PtsField(pts, prefix)) == pts
  {
    DivDiv(pts, 0x80, 0x100);
    DivDiv(pts, 0x8000, 0x80);
    DivDiv(pts, 0x40_0000, 0x100);
    var q1, q2, q3, q4 := pts / 0x80, pts / 0x8000, pts / 0x40_0000, pts / 0x4000_0000;
    assert q1 / 0x100 == q2 && q2 / 0x80 == q3 && q3 / 0x100 == q4 && q4 % 8 == q4;
    var b0 := prefix * 16 + q4 % 8 * 2 + 1;
    assert b0 / 2 % 8 == q4;
    assert PtsOf(b0, q3 % 256, q2 % 128 * 2 + 1, q1 % 256, pts % 128 * 2 + 1) == pts;
  }

  /** Encoding inverts decoding for every field that carries its marker bits. */
  lemma PtsFieldIsCanonical(f: seq<byte>)
    requires |f| == 5 && f[0] % 2 == 1 && f[2] % 2 == 1 && f[4] % 2 == 1
    ensures PtsField(DecodePts(f), f[0] / 16) == f
  {
    hide PtsOf;
    FieldsOfPts(f[0], f[1], f[2], f[3], f[4]);
    OddByte(f[0]);
    OddByte(f[2]);
    OddByte(f[4]);
  }

  lemma OddByte(b: byte)
    requires b % 2 == 1
    ensures (b as int) / 2 * 2 + 1 == b && (b as int) / 16 * 16 + (b as int) / 2 % 8 * 2 + 1 == b
  {
  }

  lemma FieldsOfPts(b0: int, b1: int, b2: int, b3: int, b4: int)
    requires 0 <= b0 < 256 && 0 <= b1 < 256 && 0 <= b2 < 256 && 0 <= b3 < 256 && 0 <= b4 < 256
    ensures var p := PtsOf(b0, b1, b2, b3, b4);
            && p / 0x4000_0000 == b0 / 2 % 8 && p / 0x40_0000 % 256 == b1 && p / 0x8000 % 128 == b2 / 2
            && p / 0x80 % 256 == b3 && p % 128 == b4 / 2
  {
    var q4 := b0 / 2 % 8;
    var q3 := q4 * 0x100 + b1;
    var q2 := q3 * 0x80 + b2 / 2;
    var q1 := q2 * 0x100 + b3;
    var p := PtsOf(b0, b1, b2, b3, b4);
    assert p == q1 * 0x80 + b4 / 2;
    assert p / 0x80 == q1 && p % 128 == b4 / 2;
    assert q1 / 0x100 == q2 && q1 % 256 == b3;
    assert q2 / 0x80 == q3 && q2 % 128 == b2 / 2;
    assert q3 / 0x100 == q4 && q3 % 256 == b1;
    DivDiv(p, 0x80, 0x100);
    DivDiv(p, 0x8000, 0x80);
    DivDiv(p, 0x40_0000, 0x100);
  }

  /** What a track contributes to its silent packets. */
  datatype Voice = Voice(pid: int, streamId: byte, frame: seq<byte>) {
    predicate Valid() { 0 <= pid < 0x2000 && |frame| <= 188 }

    /** The frame exists and fits behind a 14-byte PES header: packets are built. */
    predicate Buildable() { 0 < |frame| <= 170 }

    function Stuffing(): (n: nat)
      requires Buildable()
    {
      170 - |frame|
    }
  }

  function VoiceOf(t: AudioTrack): (v: Voice)
    requires TrackOk(t) && t.formatDetected
    ensures v.Valid()
  {
    Voice(t.pid, t.streamId, SilentFrame(t))
  }

  function AdaptationField(stuffing: nat): (a: seq<byte>)
    requires stuffing <= 184
    ensures |a| == stuffing
  {
    if stuffing == 0 then []
    else if stuffing == 1 then [0]
    else [stuffing - 1, 0] + Fill(stuffing - 2, 0xFF)
  }

  function TsHeader(pid: int, stuffing: nat, cc: int): (h: seq<byte>)
    requires 0 <= pid < 0x2000 && 0 <= cc < 16
    ensures |h| == 4
  {
    [TS_SYNC_BYTE, 0x40 + pid / 256, pid % 256, (if stuffing > 0 then 0x30 else 0x10) + cc]
  }

  function PesHeader(streamId: byte, frameSize: nat, pts: Pts): (h: seq<byte>)
    requires frameSize <= 188
    ensures |h| == 14
  {
    [0, 0, 1, streamId, (8 + frameSize) / 256, (8 + frameSize) % 256, 0x80, 0x80, 5] + PtsField(pts, 2)
  }

  /** The 188 bytes written for one silent frame; all 0xFF when the frame does not fit. */
  function SilentTs(v: Voice, pts: Pts, cc: int): (p: Packet)
    requires v.Valid() && 0 <= cc < 16
  {
    if !v.Buildable() then Fill(188, 0xFF)
    else TsHeader(v.pid, v.Stuffing(), cc) + AdaptationField(v.Stuffing())
         + PesHeader(v.streamId, |v.frame|, pts) + v.frame
  }

  /** Counter after `n` silent frames: it moves only when packets are really built. */
  function CounterAfter(v: Voice, cc: int, n: nat): (r: int)
    requires 0 <= cc < 16
    ensures 0 <= r < 16
  {
    (cc + if v.Buildable() then n else 0) % 16
  }

  lemma CounterStep(v: Voice, cc: int, n: nat)
    requires 0 <= cc < 16
    ensures CounterAfter(v, CounterAfter(v, cc, n), 1) == CounterAfter(v, cc, n + 1)
  {
  }

  /** One silent packet per PTS, counters running on from `cc`. */
  function SilentBlocks(v: Voice, times: seq<Pts>, cc: int): (s: seq<byte>)
    requires v.Valid() && 0 <= cc < 16
    ensures |s| == |times| * 188
  {
    if |times| == 0 then []
    else
      var n := |times| - 1;
      SilentBlocks(v, times[..n], cc) + SilentTs(v, times[n], CounterAfter(v, cc, n))
  }

  /** Number of silent frames `generate_gap_packets` produces, including its guards. */
  function GapFrames(t: AudioTrack, last: int, current: int): (n: nat)
    requires -1 <= last < PTS_WRAP && -1 <= current < PTS_WRAP
    ensures n > 0 ==> last != INVALID_PTS && t.formatDetected
  {
    if last == INVALID_PTS || current == INVALID_PTS || !t.formatDetected || t.sampleRate <= 0
       || !IsSupported(t.streamType)
    then 0
    else FillCount(Forward(last, current), FrameDuration(t.sampleRate, t.streamType))
  }

  function GapTimes(t: AudioTrack, last: int, current: int): (s: seq<Pts>)
    requires 0 <= last < PTS_WRAP && -1 <= current < PTS_WRAP
    ensures |s| == GapFrames(t, last, current)
  {
    FillTimes(last, FrameDuration(t.sampleRate, t.streamType), GapFrames(t, last, current))
  }

  // ----------------------------------------------------------- in-place code

  /** `write_pes_pts`: five bytes at `pos`. */
  method WritePesPts(buf: array<byte>, pos: nat, pts: Pts, prefix: int)
    requires pos + 5 <= buf.Length && 0 <= prefix < 16
    modifies buf
    ensures forall j :: 0 <= j < buf.Length ==>
      buf[j] == if pos <= j < pos + 5 then PtsField(pts, prefix)[j - pos] else old(buf[j])
  {
    buf[pos] := prefix * 16 + pts / 0x4000_0000 % 8 * 2 + 1;
    buf[pos + 1] := pts / 0x40_0000 % 256;
    buf[pos + 2] := pts / 0x8000 % 128 * 2 + 1;
    buf[pos + 3] := pts / 0x80 % 256;
    buf[pos + 4] := pts % 128 * 2 + 1;
  }

  method WriteTsHeader(buf: array<byte>, base: nat, pid: int, stuffing: nat, cc: int)
    requires 0 <= pid < 0x2000 && 0 <= cc < 16
    requires base + 4 <= buf.Length
    modifies buf
    ensures buf[base..base + 4] == TsHeader(pid, stuffing, cc)
    ensures forall j :: 0 <= j < buf.Length && !(base <= j < base + 4) ==> buf[j] == old(buf[j])
  {
    buf[base] := TS_SYNC_BYTE;
    buf[base + 1] := 0x40 + pid / 256;
    buf[base + 2] := pid % 256;
    if stuffing > 0 {
      buf[base + 3] := 0x30 + cc;
    } else {
      buf[base + 3] := 0x10 + cc;
    }
  }

  /** The adaptation field that pads the packet: only its length and flag bytes are
      written, the stuffing bytes are already in place from the initial fill. */
  method WriteAdaptation(buf: array<byte>, start: nat, stuffing: nat) returns (pos: nat)
    requires stuffing <= 184 && start + stuffing <= buf.Length
    requires forall j :: start <= j < start + stuffing ==> buf[j] == 0xFF
    modifies buf
    ensures pos == start + stuffing
    ensures buf[start..pos] == AdaptationField(stuffing)
    ensures forall j :: 0 <= j < buf.Length && !(start <= j < pos) ==> buf[j] == old(buf[j])
  {
    pos := start;
    if stuffing > 0 {
      buf[pos] := stuffing - 1;
      pos := pos + 1;
      if stuffing > 1 {
        buf[pos] := 0x00;
        pos := pos + 1;
        pos := pos + (stuffing - 2);
      }
    }
  }

  /** The PES header and the frame behind it. */
  method WritePes(buf: array<byte>, start: nat, streamId: byte, pts: Pts, frame: seq<byte>)
    requires |frame| <= 170 && start + 14 + |frame| <= buf.Length
    modifies buf
    ensures buf[start..start + 14] == PesHeader(streamId, |frame|, pts)
    ensures buf[start + 14..start + 14 + |frame|] == frame
    ensures forall j :: 0 <= j < buf.Length && !(start <= j < start + 14 + |frame|) ==> buf[j] == old(buf[j])
  {
    var remaining := 3 + 5 + |frame|;
    var head: seq<byte> := [0, 0, 1, streamId, remaining / 256, remaining % 256, 0x80, 0x80, 5];
    Store(buf, start, head);
    WritePesPts(buf, start + 9, pts, 2);
    Store(buf, start + 14, frame);
    assert buf[start..start + 9] == head;
    assert buf[start + 9..start + 14] == PtsField(pts, 2);
    assert buf[start..start + 14] == buf[start..start + 9] + buf[start + 9..start + 14];
  }

  lemma JoinFour(s: seq<byte>, a: nat, b: nat, c: nat, d: nat, e: nat)
    requires a <= b <= c <= d <= e <= |s|
    ensures s[a..e] == s[a..b] + s[b..c] + s[c..d] + s[d..e]
  {
    assert s[a..c] == s[a..b] + s[b..c];
    assert s[a..d] == s[a..c] + s[c..d];
    assert s[a..e] == s[a..d] + s[d..e];
  }

  /** The second half of `build_silent_ts_packet`, once the frame exists. */
  method WritePacket(buf: array<byte>, base: nat, v: Voice, pts: Pts, cc: int) returns (cc': int)
    requires v.Valid() && 0 <= cc < 16
    requires base + 188 <= buf.Length
    modifies buf
    ensures buf[base..base + 188] == SilentTs(v, pts, cc)
    ensures forall j :: 0 <= j < buf.Length && !(base <= j < base + 188) ==> buf[j] == old(buf[j])
    ensures cc' == CounterAfter(v, cc, 1)
  {
    hide TsHeader, PesHeader, AdaptationField, Fill;
    cc' := cc;
    Store(buf, base, Fill(188, 0xFF));
    if |v.frame| == 0 {
      return;
    }
    var stuffing := 184 - (14 + |v.frame|);
    if stuffing < 0 {
      return;
    }
    WriteTsHeader(buf, base, v.pid, stuffing, cc);
    ghost var header := buf[base..base + 4];
    var pos := WriteAdaptation(buf, base + 4, stuffing);
    ghost var stuffed := buf[base + 4..pos];
    cc' := (cc + 1) % 16;
    WritePes(buf, pos, v.streamId, pts, v.frame);
    assert buf[base..base + 4] == header && buf[base + 4..pos] == stuffed;
    JoinFour(buf[..], base, base + 4, pos, pos + 14, base + 188);
  }

  /** `build_silent_ts_packet`: fills the 188 bytes at `base` and advances the counter. */
  method BuildSilentTsPacket(buf: array<byte>, base: nat, t: AudioTrack, pts: Pts, cc: int) returns (cc': int)
    requires TrackOk(t) && t.formatDetected && 0 <= cc < 16
    requires base + 188 <= buf.Length
    modifies buf
    ensures buf[base..base + 188] == SilentTs(VoiceOf(t), pts, cc)
    ensures forall j :: 0 <= j < buf.Length && !(base <= j < base + 188) ==> buf[j] == old(buf[j])
    ensures cc' == CounterAfter(VoiceOf(t), cc, 1)
  {
    var frame := SilentFrame(t);
    cc' := WritePacket(buf, base, Voice(t.pid, t.streamId, frame), pts, cc);
  }

  lemma SilentBlocksStart(v: Voice, times: seq<Pts>, cc: int)
    requires v.Valid() && 0 <= cc < 16
    ensures SilentBlocks(v, times[..0], cc) == [] && CounterAfter(v, cc, 0) == cc
  {
  }

  lemma SilentBlocksStep(v: Voice, times: seq<Pts>, cc: int, i: nat)
    requires v.Valid() && 0 <= cc < 16 && i < |times|
    ensures SilentBlocks(v, times[..i + 1], cc)
      == SilentBlocks(v, times[..i], cc) + SilentTs(v, times[i], CounterAfter(v, cc, i))
  {
    hide SilentTs;
    assert times[..i + 1][..i] == times[..i];
  }

  /** One turn of the loop of `generate_gap_packets`: the i-th block, written in place. */
  method FillBlock(result: array<byte>, i: nat, t: AudioTrack, pts: Pts, cc: int) returns (cc': int)
    requires TrackOk(t) && t.formatDetected && 0 <= cc < 16
    requires (i + 1) * 188 <= result.Length
    modifies result
    ensures result[..(i + 1) * 188] == old(result[..i * 188]) + SilentTs(VoiceOf(t), pts, cc)
    ensures cc' == CounterAfter(VoiceOf(t), cc, 1)
  {
    hide SilentTs, SilentFrame, TrackOk, VoiceOf, CounterAfter;
    ghost var done := result[..i * 188];
    cc' := BuildSilentTsPacket(result, i * 188, t, pts, cc);
    assert result[..i * 188] == done;
    assert result[..(i + 1) * 188] == done + result[i * 188..i * 188 + 188];
  }

  /** The loop of `generate_gap_packets`. */
  method FillBlocks(t: AudioTrack, last: Pts, frame: int, cc: int, frames: nat)
    returns (result: array<byte>, cc': int)
    requires TrackOk(t) && t.formatDetected && 0 <= cc < 16
    ensures fresh(result) && result.Length == frames * 188
    ensures result[..] == SilentBlocks(VoiceOf(t), FillTimes(last, frame, frames), cc)
    ensures cc' == CounterAfter(VoiceOf(t), cc, frames)
  {
    hide SilentTs, SilentFrame, FillPts, FormatOk, TrackOk, VoiceOf, SilentBlocks;
    cc' := cc;
    result := new byte[frames * 188];
    ghost var v := VoiceOf(t);
    ghost var times := FillTimes(last, frame, frames);
    SilentBlocksStart(v, times, cc);
    for i := 0 to frames
      invariant cc' == CounterAfter(v, cc, i)
      invariant result[..i * 188] == SilentBlocks(v, times[..i], cc)
    {
      SilentBlocksStep(v, times, cc, i);
      CounterStep(v, cc, i);
      cc' := FillBlock(result, i, t, FillPts(last, frame, i), cc');
    }
    assert result[..] == result[..frames * 188];
    assert times[..frames] == times;
  }

  /** `generate_gap_packets`: one silent packet per missing frame, counters in sequence. */
  method GenerateGapPackets(t: AudioTrack, last: int, current: int, cc: int)
    returns (result: array<byte>, cc': int)
    requires TrackOk(t) && 0 <= cc < 16
    requires -1 <= last < PTS_WRAP && -1 <= current < PTS_WRAP
    ensures fresh(result)
    ensures result.Length == GapFrames(t, last, current) * 188
    ensures GapFrames(t, last, current) == 0 ==> cc' == cc
    ensures GapFrames(t, last, current) > 0 ==>
      && result[..] == SilentBlocks(VoiceOf(t), GapTimes(t, last, current), cc)
      && cc' == CounterAfter(VoiceOf(t), cc, GapFrames(t, last, current))
  {
    cc' := cc;
    result := new byte[0];
    if last == INVALID_PTS || current == INVALID_PTS {
      return;
    }
    if !t.formatDetected || t.sampleRate <= 0 {
      return;
    }
    if !IsSupported(t.streamType) {
      return;
    }
    var frame := FrameDuration(t.sampleRate, t.streamType);
    if frame <= 0 {
      return;
    }
    var delta := current - last;
    if delta < 0 {
      delta := delta + PTS_WRAP;
    }
    if delta > MAX_PTS_GAP || delta <= frame {
      return;
    }
    var frames := RoundedQuotient(delta, frame) - 1;
    if frames <= 0 {
      return;
    }
    if frames > MAX_GAP_FRAMES {
      frames := MAX_GAP_FRAMES;
    }
    assert frames == GapFrames(t, last, current);
    result, cc' := FillBlocks(t, last, frame, cc, frames);
  }

  // ------------------------------------------------------------------ reader

  function PacketPid(p: Packet): (pid: int)
    ensures 0 <= pid < 0x2000
  {
    (p[1] as int) % 32 * 256 + p[2]
  }

  /** payload_unit_start_indicator. */
  predicate IsStart(p: Packet) { p[1] / 64 % 2 == 1 }

  function Counter(p: Packet): (cc: int)
    ensures 0 <= cc < 16
  {
    p[3] % 16
  }

  /** Offset of the payload: an adaptation field is skipped by its length byte. */
  function PayloadOffset(p: Packet): (pos: nat)
    ensures 4 <= pos <= 260
  {
    if p[3] / 16 % 4 / 2 == 1 then 5 + (p[4] as int) else 4
  }

  datatype PesHead = PesHead(pos: nat, streamId: byte, pts: Option<int>)

  /** The audio PES header at the start of the payload, if there is one. */
  function ReadPes(p: Packet): (r: Option<PesHead>)
    ensures r.Some? ==> 4 <= r.value.pos < 175 && 0xC0 <= r.value.streamId <= 0xDF
    ensures r.Some? && r.value.pts.Some? ==> 0 <= r.value.pts.value < PTS_WRAP
  {
    var pos := PayloadOffset(p);
    if pos + 13 >= 188 then None
    else if p[pos] != 0 || p[pos + 1] != 0 || p[pos + 2] != 1 then None
    else if p[pos + 3] < 0xC0 || p[pos + 3] > 0xDF then None
    else if p[pos + 7] / 128 == 0 then Some(PesHead(pos, p[pos + 3], None))
    else Some(PesHead(pos, p[pos + 3], Some(DecodePts(p[pos + 9..pos + 14]))))
  }

  // -------------------------------------------------------------- round trip

  /** Where each part of a built packet lies. */
  lemma SilentTsLayout(v: Voice, pts: Pts, cc: int)
    requires v.Valid() && v.Buildable() && 0 <= cc < 16
    ensures var p := SilentTs(v, pts, cc);
            var pos := 4 + v.Stuffing();
            && p[..4] == TsHeader(v.pid, v.Stuffing(), cc)
            && p[4..pos] == AdaptationField(v.Stuffing())
            && p[pos..pos + 14] == PesHeader(v.streamId, |v.frame|, pts)
            && p[pos + 14..] == v.frame
            && PayloadOffset(p) == pos
  {
    var p := SilentTs(v, pts, cc);
    var h, a := TsHeader(v.pid, v.Stuffing(), cc), AdaptationField(v.Stuffing());
    assert p[..4] == h;
    assert p[3] == h[3];
    if v.Stuffing() > 0 {
      assert p[4] == a[0];
    }
  }

  /** Lengths agree: the adaptation field ends where the PES packet starts, and the
      PES packet, by its own length field, ends exactly at byte 188. */
  lemma SilentTsLengthsAgree(v: Voice, pts: Pts, cc: int)
    requires v.Valid() && v.Buildable() && 0 <= cc < 16
    ensures var p := SilentTs(v, pts, cc); var pos := PayloadOffset(p);
            pos + 14 <= 188 && pos + 6 + ((p[pos + 4] as int) * 256 + p[pos + 5]) == 188 && p[pos + 8] == 5
  {
    SilentTsLayout(v, pts, cc);
    var p := SilentTs(v, pts, cc);
    var pos := 4 + v.Stuffing();
    var head := p[pos..pos + 14];
    assert head[4] == p[pos + 4] && head[5] == p[pos + 5] && head[8] == p[pos + 8];
  }

  /** The stream parser reads back from a built packet what went into it: PID,
      counter, stream id, the full 33-bit PTS, and the frame itself. */
  lemma SilentTsRoundTrip(v: Voice, pts: Pts, cc: int)
    requires v.Valid() && v.Buildable() && 0 <= cc < 16 && 0xC0 <= v.streamId <= 0xDF
    ensures var p := SilentTs(v, pts, cc);
            && p[0] == TS_SYNC_BYTE && IsStart(p) && PacketPid(p) == v.pid && Counter(p) == cc
            && ReadPes(p) == Some(PesHead(4 + v.Stuffing(), v.streamId, Some(pts)))
            && p[PayloadOffset(p) + 14..] == v.frame
  {
    SilentTsLayout(v, pts, cc);
    var p := SilentTs(v, pts, cc);
    HeaderReadsBack(p, v.pid, v.Stuffing(), cc);
    PesReadsBack(p, 4 + v.Stuffing(), v.streamId, |v.frame|, pts);
  }

  /** What a demultiplexer looks at besides: the payload bit is set and the adaptation bit
      exactly when there is stuffing, whose length, flags and 0xFF bytes are as section
      2.4.3.4 of ISO/IEC 13818-1 asks; start without error or priority, not scrambled; the
      PES header carries its marker bits, a PTS and no other field. */
  lemma SilentTsHeaderBits(v: Voice, pts: Pts, cc: int)
    requires v.Valid() && v.Buildable() && 0 <= cc < 16
    ensures var p := SilentTs(v, pts, cc); var n := v.Stuffing(); var pos := 4 + n;
      && p[1] / 32 == 2 && p[3] / 64 == 0 && p[3] / 16 % 2 == 1 && (p[3] / 32 % 2 == 1 <==> n > 0)
      && (n > 0 ==> p[4] == n - 1) && (n > 1 ==> p[5] == 0) && (forall k :: 6 <= k < pos ==> p[k] == 0xFF)
      && p[pos + 6] / 64 == 2 && p[pos + 6] % 64 == 0 && p[pos + 7] / 64 == 2 && p[pos + 7] % 64 == 0
      && p[pos + 9] / 16 == 2 && p[pos + 9] % 2 == 1 && p[pos + 11] % 2 == 1 && p[pos + 13] % 2 == 1
  {
    var p, n, pos := SilentTs(v, pts, cc), v.Stuffing(), 4 + v.Stuffing();
    SilentTsLayout(v, pts, cc);
    TsHeaderBits(v.pid, n, cc);
    assert p[1] == p[..4][1] && p[3] == p[..4][3];
    forall k | 4 <= k < pos
      ensures p[k] == AdaptationField(n)[k - 4]
    {
      assert p[k] == p[4..pos][k - 4];
    }
    PesHeaderBits(v.streamId, |v.frame|, pts);
    forall k | 0 <= k < 14
      ensures p[pos + k] == PesHeader(v.streamId, |v.frame|, pts)[k]
    {
      assert p[pos + k] == p[pos..pos + 14][k];
    }
  }

  lemma TsHeaderBits(pid: int, stuffing: nat, cc: int)
    requires 0 <= pid < 0x2000 && 0 <= cc < 16
    ensures var h := TsHeader(pid, stuffing, cc);
      h[1] / 32 == 2 && h[3] / 64 == 0 && h[3] / 16 % 2 == 1 && (h[3] / 32 % 2 == 1 <==> stuffing > 0)
  {
  }

  lemma PesHeaderBits(streamId: byte, frameSize: nat, pts: Pts)
    requires frameSize <= 188
    ensures var h := PesHeader(streamId, frameSize, pts);
      && h[6] == 0x80 && h[7] == 0x80
      && h[9] / 16 == 2 && h[9] % 2 == 1 && h[11] % 2 == 1 && h[13] % 2 == 1
  {
    var h := PesHeader(streamId, frameSize, pts);
    var f := PtsField(pts, 2);
    assert h[9] == f[0] && h[11] == f[2] && h[13] == f[4];
    var a, b, c: int := pts / 0x4000_0000 % 8, pts / 0x8000 % 128, pts % 128;
    assert (2 * 16 + a * 2 + 1) / 16 == 2 && (2 * 16 + a * 2 + 1) % 2 == 1;
    assert (b * 2 + 1) % 2 == 1 && (c * 2 + 1) % 2 == 1;
  }

  lemma HeaderReadsBack(p: Packet, pid: int, stuffing: nat, cc: int)
    requires 0 <= pid < 0x2000 && 0 <= cc < 16
    requires p[..4] == TsHeader(pid, stuffing, cc)
    ensures p[0] == TS_SYNC_BYTE && IsStart(p) && PacketPid(p) == pid && Counter(p) == cc
  {
    var h := TsHeader(pid, stuffing, cc);
    assert p[0] == h[0] && p[1] == h[1] && p[2] == h[2] && p[3] == h[3] by {
      assert p[0] == p[..4][0] && p[1] == p[..4][1] && p[2] == p[..4][2] && p[3] == p[..4][3];
    }
    var b1: int := 0x40 + pid / 256;
    assert b1 / 64 % 2 == 1 && b1 % 32 == pid / 256;
  }

  lemma PesReadsBack(p: Packet, pos: nat, streamId: byte, frameSize: nat, pts: Pts)
    requires PayloadOffset(p) == pos && pos + 14 <= 188 && frameSize <= 188
    requires 0xC0 <= streamId <= 0xDF
    requires p[pos..pos + 14] == PesHeader(streamId, frameSize, pts)
    ensures ReadPes(p) == Some(PesHead(pos, streamId, Some(pts)))
  {
    var head := p[pos..pos + 14];
    assert head[9..] == PtsField(pts, 2) by {
      assert head[9..] == PesHeader(streamId, frameSize, pts)[9..];
    }
    assert p[pos] == head[0] == 0 && p[pos + 1] == head[1] == 0 && p[pos + 2] == head[2] == 1;
    assert p[pos + 3] == head[3] == streamId && p[pos + 7] == head[7] == 0x80;
    assert p[pos + 9..pos + 14] == head[9..];
    PtsRoundTrip(pts, 2);
  }

  /** The nine fixed bytes of a PES header by the fields the parsers look at: a start code
      prefix of 24 bits, the stream id, the two timestamp flags. */
  function PesFixed(prefix: int, streamId: byte, length: int, mark: byte, times: int, flags: int, size: byte)
    : (h: seq<byte>)
    requires 0 <= prefix < 0x100_0000 && 0 <= length < 0x1_0000 && 0 <= times < 4 && 0 <= flags < 64
    ensures |h| == 9
  {
    [prefix / 0x1_0000, prefix / 0x100 % 0x100, prefix % 0x100, streamId, length / 0x100, length % 0x100, mark,
     times * 64 + flags, size]
  }

  /** A start packet with `n` bytes of adaptation field and any PES header behind it, a PTS
      field behind that, cut at the end of the packet. */
  function PesPacket(pid: int, n: nat, cc: int, fixed: seq<byte>, pts: Pts, nibble: int, tail: seq<byte>): (p: Packet)
    requires 0 <= pid < 0x2000 && 0 <= cc < 16 && n <= 184 && 0 <= nibble < 16 && |fixed| == 9 && |tail| == 170
  {
    (TsHeader(pid, n, cc) + AdaptationField(n) + fixed + PtsField(pts, nibble) + tail)[..188]
  }

  /** Which PES headers the gap checker reads: a prefix of one, an audio stream id (0xC0 to
      0xDF) and fourteen bytes in the packet; the PTS is told if its flag is set. */
  lemma AudioPesReadExactlyWhen(pid: int, n: nat, cc: int, prefix: int, streamId: byte, length: int, mark: byte,
                                times: int, flags: int, size: byte, pts: Pts, nibble: int, tail: seq<byte>)
    requires 0 <= pid < 0x2000 && 0 <= cc < 16 && n <= 184 && 0 <= nibble < 16 && |tail| == 170
    requires 0 <= prefix < 0x100_0000 && 0 <= length < 0x1_0000 && 0 <= times < 4 && 0 <= flags < 64
    ensures ReadPes(PesPacket(pid, n, cc, PesFixed(prefix, streamId, length, mark, times, flags, size), pts, nibble, tail))
      == if prefix == 1 && 0xC0 <= streamId <= 0xDF && n <= 170
         then Some(PesHead(4 + n, streamId, if times >= 2 then Some(pts) else None))
         else None
  {
    hide PtsField, DecodePts;
    var fixed, field := PesFixed(prefix, streamId, length, mark, times, flags, size), PtsField(pts, nibble);
    var p := PesPacket(pid, n, cc, fixed, pts, nibble, tail);
    var h, a := TsHeader(pid, n, cc), AdaptationField(n);
    assert p[3] == h[3] && (n > 0 ==> p[4] == a[0]);
    assert PayloadOffset(p) == 4 + n;
    PrefixIs(prefix);
    TwoParts(times, flags, 64);
    if n <= 170 {
      assert forall k :: 0 <= k < 9 ==> p[4 + n + k] == fixed[k];
      assert forall k :: 0 <= k < 5 ==> p[13 + n + k] == field[k];
      assert p[13 + n..18 + n] == field;
      PtsRoundTrip(pts, nibble);
    }
  }

  lemma PrefixIs(prefix: int)
    requires 0 <= prefix < 0x100_0000
    ensures prefix / 0x1_0000 == 0 && prefix / 0x100 % 0x100 == 0 && prefix % 0x100 == 1 <==> prefix == 1
  {
  }

  /** Opus, AAC and MPEG-1 MP3 are always built; MPEG-2 and MPEG-2.5 MP3 never are. */
  lemma BuiltExactlyWhen(t: AudioTrack)
    requires TrackOk(t) && t.formatDetected
    ensures VoiceOf(t).Buildable() <==> !(IsMp3(t.streamType) && t.profile != 3)
  {
    if IsMp3(t.streamType) {
      Mp3FrameFitsExactlyWhenMpeg1(t);
    }
  }

  /** An unbuildable frame leaves 188 bytes of 0xFF, which no TS reader takes for a
      packet, and does not move the counter. */
  lemma UnbuiltLeavesNoTrace(v: Voice, pts: Pts, cc: int)
    requires v.Valid() && 0 <= cc < 16
    ensures !v.Buildable() <==> SilentTs(v, pts, cc)[0] != TS_SYNC_BYTE
    ensures !v.Buildable() ==> SilentTs(v, pts, cc) == Fill(188, 0xFF) && CounterAfter(v, cc, 1) == cc
  {
    if v.Buildable() {
      SilentTsLayout(v, pts, cc);
      assert SilentTs(v, pts, cc)[0] == SilentTs(v, pts, cc)[..4][0];
    }
  }

  /** The i-th block of a fill. */
  function Block(s: seq<byte>, i: nat): (p: Packet)
    requires (i + 1) * 188 <= |s|
  {
    s[i * 188..i * 188 + 188]
  }

  lemma BlockOfConcat(a: seq<byte>, b: seq<byte>, n: nat, i: nat)
    requires |a| == n * 188 && |b| == 188 && i <= n
    ensures Block(a + b, i) == if i < n then Block(a, i) else b
  {
  }

  /** Blocks of a fill are the silent packets in order, with consecutive counters. */
  lemma {:induction false} BlockAt(v: Voice, times: seq<Pts>, cc: int, i: nat)
    requires v.Valid() && 0 <= cc < 16 && i < |times|
    ensures Block(SilentBlocks(v, times, cc), i) == SilentTs(v, times[i], CounterAfter(v, cc, i))
  {
    var n := |times| - 1;
    var init := SilentBlocks(v, times[..n], cc);
    BlockOfConcat(init, SilentTs(v, times[n], CounterAfter(v, cc, n)), n, i);
    if i < n {
      BlockAt(v, times[..n], cc, i);
    }
  }

  /** Reading a fill back: every inserted packet carries its PTS and its counter. */
  lemma FillReadsBack(v: Voice, times: seq<Pts>, cc: int, i: nat)
    requires v.Valid() && v.Buildable() && 0xC0 <= v.streamId <= 0xDF && 0 <= cc < 16 && i < |times|
    ensures var p := Block(SilentBlocks(v, times, cc), i);
            && p[0] == TS_SYNC_BYTE && IsStart(p) && PacketPid(p) == v.pid && Counter(p) == (cc + i) % 16
            && ReadPes(p) == Some(PesHead(4 + v.Stuffing(), v.streamId, Some(times[i])))
  {
    hide SilentTs, SilentBlocks, ReadPes;
    BlockAt(v, times, cc, i);
    SilentTsRoundTrip(v, times[i], CounterAfter(v, cc, i));
  }

  /** Gap filling closes the gap for the parser too: the PTS values read back from
      the inserted packets are the filled timeline. */
  lemma FillIsTheTimeline(t: AudioTrack, last: Pts, current: Pts, cc: int, i: nat)
    requires TrackOk(t) && t.formatDetected && VoiceOf(t).Buildable() && 0 <= cc < 16
    requires i < GapFrames(t, last, current)
    ensures var p := Block(SilentBlocks(VoiceOf(t), GapTimes(t, last, current), cc), i);
            var s := FilledTimeline(last, current, FrameDuration(t.sampleRate, t.streamType));
            ReadPes(p).Some? && ReadPes(p).value.pts == Some(s[i + 1])
  {
    FillReadsBack(VoiceOf(t), GapTimes(t, last, current), cc, i);
  }

  /** Filling again between any two neighbours of the filled timeline, from the last PTS
      heard to the current one, inserts nothing if and only if the cap had not cut the
      fill short. */
  lemma FilledStreamNeedsNoFilling(t: AudioTrack, last: Pts, current: Pts)
    requires TrackOk(t) && GapFrames(t, last, current) > 0
    ensures var s := FilledTimeline(last, current, FrameDuration(t.sampleRate, t.streamType));
            (forall k :: 0 <= k < |s| - 1 ==> GapFrames(t, s[k], s[k + 1]) == 0)
            <==> !CapBinds(Forward(last, current), FrameDuration(t.sampleRate, t.streamType))
  {
    var frame := FrameDuration(t.sampleRate, t.streamType);
    var s := FilledTimeline(last, current, frame);
    forall k | 0 <= k < |s| - 1
      ensures GapFrames(t, s[k], s[k + 1]) == FillCount(Forward(s[k], s[k + 1]), frame)
    {
    }
    FillingIsIdempotent(last, current, frame);
  }
}
