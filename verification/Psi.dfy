/** Program tables (`sls_parse_pat`, `sls_parse_pmt_for_audio`,
    sls-patch/src/core/common.cpp), against sections 2.4.4.3 and 2.4.4.8 of
    ISO/IEC 13818-1. */
module Psi {
  import opened Bytes
  import opened AudioFormat
  import opened TsInfoRecord

  /** A 12- or 13-bit field: the low bits of one byte, then a whole byte. */
  function Field(hi: byte, lo: byte, bits: nat): (n: nat)
    requires bits in {16, 32}
    ensures n < bits * 256
  {
    (hi as int) % bits * 256 + lo
  }

  // -------------------------------------------------------------------- PAT

  datatype Program = Program(number: nat, pid: nat)

  function SectionLength(buf: seq<byte>): nat
    requires |buf| >= 3
  {
    Field(buf[1], buf[2], 16)
  }

  /** The k-th program entry. */
  function ProgramAt(buf: seq<byte>, k: nat): (p: Program)
    requires 12 + 4 * k <= |buf|
  {
    Program((buf[8 + 4 * k] as int) * 256 + buf[9 + 4 * k], Field(buf[10 + 4 * k], buf[11 + 4 * k], 32))
  }

  /** Bound of the entry loop: the declared length, clamped to the buffer. */
  function ProgramEnd(buf: seq<byte>): int
    requires |buf| >= 8
  {
    if SectionLength(buf) - 12 > |buf| - 11 then |buf| - 11 else SectionLength(buf) - 12
  }

  /** Number of entries the loop visits. */
  function Visited(buf: seq<byte>): (n: nat)
    requires |buf| >= 8
    ensures n > 0 ==> 12 + 4 * (n - 1) <= |buf|
  {
    if ProgramEnd(buf) <= 0 then 0 else (ProgramEnd(buf) + 3) / 4
  }

  /** PID of the last real program among the first `n` entries; network entries
      (number 0) do not count. */
  function LastProgramPid(buf: seq<byte>, n: nat, default: int): int
    requires n > 0 ==> 12 + 4 * (n - 1) <= |buf|
  {
    if n == 0 then default
    else if ProgramAt(buf, n - 1).number != 0 then ProgramAt(buf, n - 1).pid
    else LastProgramPid(buf, n - 1, default)
  }

  /** `sls_parse_pat`. */
  method ParsePat(buf: seq<byte>, ti: TsInfo) returns (ok: bool)
    modifies ti`pmtPid
    ensures ok == (|buf| >= 8)
    ensures ti.pmtPid == if ok then LastProgramPid(buf, Visited(buf), old(ti.pmtPid)) else old(ti.pmtPid)
  {
    if |buf| < 8 {
      return false;
    }
    var sectionLength := (buf[1] as int) % 16 * 256 + buf[2];
    var progEnd := sectionLength - 12;
    if progEnd > |buf| - 11 {
      progEnd := |buf| - 11;
    }
    var n := 0;
    ghost var k := 0;
    while n < progEnd
      invariant n == 4 * k && k <= Visited(buf) && (k < Visited(buf) <==> n < progEnd)
      invariant k > 0 ==> 12 + 4 * (k - 1) <= |buf|
      invariant ti.pmtPid == LastProgramPid(buf, k, old(ti.pmtPid))
    {
      var number := (buf[8 + n] as int) * 256 + buf[9 + n];
      if number != 0 {
        ti.pmtPid := (buf[10 + n] as int) % 32 * 256 + buf[11 + n];
      }
      n := n + 4;
      k := k + 1;
    }
    ok := true;
  }

  /** A PAT section with `n` programs: five header bytes, the entries and a CRC after
      the length field, all inside the buffer. */
  predicate IsPat(buf: seq<byte>, n: nat) {
    |buf| >= 8 && SectionLength(buf) == 9 + 4 * n && 3 + SectionLength(buf) <= |buf|
  }

  /** For every well-formed PAT the loop visits exactly its (section_length - 9) / 4
      entries, and the last byte it reads lies right before the CRC. */
  lemma PatVisitsExactlyItsPrograms(buf: seq<byte>, n: nat)
    requires IsPat(buf, n)
    ensures Visited(buf) == n == (SectionLength(buf) - 9) / 4
    ensures n > 0 ==> 8 + 4 * (n - 1) + 3 == 3 + SectionLength(buf) - 4 - 1
  {
  }

  /** Encoding of one program entry. */
  function ProgramBytes(p: Program): (b: seq<byte>)
    requires p.number < 0x1_0000 && p.pid < 0x2000
    ensures |b| == 4
  {
    [p.number / 256, p.number % 256, 0xE0 + p.pid / 256, p.pid % 256]
  }

  /** The PMT PID a program list announces. */
  function Announced(programs: seq<Program>, default: int): int {
    if |programs| == 0 then default
    else
      var last := programs[|programs| - 1];
      if last.number != 0 then last.pid else Announced(programs[..|programs| - 1], default)
  }

  /** Parsing a PAT that lists these programs finds what the list announces. */
  lemma {:induction false} PatReadsBack(buf: seq<byte>, programs: seq<Program>, default: int)
    requires forall k :: 0 <= k < |programs| ==>
      programs[k].number < 0x1_0000 && programs[k].pid < 0x2000 && 12 + 4 * k <= |buf|
      && buf[8 + 4 * k..12 + 4 * k] == ProgramBytes(programs[k])
    ensures |programs| > 0 ==> 12 + 4 * (|programs| - 1) <= |buf|
    ensures LastProgramPid(buf, |programs|, default) == Announced(programs, default)
  {
    hide ProgramAt, ProgramBytes;
    if |programs| > 0 {
      var k := |programs| - 1;
      PatReadsBack(buf, programs[..k], default);
      ProgramReadsBack(buf, k, programs[k]);
    }
  }

  lemma ProgramReadsBack(buf: seq<byte>, k: nat, p: Program)
    requires p.number < 0x1_0000 && p.pid < 0x2000 && 12 + 4 * k <= |buf|
    requires buf[8 + 4 * k..12 + 4 * k] == ProgramBytes(p)
    ensures ProgramAt(buf, k) == p
  {
    var entry := buf[8 + 4 * k..12 + 4 * k];
    assert buf[8 + 4 * k] == entry[0] && buf[9 + 4 * k] == entry[1];
    assert buf[10 + 4 * k] == entry[2] && buf[11 + 4 * k] == entry[3];
  }

  /** For a whole well-formed PAT: the parser's own bound makes it find what the program
      list announces. */
  lemma PatAnnounces(buf: seq<byte>, programs: seq<Program>, default: int)
    requires IsPat(buf, |programs|)
    requires forall k :: 0 <= k < |programs| ==>
      programs[k].number < 0x1_0000 && programs[k].pid < 0x2000
      && buf[8 + 4 * k..12 + 4 * k] == ProgramBytes(programs[k])
    ensures LastProgramPid(buf, Visited(buf), default) == Announced(programs, default)
  {
    hide LastProgramPid, Announced, ProgramBytes;
    PatVisitsExactlyItsPrograms(buf, |programs|);
    PatReadsBack(buf, programs, default);
  }

  // -------------------------------------------------------------------- PMT

  /** One elementary stream of a PMT: type, PID and the place of its descriptors. */
  datatype Stream = Stream(streamType: int, pid: nat, info: nat, infoLen: nat)

  function StreamAt(buf: seq<byte>, pos: nat): Stream
    requires pos + 5 <= |buf|
  {
    Stream(buf[pos], Field(buf[pos + 1], buf[pos + 2], 32), pos + 5, Field(buf[pos + 3], buf[pos + 4], 16))
  }

  /** The elementary streams between `pos` and `end`, in order. */
  function StreamsFrom(buf: seq<byte>, pos: nat, end: int): seq<Stream>
    decreases |buf| - pos
  {
    if pos + 5 <= end && pos + 5 <= |buf| then
      var s := StreamAt(buf, pos);
      [s] + StreamsFrom(buf, pos + 5 + s.infoLen, end)
    else []
  }

  /** Is there a registration descriptor "Opus" among the descriptors? */
  predicate HasOpus(buf: seq<byte>, pos: nat, end: nat)
    decreases |buf| - pos
  {
    pos + 2 <= end && pos + 2 <= |buf|
    && (IsOpusDescriptor(buf, pos) || HasOpus(buf, pos + 2 + buf[pos + 1] as int, end))
  }

  predicate IsOpusDescriptor(buf: seq<byte>, pos: nat)
    requires pos + 2 <= |buf|
  {
    buf[pos] == 0x05 && buf[pos + 1] >= 4 && pos + 6 <= |buf|
    && buf[pos + 2] == 'O' as int && buf[pos + 3] == 'p' as int && buf[pos + 4] == 'u' as int
    && buf[pos + 5] == 's' as int
  }

  predicate IsAudio(buf: seq<byte>, s: Stream) {
    s.streamType in {0x0F, 0x11, 0x03, 0x04, 0x81}
    || (s.streamType == 0x06 && s.infoLen > 0 && HasOpus(buf, s.info, s.info + s.infoLen))
  }

  predicate IsVideo(s: Stream) { s.streamType == 0x1B || s.streamType == 0x24 }

  function AudioOf(buf: seq<byte>, streams: seq<Stream>): (r: seq<Stream>) {
    if |streams| == 0 then []
    else AudioOf(buf, streams[..|streams| - 1])
         + if IsAudio(buf, streams[|streams| - 1]) then [streams[|streams| - 1]] else []
  }

  /** The tracks for the first four audio streams, PES stream ids from 0xC0 on. */
  function TracksFor(audio: seq<Stream>): (t: seq<AudioTrack>)
    ensures |t| == if |audio| < MAX_AUDIO_TRACKS then |audio| else MAX_AUDIO_TRACKS
    ensures forall i :: 0 <= i < |t| ==> t[i] == NewTrack(audio[i].pid, audio[i].streamType, 0xC0 + i)
  {
    var n := if |audio| < MAX_AUDIO_TRACKS then |audio| else MAX_AUDIO_TRACKS;
    seq(n, i requires 0 <= i < n => NewTrack(audio[i].pid, audio[i].streamType, 0xC0 + i))
  }

  function LastVideoPid(streams: seq<Stream>, default: int): int {
    if |streams| == 0 then default
    else if IsVideo(streams[|streams| - 1]) then streams[|streams| - 1].pid
    else LastVideoPid(streams[..|streams| - 1], default)
  }

  predicate AnyVideo(streams: seq<Stream>) {
    exists i :: 0 <= i < |streams| && IsVideo(streams[i])
  }

  /** The streams of a whole PMT section. */
  function PmtStreams(buf: seq<byte>): seq<Stream>
    requires |buf| >= 12
  {
    StreamsFrom(buf, 12 + Field(buf[10], buf[11], 16), SectionLength(buf) - 1)
  }

  /** The inner loop: the descriptors of one stream. */
  method FindOpus(buf: seq<byte>, pos: nat, len: nat) returns (found: bool)
    ensures found == HasOpus(buf, pos, pos + len)
  {
    var at := pos;
    var end := pos + len;
    found := false;
    while at + 2 <= end && at + 2 <= |buf|
      invariant HasOpus(buf, pos, end) == (found || HasOpus(buf, at, end))
      decreases |buf| - at
    {
      if buf[at] == 0x05 && buf[at + 1] >= 4 && at + 6 <= |buf| {
        if buf[at + 2] == 'O' as int && buf[at + 3] == 'p' as int && buf[at + 4] == 'u' as int
           && buf[at + 5] == 's' as int {
          found := true;
        }
      }
      at := at + 2 + buf[at + 1] as int;
    }
  }

  lemma AudioPush(buf: seq<byte>, streams: seq<Stream>, s: Stream)
    ensures AudioOf(buf, streams + [s]) == AudioOf(buf, streams) + if IsAudio(buf, s) then [s] else []
  {
    assert (streams + [s])[..|streams|] == streams;
  }

  lemma TracksPush(audio: seq<Stream>, s: Stream)
    ensures |audio| < MAX_AUDIO_TRACKS ==>
      TracksFor(audio + [s]) == TracksFor(audio) + [NewTrack(s.pid, s.streamType, 0xC0 + |audio|)]
    ensures |audio| >= MAX_AUDIO_TRACKS ==> TracksFor(audio + [s]) == TracksFor(audio)
  {
  }

  lemma VideoPush(streams: seq<Stream>, s: Stream, default: int)
    ensures LastVideoPid(streams + [s], default) == if IsVideo(s) then s.pid else LastVideoPid(streams, default)
    ensures AnyVideo(streams + [s]) <==> AnyVideo(streams) || IsVideo(s)
  {
    hide IsVideo;
    var all := streams + [s];
    assert all[..|streams|] == streams;
    assert all[|streams|] == s;
    if i :| 0 <= i < |streams| && IsVideo(streams[i]) {
      assert IsVideo(all[i]);
    }
  }

  /** `sls_parse_pmt_for_audio`: the recorded tracks are the first four audio streams of
      the table in order. */
  method ParsePmtForAudio(buf: seq<byte>, ti: TsInfo) returns (ok: bool)
    modifies ti`tracks, ti`pmtParsed, ti`videoPid, ti`videoPidFound
    ensures |buf| < 12 ==> !ok && unchanged(ti)
    ensures |buf| >= 12 ==>
      && ti.tracks == TracksFor(AudioOf(buf, PmtStreams(buf)))
      && ok == (ti.tracks != []) && ti.pmtParsed == (old(ti.pmtParsed) || ok)
      && ti.videoPid == LastVideoPid(PmtStreams(buf), old(ti.videoPid))
      && ti.videoPidFound == (old(ti.videoPidFound) || AnyVideo(PmtStreams(buf)))
  {
    hide HasOpus, IsAudio, IsVideo, AnyVideo, AudioOf, TracksFor, LastVideoPid, StreamAt, StreamsFrom;
    if |buf| < 12 {
      return false;
    }
    var sectionLength := (buf[1] as int) % 16 * 256 + buf[2];
    var programInfoLength := (buf[10] as int) % 16 * 256 + buf[11];
    var pos := 12 + programInfoLength;
    var end := 3 + sectionLength - 4;
    ti.tracks := [];
    ghost var all, seen := PmtStreams(buf), [];
    StartsEmpty(buf, ti.videoPid);
    while pos + 5 <= end && pos + 5 <= |buf|
      invariant all == seen + StreamsFrom(buf, pos, end)
      invariant ti.tracks == TracksFor(AudioOf(buf, seen)) && ti.pmtParsed == old(ti.pmtParsed)
      invariant ti.videoPid == LastVideoPid(seen, old(ti.videoPid))
      invariant ti.videoPidFound == (old(ti.videoPidFound) || AnyVideo(seen))
      decreases |buf| - pos
    {
      ghost var s := StreamAt(buf, pos);
      StreamsUnfold(buf, pos, end);
      assert seen + ([s] + StreamsFrom(buf, pos + 5 + s.infoLen, end))
          == (seen + [s]) + StreamsFrom(buf, pos + 5 + s.infoLen, end);
      VideoPush(seen, s, old(ti.videoPid));
      AudioPush(buf, seen, s);
      TracksPush(AudioOf(buf, seen), s);
      TracksLength(AudioOf(buf, seen));
      assert AudioOf(buf, seen) + [] == AudioOf(buf, seen);
      var infoLength := RecordStream(buf, pos, ti);
      seen := seen + [s];
      pos := pos + 5 + infoLength;
    }
    StreamsUnfold(buf, pos, end);
    assert seen + [] == seen;
    if |ti.tracks| > 0 {
      ti.pmtParsed := true;
      return true;
    }
    ok := false;
  }

  /** The body of the outer loop: one stream of the table. */
  method RecordStream(buf: seq<byte>, pos: nat, ti: TsInfo) returns (infoLength: nat)
    requires pos + 5 <= |buf| && |ti.tracks| <= MAX_AUDIO_TRACKS
    modifies ti`tracks, ti`videoPid, ti`videoPidFound
    ensures var s := StreamAt(buf, pos);
      && infoLength == s.infoLen
      && ti.tracks == (if IsAudio(buf, s) && |old(ti.tracks)| < MAX_AUDIO_TRACKS
                       then old(ti.tracks) + [NewTrack(s.pid, s.streamType, 0xC0 + |old(ti.tracks)|)]
                       else old(ti.tracks))
      && ti.videoPid == (if IsVideo(s) then s.pid else old(ti.videoPid))
      && ti.videoPidFound == (old(ti.videoPidFound) || IsVideo(s))
  {
    hide IsAudio;
    var streamType: int := buf[pos];
    var pid := (buf[pos + 1] as int) % 32 * 256 + buf[pos + 2];
    infoLength := (buf[pos + 3] as int) % 16 * 256 + buf[pos + 4];
    if streamType == 0x1B || streamType == 0x24 {
      ti.videoPid := pid;
      ti.videoPidFound := true;
    }
    var isAudio := AudioStream(buf, streamType, pid, pos + 5, infoLength);
    if isAudio && |ti.tracks| < MAX_AUDIO_TRACKS {
      var nextStreamId := 0xC0 + |ti.tracks|;
      ti.tracks := ti.tracks + [NewTrack(pid, streamType, nextStreamId)];
    }
  }

  lemma StreamsUnfold(buf: seq<byte>, pos: nat, end: int)
    ensures StreamsFrom(buf, pos, end)
      == if pos + 5 <= end && pos + 5 <= |buf|
         then [StreamAt(buf, pos)] + StreamsFrom(buf, pos + 5 + StreamAt(buf, pos).infoLen, end) else []
  {
  }

  lemma TracksLength(audio: seq<Stream>)
    ensures |TracksFor(audio)| == if |audio| < MAX_AUDIO_TRACKS then |audio| else MAX_AUDIO_TRACKS
  {
  }

  lemma StartsEmpty(buf: seq<byte>, default: int)
    ensures AudioOf(buf, []) == [] && TracksFor([]) == [] && LastVideoPid([], default) == default && !AnyVideo([])
  {
  }

  /** The classification in the middle of the loop. */
  method AudioStream(buf: seq<byte>, streamType: int, pid: nat, info: nat, infoLen: nat) returns (isAudio: bool)
    ensures isAudio == IsAudio(buf, Stream(streamType, pid, info, infoLen))
  {
    isAudio := false;
    if streamType == 0x0F || streamType == 0x11 || streamType == 0x03 || streamType == 0x04 || streamType == 0x81 {
      isAudio := true;
    } else if streamType == 0x06 && infoLen > 0 {
      isAudio := FindOpus(buf, info, infoLen);
    }
  }

  /** Tracks announced by a PMT are well formed, distinctly numbered, and at most four. */
  lemma AnnouncedTracksOk(buf: seq<byte>)
    requires |buf| >= 12
    ensures var t := TracksFor(AudioOf(buf, PmtStreams(buf)));
      && |t| <= MAX_AUDIO_TRACKS
      && forall i :: 0 <= i < |t| ==>
           TrackOk(t[i]) && t[i].streamId == 0xC0 + i && t[i].inGap && !t[i].ccInitialized
           && t[i].lastPts == INVALID_PTS && !t[i].formatDetected
  {
    hide StreamsFrom, IsAudio;
    PidsAreShort(buf, 12 + Field(buf[10], buf[11], 16), SectionLength(buf) - 1);
    AudioComesFromStreams(buf, PmtStreams(buf));
  }

  lemma {:induction false} PidsAreShort(buf: seq<byte>, pos: nat, end: int)
    ensures forall s :: s in StreamsFrom(buf, pos, end) ==> s.pid < 0x2000
    decreases |buf| - pos
  {
    if pos + 5 <= end && pos + 5 <= |buf| {
      PidsAreShort(buf, pos + 5 + StreamAt(buf, pos).infoLen, end);
    }
  }

  lemma {:induction false} AudioComesFromStreams(buf: seq<byte>, streams: seq<Stream>)
    ensures forall s :: s in AudioOf(buf, streams) <==> s in streams && IsAudio(buf, s)
  {
    hide IsAudio;
    if |streams| > 0 {
      AudioComesFromStreams(buf, streams[..|streams| - 1]);
      assert streams == streams[..|streams| - 1] + [streams[|streams| - 1]];
    }
  }

  // ------------------------------------------------------------- round trips

  datatype EsInfo = EsInfo(streamType: byte, pid: nat, descriptors: seq<byte>) {
    predicate Valid() { pid < 0x2000 && |descriptors| < 0x1000 }
  }

  function EsBytes(e: EsInfo): (b: seq<byte>)
    requires e.Valid()
    ensures |b| == 5 + |e.descriptors|
  {
    [e.streamType, 0xE0 + e.pid / 256, e.pid % 256, 0xF0 + |e.descriptors| / 256, |e.descriptors| % 256]
    + e.descriptors
  }

  function EsLoop(es: seq<EsInfo>): (b: seq<byte>)
    requires forall e :: e in es ==> e.Valid()
  {
    if |es| == 0 then [] else EsBytes(es[0]) + EsLoop(es[1..])
  }

  /** `s` is what parsing made of `e`. */
  predicate Parsed(buf: seq<byte>, s: Stream, e: EsInfo) {
    && s.streamType == e.streamType && s.pid == e.pid && s.infoLen == |e.descriptors|
    && s.info + s.infoLen <= |buf| && buf[s.info..s.info + s.infoLen] == e.descriptors
  }

  /** A table that encodes these streams is read back as exactly these streams, each
      with its descriptors in place. */
  lemma {:induction false} StreamsReadBack(buf: seq<byte>, pos: nat, es: seq<EsInfo>)
    requires forall e :: e in es ==> e.Valid()
    requires pos + |EsLoop(es)| <= |buf| && buf[pos..pos + |EsLoop(es)|] == EsLoop(es)
    ensures var r := StreamsFrom(buf, pos, pos + |EsLoop(es)|);
      |r| == |es| && forall k :: 0 <= k < |es| ==> Parsed(buf, r[k], es[k])
    decreases |es|
  {
    hide EsBytes, Parsed, StreamAt, StreamsFrom;
    if |es| > 0 {
      var e, rest := es[0], es[1..];
      assert e.Valid() by {
        assert e in es;
      }
      var first := EsBytes(e);
      SliceOfSlice(buf, pos, first, EsLoop(rest));
      StreamReadsBack(buf, pos, e);
      StreamsReadBack(buf, pos + |first|, rest);
    }
    StreamsUnfold(buf, pos, pos + |EsLoop(es)|);
  }

  lemma SliceOfSlice(buf: seq<byte>, pos: nat, a: seq<byte>, b: seq<byte>)
    requires pos + |a + b| <= |buf| && buf[pos..pos + |a + b|] == a + b
    ensures buf[pos..pos + |a|] == a && buf[pos + |a|..pos + |a| + |b|] == b
  {
    assert buf[pos..pos + |a|] == buf[pos..pos + |a + b|][..|a|];
    assert buf[pos + |a|..pos + |a| + |b|] == buf[pos..pos + |a + b|][|a|..];
  }

  lemma StreamReadsBack(buf: seq<byte>, pos: nat, e: EsInfo)
    requires e.Valid() && pos + |EsBytes(e)| <= |buf| && buf[pos..pos + |EsBytes(e)|] == EsBytes(e)
    ensures Parsed(buf, StreamAt(buf, pos), e) && StreamAt(buf, pos).info == pos + 5
  {
    var head: seq<byte> := [e.streamType, 0xE0 + e.pid / 256, e.pid % 256,
                            0xF0 + |e.descriptors| / 256, |e.descriptors| % 256];
    SliceOfSlice(buf, pos, head, e.descriptors);
    var h := buf[pos..pos + 5];
    assert buf[pos] == h[0] && buf[pos + 1] == h[1] && buf[pos + 2] == h[2] && buf[pos + 3] == h[3]
      && buf[pos + 4] == h[4];
  }

  datatype Descriptor = Descriptor(tag: byte, body: seq<byte>)

  function DescriptorBytes(ds: seq<Descriptor>): (b: seq<byte>)
    requires forall d :: d in ds ==> |d.body| < 256
  {
    if |ds| == 0 then [] else [ds[0].tag, |ds[0].body|] + ds[0].body + DescriptorBytes(ds[1..])
  }

  /** A registration descriptor (tag 5) whose body begins with "Opus". */
  predicate SaysOpus(d: Descriptor) {
    d.tag == 0x05 && |d.body| >= 4
    && d.body[0] == 'O' as int && d.body[1] == 'p' as int && d.body[2] == 'u' as int && d.body[3] == 's' as int
  }

  predicate AnyOpus(ds: seq<Descriptor>) {
    exists i :: 0 <= i < |ds| && SaysOpus(ds[i])
  }

  lemma AnyOpusSplit(ds: seq<Descriptor>)
    requires |ds| > 0
    ensures AnyOpus(ds) <==> SaysOpus(ds[0]) || AnyOpus(ds[1..])
  {
    hide SaysOpus;
    if i :| 0 <= i < |ds[1..]| && SaysOpus(ds[1..][i]) {
      assert SaysOpus(ds[i + 1]);
    }
    if i :| 0 <= i < |ds| && SaysOpus(ds[i]) {
      if i > 0 {
        assert ds[1..][i - 1] == ds[i];
      }
    }
  }

  /** On well-formed descriptors the search says Opus exactly when one of them does. */
  lemma {:induction false} OpusReadsBack(buf: seq<byte>, pos: nat, ds: seq<Descriptor>)
    requires forall d :: d in ds ==> |d.body| < 256
    requires pos + |DescriptorBytes(ds)| <= |buf| && buf[pos..pos + |DescriptorBytes(ds)|] == DescriptorBytes(ds)
    ensures HasOpus(buf, pos, pos + |DescriptorBytes(ds)|) <==> AnyOpus(ds)
    decreases |ds|
  {
    if |ds| > 0 {
      hide IsOpusDescriptor, SaysOpus, AnyOpus, HasOpus, DescriptorBytes;
      AnyOpusSplit(ds);
      FirstDescriptor(buf, pos, ds);
      OpusReadsBack(buf, pos + 2 + |ds[0].body|, ds[1..]);
      HasOpusUnfold(buf, pos, pos + |DescriptorBytes(ds)|);
    } else {
      NoDescriptors(buf, pos);
    }
  }

  /** The first descriptor in place, and the bytes of the others behind it. */
  lemma FirstDescriptor(buf: seq<byte>, pos: nat, ds: seq<Descriptor>)
    requires |ds| > 0 && forall d :: d in ds ==> |d.body| < 256
    requires pos + |DescriptorBytes(ds)| <= |buf| && buf[pos..pos + |DescriptorBytes(ds)|] == DescriptorBytes(ds)
    ensures forall d :: d in ds[1..] ==> |d.body| < 256
    ensures var next := pos + 2 + |ds[0].body|; var rest := DescriptorBytes(ds[1..]);
      && pos + |DescriptorBytes(ds)| == next + |rest| && buf[next..next + |rest|] == rest
      && buf[pos + 1] as int == |ds[0].body|
    ensures IsOpusDescriptor(buf, pos) <==> SaysOpus(ds[0])
  {
    hide IsOpusDescriptor, SaysOpus, DescriptorBytes;
    var d, rest := ds[0], ds[1..];
    var head: seq<byte> := [d.tag, |d.body|];
    DescriptorsSplit(ds);
    SliceOfSlice(buf, pos, head + d.body, DescriptorBytes(rest));
    SliceOfSlice(buf, pos, head, d.body);
    DescriptorReadsBack(buf, pos, d);
  }

  lemma DescriptorsSplit(ds: seq<Descriptor>)
    requires |ds| > 0 && forall d :: d in ds ==> |d.body| < 256
    ensures |ds[0].body| < 256 && forall d :: d in ds[1..] ==> |d.body| < 256
    ensures DescriptorBytes(ds) == ([ds[0].tag, |ds[0].body|] + ds[0].body) + DescriptorBytes(ds[1..])
  {
  }

  lemma HasOpusUnfold(buf: seq<byte>, pos: nat, end: nat)
    requires pos + 2 <= end && pos + 2 <= |buf|
    ensures HasOpus(buf, pos, end) <==> IsOpusDescriptor(buf, pos) || HasOpus(buf, pos + 2 + buf[pos + 1] as int, end)
  {
    hide IsOpusDescriptor;
  }

  lemma NoDescriptors(buf: seq<byte>, pos: nat)
    ensures DescriptorBytes([]) == [] && !HasOpus(buf, pos, pos) && !AnyOpus([])
  {
  }

  lemma DescriptorReadsBack(buf: seq<byte>, pos: nat, d: Descriptor)
    requires |d.body| < 256 && pos + 2 + |d.body| <= |buf|
    requires buf[pos..pos + 2] == [d.tag, |d.body|] && buf[pos + 2..pos + 2 + |d.body|] == d.body
    ensures buf[pos + 1] as int == |d.body|
    ensures IsOpusDescriptor(buf, pos) <==> SaysOpus(d)
  {
    var h, b := buf[pos..pos + 2], buf[pos + 2..pos + 2 + |d.body|];
    assert buf[pos] == h[0] && buf[pos + 1] == h[1];
    if |d.body| >= 4 {
      assert buf[pos + 2] == b[0] && buf[pos + 3] == b[1] && buf[pos + 4] == b[2] && buf[pos + 5] == b[3];
    }
  }

  // ------------------------------------------------------------ a whole PMT

  /** One elementary stream as a table lists it. */
  datatype Entry = Entry(streamType: byte, pid: nat, descriptors: seq<Descriptor>) {
    predicate Valid() {
      pid < 0x2000 && (forall d :: d in descriptors ==> |d.body| < 256) && |DescriptorBytes(descriptors)| < 0x1000
    }

    /** AAC, MP3 or AC-3 by its type, or private data that says "Opus". */
    predicate IsAudio() {
      streamType in {0x0F, 0x11, 0x03, 0x04, 0x81} || (streamType == 0x06 && AnyOpus(descriptors))
    }

    function Encoded(): (e: EsInfo)
      requires Valid()
      ensures e.Valid()
    {
      EsInfo(streamType, pid, DescriptorBytes(descriptors))
    }
  }

  predicate EntriesValid(entries: seq<Entry>) {
    forall k :: 0 <= k < |entries| ==> entries[k].Valid()
  }

  function Encodings(entries: seq<Entry>): (es: seq<EsInfo>)
    requires EntriesValid(entries)
    ensures |es| == |entries| && forall k :: 0 <= k < |es| ==> es[k] == entries[k].Encoded()
    ensures forall e :: e in es ==> e.Valid()
  {
    seq(|entries|, k requires 0 <= k < |entries| => entries[k].Encoded())
  }

  function AudioEntries(entries: seq<Entry>): seq<Entry> {
    if |entries| == 0 then []
    else AudioEntries(entries[..|entries| - 1])
         + if entries[|entries| - 1].IsAudio() then [entries[|entries| - 1]] else []
  }

  /** A PMT section that lists these streams. */
  predicate IsPmt(buf: seq<byte>, entries: seq<Entry>) {
    && |buf| >= 12 && EntriesValid(entries)
    && var at := 12 + Field(buf[10], buf[11], 16); var streams := EsLoop(Encodings(entries));
    && SectionLength(buf) - 1 == at + |streams| <= |buf|
    && buf[at..at + |streams|] == streams
  }

  lemma ClassifiedAlike(buf: seq<byte>, s: Stream, e: Entry)
    requires e.Valid() && Parsed(buf, s, e.Encoded())
    ensures IsAudio(buf, s) <==> e.IsAudio()
  {
    hide SaysOpus, HasOpus;
    OpusReadsBack(buf, s.info, e.descriptors);
  }

  predicate SameStreams(streams: seq<Stream>, entries: seq<Entry>) {
    |streams| == |entries|
    && forall k :: 0 <= k < |streams| ==>
         streams[k].pid == entries[k].pid && streams[k].streamType == entries[k].streamType
  }

  lemma {:induction false} AudioAlike(buf: seq<byte>, streams: seq<Stream>, entries: seq<Entry>)
    requires |streams| == |entries| && EntriesValid(entries)
    requires forall k :: 0 <= k < |streams| ==> Parsed(buf, streams[k], entries[k].Encoded())
    ensures SameStreams(AudioOf(buf, streams), AudioEntries(entries))
  {
    hide IsAudio, DescriptorBytes, Entry.IsAudio;
    if |streams| > 0 {
      var n := |streams| - 1;
      AudioAlike(buf, streams[..n], entries[..n]);
      assert Parsed(buf, streams[n], entries[n].Encoded());
      ClassifiedAlike(buf, streams[n], entries[n]);
    }
  }

  /** Entry `k` is the last one of the list with H.264 or H.265. */
  predicate LastVideoEntry(entries: seq<Entry>, k: nat) {
    && k < |entries| && entries[k].streamType in {0x1B, 0x24}
    && forall j :: k < j < |entries| ==> entries[j].streamType !in {0x1B, 0x24}
  }

  lemma {:induction false} VideoAlike(streams: seq<Stream>, entries: seq<Entry>, default: int)
    requires SameStreams(streams, entries)
    ensures AnyVideo(streams) <==> exists k: nat :: LastVideoEntry(entries, k)
    ensures forall k: nat :: LastVideoEntry(entries, k) ==> LastVideoPid(streams, default) == entries[k].pid
    ensures !AnyVideo(streams) ==> LastVideoPid(streams, default) == default
  {
    if |streams| > 0 {
      var n := |streams| - 1;
      VideoAlike(streams[..n], entries[..n], default);
      assert streams == streams[..n] + [streams[n]];
      VideoPush(streams[..n], streams[n], default);
      if IsVideo(streams[n]) {
        assert LastVideoEntry(entries, n);
      } else {
        assert forall k: nat :: LastVideoEntry(entries, k) <==> LastVideoEntry(entries[..n], k);
      }
    }
  }

  /** For a whole encoded PMT: the tracks are the first four audio entries of the list,
      in order, with stream ids from 0xC0 on; video is found exactly if an entry has it, on
      the PID of the last such entry. */
  lemma PmtAnnounces(buf: seq<byte>, entries: seq<Entry>, default: int)
    requires IsPmt(buf, entries)
    ensures var t := TracksFor(AudioOf(buf, PmtStreams(buf))); var audio := AudioEntries(entries);
      && |t| == (if |audio| < MAX_AUDIO_TRACKS then |audio| else MAX_AUDIO_TRACKS)
      && forall k :: 0 <= k < |t| ==> t[k] == NewTrack(audio[k].pid, audio[k].streamType, 0xC0 + k)
    ensures AnyVideo(PmtStreams(buf)) <==> exists k: nat :: LastVideoEntry(entries, k)
    ensures forall k: nat :: LastVideoEntry(entries, k) ==> LastVideoPid(PmtStreams(buf), default) == entries[k].pid
    ensures !AnyVideo(PmtStreams(buf)) ==> LastVideoPid(PmtStreams(buf), default) == default
  {
    hide StreamsFrom, AudioOf, AudioEntries, EsLoop, Parsed, AnyVideo, LastVideoPid, LastVideoEntry;
    StreamsReadBack(buf, 12 + Field(buf[10], buf[11], 16), Encodings(entries));
    AudioAlike(buf, PmtStreams(buf), entries);
    SameAsEntries(buf, PmtStreams(buf), entries);
    VideoAlike(PmtStreams(buf), entries, default);
  }

  lemma SameAsEntries(buf: seq<byte>, streams: seq<Stream>, entries: seq<Entry>)
    requires |streams| == |entries| && EntriesValid(entries)
    requires forall k :: 0 <= k < |streams| ==> Parsed(buf, streams[k], entries[k].Encoded())
    ensures SameStreams(streams, entries)
  {
    hide DescriptorBytes;
  }
}
