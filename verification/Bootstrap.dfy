/** The TS packet parser and the bootstrap block it assembles
    (`sls_pes2es`, `sls_parse_ts_info`, `sls_init_ts_info`,
    sls-patch/src/core/common.cpp). */
module Bootstrap {
  import opened Bytes
  import opened AudioFormat
  import opened TsInfoRecord
  import opened SpsPps
  import opened Psi
  import Sei
  import SilentPacket

  const PAT_PID := 0

  /** The parser's own part of `ts_info`: everything that decides the bootstrap block. */
  datatype Boot = Boot(esPid: int, dts: int, pts: int, need: bool, sps: seq<byte>, pps: seq<byte>,
                       tsData: seq<byte>, pat: seq<byte>, pmtPid: int, pmt: seq<byte>)

  ghost function Look(ti: TsInfo): Boot
    reads ti, ti.tsData
  {
    Boot(ti.esPid, ti.dts, ti.pts, ti.needSpsPps, ti.sps, ti.pps, ti.tsData[..], ti.pat, ti.pmtPid, ti.pmt)
  }

  /** `sls_init_ts_info` followed by the `need_spspps` of `CSLSMapData::add`. */
  function Initial(): Boot {
    Boot(INVALID_PID, INVALID_DTS_PTS, INVALID_DTS_PTS, true, [], [], IdleBlock(), [], INVALID_PID, [])
  }

  // ------------------------------------------------------- the other decoder

  /** `ff_parse_pes_pts`: the top field is shifted in 32-bit `int`, and the second byte
      is shifted one place too far, so that its top bit falls on the top field. */
  function LegacyPts(f: seq<byte>): int
    requires |f| == 5
  {
    LegacyPtsOf(f[0], f[1], f[2], f[3], f[4])
  }

  function LegacyPtsOf(b0: int, b1: int, b2: int, b3: int, b4: int): int {
    (if b0 / 4 % 2 == 1 then -0x8000_0000 else 0)
    + (if b0 / 2 % 2 == 1 || b1 >= 128 then 0x4000_0000 else 0)
    + b1 % 128 * 0x80_0000 + b2 / 2 * 0x8000 + b3 * 0x80 + b4 / 2
  }

  /** On the digits of a timestamp: three, eight, seven, eight and seven bits. */
  lemma LegacyDigits(prefix: int, d4: int, d3: int, d2: int, d1: int, d0: int)
    requires 0 <= prefix < 16 && 0 <= d4 < 8 && 0 <= d3 < 256 && 0 <= d2 < 128 && 0 <= d1 < 256 && 0 <= d0 < 128
    ensures LegacyPtsOf(prefix * 16 + d4 * 2 + 1, d3, d2 * 2 + 1, d1, d0 * 2 + 1)
            == d4 * 0x4000_0000 + d3 * 0x40_0000 + d2 * 0x8000 + d1 * 0x80 + d0
      <==> d4 < 2 && d3 == 0
  {
    var b0 := prefix * 16 + d4 * 2 + 1;
    assert b0 / 2 % 2 == d4 % 2 && b0 / 4 % 2 == d4 / 2 % 2;
    assert (d2 * 2 + 1) / 2 == d2 && (d0 * 2 + 1) / 2 == d0;
  }

  /** It decodes a timestamp correctly exactly when the timestamp is below 2^31 and its
      bits 22 to 29 are 0. */
  lemma LegacyPtsAgreesExactlyWhen(pts: SilentPacket.GapRule.Pts, prefix: int)
    requires 0 <= prefix < 16
    ensures LegacyPts(SilentPacket.PtsField(pts, prefix)) == pts
      <==> pts < 0x8000_0000 && pts / 0x40_0000 % 256 == 0
  {
    hide LegacyPtsOf;
    DivDiv(pts, 0x80, 0x100);
    DivDiv(pts, 0x8000, 0x80);
    DivDiv(pts, 0x40_0000, 0x100);
    var q1, q2, q3, q4 := pts / 0x80, pts / 0x8000, pts / 0x40_0000, pts / 0x4000_0000;
    assert q1 / 0x100 == q2 && q2 / 0x80 == q3 && q3 / 0x100 == q4 && q4 % 8 == q4;
    LegacyDigits(prefix, q4, q3 % 256, q2 % 128, q1 % 256, pts % 128);
    assert pts == q4 * 0x4000_0000 + q3 % 256 * 0x40_0000 + q2 % 128 * 0x8000 + q1 % 256 * 0x80 + pts % 128;
  }

  /** Bit 22 is read as bit 23. */
  lemma LegacyPtsSample()
    ensures LegacyPts(SilentPacket.PtsField(0x40_0000, 2)) == 0x80_0000
  {
  }

  // --------------------------------------------------------------- the block

  /** Bytes of stuffing in the third packet: none when the payload needs all the room. */
  function AdaptationLength(sps: seq<byte>, pps: seq<byte>): (n: int)
  {
    TS_PACK_LEN - 4 - (|sps| + |pps| + 14) - 1
  }

  /** The third packet: SPS and PPS in one PES packet with an all-zero PTS field.  When
      they total 169 bytes there is no room for an adaptation field but one byte is left
      over, and it keeps the zero it was initialised with. */
  function ThirdPacket(pid: int, streamId: byte, sps: seq<byte>, pps: seq<byte>): (p: seq<byte>)
    requires 0 <= pid < 0x2000 && |sps| + |pps| <= 170
    ensures |p| == 188
  {
    var ad := AdaptationLength(sps, pps);
    [TS_SYNC_BYTE, 0x40 + pid / 256, pid % 256]
    + (if ad > 0 then [0x30, ad, 0x00] + Fill(ad - 1, 0xFF) else [0x10])
    + [0, 0, 1, streamId, 0, 0, 0x80, 0x80, 5, 0, 0, 0, 0, 0] + sps + pps
    + (if ad == 0 then [0] else [])
  }

  function BootBlock(pat: seq<byte>, pmt: seq<byte>, pid: int, streamId: byte, sps: seq<byte>, pps: seq<byte>)
    : (b: seq<byte>)
    requires |pat| == 188 && |pmt| == 188 && 0 <= pid < 0x2000 && |sps| + |pps| <= 170
    ensures |b| == 1316
  {
    pat + pmt + ThirdPacket(pid, streamId, sps, pps) + IdleBlock()[564..]
  }

  /** First byte behind the parameter sets of the third packet. */
  function BuiltEnd(sps: seq<byte>, pps: seq<byte>): int {
    376 + (if AdaptationLength(sps, pps) > 0 then 5 + AdaptationLength(sps, pps) else 4) + 14 + |sps| + |pps|
  }

  /** The third packet never passes offset 564, and ends exactly there except one byte
      short when SPS and PPS total 169. */
  lemma BuiltEndIs(sps: seq<byte>, pps: seq<byte>)
    requires |sps| + |pps| <= 170
    ensures BuiltEnd(sps, pps) == if |sps| + |pps| == 169 then 563 else 564
  {
  }

  // -------------------------------------------------------- specification

  /** Assemble the block, or give up for good if the parameter sets do not fit. */
  function Assembled(b: Boot, pid: int, streamId: byte): Boot
    requires 0 <= pid < 0x2000 && |b.pat| == 188 && |b.pmt| == 188
  {
    if |b.sps| + |b.pps| + 14 > TS_PACK_LEN - 4 then b.(need := false)
    else b.(need := false, esPid := pid, tsData := BootBlock(b.pat, b.pmt, pid, streamId, b.sps, b.pps))
  }

  predicate TablesOk(b: Boot) {
    && (b.pat != [] ==> |b.pat| == 188 && b.pat[0] == TS_SYNC_BYTE)
    && (b.pmt != [] ==> |b.pmt| == 188 && b.pmt[0] == TS_SYNC_BYTE)
  }

  /** The parameter-set half of `sls_pes2es`. */
  function TakeParams(b: Boot, es: seq<byte>, pid: int, streamId: byte): (r: (Boot, bool))
    requires TablesOk(b) && 0 <= pid < 0x2000
  {
    if !b.need || es == [] then (b, true)
    else
      var f := Extract(es, b.sps, b.pps);
      var c := b.(sps := f.sps, pps := f.pps);
      if c.sps != [] && c.pps != [] && c.pat != [] && c.pmt != [] then (Assembled(c, pid, streamId), f.ok)
      else (c, f.ok)
  }

  /** Timestamps and start of the elementary stream: (dts, pts, offset), or None when
      the header is cut off. */
  function PesTimes(pes: seq<byte>): (r: Option<(int, int, nat)>)
    requires |pes| >= 9
    ensures r.Some? ==> r.value.2 <= |pes|
  {
    if pes[7] / 64 == 2 then
      if |pes| < 14 then None
      else Some((LegacyPts(pes[9..14]), LegacyPts(pes[9..14]), 14))
    else if pes[7] / 64 == 3 then
      if |pes| < 19 then None
      else Some((LegacyPts(pes[14..19]), LegacyPts(pes[9..14]), 19))
    else Some((INVALID_DTS_PTS, INVALID_DTS_PTS, 9))
  }

  predicate PesStart(pes: seq<byte>) {
    |pes| >= 9 && pes[0] == 0 && pes[1] == 0 && pes[2] == 1 && (pes[3] == 0xE0 || pes[3] == 0xC0)
  }

  /** `sls_pes2es`. */
  function PesStep(b: Boot, pes: seq<byte>, pid: int): (Boot, bool)
    requires TablesOk(b) && 0 <= pid < 0x2000
  {
    if !PesStart(pes) then (b, false)
    else
      match PesTimes(pes)
      case None => (b.(dts := INVALID_DTS_PTS, pts := INVALID_DTS_PTS), false)
      case Some((dts, pts, at)) => TakeParams(b.(dts := dts, pts := pts), pes[at..], pid, pes[3])
  }

  /** Start of the payload of a packet that has one. */
  function Payload(p: SilentPacket.Packet): Option<nat> {
    var afc := p[3] / 16 % 4;
    var pos := SilentPacket.PayloadOffset(p);
    if afc == 0 || pos >= 188 || afc % 2 != 1 then None else Some(pos)
  }

  /** `sls_parse_ts_info` on a complete packet, as far as the boot state goes. */
  function PacketStep(b: Boot, p: SilentPacket.Packet): (r: (Boot, bool))
    requires TablesOk(b)
  {
    var pid := SilentPacket.PacketPid(p);
    if p[0] != TS_SYNC_BYTE || !SilentPacket.IsStart(p) then (b, false)
    else if pid != PAT_PID && b.pmtPid == pid then (b.(pmt := p), true)
    else if pid != PAT_PID && b.esPid != INVALID_PID && b.esPid != pid then (b, false)
    else PayloadStep(if pid == PAT_PID then b.(pat := p) else b, p, pid)
  }

  function PayloadStep(b: Boot, p: SilentPacket.Packet, pid: int): (Boot, bool)
    requires TablesOk(b) && 0 <= pid < 0x2000
  {
    match Payload(p)
    case None => (b, false)
    case Some(pos) => if pid == PAT_PID then PatStep(b, p[pos + 1..]) else StreamStep(b, p[pos..], pid)
  }

  function PatStep(b: Boot, table: seq<byte>): (Boot, bool) {
    if |table| < 8 then (b, false)
    else (b.(pmtPid := LastProgramPid(table, Visited(table), b.pmtPid)), true)
  }

  /** The first packet with a timestamp or the last missing parameter set claims the PID. */
  function StreamStep(b: Boot, pes: seq<byte>, pid: int): (Boot, bool)
    requires TablesOk(b) && 0 <= pid < 0x2000
  {
    var (d, ok) := PesStep(b, pes, pid);
    (if d.dts != INVALID_DTS_PTS || (d.sps != [] && d.pps != []) then d.(esPid := pid) else d, ok)
  }

  // ------------------------------------------------------ headers read back

  /** A timestamp that this parser's decoder inverts. */
  predicate Legible(pts: SilentPacket.GapRule.Pts) {
    pts < 0x8000_0000 && pts / 0x40_0000 % 256 == 0
  }

  /** A PES packet with a PTS and a DTS, in this order: both are told and the payload
      begins behind them, if and only if the decoder inverts both. */
  lemma BothTimesReadBackExactlyWhen(head: seq<byte>, pts: SilentPacket.GapRule.Pts, dts: SilentPacket.GapRule.Pts,
                                     payload: seq<byte>)
    requires |head| == 9 && head[7] / 64 == 3
    ensures var pes := head + SilentPacket.PtsField(pts, 3) + SilentPacket.PtsField(dts, 1) + payload;
      && (PesTimes(pes) == Some((dts as int, pts as int, 19 as nat)) <==> Legible(pts) && Legible(dts))
      && pes[19..] == payload && (|payload| == 0 ==> PesTimes(pes[..18]) == None)
  {
    hide LegacyPts, Legible;
    var first, second := SilentPacket.PtsField(pts, 3), SilentPacket.PtsField(dts, 1);
    var pes := head + first + second + payload;
    assert pes[7] == head[7] && pes[..18][7] == head[7];
    assert pes[9..14] == first && pes[14..19] == second && pes[19..] == payload;
    InvertsExactlyWhenLegible(pts, 3);
    InvertsExactlyWhenLegible(dts, 1);
  }

  /** With a PTS alone it stands for the DTS too. */
  lemma OneTimeReadsBackExactlyWhen(head: seq<byte>, pts: SilentPacket.GapRule.Pts, payload: seq<byte>)
    requires |head| == 9 && head[7] / 64 == 2
    ensures var pes := head + SilentPacket.PtsField(pts, 2) + payload;
      && (PesTimes(pes) == Some((pts as int, pts as int, 14 as nat)) <==> Legible(pts))
      && pes[14..] == payload && (|payload| == 0 ==> PesTimes(pes[..13]) == None)
  {
    hide LegacyPts, Legible;
    var first := SilentPacket.PtsField(pts, 2);
    var pes := head + first + payload;
    assert pes[7] == head[7] && pes[..13][7] == head[7];
    assert pes[9..14] == first && pes[14..] == payload;
    InvertsExactlyWhenLegible(pts, 2);
  }

  lemma InvertsExactlyWhenLegible(pts: SilentPacket.GapRule.Pts, prefix: int)
    requires 0 <= prefix < 16
    ensures LegacyPts(SilentPacket.PtsField(pts, prefix)) == pts <==> Legible(pts)
  {
    LegacyPtsAgreesExactlyWhen(pts, prefix);
  }

  /** Which PES headers are accepted: a prefix of one and stream id 0xE0 or 0xC0.  The
      payload begins behind the timestamps the flags announce, whatever the header says of
      its own size; a header cut off before that forgets both timestamps. */
  lemma PesAcceptedExactlyWhen(b: Boot, pid: int, prefix: int, streamId: byte, length: int, mark: byte, times: int,
                               flags: int, size: byte, tail: seq<byte>)
    requires TablesOk(b) && 0 <= pid < 0x2000
    requires 0 <= prefix < 0x100_0000 && 0 <= length < 0x1_0000 && 0 <= times < 4 && 0 <= flags < 64
    ensures var r := PesStep(b, SilentPacket.PesFixed(prefix, streamId, length, mark, times, flags, size) + tail, pid);
      var room := if times == 2 then 5 else if times == 3 then 10 else 0;
      if prefix != 1 || streamId !in {0xC0, 0xE0} then r == (b, false)
      else if |tail| < room then r == (b.(dts := -1, pts := -1), false)
      else r == TakeParams(b.(dts := r.0.dts, pts := r.0.pts), tail[room..], pid, streamId)
           && (times < 2 ==> r.0.dts == -1 && r.0.pts == -1)
  {
    hide LegacyPts, TakeParams;
    var head := SilentPacket.PesFixed(prefix, streamId, length, mark, times, flags, size);
    var pes := head + tail;
    assert forall k :: 0 <= k < 9 ==> pes[k] == head[k];
    TwoParts(times, flags, 64);
    SilentPacket.PrefixIs(prefix);
    var room := if times == 2 then 5 else if times == 3 then 10 else 0;
    if |tail| >= room {
      assert pes[9 + room..] == tail[room..];
      TakingKeepsTimes(b, PesTimes(pes), tail[room..], pid, streamId);
    }
  }

  lemma TakingKeepsTimes(b: Boot, times: Option<(int, int, nat)>, es: seq<byte>, pid: int, streamId: byte)
    requires TablesOk(b) && 0 <= pid < 0x2000 && times.Some?
    ensures var c := TakeParams(b.(dts := times.value.0, pts := times.value.1), es, pid, streamId).0;
      c.dts == times.value.0 && c.pts == times.value.1
  {
    hide Extract, BootBlock;
  }

  /** No timestamp is read as "none": the first packet whose header is accepted with its
      timestamps claims its PID, and otherwise only one behind which both parameter sets
      are known. */
  lemma ClaimsExactlyWhen(b: Boot, pes: seq<byte>, pid: int)
    requires TablesOk(b) && 0 <= pid < 0x2000 && b.need && b.esPid == INVALID_PID && b.dts == INVALID_DTS_PTS
    ensures var c := StreamStep(b, pes, pid).0;
      && (c.esPid == pid || c.esPid == INVALID_PID)
      && (c.esPid == pid <==>
            || (PesStart(pes) && pes[7] >= 0x80 && |pes| >= (if pes[7] >= 0xC0 then 19 else 14))
            || (c.sps != [] && c.pps != []))
  {
    hide Extract, BootBlock, LegacyPtsOf;
    if PesStart(pes) && PesTimes(pes).Some? && pes[7] >= 0x80 {
      if pes[7] >= 0xC0 {
        LegacyIsNeverNone(pes[14..19]);
      } else {
        LegacyIsNeverNone(pes[9..14]);
      }
    }
  }

  lemma LegacyIsNeverNone(f: seq<byte>)
    requires |f| == 5
    ensures LegacyPts(f) != INVALID_DTS_PTS
  {
  }

  /** This parser, which asks for the payload bit, finds the PES packet of a silent
      packet where the gap filler put it. */
  lemma SilenceHasPayload(v: SilentPacket.Voice, pts: SilentPacket.GapRule.Pts, cc: int)
    requires v.Valid() && v.Buildable() && 0 <= cc < 16
    ensures var p := SilentPacket.SilentTs(v, pts, cc);
      && Payload(p) == Some(4 + v.Stuffing())
      && p[4 + v.Stuffing()..][..3] == [0, 0, 1] && p[4 + v.Stuffing()..][14..] == v.frame
  {
    hide SilentPacket.SilentTs;
    var p := SilentPacket.SilentTs(v, pts, cc);
    var pos := 4 + v.Stuffing();
    SilentPacket.SilentTsLayout(v, pts, cc);
    SilentPacket.SilentTsHeaderBits(v, pts, cc);
    PayloadBit(p[3]);
    assert p[pos..][14..] == p[pos + 14..];
    assert p[pos..][..3] == p[pos..pos + 14][..3] == [0, 0, 1];
  }

  lemma PayloadBit(b: byte)
    requires b / 16 % 2 == 1
    ensures b / 16 % 4 % 2 == 1
  {
  }

  // ----------------------------------------------------------- in-place code

  /** The stuffing of the third packet, or the mark that there is none. */
  method WriteAdaptation(buf: array<byte>, pos: nat, adLen: int) returns (end: nat)
    requires adLen <= 183 && pos + 185 <= buf.Length
    modifies buf
    ensures end == pos + if adLen > 0 then 2 + adLen else 1
    ensures buf[pos..end] == if adLen > 0 then [0x30, adLen, 0x00] + Fill(adLen - 1, 0xFF) else [0x10]
    ensures forall j :: 0 <= j < buf.Length && !(pos <= j < end) ==> buf[j] == old(buf[j])
  {
    hide Fill;
    buf[pos] := 0x10;
    if adLen > 0 {
      Store(buf, pos, [0x30, adLen, 0x00] + Fill(adLen - 1, 0xFF));
      end := pos + 3 + (adLen - 1);
    } else {
      end := pos + 1;
    }
  }

  /** The third packet, part by part. */
  lemma ThirdPacketIs(s: seq<byte>, p1: nat, p2: nat, pid: int, streamId: byte, sps: seq<byte>, pps: seq<byte>)
    requires |s| == 1316 && 0 <= pid < 0x2000 && |sps| + |pps| <= 170
    requires s[376] == TS_SYNC_BYTE && s[377] == 0x40 + pid / 256 && s[378] == pid % 256
    requires var ad := AdaptationLength(sps, pps);
      && p1 == 379 + (if ad > 0 then 2 + ad else 1) && p2 == p1 + 14 + |sps| + |pps|
      && s[379..p1] == (if ad > 0 then [0x30, ad, 0x00] + Fill(ad - 1, 0xFF) else [0x10])
      && s[p1..p2] == [0, 0, 1, streamId, 0, 0, 0x80, 0x80, 5, 0, 0, 0, 0, 0] + sps + pps
      && (ad == 0 ==> s[563] == 0)
    ensures s[376..564] == ThirdPacket(pid, streamId, sps, pps)
  {
    hide Fill;
    var ad := AdaptationLength(sps, pps);
    var header := [TS_SYNC_BYTE, 0x40 + pid / 256, pid % 256];
    var stuffing := if ad > 0 then [0x30, ad, 0x00] + Fill(ad - 1, 0xFF) else [0x10];
    var pes := [0, 0, 1, streamId, 0, 0, 0x80, 0x80, 5, 0, 0, 0, 0, 0];
    var end := if ad == 0 then [0] else [];
    assert s[376..379] == header && s[p2..564] == end;
    SilentPacket.JoinFour(s, 376, 379, p1, p2, 564);
    Ungroup(header + stuffing, pes, sps, pps, end);
  }

  lemma Ungroup(a: seq<byte>, b: seq<byte>, c: seq<byte>, d: seq<byte>, e: seq<byte>)
    ensures a + (b + c + d) + e == a + b + c + d + e
  {
  }

  /** Writes the third packet into the block, byte by byte as the source does. */
  method WriteThird(buf: array<byte>, pid: int, streamId: byte, sps: seq<byte>, pps: seq<byte>)
    requires buf.Length == 1316 && 0 <= pid < 0x2000 && |sps| + |pps| <= 170
    requires buf[376] == TS_SYNC_BYTE && buf[563] == 0
    modifies buf
    ensures buf[376..564] == ThirdPacket(pid, streamId, sps, pps)
    ensures forall j :: 0 <= j < 1316 && !(376 <= j < 564) ==> buf[j] == old(buf[j])
  {
    hide Fill, ThirdPacket;
    var pos := WriteThirdHeader(buf, pid);
    var len := |sps| + |pps| + 9 + 5;
    var adLen := TS_PACK_LEN - 4 - len - 1;
    pos := WriteAdaptation(buf, pos, adLen);
    ghost var b := buf[379..pos];
    var end := WriteThirdPayload(buf, pos, streamId, sps, pps);
    assert buf[379..pos] == b;
    ThirdPacketIs(buf[..], pos, end, pid, streamId, sps, pps);
  }

  method WriteThirdHeader(buf: array<byte>, pid: int) returns (pos: nat)
    requires buf.Length == 1316 && 0 <= pid < 0x2000
    modifies buf
    ensures pos == 379 && buf[377] == 0x40 + pid / 256 && buf[378] == pid % 256
    ensures forall j :: 0 <= j < 1316 && j != 377 && j != 378 ==> buf[j] == old(buf[j])
  {
    pos := 376;
    pos := pos + 1;
    buf[pos] := 0x40 + pid / 256;
    pos := pos + 1;
    buf[pos] := pid % 256;
    pos := pos + 1;
  }

  method WriteThirdPayload(buf: array<byte>, pos: nat, streamId: byte, sps: seq<byte>, pps: seq<byte>) returns (end: nat)
    requires pos + 14 + |sps| + |pps| <= buf.Length
    modifies buf
    ensures end == pos + 14 + |sps| + |pps|
    ensures buf[pos..end] == [0, 0, 1, streamId, 0, 0, 0x80, 0x80, 5, 0, 0, 0, 0, 0] + sps + pps
    ensures forall j :: 0 <= j < buf.Length && !(pos <= j < end) ==> buf[j] == old(buf[j])
  {
    var head: seq<byte> := [0, 0, 1, streamId, 0, 0, 0x80, 0x80, 5, 0, 0, 0, 0, 0];
    Store(buf, pos, head + sps + pps);
    end := pos + |head + sps + pps|;
  }

  /** The block assembly of `sls_pes2es`. */
  method Assemble(ti: TsInfo, pid: int, streamId: byte)
    requires ti.tsData[..] == IdleBlock() && 0 <= pid < 0x2000 && |ti.pat| == 188 && |ti.pmt| == 188
    modifies ti`needSpsPps, ti`esPid, ti.tsData
    ensures Look(ti) == Assembled(old(Look(ti)), pid, streamId)
  {
    hide BootBlock, IdleBlock;
    if |ti.sps| + |ti.pps| + 14 > TS_PACK_LEN - 4 {
      ti.needSpsPps := false;
      return;
    }
    ti.esPid := pid;
    WriteBlock(ti.tsData, ti.pat, ti.pmt, pid, streamId, ti.sps, ti.pps);
    ti.needSpsPps := false;
  }

  method WriteBlock(buf: array<byte>, pat: seq<byte>, pmt: seq<byte>, pid: int, streamId: byte, sps: seq<byte>,
                    pps: seq<byte>)
    requires buf[..] == IdleBlock() && |pat| == |pmt| == 188 && 0 <= pid < 0x2000 && |sps| + |pps| <= 170
    modifies buf
    ensures buf[..] == BootBlock(pat, pmt, pid, streamId, sps, pps)
  {
    hide ThirdPacket, AdaptationLength;
    ghost var idle := buf[..];
    assert idle[376] == 0x47 && idle[563] == 0;
    Store(buf, 0, pat);
    Store(buf, TS_PACK_LEN, pmt);
    ghost var mid := buf[..];
    WriteThird(buf, pid, streamId, sps, pps);
    BlockFrom(idle, mid, buf[..], pat, pmt);
  }

  lemma BlockFrom(idle: seq<byte>, mid: seq<byte>, done: seq<byte>, pat: seq<byte>, pmt: seq<byte>)
    requires |idle| == |mid| == |done| == 1316 && |pat| == |pmt| == 188
    requires forall j :: 0 <= j < 1316 ==>
      mid[j] == if j < 188 then pat[j] else if j < 376 then pmt[j - 188] else idle[j]
    requires forall j :: 0 <= j < 1316 && !(376 <= j < 564) ==> done[j] == mid[j]
    ensures done == pat + pmt + done[376..564] + idle[564..]
  {
    assert done[..188] == pat;
    assert done[188..376] == pmt;
    assert done[564..] == idle[564..];
    SilentPacket.JoinFour(done, 0, 188, 376, 564, 1316);
    assert done == done[0..1316];
  }

  /** As long as the block is wanted it has not been touched. */
  predicate BlockOk(b: Boot) {
    TablesOk(b) && |b.tsData| == 1316 && (b.need ==> b.tsData == IdleBlock())
  }

  /** The two timestamps, if the header announces any. */
  method ReadTimes(pes: seq<byte>, ti: TsInfo) returns (at: Option<nat>)
    requires |pes| >= 9
    modifies ti`dts, ti`pts
    ensures match PesTimes(pes)
      case None => at == None && ti.dts == ti.pts == INVALID_DTS_PTS
      case Some((dts, pts, start)) => at == Some(start) && ti.dts == dts && ti.pts == pts
  {
    hide LegacyPts;
    var flags := pes[7];
    ti.dts := INVALID_DTS_PTS;
    ti.pts := INVALID_DTS_PTS;
    var pos := 9;
    if flags / 64 == 2 {
      if pos + 5 > |pes| {
        return None;
      }
      ti.pts := LegacyPts(pes[pos..pos + 5]);
      ti.dts := ti.pts;
      pos := pos + 5;
    } else if flags / 64 == 3 {
      if pos + 10 > |pes| {
        return None;
      }
      ti.pts := LegacyPts(pes[pos..pos + 5]);
      pos := pos + 5;
      ti.dts := LegacyPts(pes[pos..pos + 5]);
      pos := pos + 5;
    }
    return Some(pos);
  }

  /** The parameter-set half of `sls_pes2es`. */
  method ReadParams(es: seq<byte>, ti: TsInfo, pid: int, streamId: byte) returns (ok: bool)
    requires BlockOk(Look(ti)) && 0 <= pid < 0x2000
    modifies ti`esPid, ti`needSpsPps, ti`sps, ti`pps, ti.tsData
    ensures (Look(ti), ok) == TakeParams(old(Look(ti)), es, pid, streamId)
  {
    hide IdleBlock, Extract, Assembled;
    ok := true;
    if ti.needSpsPps && 0 < |es| {
      ok := ParseSpsPps(es, ti);
      if |ti.sps| > 0 && |ti.pps| > 0 && |ti.pat| > 0 && |ti.pmt| > 0 {
        Assemble(ti, pid, streamId);
      }
    }
  }

  /** The timecode fields of `ts_info`. */
  datatype Clock = Clock(valid: bool, time: Sei.Timecode, lastPts: int, updates: nat)

  ghost function ClockOf(ti: TsInfo): Clock
    reads ti
  {
    Clock(ti.seiValid, Sei.Timecode(ti.seiHours, ti.seiMinutes, ti.seiSeconds, ti.seiFrames), ti.seiLastPts,
          ti.seiUpdateCount)
  }

  function Ticked(c: Clock, t: Option<Sei.Timecode>, pts: int): Clock {
    match t
    case Some(time) => Clock(true, time, pts, c.updates + 1)
    case None => c
  }

  /** The timecode a video PES packet carries, if its header is whole. */
  function TimecodeIn(pes: seq<byte>): Option<Sei.Timecode> {
    if !PesStart(pes) || pes[3] != 0xE0 then None
    else
      match PesTimes(pes)
      case None => None
      case Some((dts, pts, at)) => if at < |pes| then Sei.TimecodeFrom(pes[at..], 0) else None
  }

  /** The timecode a packet brings to the record: it must belong to the stream. */
  function TimecodeOf(b: Boot, p: SilentPacket.Packet): Option<Sei.Timecode> {
    var pid := SilentPacket.PacketPid(p);
    if p[0] != TS_SYNC_BYTE || !SilentPacket.IsStart(p) || pid == PAT_PID || pid == b.pmtPid
       || (b.esPid != INVALID_PID && b.esPid != pid)
    then None
    else PayloadTimecode(p)
  }

  function PayloadTimecode(p: SilentPacket.Packet): Option<Sei.Timecode> {
    match Payload(p) case None => None case Some(pos) => TimecodeIn(p[pos..])
  }

  /** A timecode is looked for behind every whole header of a video stream id, and nowhere
      else. */
  lemma TimecodeOnlyInVideo(prefix: int, streamId: byte, length: int, mark: byte, times: int, flags: int, size: byte,
                            tail: seq<byte>)
    requires 0 <= prefix < 0x100_0000 && 0 <= length < 0x1_0000 && 0 <= times < 4 && 0 <= flags < 64
    ensures var room := if times == 2 then 5 else if times == 3 then 10 else 0;
      TimecodeIn(SilentPacket.PesFixed(prefix, streamId, length, mark, times, flags, size) + tail)
      == if prefix == 1 && streamId == 0xE0 && |tail| > room then Sei.TimecodeFrom(tail[room..], 0) else None
  {
    hide LegacyPts, Sei.TimecodeFrom;
    var head := SilentPacket.PesFixed(prefix, streamId, length, mark, times, flags, size);
    var pes := head + tail;
    assert forall k :: 0 <= k < 9 ==> pes[k] == head[k];
    TwoParts(times, flags, 64);
    SilentPacket.PrefixIs(prefix);
    var room := if times == 2 then 5 else if times == 3 then 10 else 0;
    if |tail| > room {
      assert pes[9 + room..] == tail[room..];
    }
  }

  /** `sls_pes2es`. */
  method Pes2Es(pes: seq<byte>, ti: TsInfo, pid: int) returns (ok: bool)
    requires BlockOk(Look(ti)) && 0 <= pid < 0x2000
    modifies ti`esPid, ti`dts, ti`pts, ti`needSpsPps, ti`sps, ti`pps, ti.tsData
    modifies ti`seiValid, ti`seiHours, ti`seiMinutes, ti`seiSeconds, ti`seiFrames, ti`seiLastPts, ti`seiUpdateCount
    ensures (Look(ti), ok) == PesStep(old(Look(ti)), pes, pid)
    ensures ClockOf(ti) == Ticked(old(ClockOf(ti)), TimecodeIn(pes), ti.pts)
  {
    hide IdleBlock, TakeParams, PesTimes, Sei.TimecodeFrom;
    if |pes| < 3 || pes[0] != 0x00 || pes[1] != 0x00 || pes[2] != 0x01 {
      return false;
    }
    if |pes| < 4 {
      return false;
    }
    var streamId := pes[3];
    if streamId != 0xE0 && streamId != 0xC0 {
      return false;
    }
    if |pes| < 6 {
      return false;
    }
    if |pes| < 9 {
      return false;
    }
    var at := ReadTimes(pes, ti);
    if at == None {
      return false;
    }
    var es := pes[at.value..];
    if streamId == 0xE0 && 0 < |es| {
      Sei.ParseSeiTimecode(es, ti);
    }
    ok := ReadParams(es, ti, pid, streamId);
  }

  /** The PMT section of a packet that starts one, behind the pointer byte. */
  function PmtTable(p: SilentPacket.Packet): seq<byte> {
    if SilentPacket.PayloadOffset(p) + 1 < TS_PACK_LEN then p[SilentPacket.PayloadOffset(p) + 1..] else []
  }

  /** `pmt_parsed` and `video_pid_found`. */
  datatype Flags = Flags(parsed: bool, video: bool)

  function FlagsOf(ti: TsInfo): Flags
    reads ti
  {
    Flags(ti.pmtParsed, ti.videoPidFound)
  }

  /** What a PMT packet teaches a record that has found no audio track yet. */
  function FlagsFrom(f: Flags, p: SilentPacket.Packet): Flags {
    if f.parsed || |PmtTable(p)| < 12 then f
    else
      var streams := PmtStreams(PmtTable(p));
      Flags(TracksFor(AudioOf(PmtTable(p), streams)) != [], f.video || AnyVideo(streams))
  }

  function FlagsAfter(f: Flags, b: Boot, p: SilentPacket.Packet): Flags {
    var pid := SilentPacket.PacketPid(p);
    if p[0] == TS_SYNC_BYTE && SilentPacket.IsStart(p) && pid != PAT_PID && pid == b.pmtPid then FlagsFrom(f, p) else f
  }

  /** The PMT is saved each time, and read for audio tracks until that has worked once. */
  method SavePmt(p: SilentPacket.Packet, ti: TsInfo)
    modifies ti`pmt, ti`pmtParsed, ti`tracks, ti`videoPid, ti`videoPidFound
    ensures ti.pmt == p
    ensures var table := PmtTable(p);
      if old(ti.pmtParsed) || |table| < 12 then unchanged(ti`pmtParsed, ti`tracks, ti`videoPid, ti`videoPidFound)
      else
        && ti.tracks == TracksFor(AudioOf(table, PmtStreams(table))) && ti.pmtParsed == (ti.tracks != [])
        && ti.videoPid == LastVideoPid(PmtStreams(table), old(ti.videoPid))
        && ti.videoPidFound == (old(ti.videoPidFound) || AnyVideo(PmtStreams(table)))
    ensures FlagsOf(ti) == FlagsFrom(old(FlagsOf(ti)), p)
  {
    hide AudioOf, PmtStreams, TracksFor, LastVideoPid, AnyVideo;
    ti.pmt := p;
    if !ti.pmtParsed {
      var offset := SilentPacket.PayloadOffset(p) + 1;
      if offset < TS_PACK_LEN {
        var found := ParsePmtForAudio(p[offset..], ti);
      }
    }
  }

  /** `sls_parse_ts_info`. */
  method ParseTsInfo(packet: seq<byte>, ti: TsInfo) returns (ok: bool)
    requires BlockOk(Look(ti))
    modifies ti`esPid, ti`dts, ti`pts, ti`needSpsPps, ti`sps, ti`pps, ti.tsData, ti`pat, ti`pmtPid, ti`pmt
    modifies ti`pmtParsed, ti`tracks, ti`videoPid, ti`videoPidFound
    modifies ti`seiValid, ti`seiHours, ti`seiMinutes, ti`seiSeconds, ti`seiFrames, ti`seiLastPts, ti`seiUpdateCount
    ensures |packet| < 188 ==> !ok && unchanged(ti) && unchanged(ti.tsData)
    ensures |packet| >= 188 ==> (Look(ti), ok) == PacketStep(old(Look(ti)), packet[..188])
    ensures |packet| >= 188 ==>
      ClockOf(ti) == Ticked(old(ClockOf(ti)), TimecodeOf(old(Look(ti)), packet[..188]), ti.pts)
    ensures |packet| >= 188 ==> FlagsOf(ti) == FlagsAfter(old(FlagsOf(ti)), old(Look(ti)), packet[..188])
    ensures old(ti.pmtParsed) ==> ti.pmtParsed && unchanged(ti`tracks)
  {
    hide PmtTable, PayloadTimecode, FlagsFrom, PmtStreams, TracksFor, AudioOf, LastVideoPid, AnyVideo;
    hide PayloadStep, IdleBlock, BootBlock, ThirdPacket;
    if |packet| < TS_PACK_LEN {
      return false;
    }
    var p: SilentPacket.Packet := packet[..188];
    if p[0] != TS_SYNC_BYTE {
      return false;
    }
    if p[1] / 64 % 2 == 0 {
      return false;
    }
    var pid := SilentPacket.PacketPid(p);
    if pid == PAT_PID {
      ti.pat := p;
    } else {
      if ti.pmtPid == pid {
        SavePmt(p, ti);
        return true;
      }
      if ti.esPid != INVALID_PID {
        if pid != ti.esPid {
          return false;
        }
      }
    }
    ok := ReadPayload(p, ti, pid);
  }

  /** The payload half of `sls_parse_ts_info`. */
  method ReadPayload(p: SilentPacket.Packet, ti: TsInfo, pid: int) returns (ok: bool)
    requires BlockOk(Look(ti)) && 0 <= pid < 0x2000
    modifies ti`esPid, ti`dts, ti`pts, ti`needSpsPps, ti`sps, ti`pps, ti`pmtPid, ti.tsData
    modifies ti`seiValid, ti`seiHours, ti`seiMinutes, ti`seiSeconds, ti`seiFrames, ti`seiLastPts, ti`seiUpdateCount
    ensures (Look(ti), ok) == PayloadStep(old(Look(ti)), p, pid)
    ensures ClockOf(ti) == Ticked(old(ClockOf(ti)), if pid == PAT_PID then None else PayloadTimecode(p), ti.pts)
  {
    hide PesStep, TimecodeIn, IdleBlock, LastProgramPid, Visited;
    var afc := p[3] / 16 % 4;
    if afc == 0 {
      return false;
    }
    var pos := SilentPacket.PayloadOffset(p);
    if pos >= TS_PACK_LEN || afc % 2 != 1 {
      return false;
    }
    if pid == PAT_PID {
      pos := pos + 1;
      ok := ParsePat(p[pos..], ti);
      return;
    }
    ok := Pes2Es(p[pos..], ti, pid);
    if ti.dts != INVALID_DTS_PTS {
      ti.esPid := pid;
    }
    if |ti.sps| > 0 && |ti.pps| > 0 {
      ti.esPid := pid;
    }
  }
}
