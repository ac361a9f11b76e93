/** Small streams on which promises about the bootstrap block fail, or hold by a margin. */
module BootstrapSamples {
  import opened Bytes
  import opened TsInfoRecord
  import opened SpsPps
  import opened SpsPpsRoundTrip
  import opened Bootstrap
  import opened BootstrapRuns
  import opened BootstrapTrace
  import opened BootstrapScan
  import opened BootstrapPut
  import opened BootstrapReplay
  import opened SilentPacket
  import Psi

  /** A PAT that lists one program, with its PMT on PID `(hi - 0xE0) * 256`. */
  function PatFor(hi: byte): Packet {
    [0x47, 0x40, 0, 0x10, 0, 0, 0xB0, 13, 0, 1, 0xC1, 0, 0, 0, 1, hi, 0, 0, 0, 0, 0] + Fill(167, 0xFF)
  }

  function SamplePat(): Packet { PatFor(0xE1) }
  function OtherPat(): Packet { PatFor(0xE2) }

  /** A PMT that lists one H.264 stream on PID 0x101. */
  function SamplePmt(): Packet {
    [0x47, 0x41, 0, 0x10, 0, 2, 0xB0, 18, 0, 1, 0xC1, 0, 0, 0xE1, 1, 0xF0, 0, 0x1B, 0xE1, 1, 0xF0, 0, 0, 0, 0, 0]
    + Fill(162, 0xFF)
  }

  /** A PMT packet that lists no video stream. */
  function SilentPmt(): Packet { [0x47, 0x41, 0, 0x10] + Fill(184, 0xFF) }

  function SampleSps(): seq<byte> { [0, 0, 0, 1, 0x67, 0x42] }
  function SamplePps(): seq<byte> { [0, 0, 0, 1, 0x68, 0xCE] }

  /** PAT, then a video packet with both parameter sets, then the PMT. */
  function PmtLastStream(pmt: Packet): seq<Packet> {
    [SamplePat(), SampleVideo(), pmt]
  }

  function SampleVideo(): Packet { ThirdPacket(0x101, 0xE0, SampleSps(), SamplePps()) }

  lemma PatAnnouncing(hi: byte)
    requires hi >= 0xE0
    ensures IsPatPacket(PatFor(hi)) && AnnouncedPid(PatFor(hi)) == (hi - 0xE0) * 256
  {
    var pat := PatFor(hi);
    assert Payload(pat) == Some(4);
    var table := pat[5..];
    assert |table| == 183 && table[1] == 0xB0 && table[2] == 13 && table[8] == 0 && table[9] == 1;
    assert table[10] == hi && table[11] == 0;
    assert Psi.Visited(table) == 1;
    assert Psi.LastProgramPid(table, 1, INVALID_PID) == Psi.ProgramAt(table, 0).pid;
  }

  lemma PmtReads()
    ensures IsTablePacket(SamplePmt()) && PacketPid(SamplePmt()) == 0x100
    ensures IsTablePacket(SilentPmt()) && PacketPid(SilentPmt()) == 0x100
  {
    hide Fill;
  }

  lemma SampleTables()
    ensures IsPatPacket(SamplePat()) && AnnouncedPid(SamplePat()) == 0x100
    ensures IsPatPacket(OtherPat()) && AnnouncedPid(OtherPat()) == 0x200
    ensures IsTablePacket(SamplePmt()) && PacketPid(SamplePmt()) == 0x100
    ensures IsTablePacket(SilentPmt()) && PacketPid(SilentPmt()) == 0x100
  {
    hide PatFor, SamplePmt, SilentPmt, IsPatPacket, IsTablePacket, AnnouncedPid, PacketPid;
    PatAnnouncing(0xE1);
    PatAnnouncing(0xE2);
    PmtReads();
  }

  lemma SampleParams()
    ensures ParamSet(SampleSps(), NAL_SPS) && ParamSet(SamplePps(), NAL_PPS)
    ensures Extract(SampleSps() + SamplePps(), [], []) == Found(SampleSps(), SamplePps(), true)
  {
    NextCodeIs(SampleSps(), 4, 6);
    NextCodeIs(SamplePps(), 4, 6);
    RoundTripExactlyWhen(SampleSps(), SamplePps());
  }

  /** A packet that carries one payload of parameter sets, in a record that has no use for
      it but to store what it finds. */
  lemma VideoStores(b: Boot, es: seq<byte>, found: Found)
    requires Good(b) && b.need && b.pmtPid != 0x101 && b.esPid in {INVALID_PID, 0x101}
    requires 0 < |es| < 169 && Extract(es, b.sps, b.pps) == found
    requires b.pat == [] || b.pmt == [] || found.sps == [] || found.pps == []
    ensures PacketStep(b, ThirdPacket(0x101, 0xE0, es, [])).0
      == b.(dts := 0, pts := 0, sps := found.sps, pps := found.pps, esPid := 0x101)
  {
    hide Extract, ThirdPacket, Payload, PesTimes, PesStart, IsStart, IdleBlock;
    ThirdReadsBack(0x101, 0xE0, es, []);
    assert es + [] + Padding(es, []) == es;
  }

  /** The same when it completes a record that has both tables: the block is built. */
  lemma VideoBuilds(b: Boot, es: seq<byte>, found: Found)
    requires Good(b) && b.need && b.pmtPid != 0x101 && b.esPid in {INVALID_PID, 0x101}
    requires 0 < |es| < 169 && Extract(es, b.sps, b.pps) == found && |found.sps| + |found.pps| <= 170
    requires b.pat != [] && b.pmt != [] && found.sps != [] && found.pps != []
    ensures PacketStep(b, ThirdPacket(0x101, 0xE0, es, [])).0
      == b.(dts := 0, pts := 0, need := false, sps := found.sps, pps := found.pps, esPid := 0x101,
            tsData := BootBlock(b.pat, b.pmt, 0x101, 0xE0, found.sps, found.pps))
  {
    hide Extract, ThirdPacket, Payload, PesTimes, PesStart, IsStart, IdleBlock, BootBlock;
    ThirdReadsBack(0x101, 0xE0, es, []);
    assert es + [] + Padding(es, []) == es;
  }

  lemma VideoIsOnePayload()
    ensures SampleVideo() == ThirdPacket(0x101, 0xE0, SampleSps() + SamplePps(), [])
  {
    SamePacket(0x101, 0xE0, SampleSps(), SamplePps(), SampleSps() + SamplePps(), []);
  }

  // ------------------------------------------------------------ single steps

  lemma PatTaken(b: Boot, pat: Packet)
    requires Good(b) && IsPatPacket(pat) && AnnouncedPid(pat) != INVALID_PID
    ensures PacketStep(b, pat).0 == b.(pat := pat, pmtPid := AnnouncedPid(pat))
  {
    hide IdleBlock, Synced, IsStart, Psi.LastProgramPid, Psi.Visited;
    if Payload(pat).Some? {
      var table := pat[Payload(pat).value + 1..];
      if |table| >= 8 {
        AnyDefault(table, Psi.Visited(table), b.pmtPid);
      }
    }
  }

  /** A run, one packet longer. */
  lemma AfterPush(ps: seq<Packet>, p: Packet)
    requires Good(Initial())
    ensures After(Initial(), ps + [p]) == PacketStep(After(Initial(), ps), p).0
  {
    hide PacketStep, IdleBlock, Synced;
    AfterConcat(Initial(), ps, [p]);
    var b := After(Initial(), ps);
    StepKeeps(b, p);
    assert [p][1..] == [];
  }

  /** A record that knows the PAT and the PMT. */
  function WithTables(): Boot { Initial().(pat := SamplePat(), pmtPid := 0x100, pmt := SamplePmt()) }

  lemma AfterTables()
    ensures Good(Initial()) && Good(WithTables())
    ensures After(Initial(), [SamplePat(), SamplePmt()]) == WithTables()
  {
    hide PacketStep, After, IdleBlock, Synced, SamplePat, SamplePmt, AnnouncedPid, IsPatPacket, PacketPid, IsStart;
    InitialIsGood();
    SampleTables();
    NoPackets();
    assert [] + [SamplePat()] == [SamplePat()] && [SamplePat()] + [SamplePmt()] == [SamplePat(), SamplePmt()];
    AfterPush([], SamplePat());
    PatTaken(Initial(), SamplePat());
    AfterPush([SamplePat()], SamplePmt());
    PmtOnly(After(Initial(), [SamplePat()]), SamplePmt());
  }

  lemma NoPackets()
    requires Good(Initial())
    ensures After(Initial(), []) == Initial()
  {
  }

  // --------------------------------------- blocks that do not reproduce themselves

  /** A PPS behind which a start code ends the packet, then, in its own packet, the SPS. */
  function TrailingRun(): seq<Packet> {
    [SamplePat(), SamplePmt()]
    + [ThirdPacket(0x101, 0xE0, SamplePps() + TRAILER, [])] + [ThirdPacket(0x101, 0xE0, SampleSps(), [])]
  }

  /** The run builds a block with a clean SPS; a receiver that is fed the block builds
      another one. */
  lemma TrailingBlockIsNotReproduced()
    ensures Good(Initial())
    ensures var c := After(Initial(), TrailingRun());
      && BuildCount(Initial(), TrailingRun()) == 1 && c.sps == SampleSps() && c.pps == SamplePps() + TRAILER
      && After(Initial(), PacketsOf(c.tsData)).tsData != c.tsData
  {
    hide PacketStep, After, IdleBlock, Synced, SamplePat, SamplePmt, ThirdPacket, BuildCount, BootBlock, Extract,
      AnnouncedPid, PacketPid;
    var tables, ps := [SamplePat(), SamplePmt()], TrailingRun();
    var first, second := ThirdPacket(0x101, 0xE0, SamplePps() + TRAILER, []), ThirdPacket(0x101, 0xE0, SampleSps(), []);
    AfterTables();
    TablesAreThere();
    TrailingSample();
    AfterPush(tables, first);
    VideoStores(WithTables(), SamplePps() + TRAILER, Found([], SamplePps() + TRAILER, false));
    AfterPush(tables + [first], second);
    VideoBuilds(After(Initial(), tables + [first]), SampleSps(), Found(SampleSps(), SamplePps() + TRAILER, true));
    BuiltAtMostOnce(Initial(), ps);
    RebuiltExactlyWhen(ps);
  }

  lemma TablesAreThere()
    ensures SamplePat() != [] && SamplePmt() != [] && OtherPat() != []
  {
    assert |SamplePat()| == |SamplePmt()| == |OtherPat()| == 188;
  }

  /** The PAT is refreshed with another PMT PID before the parameter sets come. */
  function RefreshedRun(): seq<Packet> {
    [SamplePat(), SamplePmt()] + [OtherPat()] + [SampleVideo()]
  }

  /** The block holds a PAT that does not announce its PMT. */
  lemma RefreshedBlockIsNotReproduced()
    ensures Good(Initial())
    ensures var c := After(Initial(), RefreshedRun());
      && BuildCount(Initial(), RefreshedRun()) == 1 && Replayable(c.sps, c.pps)
      && After(Initial(), PacketsOf(c.tsData)).tsData != c.tsData
  {
    hide PacketStep, After, IdleBlock, Synced, SamplePat, SamplePmt, OtherPat, SampleVideo, ThirdPacket, BuildCount,
      BootBlock, Extract, AnnouncedPid, PacketPid, IsPatPacket;
    var tables, ps := [SamplePat(), SamplePmt()], RefreshedRun();
    AfterTables();
    SampleTables();
    TablesAreThere();
    SampleParams();
    VideoIsOnePayload();
    AfterPush(tables, OtherPat());
    PatTaken(WithTables(), OtherPat());
    AfterPush(tables + [OtherPat()], SampleVideo());
    VideoBuilds(After(Initial(), tables + [OtherPat()]), SampleSps() + SamplePps(), Found(SampleSps(), SamplePps(), true));
    BlockParts(OtherPat(), SamplePmt(), 0x101, 0xE0, SampleSps(), SamplePps());
    BuiltAtMostOnce(Initial(), ps);
    RebuiltExactlyWhen(ps);
  }

  /** A block whose SPS ends in 00 00 00 01. */
  lemma SampleBlockIsNotReproduced()
    ensures Good(Initial())
    ensures var block := BootBlock(SamplePat(), SamplePmt(), 0x101, 0xE0, [0, 0, 0, 1, 0x67, 0, 0, 0, 1], SamplePps());
      After(Initial(), PacketsOf(block)).tsData != block
  {
    hide BootBlock, After, SamplePat, SamplePmt, AnnouncedPid, IsPatPacket, IsTablePacket;
    var sps: seq<byte> := [0, 0, 0, 1, 0x67, 0, 0, 0, 1];
    SampleTables();
    SampleParams();
    NextCodeIs(sps, 4, 9);
    BlockReproducesItselfExactlyWhen(SamplePat(), SamplePmt(), 0x101, 0xE0, sps, SamplePps());
  }

  // ------------------------------------------------------------ the PMT last

  /** The record when everything has come and the PMT was last. */
  function PmtLast(pmt: Packet): Boot {
    Initial().(dts := 0, pts := 0, esPid := 0x101, sps := SampleSps(), pps := SamplePps(),
               pat := SamplePat(), pmtPid := 0x100, pmt := pmt)
  }

  /** The first pass over such a stream leaves it there, with the flags the PMT sets. */
  lemma PmtLastIsGathered(pmt: Packet)
    requires IsTablePacket(pmt) && PacketPid(pmt) == 0x100
    ensures Good(Initial()) && Good(PmtLast(pmt)) && Complete(PmtLast(pmt))
    ensures Gathered(Fresh(), PmtLastStream(pmt)) == Feed(PmtLast(pmt), FlagsFrom(Flags(false, false), pmt))
  {
    hide PacketStep, IdleBlock, Synced, SamplePat, SampleVideo, ThirdPacket, Extract, AnnouncedPid, FlagsFrom,
      IsStart, Gathered;
    var ps := PmtLastStream(pmt);
    InitialIsGood();
    SampleTables();
    TablesAreThere();
    SampleParams();
    VideoIsOnePayload();
    VideoReads();
    PatTaken(Initial(), SamplePat());
    var f1 := FeedStep(Fresh(), ps[0]);
    VideoStores(f1.boot, SampleSps() + SamplePps(), Found(SampleSps(), SamplePps(), true));
    var f2 := FeedStep(f1, ps[1]);
    PmtOnly(f2.boot, pmt);
    var f3 := FeedStep(f2, ps[2]);
    GatherOne(Fresh(), ps);
    GatherOne(f1, ps[1..]);
    GatherOne(f2, ps[1..][1..]);
    assert ps[1..][1..][1..] == [] && |pmt| == 188;
    GatherDone(f3, []);
  }

  lemma VideoReads()
    ensures SampleVideo()[0] == TS_SYNC_BYTE && PacketPid(SampleVideo()) == 0x101
  {
    hide ThirdPacket, Payload, PesTimes, PesStart, IsStart, PacketPid;
    ThirdReadsBack(0x101, 0xE0, SampleSps(), SamplePps());
  }

  lemma GatherOne(f: Feed, ps: seq<Packet>)
    requires Good(f.boot) && ps != [] && !Complete(f.boot)
    ensures Gathered(f, ps) == Gathered(FeedStep(f, ps[0]), ps[1..])
  {
    hide FeedStep;
  }

  lemma GatherDone(f: Feed, ps: seq<Packet>)
    requires Good(f.boot) && (ps == [] || Complete(f.boot))
    ensures Gathered(f, ps) == f
  {
  }

  lemma FlagsOfSamples()
    ensures FlagsFrom(Flags(false, false), SamplePmt()).video
    ensures FlagsFrom(Flags(false, false), SilentPmt()) == Flags(false, false)
  {
    VideoIsListed();
    NothingIsListed();
  }

  lemma VideoIsListed()
    ensures |PmtTable(SamplePmt())| >= 12 && Psi.AnyVideo(Psi.PmtStreams(PmtTable(SamplePmt())))
  {
    var head: seq<byte> := [0x47, 0x41, 0, 0x10, 0, 2, 0xB0, 18, 0, 1, 0xC1, 0, 0, 0xE1, 1, 0xF0, 0, 0x1B, 0xE1, 1,
                            0xF0, 0, 0, 0, 0, 0];
    TableOf(head, Fill(162, 0xFF));
    VideoTable(PmtTable(SamplePmt()));
  }

  /** The table of a packet without adaptation field begins at its sixth byte. */
  lemma TableOf(head: seq<byte>, rest: seq<byte>)
    requires |head| >= 5 && |head| + |rest| == 188 && head[3] == 0x10
    ensures PmtTable(head + rest) == head[5..] + rest
  {
    var p: Packet := head + rest;
    assert p[3] == head[3] && PayloadOffset(p) == 4;
    assert p[5..] == head[5..] + rest;
  }

  lemma VideoTable(t: seq<byte>)
    requires |t| >= 21 && t[..21] == [2, 0xB0, 18, 0, 1, 0xC1, 0, 0, 0xE1, 1, 0xF0, 0, 0x1B, 0xE1, 1, 0xF0, 0, 0, 0, 0, 0]
    ensures Psi.AnyVideo(Psi.PmtStreams(t))
  {
    var h := t[..21];
    assert t[1] == h[1] && t[2] == h[2] && t[10] == h[10] && t[11] == h[11];
    assert t[12] == h[12] && t[15] == h[15] && t[16] == h[16];
    Psi.StreamsUnfold(t, 12, 17);
    Psi.StreamsUnfold(t, 17, 17);
    assert Psi.IsVideo(Psi.PmtStreams(t)[0]);
  }

  lemma NothingIsListed()
    ensures var t := PmtTable(SilentPmt());
      |t| >= 12 && Psi.PmtStreams(t) == [] && Psi.TracksFor(Psi.AudioOf(t, [])) == [] && !Psi.AnyVideo([])
  {
    var head: seq<byte> := [0x47, 0x41, 0, 0x10];
    var t := PmtTable(SilentPmt());
    assert head + Fill(184, 0xFF) == (head + [0xFF]) + Fill(183, 0xFF);
    TableOf(head + [0xFF], Fill(183, 0xFF));
    assert t == Fill(183, 0xFF);
    Psi.StreamsUnfold(t, 12 + 4095, 4094);
  }

  /** `check_ts_info` leaves the block idle, and the timecode scan of the very same chunk
      builds it: the PMT lists the video stream, and the scan reads the packets again. */
  lemma ScanBuildsAtOnce()
    ensures Good(Initial())
    ensures Gathered(Fresh(), PmtLastStream(SamplePmt())).boot.tsData == IdleBlock()
    ensures PutStep(Fresh(), PmtLastStream(SamplePmt())).boot.tsData
      == BootBlock(SamplePat(), SamplePmt(), 0x101, 0xE0, SampleSps(), SamplePps())
  {
    hide PacketStep, IdleBlock, Synced, SamplePat, SamplePmt, SampleVideo, ThirdPacket, Extract, AnnouncedPid, FlagsFrom,
      IsPatPacket, IsTablePacket, PacketPid, IsStart, Gathered, Scanned, After, BootBlock;
    var ps := PmtLastStream(SamplePmt());
    SampleTables();
    TablesAreThere();
    FlagsOfSamples();
    PmtLastIsGathered(SamplePmt());
    var g := Gathered(Fresh(), ps);
    ScannedBoot(g, ps);
    VideoIsOnePayload();
    ReadAgain();
    PatTaken(g.boot, SamplePat());
    VideoBuilds(g.boot, SampleSps() + SamplePps(), Found(SampleSps(), SamplePps(), true));
    StepKeeps(g.boot, ps[0]);
    StepKeeps(g.boot, ps[1]);
    assert ps == [ps[0]] + ([ps[1]] + [ps[2]]);
    AfterConcat(g.boot, [ps[0]], [ps[1]] + [ps[2]]);
    AfterOne(g.boot, ps[0]);
    AfterConcat(g.boot, [ps[1]], [ps[2]]);
    AfterOne(g.boot, ps[1]);
    DecidedForGood(PacketStep(g.boot, ps[1]).0, [ps[2]]);
  }

  lemma AfterOne(b: Boot, p: Packet)
    requires Good(b)
    ensures After(b, [p]) == PacketStep(b, p).0
  {
    hide PacketStep, IdleBlock, Synced;
    StepKeeps(b, p);
    assert [p][1..] == [];
  }

  /** Parsing the same payload again finds the same sets: the parse stops at the first
      start code, with both stored. */
  lemma ReadAgain()
    ensures Extract(SampleSps() + SamplePps(), SampleSps(), SamplePps()) == Found(SampleSps(), SamplePps(), true)
  {
    hide ScanFrom, NextCode;
    var es := SampleSps() + SamplePps();
    var s := Scan(-1, 0, SampleSps(), SamplePps());
    NextCodeIs(es, 0, 0);
    NextCodeIs(es, 4, 6);
    ScanStep(es, 0, s);
    assert Opened(es, s, 0) == Scan(0, NAL_SPS, SampleSps(), SamplePps());
    assert es[0..6] == SampleSps();
    StopsWithBoth(es, 4, Scan(0, NAL_SPS, SampleSps(), SamplePps()), 6);
  }

  lemma StopsWithBoth(es: seq<byte>, pos: nat, s: Scan, c: nat)
    requires pos <= |es| && 0 <= s.start <= pos && c == NextCode(es, pos) < |es| && s.nalType == NAL_SPS
    requires 0 < c - s.start <= TS_PACK_LEN && es[s.start..c] == s.sps && s.pps != []
    ensures ScanFrom(es, pos, s) == Found(s.sps, s.pps, true)
  {
    hide NextCode, CodeAt, Opened;
  }

  /** With a PMT that lists no video the scan never runs: whatever chunks follow, the block
      stays seven null packets, though everything has been collected. */
  lemma {:induction false} WithoutVideoStaysIdle(f: Feed, chunks: seq<seq<Packet>>)
    requires Good(f.boot) && Complete(f.boot) && !f.flags.video
    ensures PutAll(f, chunks) == f
    decreases |chunks|
  {
    hide Good;
    if chunks != [] {
      GatherDone(f, chunks[0]);
      WithoutVideoStaysIdle(f, chunks[1..]);
    }
  }

  lemma SilentPmtLeavesBlockIdle(chunks: seq<seq<Packet>>)
    ensures Good(Initial())
    ensures var b := PutAll(Fresh(), [PmtLastStream(SilentPmt())] + chunks).boot;
      Complete(b) && b.need && b.tsData == IdleBlock()
  {
    hide IdleBlock, Synced, SilentPmt, SamplePat, SampleVideo, FlagsFrom, IsPatPacket, IsTablePacket, PacketPid, Gathered,
      AnnouncedPid;
    SampleTables();
    FlagsOfSamples();
    PmtLastIsGathered(SilentPmt());
    var f := Gathered(Fresh(), PmtLastStream(SilentPmt()));
    WithoutVideoStaysIdle(f, chunks);
    assert ([PmtLastStream(SilentPmt())] + chunks)[1..] == chunks;
  }
}
