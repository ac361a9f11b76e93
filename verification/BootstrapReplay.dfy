/** The bootstrap block is itself a piece of stream that subscribers parse: what the
    parser makes of its own block (sls-patch/src/core/common.cpp). */
module BootstrapReplay {
  import opened Bytes
  import opened TsInfoRecord
  import opened SpsPps
  import opened SpsPpsRoundTrip
  import opened Bootstrap
  import opened BootstrapRuns
  import opened BootstrapScan
  import opened BootstrapTrace
  import opened SilentPacket
  import Psi

  // ----------------------------------------------- what the third packet carries

  /** The padding byte that the third packet carries when its payload is one byte short. */
  function Padding(sps: seq<byte>, pps: seq<byte>): (z: seq<byte>) {
    if |sps| + |pps| == 169 then [0] else []
  }

  /** No start code is made at the end of the SPS or of a padded PPS, and the PPS carries
      no trailing one. */
  predicate Replayable(sps: seq<byte>, pps: seq<byte>) {
    !EndsInCode(sps) && !EndsInTrailer(pps) && !(|sps| + |pps| == 169 && EndsInCode(pps))
  }

  /** A padded PPS still stands on its own unless it ends in 00 00 00 01, which the byte
      turns into a start code. */
  lemma PaddedPps(pps: seq<byte>)
    requires ParamSet(pps, NAL_PPS) && |pps| < TS_PACK_LEN
    ensures var x := pps + [0];
      && Begins(x, NAL_PPS) && CodeLen(x, 0) == CodeLen(pps, 0)
      && (if EndsInCode(pps) then NextCode(x, CodeLen(x, 0)) <= |x| - 5 else NextCode(x, CodeLen(x, 0)) == |x|)
  {
    hide NextCode;
    var x := pps + [0];
    var n, m := CodeLen(pps, 0), |pps|;
    assert CodeAt(pps, 0) && pps[n] != 0 && pps[n - 1] == 1;
    CodesOfHead(pps, [0], 0);
    if EndsInCode(pps) {
      assert x[m - 4] == 0 && x[m - 3] == 0 && x[m - 2] == 0 && x[m - 1] == 1 && m - 4 >= n;
      if NextCode(x, n) > m - 4 {
        NothingBefore(x, n, m - 4);
      }
    } else {
      forall i: nat | n <= i < |x|
        ensures !CodeAt(x, i)
      {
        NoCodeInPadded(pps, i);
      }
      NextCodeIs(x, n, |x|);
    }
  }

  lemma NoCodeInPadded(pps: seq<byte>, i: nat)
    requires ParamSet(pps, NAL_PPS) && !EndsInCode(pps) && CodeLen(pps, 0) <= i
    ensures !CodeAt(pps + [0], i)
  {
    hide NextCode;
    var x := pps + [0];
    if i + 4 < |pps| {
      NothingBefore(pps, CodeLen(pps, 0), i);
      CodesOfHead(pps, [0], i);
    } else if i + 4 == |pps| {
      assert x[i] == pps[i] && x[i + 1] == pps[i + 1] && x[i + 2] == pps[i + 2] && x[i + 3] == pps[i + 3];
      assert x[i + 4] == 0;
    }
  }

  /** Where the parse of the third packet ends the PPS. */
  lemma PayloadEnd(sps: seq<byte>, pps: seq<byte>)
    requires Stored(pps, NAL_PPS) && |sps| + |pps| <= 170
    ensures var x := pps + Padding(sps, pps);
      && |x| <= 170 - |sps| && Begins(x, NAL_PPS)
      && |x| == |pps| + |Padding(sps, pps)| && |Padding(sps, pps)| <= 1
      && (if EndsInTrailer(pps) || (|sps| + |pps| == 169 && EndsInCode(pps))
          then NextCode(x, CodeLen(x, 0)) <= |x| - 5 else NextCode(x, CodeLen(x, 0)) == |x|)
  {
    hide NextCode, ParamSet, CodeAt;
    StoredPps(pps);
    var x := pps + Padding(sps, pps);
    if |sps| + |pps| != 169 {
      assert x == pps;
    } else if ParamSet(pps, NAL_PPS) {
      StandingHasNoTrailer(pps, NAL_PPS);
      PaddedPps(pps);
    } else {
      PaddedTrailer(pps);
    }
  }

  lemma PaddedTrailer(pps: seq<byte>)
    requires EndsInTrailer(pps) && Begins(pps, NAL_PPS) && NextCode(pps, CodeLen(pps, 0)) <= |pps| - 5
    ensures var x := pps + [0]; Begins(x, NAL_PPS) && NextCode(x, CodeLen(x, 0)) <= |x| - 5
  {
    hide NextCode;
    var x := pps + [0];
    var c := NextCode(pps, CodeLen(pps, 0));
    CodesOfHead(pps, [0], 0);
    CodesOfHead(pps, [0], c);
    if NextCode(x, CodeLen(x, 0)) > c {
      NothingBefore(x, CodeLen(x, 0), c);
    }
  }

  /** Extracting from the payload of the third packet finds two parameter sets that fill
      the same bytes, or lose at least four of them. */
  lemma ReplayFinds(sps: seq<byte>, pps: seq<byte>)
    requires Stored(sps, NAL_SPS) && Stored(pps, NAL_PPS) && |sps| + |pps| <= 170
    ensures var es := sps + pps + Padding(sps, pps); var r := Extract(es, [], []);
      && r.sps != [] && r.pps != [] && |r.sps| + |r.pps| <= 170
      && (if Replayable(sps, pps) then r.sps + r.pps == es else |r.sps| + |r.pps| <= |es| - 4)
  {
    hide Extract, NextCode, CodeAt, ScanFrom, Stored, Replayable, Padding;
    var x := pps + Padding(sps, pps);
    assert sps + x == sps + pps + Padding(sps, pps);
    PayloadEnd(sps, pps);
    if ParamSet(sps, NAL_SPS) {
      StandingReplay(sps, x);
    } else {
      StoredBehindTrailer(sps);
      TrailerReplay(sps, x);
    }
    ReplayableWhen(sps, pps);
  }

  lemma StoredBehindTrailer(sps: seq<byte>)
    requires Stored(sps, NAL_SPS) && !ParamSet(sps, NAL_SPS)
    ensures EndsInTrailer(sps) && EndsInCode(sps) && ParamSet(sps[..|sps| - 5], NAL_SPS)
  {
    hide ParamSet;
    TrailerIsCode(sps);
  }

  lemma ReplayableWhen(sps: seq<byte>, pps: seq<byte>)
    ensures Replayable(sps, pps) <==>
      !EndsInCode(sps) && !(EndsInTrailer(pps) || (|sps| + |pps| == 169 && EndsInCode(pps)))
  {
  }

  /** An SPS that stands on its own: the payload comes back whole exactly if neither the
      SPS nor the rest is cut. */
  lemma StandingReplay(sps: seq<byte>, x: seq<byte>)
    requires ParamSet(sps, NAL_SPS) && Begins(x, NAL_PPS) && |sps| + |x| <= 170
    requires var end := NextCode(x, CodeLen(x, 0)); end == |x| || end <= |x| - 5
    ensures var r := Extract(sps + x, [], []);
      && r.sps != [] && r.pps != []
      && (if !EndsInCode(sps) && NextCode(x, CodeLen(x, 0)) == |x| then r.sps + r.pps == sps + x
          else |r.sps| + |r.pps| <= |sps + x| - 4)
  {
    hide Extract, NextCode, CodeAt, ScanFrom;
    JunctionIsNextCode(sps, x);
    Reextracted(sps, x);
    SplitsAgain(sps, x);
  }

  lemma TrailerReplay(sps: seq<byte>, x: seq<byte>)
    requires EndsInTrailer(sps) && ParamSet(sps[..|sps| - 5], NAL_SPS) && Begins(x, NAL_PPS) && |sps| + |x| <= 170
    ensures var r := Extract(sps + x, [], []);
      r.sps != [] && r.pps != [] && |r.sps| + |r.pps| <= |sps + x| - 4
  {
    hide Extract, NextCode, CodeAt, ScanFrom;
    var core := sps[..|sps| - 5];
    assert sps == core + TRAILER && sps + x == core + (TRAILER + x);
    TrailerStarts(x);
    JunctionIsNextCode(core, TRAILER + x);
    ReextractedBehindTrailer(core, x);
  }

  /** The borrowed byte goes back where it came from. */
  lemma SplitsAgain(sps: seq<byte>, x: seq<byte>)
    ensures x[..|x|] == x
    ensures LendsZero(sps, x) ==> sps[..|sps| - 1] + ([0] + x) == sps + x
  {
    if LendsZero(sps, x) {
      assert sps == sps[..|sps| - 1] + [0];
    }
  }

  /** The third packet depends only on the bytes its payload holds. */
  lemma SamePacket(pid: int, streamId: byte, sps: seq<byte>, pps: seq<byte>, sps2: seq<byte>, pps2: seq<byte>)
    requires 0 <= pid < 0x2000 && |sps| + |pps| <= 170 && |sps2| + |pps2| <= 170
    requires sps2 + pps2 == sps + pps + Padding(sps, pps)
    ensures ThirdPacket(pid, streamId, sps2, pps2) == ThirdPacket(pid, streamId, sps, pps)
  {
    hide Fill;
    assert |sps2 + pps2| == |sps| + |pps| + |Padding(sps, pps)|;
    ThirdPacketOf(pid, streamId, sps, pps);
    ThirdPacketOf(pid, streamId, sps2, pps2);
    assert Padding(sps2, pps2) == [];
    assert sps2 + pps2 + [] == sps2 + pps2;
  }

  /** The header of the third packet, up to the parameter sets. */
  function ThirdHeader(pid: int, streamId: byte, ad: int): (h: seq<byte>)
    requires 0 <= pid < 0x2000 && ad <= 183
    ensures |h| == if ad > 0 then 19 + ad else 18
  {
    [TS_SYNC_BYTE, 0x40 + pid / 256, pid % 256]
    + (if ad > 0 then [0x30, ad, 0x00] + Fill(ad - 1, 0xFF) else [0x10])
    + [0, 0, 1, streamId, 0, 0, 0x80, 0x80, 5, 0, 0, 0, 0, 0]
  }

  lemma ThirdPacketOf(pid: int, streamId: byte, sps: seq<byte>, pps: seq<byte>)
    requires 0 <= pid < 0x2000 && |sps| + |pps| <= 170
    ensures ThirdPacket(pid, streamId, sps, pps)
      == ThirdHeader(pid, streamId, AdaptationLength(sps, pps)) + (sps + pps + Padding(sps, pps))
    ensures |sps| + |pps| >= 169 ==>
      ThirdHeader(pid, streamId, AdaptationLength(sps, pps)) == ThirdHeader(pid, streamId, 0)
  {
    hide Fill;
    var h := ThirdHeader(pid, streamId, AdaptationLength(sps, pps));
    assert h + sps + pps + Padding(sps, pps) == h + (sps + pps + Padding(sps, pps));
  }

  lemma OtherPacket(pid: int, streamId: byte, sps: seq<byte>, pps: seq<byte>, sps2: seq<byte>, pps2: seq<byte>)
    requires 0 <= pid < 0x2000 && |sps| + |pps| <= 170
    requires |sps2| + |pps2| <= |sps| + |pps| + |Padding(sps, pps)| - 4
    ensures ThirdPacket(pid, streamId, sps2, pps2) != ThirdPacket(pid, streamId, sps, pps)
  {
    hide Fill;
    var p, q := ThirdPacket(pid, streamId, sps, pps), ThirdPacket(pid, streamId, sps2, pps2);
    assert q[3] == 0x30 && q[4] == AdaptationLength(sps2, pps2);
    assert |sps| + |pps| >= 169 ==> p[3] == 0x10;
    assert |sps| + |pps| < 169 ==> p[4] == AdaptationLength(sps, pps);
  }

  // ------------------------------------------------------------ reading it back

  /** The transport header of the third packet says where the payload begins. */
  lemma ThirdHeaderReads(p: Packet, pid: int, ad: int)
    requires 0 <= pid < 0x2000 && ad <= 169
    requires p[0] == TS_SYNC_BYTE && p[1] == 0x40 + pid / 256 && p[2] == pid % 256
    requires if ad > 0 then p[3] == 0x30 && p[4] == ad else p[3] == 0x10
    ensures IsStart(p) && PacketPid(p) == pid && Payload(p) == Some(if ad > 0 then 5 + ad else 4)
  {
  }

  lemma PesReads(pes: seq<byte>, streamId: byte, es: seq<byte>)
    requires pes == [0, 0, 1, streamId, 0, 0, 0x80, 0x80, 5, 0, 0, 0, 0, 0] + es && streamId in {0xE0, 0xC0}
    ensures PesStart(pes) && pes[3] == streamId && PesTimes(pes) == Some((0, 0, 14)) && pes[14..] == es
  {
    assert pes[9..14] == [0, 0, 0, 0, 0];
  }

  /** The parser finds in the third packet what was put there. */
  lemma ThirdReadsBack(pid: int, streamId: byte, sps: seq<byte>, pps: seq<byte>)
    requires 0 <= pid < 0x2000 && |sps| + |pps| <= 170 && streamId in {0xE0, 0xC0}
    ensures var p := ThirdPacket(pid, streamId, sps, pps);
      && p[0] == TS_SYNC_BYTE && IsStart(p) && PacketPid(p) == pid && Payload(p).Some?
      && var pes := p[Payload(p).value..];
      && PesStart(pes) && pes[3] == streamId && PesTimes(pes) == Some((0, 0, 14))
      && pes[14..] == sps + pps + Padding(sps, pps)
  {
    hide Fill, Payload, PesStart, PesTimes, IsStart, PacketPid;
    var ad := AdaptationLength(sps, pps);
    var p := ThirdPacket(pid, streamId, sps, pps);
    var front := [TS_SYNC_BYTE, 0x40 + pid / 256, pid % 256]
      + (if ad > 0 then [0x30, ad, 0x00] + Fill(ad - 1, 0xFF) else [0x10]);
    var es := sps + pps + Padding(sps, pps);
    ThirdPacketOf(pid, streamId, sps, pps);
    var pes := [0, 0, 1, streamId, 0, 0, 0x80, 0x80, 5, 0, 0, 0, 0, 0] + es;
    assert p == front + pes;
    ThirdHeaderReads(p, pid, ad);
    assert p[|front|..] == pes;
    PesReads(pes, streamId, es);
  }

  /** Parsing the third packet in a fresh record that knows the tables. */
  lemma ThirdStep(b: Boot, pid: int, streamId: byte, sps: seq<byte>, pps: seq<byte>)
    requires Good(b) && b.need && b.sps == b.pps == [] && b.pat != [] && b.pmt != []
    requires 0 < pid < 0x2000 && b.pmtPid != pid && b.esPid in {INVALID_PID, pid}
    requires streamId in {0xE0, 0xC0}
    requires Stored(sps, NAL_SPS) && Stored(pps, NAL_PPS) && |sps| + |pps| <= 170
    ensures var r := Extract(sps + pps + Padding(sps, pps), [], []);
      && |r.sps| + |r.pps| <= 170
      && PacketStep(b, ThirdPacket(pid, streamId, sps, pps)).0.tsData
         == BootBlock(b.pat, b.pmt, pid, streamId, r.sps, r.pps)
      && !PacketStep(b, ThirdPacket(pid, streamId, sps, pps)).0.need
  {
    hide Extract, ThirdPacket, Stored, Payload, PesTimes, PesStart, IsStart, IdleBlock;
    ThirdReadsBack(pid, streamId, sps, pps);
    ReplayFinds(sps, pps);
  }

  // ------------------------------------------------------------ the whole block

  /** A block as seven packets. */
  function PacketsOf(block: seq<byte>): (ps: seq<Packet>)
    requires |block| == 1316
    ensures |ps| == 7
  {
    [block[..188], block[188..376], block[376..564], block[564..752], block[752..940], block[940..1128],
     block[1128..]]
  }

  /** Packets that start nothing leave the record as it is. */
  lemma {:induction false} ContinuationsDoNothing(b: Boot, ps: seq<Packet>)
    requires Good(b) && forall i :: 0 <= i < |ps| ==> !IsStart(ps[i])
    ensures After(b, ps) == b
    decreases |ps|
  {
    hide Synced, IsStart;
    if ps != [] {
      assert PacketStep(b, ps[0]).0 == b;
      ContinuationsDoNothing(b, ps[1..]);
    }
  }

  lemma NullPacketsDoNothing(b: Boot, block: seq<byte>)
    requires Good(b) && |block| == 1316 && block[564..] == IdleBlock()[564..]
    ensures After(b, PacketsOf(block)[3..]) == b
  {
    hide Good;
    var ps := PacketsOf(block)[3..];
    assert block[565] == block[564..][1] && block[753] == block[564..][189];
    assert block[941] == block[564..][377] && block[1129] == block[564..][565];
    assert ps[0][1] == ps[1][1] == ps[2][1] == ps[3][1] == 0x1F;
    ContinuationsDoNothing(b, ps);
  }

  /** The two tables in a fresh record: the PMT is saved exactly if the PAT announces it. */
  lemma TablesStep(pat: Packet, pmt: Packet)
    requires IsPatPacket(pat) && IsTablePacket(pmt)
    ensures Good(Initial())
    ensures var c := PacketStep(Initial(), pat).0;
      && c == Initial().(pat := pat, pmtPid := AnnouncedPid(pat))
      && (AnnouncedPid(pat) == PacketPid(pmt) ==> PacketStep(c, pmt).0 == c.(pmt := pmt))
  {
    hide Psi.LastProgramPid, Psi.Visited, IdleBlock, IsStart, Payload;
    InitialIsGood();
  }

  /** A record without a PMT cannot decide the block. */
  lemma NoPmtNoBlock(b: Boot, p: Packet)
    requires Good(b) && TablesInOrder(b) && b.pmt == [] && b.need
    ensures PacketStep(b, p).0.need
    ensures PacketStep(b, p).0.pmt == [] || PacketPid(p) == b.pmtPid
  {
    hide StreamStep, Psi.LastProgramPid, Psi.Visited, IdleBlock, Synced;
    StepKeepsOrder(b, p);
    StepKeeps(b, p);
  }

  /** If the PAT does not announce the PMT, or the stream has the PMT's PID, the block
      leaves a fresh record undecided. */
  lemma UnannouncedStaysIdle(pat: Packet, pmt: Packet, third: Packet)
    requires IsPatPacket(pat) && IsTablePacket(pmt) && third[0] == TS_SYNC_BYTE && IsStart(third)
    requires AnnouncedPid(pat) != PacketPid(pmt) || PacketPid(third) == PacketPid(pmt)
    ensures Good(Initial())
    ensures var c := PacketStep(Initial(), pat).0;
      && Good(c) && Good(PacketStep(c, pmt).0) && Good(PacketStep(PacketStep(c, pmt).0, third).0)
      && PacketStep(PacketStep(c, pmt).0, third).0.need
  {
    hide PacketStep, IdleBlock, Synced, AnnouncedPid, IsStart;
    TablesStep(pat, pmt);
    StepKeeps(Initial(), pat);
    StepKeepsOrder(Initial(), pat);
    var c := PacketStep(Initial(), pat).0;
    StepKeeps(c, pmt);
    StepKeepsOrder(c, pmt);
    var d := PacketStep(c, pmt).0;
    StepKeeps(d, third);
    if AnnouncedPid(pat) == PacketPid(pmt) {
      PmtOnly(d, third);
    } else {
      NoPmtNoBlock(c, pmt);
      NoPmtNoBlock(d, third);
    }
  }

  lemma PmtOnly(b: Boot, p: Packet)
    requires Good(b) && p[0] == TS_SYNC_BYTE && IsStart(p) && PacketPid(p) == b.pmtPid != PAT_PID
    ensures PacketStep(b, p).0 == b.(pmt := p)
  {
  }

  /** A fresh receiver that is fed a bootstrap block ends up with the very same block
      exactly when the PAT announces the PMT, the stream is not on the PMT's PID, and the
      parameter sets are replayable.  The borrowed zero of `LendsZero` does not hurt: it
      moves from one parameter set to the other and the bytes stay. */
  lemma BlockReproducesItselfExactlyWhen(pat: Packet, pmt: Packet, pid: int, streamId: byte,
                                         sps: seq<byte>, pps: seq<byte>)
    requires IsPatPacket(pat) && IsTablePacket(pmt) && 0 < pid < 0x2000 && streamId in {0xE0, 0xC0}
    requires Stored(sps, NAL_SPS) && Stored(pps, NAL_PPS) && |sps| + |pps| <= 170
    ensures Good(Initial())
    ensures var block := BootBlock(pat, pmt, pid, streamId, sps, pps);
      After(Initial(), PacketsOf(block)).tsData == block <==>
        AnnouncedPid(pat) == PacketPid(pmt) != pid && Replayable(sps, pps)
  {
    hide BootBlock, ThirdPacket, PacketStep, IdleBlock, Synced, AnnouncedPid, IsPatPacket, IsTablePacket, Replayable,
      After, Stored;
    var block := BootBlock(pat, pmt, pid, streamId, sps, pps);
    var third := ThirdPacket(pid, streamId, sps, pps);
    BlockParts(pat, pmt, pid, streamId, sps, pps);
    TablesStep(pat, pmt);
    RunOfBlock(pat, pmt, third, block);
    ThirdReadsBack(pid, streamId, sps, pps);
    if AnnouncedPid(pat) == PacketPid(pmt) != pid {
      AnnouncedReplay(pat, pmt, pid, streamId, sps, pps);
    } else {
      UnannouncedStaysIdle(pat, pmt, third);
      BlockIsNotIdle(pat, pmt, pid, streamId, sps, pps);
    }
  }

  lemma BlockIsNotIdle(pat: seq<byte>, pmt: seq<byte>, pid: int, streamId: byte, sps: seq<byte>, pps: seq<byte>)
    requires |pat| == 188 && |pmt| == 188 && 0 <= pid < 0x2000 && |sps| + |pps| <= 170
    ensures BootBlock(pat, pmt, pid, streamId, sps, pps) != IdleBlock()
  {
    var b := BootBlock(pat, pmt, pid, streamId, sps, pps);
    BlockParts(pat, pmt, pid, streamId, sps, pps);
    assert b[377] == b[376..564][1] == 0x40 + pid / 256;
    assert IdleBlock()[377] == 0x1F;
  }

  /** With its tables in order the receiver parses the parameter sets. */
  lemma AnnouncedReplay(pat: Packet, pmt: Packet, pid: int, streamId: byte, sps: seq<byte>, pps: seq<byte>)
    requires IsPatPacket(pat) && IsTablePacket(pmt) && 0 < pid < 0x2000 && streamId in {0xE0, 0xC0}
    requires AnnouncedPid(pat) == PacketPid(pmt) != pid
    requires Stored(sps, NAL_SPS) && Stored(pps, NAL_PPS) && |sps| + |pps| <= 170
    ensures Good(Initial())
    ensures var block := BootBlock(pat, pmt, pid, streamId, sps, pps);
      After(Initial(), PacketsOf(block)).tsData == block <==> Replayable(sps, pps)
  {
    hide BootBlock, ThirdPacket, PacketStep, IdleBlock, Extract, Replayable, Stored, Padding, AnnouncedPid, Synced,
      IsPatPacket, IsTablePacket, After;
    var block := BootBlock(pat, pmt, pid, streamId, sps, pps);
    var r := Extract(sps + pps + Padding(sps, pps), [], []);
    ReplayFinds(sps, pps);
    BlockParts(pat, pmt, pid, streamId, sps, pps);
    TablesStep(pat, pmt);
    var d := Initial().(pat := pat, pmtPid := PacketPid(pmt), pmt := pmt);
    RunOfBlock(pat, pmt, ThirdPacket(pid, streamId, sps, pps), block);
    ThirdStep(d, pid, streamId, sps, pps);
    BlockParts(pat, pmt, pid, streamId, r.sps, r.pps);
    if Replayable(sps, pps) {
      SamePacket(pid, streamId, sps, pps, r.sps, r.pps);
      BlockOf(pat, pmt, pid, streamId, sps, pps, r.sps, r.pps);
    } else {
      PaddingIsShort(sps, pps);
      OtherPacket(pid, streamId, sps, pps, r.sps, r.pps);
    }
  }

  lemma PaddingIsShort(sps: seq<byte>, pps: seq<byte>)
    ensures |sps + pps + Padding(sps, pps)| == |sps| + |pps| + |Padding(sps, pps)|
  {
  }

  lemma BlockOf(pat: seq<byte>, pmt: seq<byte>, pid: int, streamId: byte,
                sps: seq<byte>, pps: seq<byte>, sps2: seq<byte>, pps2: seq<byte>)
    requires |pat| == 188 && |pmt| == 188 && 0 <= pid < 0x2000 && |sps| + |pps| <= 170 && |sps2| + |pps2| <= 170
    requires ThirdPacket(pid, streamId, sps, pps) == ThirdPacket(pid, streamId, sps2, pps2)
    ensures BootBlock(pat, pmt, pid, streamId, sps, pps) == BootBlock(pat, pmt, pid, streamId, sps2, pps2)
  {
    hide ThirdPacket, IdleBlock;
  }

  /** The run over a block, packet by packet. */
  lemma RunOfBlock(pat: Packet, pmt: Packet, third: Packet, block: seq<byte>)
    requires |block| == 1316 && Good(Initial())
    requires block[..188] == pat && block[188..376] == pmt && block[376..564] == third
    requires block[564..] == IdleBlock()[564..]
    ensures var c := PacketStep(Initial(), pat).0;
      && Good(c) && Good(PacketStep(c, pmt).0)
      && Good(PacketStep(PacketStep(c, pmt).0, third).0)
      && After(Initial(), PacketsOf(block)) == PacketStep(PacketStep(c, pmt).0, third).0
  {
    hide PacketStep, IdleBlock, Synced;
    var ps := PacketsOf(block);
    StepKeeps(Initial(), pat);
    var c := PacketStep(Initial(), pat).0;
    StepKeeps(c, pmt);
    var d := PacketStep(c, pmt).0;
    StepKeeps(d, third);
    var e := PacketStep(d, third).0;
    assert ps[1..][1..][1..] == ps[3..];
    assert After(Initial(), ps) == After(c, ps[1..]);
    assert After(c, ps[1..]) == After(d, ps[1..][1..]);
    assert After(d, ps[1..][1..]) == After(e, ps[3..]);
    NullPacketsDoNothing(e, block);
  }

  /** Over every run that builds a block: a fresh receiver that is fed the block rebuilds
      it exactly when the PAT in it announces the PMT in it, and the parameter sets are
      replayable. */
  lemma RebuiltExactlyWhen(ps: seq<Packet>)
    ensures Good(Initial())
    ensures var c := After(Initial(), ps); var block := c.tsData;
      BuildCount(Initial(), ps) > 0 ==>
        (After(Initial(), PacketsOf(block)).tsData == block <==>
           AnnouncedPid(block[..188]) == PacketPid(block[188..376]) && Replayable(c.sps, c.pps))
  {
    hide After, BuildCount, IdleBlock, Synced, BootBlock, AnnouncedPid, PacketPid, Replayable, Stored, IsPatPacket,
      IsTablePacket;
    InitialIsGood();
    var c := After(Initial(), ps);
    if BuildCount(Initial(), ps) > 0 {
      BuiltAtMostOnce(Initial(), ps);
      RunTraces(Initial(), ps);
      RunStores(Initial(), ps);
      var pat: Packet, pmt: Packet, streamId: byte :| BlockHolds(c, pat, pmt, streamId);
      BlockParts(pat, pmt, c.esPid, streamId, c.sps, c.pps);
      BlockReproducesItselfExactlyWhen(pat, pmt, c.esPid, streamId, c.sps, c.pps);
    }
  }
}
