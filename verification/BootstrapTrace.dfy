/** What the record and the built block hold after any run of packets
    (sls-patch/src/core/common.cpp). */
module BootstrapTrace {
  import opened Bytes
  import opened TsInfoRecord
  import opened SpsPps
  import opened SpsPpsRoundTrip
  import opened Bootstrap
  import opened BootstrapRuns
  import opened SilentPacket
  import Psi

  // ---------------------------------------------------------- parameter sets

  lemma StepStores(b: Boot, p: Packet)
    requires Good(b) && ParamsStored(b.sps, b.pps)
    ensures ParamsStored(PacketStep(b, p).0.sps, PacketStep(b, p).0.pps)
  {
    hide PacketStep, Stored, IsSlice;
    StepProvenance(b, p);
    var c := PacketStep(b, p).0;
    if c.sps != b.sps {
      SliceIsStored(StreamBytes(p), c.sps, NAL_SPS);
    }
    if c.pps != b.pps {
      SliceIsStored(StreamBytes(p), c.pps, NAL_PPS);
    }
  }

  lemma {:induction false} RunStores(b: Boot, ps: seq<Packet>)
    requires Good(b) && ParamsStored(b.sps, b.pps)
    ensures ParamsStored(After(b, ps).sps, After(b, ps).pps)
    decreases |ps|
  {
    hide PacketStep, ParamsStored, IdleBlock, Synced;
    if ps != [] {
      StepKeeps(b, ps[0]);
      StepStores(b, ps[0]);
      RunStores(PacketStep(b, ps[0]).0, ps[1..]);
    }
  }

  /** The round trip over every run: whatever packets brought the two parameter sets, the
      stored SPS followed by the stored PPS parses back to the same two exactly when the
      junction makes no start code of its own and the PPS carries no trailing one. */
  lemma RunRoundTripExactlyWhen(ps: seq<Packet>)
    ensures Good(Initial())
    ensures var c := After(Initial(), ps);
      c.sps != [] && c.pps != [] ==>
        && Stored(c.sps, NAL_SPS) && Stored(c.pps, NAL_PPS)
        && (Extract(c.sps + c.pps, [], []) == Found(c.sps, c.pps, true)
            <==> !BadJunction(c.sps, c.pps) && !EndsInTrailer(c.pps))
  {
    hide After, Extract, Stored, IdleBlock, Synced;
    InitialIsGood();
    RunStores(Initial(), ps);
    var c := After(Initial(), ps);
    if c.sps != [] && c.pps != [] {
      StoredRoundTripExactlyWhen(c.sps, c.pps);
    }
  }

  // ------------------------------------------------------------------ tables

  predicate IsPatPacket(p: Packet) { p[0] == TS_SYNC_BYTE && IsStart(p) && PacketPid(p) == PAT_PID }
  predicate IsTablePacket(p: Packet) { p[0] == TS_SYNC_BYTE && IsStart(p) && PacketPid(p) != PAT_PID }

  /** The PMT PID that a fresh record learns from a PAT packet; -1 for none. */
  function AnnouncedPid(pat: Packet): int {
    match Payload(pat)
    case None => INVALID_PID
    case Some(pos) => PatStep(Initial(), pat[pos + 1..]).0.pmtPid
  }

  lemma {:induction false} AnyDefault(buf: seq<byte>, n: nat, default: int)
    requires n > 0 ==> 12 + 4 * (n - 1) <= |buf|
    ensures var pid := Psi.LastProgramPid(buf, n, INVALID_PID);
      pid != INVALID_PID ==> Psi.LastProgramPid(buf, n, default) == pid
  {
    if n > 0 && Psi.ProgramAt(buf, n - 1).number == 0 {
      AnyDefault(buf, n - 1, default);
    }
  }

  /** A PAT that announces anything is the one the record follows. */
  predicate TablesTraced(b: Boot) {
    && (b.pat != [] ==> |b.pat| == 188 && IsPatPacket(b.pat)
                        && (AnnouncedPid(b.pat) != INVALID_PID ==> b.pmtPid == AnnouncedPid(b.pat)))
    && (b.pmt != [] ==> |b.pmt| == 188 && IsTablePacket(b.pmt))
  }

  lemma StepTracesTables(b: Boot, p: Packet)
    requires Good(b) && TablesTraced(b)
    ensures TablesTraced(PacketStep(b, p).0)
  {
    hide StreamStep, Psi.LastProgramPid, Psi.Visited, IdleBlock, Synced, IsStart;
    if Payload(p).Some? {
      var pos := Payload(p).value;
      if PacketPid(p) != PAT_PID {
        StreamKeepsTables(b, p[pos..], PacketPid(p));
      } else if |p[pos + 1..]| >= 8 {
        AnyDefault(p[pos + 1..], Psi.Visited(p[pos + 1..]), b.pmtPid);
      }
    }
  }

  lemma StreamKeepsTables(b: Boot, pes: seq<byte>, pid: int)
    requires TablesOk(b) && 0 <= pid < 0x2000
    ensures var c := StreamStep(b, pes, pid).0; c.pat == b.pat && c.pmt == b.pmt && c.pmtPid == b.pmtPid
  {
    hide Extract, LegacyPts, BootBlock;
  }

  // --------------------------------------------------------------- the block

  /** The block is built from these tables and the record's own parameter sets and PID. */
  predicate BlockHolds(b: Boot, pat: Packet, pmt: Packet, streamId: byte) {
    && IsPatPacket(pat) && IsTablePacket(pmt) && streamId in {0xE0, 0xC0}
    && 0 < b.esPid < 0x2000 && b.sps != [] && b.pps != [] && |b.sps| + |b.pps| <= 170
    && (AnnouncedPid(pat) == PacketPid(pmt) ==> b.esPid != PacketPid(pmt))
    && b.tsData == BootBlock(pat, pmt, b.esPid, streamId, b.sps, b.pps)
  }

  ghost predicate BlockTraced(b: Boot) {
    !b.need && |b.sps| + |b.pps| <= 170 ==> exists pat, pmt, streamId :: BlockHolds(b, pat, pmt, streamId)
  }

  /** The packet that decides the block belongs to the stream, not to the PMT. */
  lemma DeciderIsStream(b: Boot, p: Packet)
    requires Good(b) && b.need && !PacketStep(b, p).0.need
    ensures PacketStep(b, p).0.esPid == PacketPid(p) != PacketStep(b, p).0.pmtPid
  {
    hide Extract, LegacyPts, BootBlock, Psi.LastProgramPid, Psi.Visited, IdleBlock, Synced;
    if Payload(p).Some? {
      StreamKeepsTables(b, p[Payload(p).value..], PacketPid(p));
    }
  }

  lemma StepTracesBlock(b: Boot, p: Packet)
    requires Good(b) && TablesTraced(b) && BlockTraced(b)
    ensures BlockTraced(PacketStep(b, p).0)
  {
    hide PacketStep, BootBlock, IdleBlock, Synced, AnnouncedPid, IsPatPacket, IsTablePacket;
    StepKeeps(b, p);
    StepTracesTables(b, p);
    var c := PacketStep(b, p).0;
    if !c.need && |c.sps| + |c.pps| <= 170 {
      if b.need {
        DeciderIsStream(b, p);
        var streamId: byte := if c.tsData == BootBlock(c.pat, c.pmt, c.esPid, 0xE0, c.sps, c.pps) then 0xE0 else 0xC0;
        assert BlockHolds(c, c.pat, c.pmt, streamId);
      } else {
        var pat, pmt, streamId :| BlockHolds(b, pat, pmt, streamId);
        assert BlockHolds(c, pat, pmt, streamId);
      }
    }
  }

  lemma {:induction false} RunTraces(b: Boot, ps: seq<Packet>)
    requires Good(b) && TablesTraced(b) && BlockTraced(b)
    ensures TablesTraced(After(b, ps)) && BlockTraced(After(b, ps))
    decreases |ps|
  {
    hide PacketStep, IdleBlock, Synced, TablesTraced, BlockTraced;
    if ps != [] {
      StepKeeps(b, ps[0]);
      StepTracesTables(b, ps[0]);
      StepTracesBlock(b, ps[0]);
      RunTraces(PacketStep(b, ps[0]).0, ps[1..]);
    }
  }
}
