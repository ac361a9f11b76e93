/** Whole runs of the TS packet parser: how the bootstrap block comes about, and that it
    stays what it is (sls-patch/src/core/common.cpp, sls-patch/src/core/SLSMapData.cpp). */
module BootstrapRuns {
  import opened Bytes
  import opened TsInfoRecord
  import opened SpsPps
  import opened Bootstrap
  import opened Psi
  import opened SilentPacket

  /** 0x47 at all seven multiples of 188. */
  predicate Synced(s: seq<byte>) {
    |s| == 1316 && s[0] == s[188] == s[376] == s[564] == s[752] == s[940] == s[1128] == TS_SYNC_BYTE
  }

  predicate Good(b: Boot) {
    BlockOk(b) && Synced(b.tsData) && b.esPid != PAT_PID
  }

  lemma IdleIsSynced()
    ensures Synced(IdleBlock())
  {
  }

  lemma BlockIsSynced(pat: seq<byte>, pmt: seq<byte>, pid: int, streamId: byte, sps: seq<byte>, pps: seq<byte>)
    requires |pat| == 188 && |pmt| == 188 && pat[0] == TS_SYNC_BYTE && pmt[0] == TS_SYNC_BYTE
    requires 0 <= pid < 0x2000 && |sps| + |pps| <= 170
    ensures Synced(BootBlock(pat, pmt, pid, streamId, sps, pps))
  {
    var b := BootBlock(pat, pmt, pid, streamId, sps, pps);
    BlockParts(pat, pmt, pid, streamId, sps, pps);
    assert b[0] == pat[0] && b[188] == pmt[0];
    assert b[376] == b[376..564][0] == TS_SYNC_BYTE;
    assert b[564] == b[564..][0] && b[752] == b[564..][188] && b[940] == b[564..][376] && b[1128] == b[564..][564];
  }

  lemma BlockParts(pat: seq<byte>, pmt: seq<byte>, pid: int, streamId: byte, sps: seq<byte>, pps: seq<byte>)
    requires |pat| == 188 && |pmt| == 188 && 0 <= pid < 0x2000 && |sps| + |pps| <= 170
    ensures var b := BootBlock(pat, pmt, pid, streamId, sps, pps);
      && b[..188] == pat && b[188..376] == pmt && b[564..] == IdleBlock()[564..]
      && b[376..564] == ThirdPacket(pid, streamId, sps, pps)
  {
    hide ThirdPacket, IdleBlock;
  }

  // ------------------------------------------------------------- one packet

  /** What one packet may do to the block: nothing, give up, or build it from what the
      state holds then. */
  predicate BlockMoves(b: Boot, c: Boot) {
    || (c.need == b.need && c.tsData == b.tsData)
    || (b.need && !c.need && c.tsData == b.tsData && |c.sps| + |c.pps| > 170)
    || Builds(b, c)
  }

  predicate Builds(b: Boot, c: Boot) {
    && b.need && !c.need && |c.sps| + |c.pps| <= 170 && c.sps != [] && c.pps != []
    && |c.pat| == |c.pmt| == 188 && 0 < c.esPid < 0x2000
    && (c.tsData == BootBlock(c.pat, c.pmt, c.esPid, 0xE0, c.sps, c.pps)
        || c.tsData == BootBlock(c.pat, c.pmt, c.esPid, 0xC0, c.sps, c.pps))
  }

  /** What never changes once the block is decided. */
  predicate Frozen(b: Boot, c: Boot) {
    c.need == b.need && c.sps == b.sps && c.pps == b.pps && c.tsData == b.tsData
  }

  lemma TakeParamsMoves(b: Boot, es: seq<byte>, pid: int, streamId: byte)
    requires Good(b) && 0 < pid < 0x2000 && streamId in {0xE0, 0xC0}
    ensures var c := TakeParams(b, es, pid, streamId).0;
      && Good(c) && c.pat == b.pat && c.pmt == b.pmt && c.pmtPid == b.pmtPid
      && (c.esPid == b.esPid || c.esPid == pid)
      && (!b.need ==> c == b)
      && BlockMoves(b, c)
  {
    hide Extract, BootBlock, IdleBlock, Synced;
    if b.need && es != [] {
      var f := Extract(es, b.sps, b.pps);
      if f.sps != [] && f.pps != [] && b.pat != [] && b.pmt != [] && |f.sps| + |f.pps| <= 170 {
        BlockIsSynced(b.pat, b.pmt, pid, streamId, f.sps, f.pps);
      }
    }
  }

  lemma StreamStepMoves(b: Boot, pes: seq<byte>, pid: int)
    requires Good(b) && 0 < pid < 0x2000 && (b.esPid == INVALID_PID || b.esPid == pid)
    ensures var c := StreamStep(b, pes, pid).0;
      && Good(c) && c.pat == b.pat && c.pmt == b.pmt && c.pmtPid == b.pmtPid
      && (c.esPid == b.esPid || c.esPid == pid)
      && (!b.need ==> Frozen(b, c))
      && BlockMoves(b, c)
  {
    hide LegacyPts, TakeParams, BootBlock, IdleBlock, Synced;
    if PesStart(pes) && PesTimes(pes).Some? {
      var (dts, pts, at) := PesTimes(pes).value;
      TakeParamsMoves(b.(dts := dts, pts := pts), pes[at..], pid, pes[3]);
    }
  }

  /** What every packet keeps, whatever it holds. */
  lemma StepKeeps(b: Boot, p: Packet)
    requires Good(b)
    ensures var c := PacketStep(b, p).0;
      && Good(c) && BlockMoves(b, c)
      && (!b.need ==> Frozen(b, c))
      && (b.esPid != INVALID_PID ==> c.esPid == b.esPid)
      && (c.pat == b.pat || (c.pat == p && PacketPid(p) == PAT_PID && IsStart(p)))
      && (c.pmt == b.pmt || (c.pmt == p && PacketPid(p) == b.pmtPid == c.pmtPid && IsStart(p)))
  {
    hide StreamStep, PatStep, BootBlock, IdleBlock, Synced;
    var pid := PacketPid(p);
    if Payload(p).Some? {
      var pos := Payload(p).value;
      if pid == PAT_PID {
        PatStepMoves(b.(pat := p), p[pos + 1..]);
      } else if b.esPid == INVALID_PID || b.esPid == pid {
        StreamStepMoves(b, p[pos..], pid);
      }
    }
  }

  lemma PatStepMoves(b: Boot, table: seq<byte>)
    ensures PatStep(b, table).0 == b.(pmtPid := PatStep(b, table).0.pmtPid)
  {
  }

  // ------------------------------------------------------------- whole runs

  /** The state after a list of packets. */
  function After(b: Boot, ps: seq<Packet>): (c: Boot)
    requires Good(b)
    ensures Good(c)
    decreases |ps|
  {
    if ps == [] then b
    else
      StepKeeps(b, ps[0]);
      After(PacketStep(b, ps[0]).0, ps[1..])
  }

  lemma {:induction false} AfterConcat(b: Boot, ps: seq<Packet>, qs: seq<Packet>)
    requires Good(b)
    ensures After(b, ps + qs) == After(After(b, ps), qs)
    decreases |ps|
  {
    hide PacketStep, IdleBlock, Synced;
    if ps == [] {
      assert ps + qs == qs;
    } else {
      StepKeeps(b, ps[0]);
      assert (ps + qs)[0] == ps[0] && (ps + qs)[1..] == ps[1..] + qs;
      AfterConcat(PacketStep(b, ps[0]).0, ps[1..], qs);
    }
  }

  lemma InitialIsGood()
    ensures Good(Initial())
  {
    IdleIsSynced();
  }

  /** Number of packets of a run that write the block. */
  ghost function BuildCount(b: Boot, ps: seq<Packet>): nat
    requires Good(b)
    decreases |ps|
  {
    if ps == [] then 0
    else
      StepKeeps(b, ps[0]);
      var c := PacketStep(b, ps[0]).0;
      (if Builds(b, c) then 1 else 0) + BuildCount(c, ps[1..])
  }

  /** Once the block is decided, no packets change it or the parameter sets. */
  lemma {:induction false} DecidedForGood(b: Boot, ps: seq<Packet>)
    requires Good(b) && !b.need
    ensures Frozen(b, After(b, ps)) && BuildCount(b, ps) == 0
    decreases |ps|
  {
    hide PacketStep, BootBlock, IdleBlock, Synced;
    if ps != [] {
      StepKeeps(b, ps[0]);
      DecidedForGood(PacketStep(b, ps[0]).0, ps[1..]);
    }
  }

  /** In every run from a fresh record the block is synchronised at all seven packet
      starts and is written at most once: exactly when it is no longer wanted and the
      parameter sets fit; until then, and if they do not fit, it is seven null packets. */
  lemma {:induction false} BuiltAtMostOnce(b: Boot, ps: seq<Packet>)
    requires Good(b) && b.need
    ensures var c := After(b, ps);
      && Synced(c.tsData)
      && BuildCount(b, ps) == (if !c.need && |c.sps| + |c.pps| <= 170 then 1 else 0)
      && (BuildCount(b, ps) == 0 ==> c.tsData == IdleBlock())
    decreases |ps|
  {
    hide PacketStep, BootBlock, IdleBlock, Synced;
    if ps != [] {
      StepKeeps(b, ps[0]);
      var c := PacketStep(b, ps[0]).0;
      if c.need {
        BuiltAtMostOnce(c, ps[1..]);
      } else {
        DecidedForGood(c, ps[1..]);
      }
    }
  }

  /** Once a PID is taken for the elementary stream it is never given up. */
  lemma {:induction false} StreamPidIsKept(b: Boot, ps: seq<Packet>)
    requires Good(b) && b.esPid != INVALID_PID
    ensures After(b, ps).esPid == b.esPid
    decreases |ps|
  {
    hide PacketStep, BootBlock, Synced, Frozen, BlockMoves;
    if ps != [] {
      StepKeeps(b, ps[0]);
      StreamPidIsKept(PacketStep(b, ps[0]).0, ps[1..]);
    }
  }

  // ------------------------------------------------------------- provenance

  /** The elementary stream bytes of a packet that starts a PES packet. */
  function StreamBytes(p: Packet): seq<byte> {
    match Payload(p)
    case None => []
    case Some(pos) => PesBytes(p[pos..])
  }

  function PesBytes(pes: seq<byte>): seq<byte> {
    if !PesStart(pes) then []
    else match PesTimes(pes) case None => [] case Some((dts, pts, at)) => pes[at..]
  }

  ghost predicate SliceOfOne(ps: seq<Packet>, x: seq<byte>, t: int) {
    exists i :: 0 <= i < |ps| && IsSlice(StreamBytes(ps[i]), x, t)
  }

  ghost predicate ParamsFrom(b: Boot, c: Boot, es: seq<byte>) {
    && (c.sps == b.sps || IsSlice(es, c.sps, NAL_SPS))
    && (c.pps == b.pps || IsSlice(es, c.pps, NAL_PPS))
  }

  lemma PesStepProvenance(b: Boot, pes: seq<byte>, pid: int)
    requires TablesOk(b) && 0 <= pid < 0x2000
    ensures ParamsFrom(b, PesStep(b, pes, pid).0, PesBytes(pes))
  {
    hide Extract, IsSlice, LegacyPts, BootBlock;
    ExtractedAreExactSlices(PesBytes(pes), b.sps, b.pps);
  }

  lemma StepProvenance(b: Boot, p: Packet)
    requires Good(b)
    ensures ParamsFrom(b, PacketStep(b, p).0, StreamBytes(p))
  {
    hide PesStep, PesBytes, IsSlice, IdleBlock, Synced, LastProgramPid, Visited;
    if Payload(p).Some? {
      PesStepProvenance(b, p[Payload(p).value..], PacketPid(p));
    }
  }

  /** Whatever the record holds came from one packet of the run: the tables are whole
      packets that start a section, the parameter sets exact slices of one packet. */
  lemma {:induction false} EverythingIsFromOnePacket(b: Boot, ps: seq<Packet>)
    requires Good(b)
    ensures var c := After(b, ps);
      && (c.pat == b.pat || (c.pat in ps && PacketPid(c.pat) == PAT_PID && IsStart(c.pat)))
      && (c.pmt == b.pmt || (c.pmt in ps && IsStart(c.pmt)))
      && (c.sps == b.sps || SliceOfOne(ps, c.sps, NAL_SPS))
      && (c.pps == b.pps || SliceOfOne(ps, c.pps, NAL_PPS))
    decreases |ps|
  {
    hide PacketStep, BootBlock, IdleBlock, Synced, Frozen, BlockMoves, IsSlice, StreamBytes;
    if ps != [] {
      StepKeeps(b, ps[0]);
      StepProvenance(b, ps[0]);
      EverythingIsFromOnePacket(PacketStep(b, ps[0]).0, ps[1..]);
    }
  }

  /** The block in `c` holds the final parameter sets and stream PID, and tables that
      were in `b` or are packets of the run. */
  ghost predicate BuiltFrom(b: Boot, ps: seq<Packet>, c: Boot) {
    && 0 < c.esPid < 0x2000 && |c.sps| + |c.pps| <= 170
    && exists pat: Packet, pmt: Packet ::
         (pat == b.pat || pat in ps) && (pmt == b.pmt || pmt in ps)
         && (c.tsData == BootBlock(pat, pmt, c.esPid, 0xE0, c.sps, c.pps)
             || c.tsData == BootBlock(pat, pmt, c.esPid, 0xC0, c.sps, c.pps))
  }

  /** A built block agrees with the final record for ever after, though the tables may
      have been refreshed since. */
  lemma {:induction false} BuiltBlockHolds(b: Boot, ps: seq<Packet>)
    requires Good(b) && b.need && BuildCount(b, ps) > 0
    ensures BuiltFrom(b, ps, After(b, ps))
    decreases |ps|
  {
    hide PacketStep, BootBlock, IdleBlock, Synced;
    StepKeeps(b, ps[0]);
    var c := PacketStep(b, ps[0]).0;
    if c.need {
      BuiltBlockHolds(c, ps[1..]);
    } else {
      DecidedForGood(c, ps[1..]);
      StreamPidIsKept(c, ps[1..]);
      var pat: Packet, pmt: Packet := c.pat, c.pmt;
      assert (pat == b.pat || pat in ps) && (pmt == b.pmt || pmt in ps);
    }
  }
}
