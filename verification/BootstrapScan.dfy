/** What decides the bootstrap block: `check_ts_info`, which stops once everything is
    collected, and `check_sei_timecode`, which does not
    (sls-patch/src/core/SLSMapData.cpp). */
module BootstrapScan {
  import opened Bytes
  import opened TsInfoRecord
  import opened SpsPps
  import opened Bootstrap
  import opened BootstrapRuns
  import opened SilentPacket
  import Psi

  /** Both tables and both parameter sets have been seen. */
  predicate Complete(b: Boot) { b.sps != [] && b.pps != [] && b.pat != [] && b.pmt != [] }

  /** Parse packets until the record is complete. */
  function Gather(b: Boot, ps: seq<Packet>): (c: Boot)
    requires Good(b)
    ensures Good(c)
    decreases |ps|
  {
    if ps == [] || Complete(b) then b
    else
      StepKeeps(b, ps[0]);
      Gather(PacketStep(b, ps[0]).0, ps[1..])
  }

  // -------------------------------------------------- what the passes amount to

  /** The packet carries elementary stream bytes of the stream that was taken. */
  predicate Feeds(b: Boot, p: Packet) {
    && p[0] == TS_SYNC_BYTE && IsStart(p) && PacketPid(p) != PAT_PID && PacketPid(p) != b.pmtPid
    && (b.esPid == INVALID_PID || b.esPid == PacketPid(p))
    && StreamBytes(p) != []
  }

  /** With everything collected, one more packet decides the block (builds it, or gives up
      for lack of room) exactly when it carries stream bytes. */
  lemma DecidesExactlyWhenFed(b: Boot, p: Packet)
    requires Good(b) && b.need && Complete(b)
    ensures var c := PacketStep(b, p).0;
      && (!c.need <==> Feeds(b, p))
      && (c.need ==> Complete(c) && Frozen(b, c))
      && (!c.need && |c.sps| + |c.pps| <= 170 ==> Builds(b, c))
  {
    hide Extract, LegacyPts, BootBlock, IdleBlock, Synced, IsSlice;
    StepKeeps(b, p);
    if Feeds(b, p) {
      ExtractKeepsBoth(StreamBytes(p), b.sps, b.pps);
    }
  }

  lemma ExtractKeepsBoth(es: seq<byte>, sps: seq<byte>, pps: seq<byte>)
    requires sps != [] && pps != []
    ensures Extract(es, sps, pps).sps != [] && Extract(es, sps, pps).pps != []
  {
    ExtractedAreExactSlices(es, sps, pps);
  }

  /** When the PMT is the last to arrive, the record is complete but the block is not
      built, and `check_ts_info` never looks at another packet: over any number of chunks
      the block stays seven null packets. */
  lemma {:induction false} PmtLastLeavesBlockIdle(b: Boot, p: Packet, chunks: seq<seq<Packet>>)
    requires Good(b) && b.need && b.sps != [] && b.pps != [] && b.pat != []
    requires p[0] == TS_SYNC_BYTE && IsStart(p) && PacketPid(p) == b.pmtPid != PAT_PID
    ensures var c := PacketStep(b, p).0;
      && Good(c) && Complete(c) && c.need && c.tsData == IdleBlock()
      && GatherAll(c, chunks) == c
    decreases |chunks|
  {
    hide IdleBlock, Synced;
    StepKeeps(b, p);
    if chunks != [] {
      PmtLastLeavesBlockIdle(b, p, chunks[1..]);
    }
  }

  function GatherAll(b: Boot, chunks: seq<seq<Packet>>): Boot
    requires Good(b)
    decreases |chunks|
  {
    if chunks == [] then b else GatherAll(Gather(b, chunks[0]), chunks[1..])
  }

  /** Does some packet of the run feed the stream? */
  predicate FeedsSome(b: Boot, ps: seq<Packet>)
    requires Good(b)
    decreases |ps|
  {
    ps != [] && (Feeds(b, ps[0]) || (StepKeeps(b, ps[0]); FeedsSome(PacketStep(b, ps[0]).0, ps[1..])))
  }

  /** It is the timecode scan that then builds the block, as soon as it meets stream
      bytes, whatever the comment above it says. */
  lemma {:induction false} ScanDecidesExactlyWhenFed(b: Boot, ps: seq<Packet>)
    requires Good(b) && b.need && Complete(b)
    ensures !After(b, ps).need <==> FeedsSome(b, ps)
    ensures After(b, ps).need ==> Frozen(b, After(b, ps))
    decreases |ps|
  {
    hide PacketStep, Feeds, BootBlock, IdleBlock, Synced;
    if ps != [] {
      StepKeeps(b, ps[0]);
      DecidesExactlyWhenFed(b, ps[0]);
      var c := PacketStep(b, ps[0]).0;
      if c.need {
        ScanDecidesExactlyWhenFed(c, ps[1..]);
      } else {
        DecidedForGood(c, ps[1..]);
      }
    }
  }

  // --------------------------------------------- what completes the record

  /** Reachable records: a PMT is only known behind a PAT, and the block is only decided
      when everything is there. */
  predicate TablesInOrder(b: Boot) {
    && (b.pmtPid != INVALID_PID ==> b.pat != [])
    && (b.pmt != [] ==> b.pat != [])
    && (!b.need ==> Complete(b))
  }

  /** The packet is the PMT the record waits for. */
  predicate IsPmt(b: Boot, p: Packet) { PacketPid(p) == b.pmtPid != PAT_PID }

  lemma StreamKeepsOrder(b: Boot, pes: seq<byte>, pid: int)
    requires TablesOk(b) && TablesInOrder(b) && 0 <= pid < 0x2000
    ensures TablesInOrder(StreamStep(b, pes, pid).0)
  {
    hide Extract, LegacyPts, BootBlock;
    if b.sps != [] && b.pps != [] {
      ExtractKeepsBoth(PesBytes(pes), b.sps, b.pps);
    }
  }

  lemma StepKeepsOrder(b: Boot, p: Packet)
    requires Good(b) && TablesInOrder(b)
    ensures TablesInOrder(PacketStep(b, p).0)
  {
    hide StreamStep, IdleBlock, Synced, Psi.LastProgramPid, Psi.Visited;
    if Payload(p).Some? {
      StreamKeepsOrder(b, p[Payload(p).value..], PacketPid(p));
    }
  }

  /** The packet that completes the record decides the block exactly when it is not the
      PMT: it is then the one that brings the last parameter set. */
  lemma CompletingPacketDecidesExactlyWhen(b: Boot, p: Packet)
    requires Good(b) && TablesInOrder(b) && !Complete(b) && Complete(PacketStep(b, p).0)
    ensures var c := PacketStep(b, p).0;
      && (c.need <==> IsPmt(b, p))
      && (c.need ==> c.tsData == IdleBlock())
      && (!c.need && |c.sps| + |c.pps| <= 170 ==> Builds(b, c))
  {
    hide Extract, LegacyPts, BootBlock, IdleBlock, Synced, Psi.LastProgramPid, Psi.Visited;
    StepKeeps(b, p);
  }

  /** Packets that `check_ts_info` looks at. */
  function Taken(b: Boot, ps: seq<Packet>): (k: nat)
    requires Good(b)
    ensures k <= |ps|
    decreases |ps|
  {
    if ps == [] || Complete(b) then 0
    else
      StepKeeps(b, ps[0]);
      1 + Taken(PacketStep(b, ps[0]).0, ps[1..])
  }

  /** The last of them, and whether it was the PMT when it came. */
  predicate PmtWasLast(b: Boot, ps: seq<Packet>)
    requires Good(b)
  {
    var k := Taken(b, ps);
    k > 0 && IsPmt(After(b, ps[..k - 1]), ps[k - 1])
  }

  lemma {:induction false} GatherDecidesExactlyWhen(b: Boot, ps: seq<Packet>)
    requires Good(b) && TablesInOrder(b) && !Complete(b) && Complete(Gather(b, ps))
    ensures Taken(b, ps) > 0 && (Gather(b, ps).need <==> PmtWasLast(b, ps))
    ensures Gather(b, ps).need ==> Gather(b, ps).tsData == IdleBlock()
    decreases |ps|
  {
    hide PacketStep, BootBlock, IdleBlock, Synced, IsPmt;
    StepKeeps(b, ps[0]);
    StepKeepsOrder(b, ps[0]);
    var c := PacketStep(b, ps[0]).0;
    if Complete(c) {
      CompletingPacketDecidesExactlyWhen(b, ps[0]);
      assert Taken(b, ps) == 1 && ps[..0] == [];
    } else {
      GatherDecidesExactlyWhen(c, ps[1..]);
      var k := Taken(c, ps[1..]);
      assert ps[..k][0] == ps[0] && ps[..k][1..] == ps[1..][..k - 1];
    }
  }

  lemma {:induction false} GatherConcat(b: Boot, a: seq<Packet>, c: seq<Packet>)
    requires Good(b)
    ensures Gather(b, a + c) == Gather(Gather(b, a), c)
    decreases |a|
  {
    hide PacketStep, Synced, IdleBlock, Complete;
    if a == [] {
      assert a + c == c;
    } else if !Complete(b) {
      StepKeeps(b, a[0]);
      assert (a + c)[0] == a[0] && (a + c)[1..] == a[1..] + c;
      GatherConcat(PacketStep(b, a[0]).0, a[1..], c);
    }
  }

  function AllPackets(chunks: seq<seq<Packet>>): seq<Packet> {
    if chunks == [] then [] else chunks[0] + AllPackets(chunks[1..])
  }

  lemma {:induction false} ChunksGatherAsOne(b: Boot, chunks: seq<seq<Packet>>)
    requires Good(b)
    ensures GatherAll(b, chunks) == Gather(b, AllPackets(chunks))
    decreases |chunks|
  {
    hide Gather, Good;
    if chunks == [] {
      GatherNothing(b);
    } else {
      ChunksGatherAsOne(Gather(b, chunks[0]), chunks[1..]);
      GatherConcat(b, chunks[0], AllPackets(chunks[1..]));
    }
  }

  lemma GatherNothing(b: Boot)
    requires Good(b)
    ensures Gather(b, []) == b
  {
  }

  /** Exactly when `check_ts_info` builds the block: over any chunks of any fresh stream
      that completes the record, the block is still wanted, seven null packets, and will
      stay so, if and only if the last packet looked at was the PMT; otherwise it has been
      decided, and built if the parameter sets fit. */
  lemma CheckTsInfoBuildsExactlyWhen(chunks: seq<seq<Packet>>)
    ensures Good(Initial())
    ensures var b := GatherAll(Initial(), chunks); var ps := AllPackets(chunks);
      Complete(b) ==>
        && (b.need <==> PmtWasLast(Initial(), ps))
        && (b.need ==> b.tsData == IdleBlock())
        && (!b.need && |b.sps| + |b.pps| <= 170 ==>
              BuildCount(Initial(), ps[..Taken(Initial(), ps)]) == 1)
  {
    hide GatherAll, Gather, After, PacketStep, IdleBlock, Synced, BuildCount, PmtWasLast, Taken;
    InitialIsGood();
    ChunksGatherAsOne(Initial(), chunks);
    var ps := AllPackets(chunks);
    if Complete(GatherAll(Initial(), chunks)) {
      GatherDecidesExactlyWhen(Initial(), ps);
      GatherIsTaken(Initial(), ps);
      BuiltAtMostOnce(Initial(), ps[..Taken(Initial(), ps)]);
    }
  }

  /** The first pass is a run over the first packets of the chunk, so everything proved
      about runs holds of it. */
  lemma {:induction false} GatherIsTaken(b: Boot, ps: seq<Packet>)
    requires Good(b)
    ensures Gather(b, ps) == After(b, ps[..Taken(b, ps)])
    decreases |ps|
  {
    hide PacketStep, Synced, IdleBlock, Complete;
    if ps == [] || Complete(b) {
      assert ps[..0] == [];
    } else {
      StepKeeps(b, ps[0]);
      var c := PacketStep(b, ps[0]).0;
      GatherIsTaken(c, ps[1..]);
      var k := Taken(c, ps[1..]);
      assert ps[..k + 1][0] == ps[0] && ps[..k + 1][1..] == ps[1..][..k];
    }
  }
}
