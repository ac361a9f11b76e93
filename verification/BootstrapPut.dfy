/** The two parsing passes that `CSLSMapData::put` makes over every chunk
    (sls-patch/src/core/SLSMapData.cpp). */
module BootstrapPut {
  import opened Bytes
  import opened TsInfoRecord
  import opened Bootstrap
  import opened BootstrapRuns
  import opened BootstrapScan
  import opened SilentPacket

  /** The complete packets of a chunk; a partial tail is left out. */
  function PacketsIn(data: seq<byte>): (ps: seq<Packet>)
    ensures |ps| == |data| / 188
  {
    if |data| < 188 then [] else [data[..188]] + PacketsIn(data[188..])
  }

  lemma NextPacket(data: seq<byte>, i: nat)
    requires i + 188 <= |data|
    ensures PacketsIn(data[i..]) == [data[i..i + 188]] + PacketsIn(data[i + 188..])
  {
    assert data[i..][..188] == data[i..i + 188] && data[i..][188..] == data[i + 188..];
  }

  /** The boot state and the two flags that decide whether the second pass runs. */
  datatype Feed = Feed(boot: Boot, flags: Flags)

  ghost function FeedOf(ti: TsInfo): Feed
    reads ti, ti.tsData
  {
    Feed(Look(ti), FlagsOf(ti))
  }

  /** `sls_init_ts_info` followed by the `need_spspps` of `add`. */
  function Fresh(): Feed { Feed(Initial(), Flags(false, false)) }

  function FeedStep(f: Feed, p: Packet): (g: Feed)
    requires Good(f.boot)
    ensures Good(g.boot)
  {
    StepKeeps(f.boot, p);
    Feed(PacketStep(f.boot, p).0, FlagsAfter(f.flags, f.boot, p))
  }

  /** The first pass: until the record is complete. */
  function Gathered(f: Feed, ps: seq<Packet>): (g: Feed)
    requires Good(f.boot)
    ensures Good(g.boot)
    decreases |ps|
  {
    if ps == [] || Complete(f.boot) then f else Gathered(FeedStep(f, ps[0]), ps[1..])
  }

  /** The second pass: every packet. */
  function Scanned(f: Feed, ps: seq<Packet>): (g: Feed)
    requires Good(f.boot)
    ensures Good(g.boot)
    decreases |ps|
  {
    if ps == [] then f else Scanned(FeedStep(f, ps[0]), ps[1..])
  }

  /** Both passes; the second only once a video PID is known. */
  function PutStep(f: Feed, ps: seq<Packet>): (g: Feed)
    requires Good(f.boot)
    ensures Good(g.boot)
  {
    var g := Gathered(f, ps);
    if g.flags.video then Scanned(g, ps) else g
  }

  function PutAll(f: Feed, chunks: seq<seq<Packet>>): (g: Feed)
    requires Good(f.boot)
    ensures Good(g.boot)
    decreases |chunks|
  {
    if chunks == [] then f else PutAll(PutStep(f, chunks[0]), chunks[1..])
  }

  // ----------------------------------------------------------- in-place code

  method ParseOne(packet: seq<byte>, ti: TsInfo)
    requires |packet| == 188 && Good(Look(ti))
    modifies ti, ti.tsData
    ensures FeedOf(ti) == FeedStep(old(FeedOf(ti)), packet)
  {
    hide PacketStep, FlagsAfter, IdleBlock, TimecodeOf;
    assert packet[..188] == packet;
    StepKeeps(Look(ti), packet);
    var ok := ParseTsInfo(packet, ti);
  }

  /** `check_ts_info`. */
  method CheckTsInfo(data: seq<byte>, ti: TsInfo) returns (ok: bool)
    requires Good(Look(ti))
    modifies ti, ti.tsData
    ensures FeedOf(ti) == Gathered(old(FeedOf(ti)), PacketsIn(data))
    ensures ok == Complete(Look(ti))
  {
    hide FeedStep, Good, IdleBlock;
    var i := 0;
    while i + TS_PACK_LEN <= |data|
      invariant i <= |data| && Good(Look(ti))
      invariant Gathered(FeedOf(ti), PacketsIn(data[i..])) == Gathered(old(FeedOf(ti)), PacketsIn(data))
    {
      if |ti.sps| > 0 && |ti.pps| > 0 && |ti.pat| > 0 && |ti.pmt| > 0 {
        break;
      }
      NextPacket(data, i);
      ParseOne(data[i..i + TS_PACK_LEN], ti);
      i := i + TS_PACK_LEN;
    }
    return |ti.sps| > 0 && |ti.pps| > 0 && |ti.pat| > 0 && |ti.pmt| > 0;
  }

  /** `check_sei_timecode`. */
  method CheckSeiTimecode(data: seq<byte>, ti: TsInfo)
    requires Good(Look(ti))
    modifies ti, ti.tsData
    ensures FeedOf(ti) ==
      if old(ti.videoPidFound) then Scanned(old(FeedOf(ti)), PacketsIn(data)) else old(FeedOf(ti))
  {
    hide FeedStep, Good, IdleBlock;
    if !ti.videoPidFound {
      return;
    }
    var i := 0;
    while i + TS_PACK_LEN <= |data|
      invariant i <= |data| && Good(Look(ti))
      invariant Scanned(FeedOf(ti), PacketsIn(data[i..])) == Scanned(old(FeedOf(ti)), PacketsIn(data))
    {
      NextPacket(data, i);
      ParseOne(data[i..i + TS_PACK_LEN], ti);
      i := i + TS_PACK_LEN;
    }
  }

  /** The parsing half of `put`. */
  method Put(data: seq<byte>, ti: TsInfo)
    requires Good(Look(ti))
    modifies ti, ti.tsData
    ensures FeedOf(ti) == PutStep(old(FeedOf(ti)), PacketsIn(data))
  {
    hide Gathered, Scanned, Good, IdleBlock;
    var ok := CheckTsInfo(data, ti);
    assert Good(FeedOf(ti).boot);
    CheckSeiTimecode(data, ti);
  }

  // --------------------------------------------------- what is really parsed

  lemma {:induction false} GatheredBoot(f: Feed, ps: seq<Packet>)
    requires Good(f.boot)
    ensures Gathered(f, ps).boot == Gather(f.boot, ps)
    decreases |ps|
  {
    hide PacketStep, FlagsAfter, IdleBlock, Synced, Complete;
    if ps != [] && !Complete(f.boot) {
      StepKeeps(f.boot, ps[0]);
      GatheredBoot(FeedStep(f, ps[0]), ps[1..]);
    }
  }

  lemma {:induction false} ScannedBoot(f: Feed, ps: seq<Packet>)
    requires Good(f.boot)
    ensures Scanned(f, ps).boot == After(f.boot, ps)
    decreases |ps|
  {
    hide PacketStep, FlagsAfter, IdleBlock, Synced;
    if ps != [] {
      StepKeeps(f.boot, ps[0]);
      ScannedBoot(FeedStep(f, ps[0]), ps[1..]);
    }
  }

  /** The packets that the two passes parse, in order: those up to a complete record, and
      with the second pass switched on all of them again. */
  function Parsed(f: Feed, ps: seq<Packet>): seq<Packet>
    requires Good(f.boot)
  {
    ps[..Taken(f.boot, ps)] + if Gathered(f, ps).flags.video then ps else []
  }

  function ParsedAll(f: Feed, chunks: seq<seq<Packet>>): seq<Packet>
    requires Good(f.boot)
    decreases |chunks|
  {
    if chunks == [] then [] else Parsed(f, chunks[0]) + ParsedAll(PutStep(f, chunks[0]), chunks[1..])
  }

  lemma PutIsARun(f: Feed, ps: seq<Packet>)
    requires Good(f.boot)
    ensures PutStep(f, ps).boot == After(f.boot, Parsed(f, ps))
  {
    hide Gathered, Scanned, Gather, After, Good, Taken;
    GatheredBoot(f, ps);
    GatherIsTaken(f.boot, ps);
    var g := Gathered(f, ps);
    if g.flags.video {
      ScannedBoot(g, ps);
      AfterConcat(f.boot, ps[..Taken(f.boot, ps)], ps);
    } else {
      assert ps[..Taken(f.boot, ps)] + [] == ps[..Taken(f.boot, ps)];
    }
  }

  /** Publishing is a run over the packets really parsed, so everything proved of runs
      holds of it. */
  lemma {:induction false} PublishingIsARun(f: Feed, chunks: seq<seq<Packet>>)
    requires Good(f.boot)
    ensures PutAll(f, chunks).boot == After(f.boot, ParsedAll(f, chunks))
    decreases |chunks|
  {
    hide PutStep, Parsed, Good;
    if chunks != [] {
      PutIsARun(f, chunks[0]);
      PublishingIsARun(PutStep(f, chunks[0]), chunks[1..]);
      AfterConcat(f.boot, Parsed(f, chunks[0]), ParsedAll(PutStep(f, chunks[0]), chunks[1..]));
    } else {
      AfterNothing(f.boot);
    }
  }

  lemma AfterNothing(b: Boot)
    requires Good(b)
    ensures After(b, []) == b
  {
  }

  /** Over any chunks put into a fresh stream that complete the record: the block is still
      seven null packets exactly when the packet that completed the record was the PMT and
      none of the packets parsed after it, in a pass that was switched on, carries bytes of
      the stream. */
  lemma PutLeavesBlockIdleExactlyWhen(chunks: seq<seq<Packet>>)
    ensures Good(Initial())
    ensures var b := PutAll(Fresh(), chunks).boot; var qs := ParsedAll(Fresh(), chunks);
      var k := Taken(Initial(), qs);
      Complete(b) ==>
        && (b.need <==> PmtWasLast(Initial(), qs) && !FeedsSome(After(Initial(), qs[..k]), qs[k..]))
        && (b.need ==> b.tsData == IdleBlock())
        && (!b.need && |b.sps| + |b.pps| <= 170 ==> BuildCount(Initial(), qs) == 1)
  {
    hide PutAll, ParsedAll, Gather, After, Taken, PmtWasLast, FeedsSome, BuildCount, IdleBlock, Synced;
    InitialIsGood();
    PublishingIsARun(Fresh(), chunks);
    var qs := ParsedAll(Fresh(), chunks);
    BuiltAtMostOnce(Initial(), qs);
    if Complete(After(Initial(), qs)) {
      RunDecidesExactlyWhen(qs);
    }
  }

  lemma RunDecidesExactlyWhen(qs: seq<Packet>)
    requires Good(Initial()) && Complete(After(Initial(), qs))
    ensures var k := Taken(Initial(), qs);
      After(Initial(), qs).need <==> PmtWasLast(Initial(), qs) && !FeedsSome(After(Initial(), qs[..k]), qs[k..])
  {
    hide Gather, After, Taken, PmtWasLast, FeedsSome, IdleBlock, Synced;
    var k := Taken(Initial(), qs);
    var g := After(Initial(), qs[..k]);
    GatherIsTaken(Initial(), qs);
    GatherStopsComplete(Initial(), qs);
    GatherDecidesExactlyWhen(Initial(), qs);
    assert qs == qs[..k] + qs[k..];
    AfterConcat(Initial(), qs[..k], qs[k..]);
    if g.need {
      ScanDecidesExactlyWhenFed(g, qs[k..]);
    } else {
      DecidedForGood(g, qs[k..]);
    }
  }

  /** A run that ends complete was complete when the first pass would have stopped. */
  lemma {:induction false} GatherStopsComplete(b: Boot, ps: seq<Packet>)
    requires Good(b) && Complete(After(b, ps))
    ensures Complete(Gather(b, ps))
    decreases |ps|
  {
    hide PacketStep, Complete, IdleBlock, Synced;
    if ps != [] && !Complete(b) {
      StepKeeps(b, ps[0]);
      GatherStopsComplete(PacketStep(b, ps[0]).0, ps[1..]);
    }
  }
}
