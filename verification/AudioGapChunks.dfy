/** Publishing: the stream arrives in chunks, and between chunks the statistics may be
    cleared (`CSLSMapData::put`, `check_audio_gap`, `get_audio_gap_stats`,
    sls-patch/src/core/SLSMapData.cpp).  What is proved of runs of packets holds of it. */
module AudioGapChunks {
  import opened Bytes
  import opened GapRule
  import opened AudioFormat
  import opened SilentPacket
  import opened TsInfoRecord
  import opened AudioGap
  import opened AudioGapRuns
  import opened AudioGapSafety

  // ----------------------------------------------------------- runs in a row

  lemma {:induction false} AfterConcat(s: AudioState, a: seq<Op>, b: seq<Op>)
    requires TracksOk(s.tracks)
    ensures After(s, a + b) == After(After(s, a), b)
  {
    hide Apply, TrackOk;
    if |b| == 0 {
      assert a + b == a;
    } else {
      assert (a + b)[..|a + b| - 1] == a + b[..|b| - 1];
      AfterConcat(s, a, b[..|b| - 1]);
    }
  }

  lemma {:induction false} EmissionsConcat(s: AudioState, a: seq<Op>, b: seq<Op>, i: nat)
    requires TracksOk(s.tracks) && i < |s.tracks|
    ensures Emissions(s, a + b, i) == Emissions(s, a, i) + Emissions(After(s, a), b, i)
  {
    hide Apply, TrackOk, Emitted;
    if |b| == 0 {
      assert a + b == a;
    } else {
      assert (a + b)[..|a + b| - 1] == a + b[..|b| - 1];
      EmissionsConcat(s, a, b[..|b| - 1], i);
      AfterConcat(s, a, b[..|b| - 1]);
    }
  }

  lemma {:induction false} InsertionsConcat(s: AudioState, a: seq<Op>, b: seq<Op>, i: nat)
    requires TracksOk(s.tracks) && i < |s.tracks|
    ensures Insertions(s, a + b, i) == Insertions(s, a, i) + Insertions(After(s, a), b, i)
  {
    hide Apply, TrackOk, GapOpens, IsMine;
    if |b| == 0 {
      assert a + b == a;
    } else {
      assert (a + b)[..|a + b| - 1] == a + b[..|b| - 1];
      InsertionsConcat(s, a, b[..|b| - 1], i);
      AfterConcat(s, a, b[..|b| - 1]);
    }
  }

  // ---------------------------------------------------- cutting into chunks

  /** The packets of a chunk do not depend on what is published behind them. */
  lemma {:induction false} RunOfPrefix(s: AudioState, a: seq<byte>, b: seq<byte>, n: nat)
    requires TracksOk(s.tracks) && n * 188 <= |a|
    ensures var r, q := RunPackets(s, a, n), RunPackets(s, a + b, n);
      q.state == r.state && q.fills == r.fills && q.data == r.data + b
  {
    hide StepStream, TrackOk, RunPackets;
    if n == 0 {
      RunPacketsStart(s, a);
      RunPacketsStart(s, a + b);
    } else {
      RunOfPrefix(s, a, b, n - 1);
      RunPacketsNext(s, a, n - 1);
      RunPacketsNext(s, a + b, n - 1);
      var r := RunPackets(s, a, n - 1);
      assert Block(r.data + b, n - 1) == Block(r.data, n - 1);
      assert (r.data + b)[..(n - 1) * 188] == r.data[..(n - 1) * 188];
      assert (r.data + b)[(n - 1) * 188 + 188..] == r.data[(n - 1) * 188 + 188..] + b;
    }
  }

  /** Two chunks give what one chunk would: the same packets, the same silence, the same
      state; so it does not matter how the stream is cut. */
  lemma {:induction false} CuttingDoesNotMatter(s: AudioState, a: seq<byte>, m: nat, b: seq<byte>, n: nat)
    requires TracksOk(s.tracks) && |a| == m * 188 && n * 188 <= |b|
    ensures (m + n) * 188 <= |a + b|
    ensures var first := RunPackets(s, a, m); var second := RunPackets(first.state, b, n);
      RunPackets(s, a + b, m + n)
      == ChunkStep(second.state, first.data + second.data, first.fills + second.fills)
  {
    hide StepStream, TrackOk, RunPackets, Block;
    var first := RunPackets(s, a, m);
    if n == 0 {
      RunOfPrefix(s, a, b, m);
      RunPacketsStart(first.state, b);
      assert first.fills + [] == first.fills;
    } else {
      CuttingDoesNotMatter(s, a, m, b, n - 1);
      RunPacketsNext(s, a + b, m + (n - 1));
      RunPacketsNext(first.state, b, n - 1);
      var second := RunPackets(first.state, b, n - 1);
      SecondStep(first, second, m, n - 1);
      JoinStep(first, second, StepStream(second.state, Block(second.data, n - 1)), m, n - 1);
    }
  }

  lemma JoinStep(first: ChunkStep, second: ChunkStep, d: StreamStep, m: nat, n: nat)
    requires |first.data| == m * 188 && (n + 1) * 188 <= |second.data|
    ensures (first.data + second.data[..n * 188]) + d.packet + second.data[n * 188 + 188..]
      == first.data + (second.data[..n * 188] + d.packet + second.data[n * 188 + 188..])
    ensures (first.fills + second.fills) + d.fill == first.fills + (second.fills + d.fill)
  {
  }

  lemma SecondStep(first: ChunkStep, second: ChunkStep, m: nat, n: nat)
    requires |first.data| == m * 188 && (n + 1) * 188 <= |second.data|
    ensures var data := first.data + second.data; var k := m + n;
      && Block(data, k) == Block(second.data, n)
      && data[..k * 188] == first.data + second.data[..n * 188]
      && data[k * 188 + 188..] == second.data[n * 188 + 188..]
  {
  }

  // ------------------------------------------------------------- publishing

  datatype Event = Chunk(data: seq<byte>) | Clear

  /** State of the record, and everything the ring has received. */
  datatype Outcome = Outcome(state: AudioState, ring: seq<byte>)

  function Published(s: AudioState, events: seq<Event>): (o: Outcome)
    requires TracksOk(s.tracks)
    ensures TracksOk(o.state.tracks) && |o.state.tracks| == |s.tracks|
  {
    if |events| == 0 then Outcome(s, [])
    else
      var o := Published(s, events[..|events| - 1]);
      match events[|events| - 1]
      case Chunk(data) =>
        var r := RunChunk(o.state, data);
        Outcome(r.state, o.ring + r.fills + r.data)
      case Clear => Outcome(Cleared(o.state), o.ring)
  }

  /** `put` with gap filling on, once the PMT is known: the chunk is rewritten in place,
      then it follows its silence into the ring. */
  method PublishAll(events: seq<Event>, ti: TsInfo, ring: Ring)
    requires ti.pmtParsed && |ti.tracks| > 0 && TracksOk(ti.tracks)
    modifies ti`tracks, ti`gapCount, ti`silentFrames, ti`silentPackets, ti`silentBytes, ring
    ensures var o := Published(old(ti.Audio()), events);
      ti.Audio() == o.state && ring.written == old(ring.written) + o.ring
  {
    hide RunChunk, TrackOk, Cleared;
    ghost var s0, w0 := ti.Audio(), ring.written;
    assert w0 + [] == w0 && events[..0] == [];
    for k := 0 to |events|
      invariant ti.Audio() == Published(s0, events[..k]).state
      invariant |ti.tracks| == |s0.tracks| && TracksOk(ti.tracks)
      invariant ring.written == w0 + Published(s0, events[..k]).ring
    {
      assert events[..k + 1][..k] == events[..k];
      match events[k] {
      case Chunk(data) =>
        PutChunk(data, ti, ring);
      case Clear =>
        ClearAudioGapStats(ti);
      }
      assert ti.Audio() == Published(s0, events[..k + 1]).state;
    }
    assert events[..|events|] == events;
  }

  method PutChunk(data: seq<byte>, ti: TsInfo, ring: Ring)
    requires ti.pmtParsed && |ti.tracks| > 0 && TracksOk(ti.tracks)
    modifies ti`tracks, ti`gapCount, ti`silentFrames, ti`silentPackets, ti`silentBytes, ring
    ensures var r := RunChunk(old(ti.Audio()), data);
      ti.Audio() == r.state && ring.written == old(ring.written) + r.fills + r.data
  {
    hide RunChunk, TrackOk;
    var buf := new byte[|data|](k requires 0 <= k < |data| => data[k]);
    assert buf[..buf.Length] == data;
    CheckAudioGap(buf, buf.Length, ti, ring);
    assert buf[..] == buf[..buf.Length];
    ring.Put(buf);
  }

  /** The packets and clears of a list of events, in order. */
  function OpsOf(events: seq<Event>): seq<Op> {
    if |events| == 0 then []
    else
      OpsOf(events[..|events| - 1])
      + match events[|events| - 1] case Chunk(data) => Arrivals(data, |data| / 188) case Clear => [ClearStats]
  }

  lemma {:induction false} PublishingIsARun(s: AudioState, events: seq<Event>)
    requires TracksOk(s.tracks)
    ensures Published(s, events).state == After(s, OpsOf(events))
  {
    hide RunPackets, TrackOk, Cleared;
    if |events| > 0 {
      var init := events[..|events| - 1];
      PublishingIsARun(s, init);
      match events[|events| - 1]
      case Chunk(data) =>
        ChunkIsARun(Published(s, init).state, data, |data| / 188);
        AfterConcat(s, OpsOf(init), Arrivals(data, |data| / 188));
      case Clear =>
        AfterConcat(s, OpsOf(init), [ClearStats]);
        assert [ClearStats][..0] == [];
    }
  }

  /** The counter law over any sequence of chunks and clears. */
  lemma CounterLawOverChunks(s: AudioState, events: seq<Event>, i: nat)
    requires TracksOk(s.tracks) && i < |s.tracks| && Unheard(s.tracks[i])
    ensures var e := Emissions(s, OpsOf(events), i); var t := Published(s, events).state.tracks[i];
      && t.ccInitialized == (|e| > 0)
      && (|e| > 0 ==> t.expectedCc == Nibble(e[0].counter + |e| + Insertions(s, OpsOf(events), i)))
      && (forall k :: 0 <= k < |e| ==> e[k].counter == Nibble(e[0].counter + k + Skips(e[..k + 1])))
  {
    hide Emissions, After, Insertions, TrackOk, Skips, Published, OpsOf;
    PublishingIsARun(s, events);
    CounterLaw(s, OpsOf(events), i);
  }

  /** One more chunk: its emissions and insertions are those of the chunk alone, from the
      state the earlier ones left. */
  lemma OneMoreChunk(s: AudioState, events: seq<Event>, data: seq<byte>, i: nat)
    requires TracksOk(s.tracks) && i < |s.tracks|
    ensures var now := Published(s, events).state; var ops := Arrivals(data, |data| / 188);
      && Emissions(s, OpsOf(events + [Chunk(data)]), i) == Emissions(s, OpsOf(events), i) + Emissions(now, ops, i)
      && Insertions(s, OpsOf(events + [Chunk(data)]), i) == Insertions(s, OpsOf(events), i) + Insertions(now, ops, i)
  {
    hide Emissions, Insertions, After, TrackOk, Published;
    assert (events + [Chunk(data)])[..|events|] == events;
    PublishingIsARun(s, events);
    EmissionsConcat(s, OpsOf(events), Arrivals(data, |data| / 188), i);
    InsertionsConcat(s, OpsOf(events), Arrivals(data, |data| / 188), i);
  }

  /** Totals agree after any sequence of chunks and clears. */
  lemma ChunksConserve(s: AudioState, events: seq<Event>)
    requires TracksOk(s.tracks) && Conserved(s)
    ensures Conserved(Published(s, events).state)
  {
    hide After, TrackOk, Published, Conserved, OpsOf;
    PublishingIsARun(s, events);
    RunsConserve(s, OpsOf(events));
  }

  // --------------------------------------------------------- the first packet

  /** Without a PES start nothing is emitted. */
  lemma {:induction false} NothingBeforeStart(s: AudioState, ops: seq<Op>, i: nat)
    requires TracksOk(s.tracks) && i < |s.tracks| && s.tracks[i].inGap && !Started(s, ops, i)
    ensures Emissions(s, ops, i) == []
  {
    hide StepStream, TrackOk, Emitted, IsMine;
    if |ops| > 0 {
      var n := |ops| - 1;
      var before := After(s, ops[..n]);
      assert !Started(s, ops[..n], i) by {
        assert forall k :: 0 <= k < n ==> (IsStartOf(s, ops, k, i) <==> IsStartOf(s, ops[..n], k, i));
      }
      NothingBeforeStart(s, ops[..n], i);
      InGapExactlyUntilStart(s, ops[..n], i);
      if ops[n].Arrive? {
        SameMine(s, ops[..n], ops[n].packet, i);
        assert !IsStartOf(s, ops, n, i);
        NothingEmitted(before, ops[n].packet, i);
      }
    }
  }

  lemma SameMine(s: AudioState, ops: seq<Op>, p: Packet, i: nat)
    requires TracksOk(s.tracks)
    ensures IsMine(After(s, ops), p, i) <==> IsMine(s, p, i)
  {
    hide TrackOk, After;
    AfterKeepsPids(s, ops);
    SameIndex(s.tracks, After(s, ops).tracks, PacketPid(p));
  }

  /** The first packet a track emits in a run is its first PES start, and it keeps the
      counter it came with. */
  lemma FirstKeepsItsCounter(s: AudioState, ops: seq<Op>, k: nat, i: nat)
    requires TracksOk(s.tracks) && i < |s.tracks| && Unheard(s.tracks[i])
    requires k < |ops| && IsStartOf(s, ops, k, i) && forall j :: 0 <= j < k ==> !IsStartOf(s, ops, j, i)
    ensures var e := Emissions(s, ops, i); |e| > 0 && e[0] == Emission(Counter(ops[k].packet), false, false)
  {
    hide StepTrack, TrackOk, Emitted, IsMine, Emissions, After;
    var before, p := After(s, ops[..k]), ops[k].packet;
    assert ops == ops[..k] + ops[k..] && ops[k..] == [ops[k]] + ops[k + 1..];
    assert forall j :: 0 <= j < k ==> (IsStartOf(s, ops, j, i) <==> IsStartOf(s, ops[..k], j, i));
    NothingBeforeStart(s, ops[..k], i);
    FirstIsNotSkipped(s, ops[..k], i);
    SameMine(s, ops[..k], p, i);
    EmissionsConcat(s, ops[..k], ops[k..], i);
    EmissionsConcat(before, [ops[k]], ops[k + 1..], i);
    FirstEmission(before, p, i);
  }

  lemma FirstEmission(s: AudioState, p: Packet, i: nat)
    requires TracksOk(s.tracks) && i < |s.tracks| && IsMine(s, p, i) && IsStart(p)
    requires !s.tracks[i].ccInitialized && s.tracks[i].lastPts == INVALID_PTS
    ensures var e := Emissions(s, [Arrive(p)], i); |e| > 0 && e[0] == Emission(Counter(p), false, false)
  {
    hide StepTrack, FormatOk, StepStream, Emitted;
    EmittedCounts(s, p, i);
    StepCounts(s.tracks[i], p);
    assert [Arrive(p)][..0] == [];
  }
}
