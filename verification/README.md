# The media path of the SRT live server, modelled in Dafny

This project models the MPEG-TS media path of the SRT server and the bounded components around
it, and proves what they promise over all inputs and all runs.

| component | files |
|---|---|
| Audio gap filler on the wrapping 33-bit clock, and the in-place counter rewriter | `GapRule`, `AudioFormat`, `SilentPacket`, `AudioGap`, `AudioGapRuns`, `AudioGapSafety`, `AudioGapChunks`, `AudioGapRing`, `AudioGapHeard`, `AudioGapSamples` |
| TS, PSI, SEI and H.264 parameter-set parsing; the bootstrap block sent first to every subscriber | `TsInfo`, `Psi`, `BitReader`, `Sei`, `SpsPps`, `SpsPpsRoundTrip`, `Bootstrap`, `BootstrapRuns`, `BootstrapTrace`, `BootstrapScan`, `BootstrapPut`, `BootstrapReplay`, `BootstrapSamples` |
| Growable circular byte buffer | `CircularArray` |
| Egress cursor of a subscriber under backpressure | `Egress` |
| Sliding-window bitrate limiter with its violation timer | `BitrateLimit` |
| Player-key cache, webhook dispatch, per-source rate limit | `PlayerKeys`, `RateLimit` |
| Ring-memory budget of the stream map | `RingBudget` |
| Shared vocabulary | `Bytes`, `MapSizes` |

`dafny verify dfyconfig.toml` checks everything.

## How the model is built

Code that changes state is a class with methods, and each method is proved against a function of
the old state. The properties are then proved of that function: over lists of packets, calls,
visits or events of any length. Bytes are integers in 0..255; a mask or shift of the C++ code is
written as a quotient or a remainder. Clock readings, webhook replies, socket replies and ring
replies are parameters. Where a whole run needs them they come from an arbitrary list or an
arbitrary oracle function, so a theorem about runs covers every behaviour of the outside world.

## What the proofs say about the code

Some claims are false of the code as it stands. For each of these the exact condition is proved,
and a concrete input on which the claim fails.

* Filling a gap is idempotent exactly when the 250-frame cap does not cut the fill short
  (`GapRule.FillingIsIdempotent`). At 48 kHz or less the cap never binds; at 96 kHz it does
  (`GapRule.CapBindsAt96kHz`).
* sls/AUDIO_GAP_FILLING.md:83-85 says that rewritten continuity counters are sequential. Each
  insertion skips one value, because the current packet has already taken one. Counters are
  sequential exactly when no packet of the track opens a gap
  (`AudioGapRuns.SequentialExactlyWhenNothingInserted`), and `AudioGapRuns.CounterLaw` gives the
  closed form. `AudioGapSamples.SampleBreaksTheOrder` is a stream on which they are not.
* All silence of a chunk enters the ring before the chunk itself. A reader of the ring sees the
  counters of a track in the order in which they were numbered exactly when no gap opens behind a
  surviving packet of the same chunk, on a codec for which silence can be built
  (`AudioGapRing.RingOrderIsNumberingOrderExactlyWhen`). This is about chunks of at most seven
  packets, which is what the publisher reads at once (sls-patch/src/core/SLSRole.cpp:436-448). In
  far longer chunks the four-bit counters could come round and hide the difference. The same
  sample breaks the order.
* sls/AUDIO_GAP_FILLING.md:87-89 says that continuation packets are nulled after each detected
  gap. The code nulls them only before the first PES start of a track
  (`AudioGapSafety.NulledExactlyBeforeFirstStart`, and
  `AudioGapSamples.SampleContinuationSurvives`).
* sls/AUDIO_GAP_FILLING.md:81 says that gaps above 2 seconds are ignored. The bound in the code is
  450000 ticks, which is 5 seconds (`GapRule.InsertsExactlyWhen`, `GapRule.ThreeSecondsAreFilled`).
* A `put` that grows the circular buffer keeps the bytes and the count but leaves the write
  position at 0. The buffer stays usable exactly when it was full and at least 4096 bytes were
  added (`CircularArray.CircularBuffer.Grow`, over whole runs `CircularArray.Run`). After any other
  growth a read that asks for more than is stored returns bytes that were never stored, and the
  next put overwrites bytes that were (`CircularArray.OverreadAfterGrowth`,
  `CircularArray.OverwriteAfterGrowth`, `CircularArray.MisreadSample`).
* The stored SPS followed by the stored PPS parses back to the same two exactly when the junction
  makes no start code and the PPS does not end in 00 00 00 00 01. A PPS can end so when its payload
  ended in a start code and the SPS came in another packet; an SPS that ends in neither 00 nor
  00 00 00 01 is then not enough (`BootstrapTrace.RunRoundTripExactlyWhen`,
  `SpsPpsRoundTrip.TrailingSample`, `SpsPpsRoundTrip.SampleDoesNotRoundTrip`).
* A receiver that parses the bootstrap block of any run rebuilds the same block exactly when the
  PAT in the block announces the PMT in it, no start code is made at the end of the SPS, nor at the
  end of the PPS by the padding byte that a total of 169 bytes needs, and the PPS carries no
  trailing start code (`BootstrapReplay.RebuiltExactlyWhen`). Each condition can fail:
  `BootstrapSamples.RefreshedBlockIsNotReproduced`, `BootstrapSamples.SampleBlockIsNotReproduced`,
  `BootstrapSamples.TrailingBlockIsNotReproduced`.
* `check_ts_info` decides the block once everything is collected exactly when the last packet it
  looked at was not the PMT (`BootstrapScan.CheckTsInfoBuildsExactlyWhen`). When the PMT comes last
  it is the timecode scan that builds the block, although the comment at
  sls-patch/src/core/SLSMapData.cpp:452-455 says that this scan never touches the bootstrap: it does
  so in the very same chunk in `BootstrapSamples.ScanBuildsAtOnce`. If the PMT lists no video the
  scan never runs and the block stays idle (`BootstrapSamples.SilentPmtLeavesBlockIdle`).
  `BootstrapPut.PutLeavesBlockIdleExactlyWhen` is the exact condition for both passes together.
* The second PTS decoder, `ff_parse_pes_pts`, shifts one byte one place too far. It agrees with the
  other decoder exactly below 2^31 with bits 22 to 29 zero (`Bootstrap.LegacyPtsAgreesExactlyWhen`,
  `Bootstrap.LegacyPtsSample`).
* The rate limit bounds the webhooks of an IP as long as each dispatch finds room in the map
  (`RateLimit.AtMostRequestsInAnyWindow`, and for the validator `PlayerKeys.WebhooksPerWindow`).
  For an IP that the map does not hold the bound holds exactly when there is room
  (`RateLimit.NewcomerBoundedExactlyWhen`). Behind a crowd of 100000 IPs there is none, and one more
  IP has any number of webhooks sent at one instant (`PlayerKeys.CrowdedRun`).
* sls-patch/src/core/SLSMapData.hpp:84 speaks of a ring of about twice the latency window, and the
  comment at sls-patch/src/core/SLSMapData.cpp:82-85 of one. The size is computed from the latency
  in truncated seconds, so even one window is held only under a condition
  (`RingBudget.HoldsOneWindowExactlyWhen`, `RingBudget.HoldsTwoWindowsExactlyWhen`); at 100000 kbps
  and 1999 ms it is not (`RingBudget.WindowSamples`).
* The bitrate limiter casts the measured rate to `int`. Up to 2^31 kbit/s its verdict is the exact
  one; above, it can miss an excess but never invent one (`BitrateLimit.ExceedsExactlyWhen`,
  `BitrateLimit.ExceedingIsOverLimit`, `BitrateLimit.FloodIsMissed`).

## Model

| member | source | states |
|---|---|---|
| GapRule.InsertsExactlyWhen | sls/src/core/SLSAudioGapFiller.cpp:368-383 | silence is inserted if and only if the clock distance is at least one and a half frames and at most 450000 ticks |
| GapRule.CountIsTheNearestFit | sls/src/core/SLSAudioGapFiller.cpp:379-383 | reference definition of the rounded count: below the cap, m frames are inserted if and only if m frames leave a last step between half and one and a half frames |
| GapRule.CapBindsExactlyWhen | sls/src/core/SLSAudioGapFiller.cpp:379-388 | the 250-frame cap cuts a fill short if and only if the gap is at least 251.5 frames |
| GapRule.CapNeverBindsUpTo48kHz | sls/src/core/SLSAudioGapFiller.cpp:49-63 | at any rate up to 48 kHz a frame is at least 1800 ticks, so the cap cannot bind within the 5 second limit |
| GapRule.CapBindsAt96kHz | sls/src/core/SLSAudioGapFiller.cpp:379-388 | at 96 kHz a gap of 450000 ticks is cut to 250 frames, and 218 more would fit into the step that is left |
| GapRule.ThreeSecondsAreFilled | sls/AUDIO_GAP_FILLING.md:81 | a gap of three seconds, which the documentation says is ignored, is filled with 149 frames |
| GapRule.FillPtsInsideGap | sls/src/core/SLSAudioGapFiller.cpp:390-394 | every inserted PTS lies strictly inside the gap in modular distance, across the 2^33 wrap |
| GapRule.FillPtsSpacing | sls/src/core/SLSAudioGapFiller.cpp:390-394 | neighbouring inserted PTS values are exactly one frame apart on the clock |
| GapRule.TimelineSteps | sls/src/core/SLSAudioGapFiller.cpp:354-397 | every step of the filled timeline is one frame, except the remainder before the current packet |
| GapRule.FillingIsIdempotent | sls/src/core/SLSAudioGapFiller.cpp:354-397 | applying the rule again to every neighbouring pair of the filled timeline inserts nothing, if and only if the cap did not bind, for all 33-bit PTS pairs |
| AudioFormat.DetectionKeepsTrack | sls/src/core/SLSAudioGapFiller.cpp:65-169 | format detection changes format fields only, and whatever it accepts is a format a silent frame can be built for |
| AudioFormat.DetectionByStreamType | sls/src/core/SLSAudioGapFiller.cpp:139-169 | AAC in both types is read by its ADTS header, MPEG audio in both types by its own, private data as 48 kHz stereo Opus; any other type teaches nothing |
| AudioFormat.AdtsAcceptedExactlyWhen | sls/src/core/SLSAudioGapFiller.cpp:65-93 | an encoded ADTS header of seven bytes is accepted if and only if its sync word is twelve ones, its rate index at most 12 and its channel configuration not 0; then its fields are read back |
| AudioFormat.Mp3AcceptedExactlyWhen | sls/src/core/SLSAudioGapFiller.cpp:95-137 | an encoded MPEG audio header is accepted if and only if its sync word is eleven ones and version, layer, bit rate and rate are neither reserved nor free; then its fields are read back |
| AudioFormat.RatesAreHalves | sls/src/core/SLSAudioGapFiller.hpp:53-64 | ADTS rates halve every three places, from 12000, 11025 and 8000 upwards; the MPEG-2 and MPEG-2.5 rates are half and a quarter of MPEG-1 |
| AudioFormat.AdtsRoundTrip | sls/src/core/SLSAudioGapFiller.cpp:65-93 | detection reads back from a silent ADTS frame the profile, rate index and channel configuration it was built from |
| AudioFormat.Mp3RoundTrip | sls/src/core/SLSAudioGapFiller.cpp:95-137 | detection reads back from a silent MP3 frame the version, rate and channels it was built from |
| AudioFormat.AdtsFrameDescribesItself | sls/src/core/SLSAudioGapFiller.cpp:171-186 | the frame-length field of a silent ADTS frame is its length; no checksum, variable rate, one block |
| AudioFormat.Mp3FrameDescribesItself | sls/src/core/SLSAudioGapFiller.cpp:188-233 | a silent MP3 frame has the size of a Layer III frame at 32 kbit/s, says so, and is all zeros behind its header |
| AudioFormat.OpusFrameDescribesItself | sls/src/core/SLSAudioGapFiller.cpp:235-262 | a silent Opus packet is one empty 20 ms frame with the channels of the track |
| AudioFormat.SilentFrameKeepsFormat | sls/src/core/SLSAudioGapFiller.cpp:171-262 | a listener that detects the format of an inserted frame arrives at the format of the track |
| AudioFormat.Mp3FrameFitsExactlyWhenMpeg1 | sls/src/core/SLSAudioGapFiller.cpp:188-208 | a silent MP3 frame exists if and only if the track is MPEG-1 |
| SilentPacket.WritePesPts | sls/src/core/SLSAudioGapFiller.cpp:264-271 | writes the five-byte PTS field in place and touches no other byte |
| SilentPacket.PtsRoundTrip | sls-patch/src/core/SLSMapData.cpp:683-687 | decoding inverts encoding for every 33-bit PTS and every prefix |
| SilentPacket.PtsFieldIsCanonical | sls-patch/src/core/SLSMapData.cpp:683-687 | encoding inverts decoding for every field with its marker bits set |
| SilentPacket.BuildSilentTsPacket | sls/src/core/SLSAudioGapFiller.cpp:273-352 | fills exactly 188 bytes and advances the counter only when a packet is really built |
| SilentPacket.GenerateGapPackets | sls/src/core/SLSAudioGapFiller.cpp:354-397 | returns the silent packets at the fill times in order, or nothing, with the counter after them |
| SilentPacket.SilentTsLengthsAgree | sls/src/core/SLSAudioGapFiller.cpp:273-352 | the adaptation field ends where the PES packet starts, and the PES packet ends by its own length field at byte 188 |
| SilentPacket.SilentTsRoundTrip | sls-patch/src/core/SLSMapData.cpp:658-687 | the stream parser reads back from a built packet its PID, stream id, counter, 33-bit PTS and frame |
| SilentPacket.SilentTsHeaderBits | sls/src/core/SLSAudioGapFiller.cpp:300-352 | the payload bit is set and the adaptation bit exactly when there is stuffing, whose length, flags and 0xFF bytes are in order; start bit alone, not scrambled; PES marker and flags; PTS prefix and marker bits |
| SilentPacket.AudioPesReadExactlyWhen | sls-patch/src/core/SLSMapData.cpp:658-687 | of all encoded PES headers behind any adaptation field, those with prefix 1, stream id 0xC0 to 0xDF and 14 bytes of room are read, and no other; the PTS is told if and only if its flag is set |
| SilentPacket.BuiltExactlyWhen | sls/src/core/SLSAudioGapFiller.cpp:188-208 | a packet is built for AAC, Opus and MPEG-1 MP3, and for no MPEG-2 or MPEG-2.5 MP3 track |
| SilentPacket.UnbuiltLeavesNoTrace | sls/src/core/SLSAudioGapFiller.cpp:276-297 | an unbuildable frame leaves 188 bytes of 0xFF that no reader takes for a packet, and the counter does not move |
| SilentPacket.FillReadsBack | sls/src/core/SLSAudioGapFiller.cpp:390-396 | each block of a fill reads back as a packet of the track with consecutive counters and its own fill time |
| SilentPacket.FillIsTheTimeline | sls/src/core/SLSAudioGapFiller.cpp:354-397 | the PTS values parsed back from the inserted bytes are the filled timeline |
| SilentPacket.FilledStreamNeedsNoFilling | sls/src/core/SLSAudioGapFiller.cpp:354-397 | with all guards of the filler: filling again between any two neighbours of the filled timeline, first and last pair included, inserts nothing if and only if the cap did not bind |
| TsInfoRecord.TsInfo.constructor | sls-patch/src/core/common.cpp:1353-1395 | a fresh record knows no PID, table or parameter set, and its block is seven null packets |
| AudioGap.FindTrack | sls-patch/src/core/SLSMapData.cpp:606-617 | finds the first track with the packet's PID |
| AudioGap.InsertSilence | sls-patch/src/core/SLSMapData.cpp:700-742 | one insertion: silence into the ring, totals of track and stream, the packet renumbered behind the silence |
| AudioGap.ProcessTracked | sls-patch/src/core/SLSMapData.cpp:619-742 | everything done in place to one packet of a track, and no byte outside it |
| AudioGap.CheckAudioGap | sls-patch/src/core/SLSMapData.cpp:589-744 | one pass over a chunk is the packet-by-packet run over it; the incomplete tail is untouched |
| AudioGap.ClearAudioGapStats | sls-patch/src/core/SLSMapData.cpp:535-552 | clearing resets the statistics of stream and tracks and nothing that steers the rewriter |
| AudioGapRuns.ChunkIsARun | sls-patch/src/core/SLSMapData.cpp:597-743 | the state after a chunk is that after its packets, one by one |
| AudioGapRuns.InsertsExactlyWhereGapOpens | sls-patch/src/core/SLSMapData.cpp:655-708 | a step inserts silence if and only if, on the arriving packet and the track before it: a PES start with a PTS, a PTS heard before, the format known, at least one and a half frames and at most five seconds |
| AudioGapRuns.StepCounts | sls-patch/src/core/SLSMapData.cpp:641-742 | a surviving packet takes the next counter; with an insertion that value is skipped, and the silence and then the packet take the ones after it |
| AudioGapRuns.RunIsNumbered | sls-patch/src/core/SLSMapData.cpp:641-742 | over any run, counters of neighbouring packets differ by one, and by two exactly where an insertion begins |
| AudioGapRuns.RunIsChained | sls-patch/src/core/SLSMapData.cpp:641-742 | the same from any state whatever, so of every chunk in mid-stream |
| AudioGapRuns.CounterLaw | sls-patch/src/core/SLSMapData.cpp:650-651 | `expected_cc` is the first counter plus surviving packets plus built silent packets plus gaps opened, modulo 16, after every run |
| AudioGapRuns.SequentialExactlyWhenNothingInserted | sls/AUDIO_GAP_FILLING.md:83-85 | the documented sequential numbering holds of a run if and only if no packet of the track opens a gap in it |
| AudioGapSafety.RunsConserve | sls-patch/src/core/SLSMapData.cpp:708-739 | after any run of packets and clears, stream totals are the sums over tracks and silent bytes are 188 per silent packet |
| AudioGapSafety.InGapExactlyUntilStart | sls-patch/src/core/SLSMapData.cpp:621-639 | `in_gap` means exactly that the track has seen no PES start |
| AudioGapSafety.NulledExactlyBeforeFirstStart | sls-patch/src/core/SLSMapData.cpp:621-639 | a packet of a track is nulled if and only if it is no PES start and none came before it |
| AudioGapSafety.ChunkAltersOnlyHeaders | sls-patch/src/core/SLSMapData.cpp:597-721 | a chunk comes out altered only in bits 0-4 of byte 1, byte 2 and the low nibble of byte 3 of tracked packets |
| AudioGapChunks.CuttingDoesNotMatter | sls-patch/src/core/SLSMapData.cpp:597-743 | two chunks give the same state, the same rewritten packets and the same silence as one: it does not matter how the stream is cut |
| AudioGapChunks.PublishAll | sls-patch/src/core/SLSMapData.cpp:338-345 | publishing chunks with clears in between, in place: the record and every byte of the ring |
| AudioGapChunks.PublishingIsARun | sls-patch/src/core/SLSMapData.cpp:281-345 | any sequence of chunks and clears is a run of packets and clears, so every law of runs holds of it |
| AudioGapChunks.CounterLawOverChunks | sls-patch/src/core/SLSMapData.cpp:597-743 | the counter law over any sequence of chunks and clears |
| AudioGapChunks.OneMoreChunk | sls-patch/src/core/SLSMapData.cpp:597-743 | a further chunk adds exactly its own emissions and gaps, from the state the earlier ones left |
| AudioGapChunks.ChunksConserve | sls-patch/src/core/SLSMapData.cpp:535-552 | totals agree after any sequence of chunks and clears |
| AudioGapChunks.FirstKeepsItsCounter | sls-patch/src/core/SLSMapData.cpp:641-653 | in any run, the first packet a new track emits is its first PES start, with the counter it came with |
| AudioGapRing.RingSeesSilenceFirst | sls-patch/src/core/SLSMapData.cpp:710-714 | counters parsed back from the ring bytes of a chunk are those of all its silence, then those of all its live packets |
| AudioGapRing.RingReadsReordered | sls-patch/src/core/SLSMapData.cpp:338-345 | what a ring reader sees is the numbered sequence with the silence moved to the front |
| AudioGapRing.RingOrderIsNumberingOrderExactlyWhen | sls-patch/src/core/SLSMapData.cpp:338-345 | for every chunk of at most seven packets (one read of the publisher) and any state before it: the counters parsed from the ring bytes are in numbering order if and only if no gap opens, on a codec silence can be built for, behind a packet of the track that survives in the same chunk |
| AudioGapHeard.RunRemembers | sls-patch/src/core/SLSMapData.cpp:641-742 | after any run of packets and clears, the last PTS of a track is the one in the last arriving PES start of its PID with an audio PTS, or the initial one; its format is what the first such packet that teaches one taught |
| AudioGapHeard.KnownFormatStays | sls-patch/src/core/SLSMapData.cpp:689-698 | a format once known is never lost or changed, whatever follows |
| AudioGapHeard.SilenceExactlyBetween | sls-patch/src/core/SLSMapData.cpp:641-742 | on arriving packets: silence is inserted before a packet if and only if it tells a PTS, an earlier packet of the track told one, the packets so far have taught the format, and the last PTS before it lies at least one and a half frames and at most five seconds back on the 33-bit clock |
| AudioGapHeard.SilenceFillsTheStep | sls-patch/src/core/SLSMapData.cpp:700-742 | the silence inserted is packets of the track with the stream id of the packet behind them, one frame after the other from the last PTS on, as many as leave half to one and a half frames (or 250) |
| AudioGapSamples.SampleBreaksTheOrder | sls-patch/src/core/SLSMapData.cpp:700-736 | a chunk of two Opus packets three frames apart whose counters are not sequential, and not even read in the order in which they were numbered |
| AudioGapSamples.SampleContinuationSurvives | sls/AUDIO_GAP_FILLING.md:87-89 | right behind a filled gap a continuation packet keeps its PID, against the documentation |
| CircularArray.CircularBuffer.constructor | sls/src/core/SLSArray.cpp:33-40 | a new buffer is empty and valid |
| CircularArray.CircularBuffer.SetSize | sls/src/core/SLSArray.cpp:60-69 | resizing empties the buffer |
| CircularArray.CircularBuffer.Clear | sls/src/core/SLSArray.cpp:71-76 | clearing empties the buffer and keeps its size |
| CircularArray.CircularBuffer.GetInline | sls/src/core/SLSArray.cpp:139-201 | a read hands out the oldest bytes in order across the wrap and removes exactly those |
| CircularArray.CircularBuffer.Get | sls/src/core/SLSArray.cpp:133-137 | the same behind the lock |
| CircularArray.CircularBuffer.PutInPlace | sls/src/core/SLSArray.cpp:109-130 | an append that fits is a plain enqueue across the wrap |
| CircularArray.CircularBuffer.Grow | sls/src/core/SLSArray.cpp:87-107 | growth keeps bytes and count; the invariant survives if and only if the buffer was full and at least 4096 bytes came |
| CircularArray.CircularBuffer.Put | sls/src/core/SLSArray.cpp:78-131 | contents become the old contents followed by the data in every case, and validity survives exactly as for the branch taken |
| CircularArray.ReadsAreExactExactlyWhenValid | sls/src/core/SLSArray.cpp:155-170 | reads hand out the stored count if and only if write position = read position + count modulo size |
| CircularArray.OverreadAfterGrowth | sls/src/core/SLSArray.cpp:98-107 | after any other growth a read of everything returns the whole buffer: the stored bytes and bytes never stored behind them |
| CircularArray.OverwriteAfterGrowth | sls/src/core/SLSArray.cpp:103-131 | and a put that fits overwrites the oldest stored bytes |
| CircularArray.MisreadSample | sls/src/core/SLSArray.cpp:98-107 | one byte and then 4096 in a new buffer: 4097 stored, 8192 read |
| CircularArray.FirstInFirstOut | sls/src/core/SLSArray.cpp:78-201 | over any list of puts and gets, bytes read followed by bytes held are bytes held before followed by bytes put |
| CircularArray.Run | sls/src/core/SLSArray.cpp:78-201 | any run of puts and gets refines the byte queue as long as the buffer is valid, and ends with a valid buffer if and only if every growth on the way meets a full buffer with at least 4096 bytes |
| Egress.Viewer.DrainBuffer | sls-patch/src/core/SLSRole.cpp:644-746 | the staged bytes leave in whole 1316-byte messages, in order, until the socket refuses one |
| Egress.Viewer.OneBatch | sls-patch/src/core/SLSRole.cpp:605-767 | one turn: fetch only when nothing is staged, send, keep what was refused; no byte lost or repeated |
| Egress.Viewer.SendStaged | sls-patch/src/core/SLSRole.cpp:644-767 | the send half of a turn: what leaves and what stays staged is what was staged |
| Egress.Viewer.Drain | sls-patch/src/core/SLSRole.cpp:603-770 | one call conserves bytes, asks until the first refusal, fetches again only when all is sent, and reports as the source does |
| Egress.Viewer.HandlerWriteData | sls-patch/src/core/SLSRole.cpp:567-771 | the same behind the guards; a role that waits or has lost its socket, map or key changes nothing |
| Egress.Viewer.UpdateEgressArming | sls-patch/src/core/SLSRole.cpp:296-317 | writability events are asked for exactly while bytes are staged |
| Egress.Viewer.NoteBackpressure | sls-patch/src/core/SLSRole.cpp:703-716 | the stuck timer starts at the first refusal and trips only after the timeout |
| Egress.RunPasses | sls-patch/src/core/SLSRole.cpp:567-771 | over any number of passes and any behaviour of ring and socket: bytes sent since the start followed by bytes staged are those staged at the start followed by the batches of all ring calls made; the log says of every pass what it did and answered; the stuck timer is that of the calls made |
| Egress.CallSendsAtMostTwoBuffers | sls-patch/src/core/SLSRole.cpp:595-603 | one call sends at most two buffers |
| Egress.KicksExactlyStuckViewers | sls-patch/src/core/SLSRole.cpp:682-716 | the stuck timer trips if and only if the call is blocked without progress and an earlier one, more than the timeout ago, was blocked with no message taken in between |
| Egress.GivenUpExactlyWhenStuck | sls-patch/src/core/SLSRole.cpp:682-716 | on the passes of a run and the socket's answers: a blocked pass gives the viewer up if and only if some earlier pass, more than three latencies and more than 500 ms before, was blocked too and the socket has taken no message since |
| BitrateLimit.Limiter.Init | sls/src/core/SLSBitrateLimit.cpp:56-85 | senseless parameters are refused and change nothing; others start an empty window |
| BitrateLimit.Limiter.ResetStats | sls/src/core/SLSBitrateLimit.cpp:240-248 | resetting ends a violation and restarts the cleanup clock |
| BitrateLimit.Limiter.CleanupOldData | sls/src/core/SLSBitrateLimit.cpp:188-197 | the pop loop removes exactly the old front, and the running total stays the sum of the queue |
| BitrateLimit.Limiter.CheckDataBitrate | sls/src/core/SLSBitrateLimit.cpp:87-186 | one call is one step of the violation state machine |
| BitrateLimit.WindowTotalIsAccurate | sls/src/core/SLSBitrateLimit.cpp:87-108 | after every limited call the total lies between the true sum of the last window and that of the last window plus 1000 ms |
| BitrateLimit.UnlimitedTotalIsExact | sls/src/core/SLSBitrateLimit.cpp:91-101 | without a limit the total is the true window sum |
| BitrateLimit.ExceedsExactlyWhen | sls/src/core/SLSBitrateLimit.cpp:110-128 | the nested divisions and the cast to `int` decide "at least one kilobit per second above the limit over the averaging window" if and only if the queued bits per millisecond are below 2^31, or their residue modulo 2^32 lies between the limit and 2^31 |
| BitrateLimit.ExceedsExactlyAboveTolerance | sls/src/core/SLSBitrateLimit.cpp:110-128 | over any history, for rates below 2^31: a call exceeds if and only if the whole kilobits per second of the queue (over the time since its oldest point, at least a second, at most the window) are above the maximum times the tolerance, as real numbers |
| BitrateLimit.SpikeIsTolerated | sls/src/core/SLSBitrateLimit.cpp:110-128 | with a tolerance of two, 1500 kbit/s pass a maximum of 1000 and 2001 do not |
| BitrateLimit.FloodIsMissed | sls/src/core/SLSBitrateLimit.cpp:121-128 | a run of 128 calls of 2097152000 bytes within one second makes a rate of 2^31 kbit/s and is answered OK |
| BitrateLimit.ExceedingIsOverLimit | sls/src/core/SLSBitrateLimit.cpp:110-128 | whatever the rate, what the code takes for too much is too much |
| BitrateLimit.VerdictMeansTraffic | sls/src/core/SLSBitrateLimit.cpp:110-185 | a verdict other than OK means that much real traffic was seen |
| BitrateLimit.VerdictExactlyWhen | sls/src/core/SLSBitrateLimit.cpp:110-185 | DISCONNECT if and only if this call and all calls back to one at least the threshold earlier exceeded the limit; OK if and only if this call did not |
| RateLimit.Limiter.IsRateLimited | sls/src/core/SLSListenerAuth.cpp:122-159 | the check, with its lazy trim and time-gated sweep |
| RateLimit.Limiter.UpdateRateLimit | sls/src/core/SLSListenerAuth.cpp:161-207 | counting a dispatch, with the sweep of a full map |
| RateLimit.Limiter.CleanupExpired | sls/src/core/SLSListenerAuth.cpp:209-238 | the in-place sweep keeps exactly what is younger than two windows, at most once a second |
| RateLimit.AtMostRequestsPerWindow | sls/src/core/SLSListenerAuth.cpp:122-207 | over every run in which each dispatch of an IP finds the IP known, a free place, or a place freed by the sweep, dispatches within one window of each other number at most the limit |
| RateLimit.AtMostRequestsInAnyWindow | sls/src/core/SLSListenerAuth.cpp:122-207 | the same for every interval of the window's length, whether or not a dispatch lies at its ends |
| RateLimit.RefusedExactlyWhen | sls/src/core/SLSListenerAuth.cpp:122-159 | over the same runs: a visit is refused if and only if at least the limit of earlier dispatches of its IP are no older than one window |
| RateLimit.SweepForgetsExactly | sls/src/core/SLSListenerAuth.cpp:209-238 | at most once a second, exactly the IPs without a dispatch in the last two windows are forgotten |
| RateLimit.NeverMoreThanTheCap | sls/src/core/SLSListenerAuth.cpp:161-207 | the map never exceeds 100000 entries |
| RateLimit.UntrackedExactlyWhen | sls/src/core/SLSListenerAuth.cpp:175-204 | that guard decides whether a dispatch is counted |
| RateLimit.UntrackedIsNeverLimited | sls/src/core/SLSListenerAuth.cpp:122-159 | an IP that is not in the map passes every check |
| RateLimit.BurstIsUnbounded | sls/src/core/SLSListenerAuth.cpp:161-207 | a new IP for which the map has no room gets every dispatch it asks for, at one instant |
| RateLimit.BurstIsBounded | sls/src/core/SLSListenerAuth.cpp:122-207 | with room it gets as many as the limit allows and no more |
| RateLimit.NewcomerBoundedExactlyWhen | sls/src/core/SLSListenerAuth.cpp:122-207 | after any history, the bound holds for an IP that the map does not hold, however often it comes at one instant, if and only if the map has room for it |
| RateLimit.CrowdFillsTheMap | sls/src/core/SLSListenerAuth.cpp:175-204 | after one visit each of 100000 IPs there is no room for another |
| PlayerKeys.Validator.InsertLocked | sls/src/core/SLSListenerAuth.cpp:35-70 | refresh in place; at the cap drop what expired; a live entry goes only if the cache is full of live entries and none expires earlier |
| PlayerKeys.Validator.Sweep | sls/src/core/SLSListenerAuth.cpp:72-86 | every five seconds at most, exactly the expired entries go |
| PlayerKeys.Validator.ProcessResponse | sls/src/core/SLSListenerAuth.cpp:351-462 | every reply becomes the cached verdict for its key: positive for the full duration, negative for a quarter |
| PlayerKeys.Validator.Lookup | sls/src/core/SLSListenerAuth.cpp:263-295 | a live entry answers, an expired one is erased |
| PlayerKeys.Validator.StartValidation | sls/src/core/SLSListenerAuth.cpp:307-349 | one webhook per key, at most 1024 in flight, each counted against its source |
| PlayerKeys.Validator.Validate | sls/src/core/SLSListenerAuth.cpp:240-305 | an accept is the latest response for the key and younger than the duration, a cached reject is negative and younger than a quarter; each outcome states the whole new state |
| PlayerKeys.Validator.Complete | sls/src/core/SLSListenerAuth.cpp:464-482 | a finished webhook leaves the set in flight and becomes the latest response; a live entry goes only as a last resort |
| PlayerKeys.Run | sls/src/core/SLSListenerAuth.cpp:240-482 | over any run each event is explained by the moment it found: an answer from the cache is the one the processed responses support, the limiter makes exactly the step of that visit, a webhook goes into flight exactly if the limiter lets it pass and its URL fits, a live entry is evicted only as a last resort; and the cache agrees with the latest responses |
| PlayerKeys.ReplyIsGoodFor | sls/src/core/SLSListenerAuth.cpp:240-295 | over any run, for a visit that its rate lets through: the last reply processed for the key is answered with the id it named and no further webhook at every time before the full duration is over, with a reject before a quarter of it if it named none, and the visit is pending from then on |
| PlayerKeys.EntryIsLastReply | sls/src/core/SLSListenerAuth.cpp:351-456 | over any run, an entry in the cache is field by field what the last reply for its key said and when, the player limit included (below -1 it is ignored) |
| PlayerKeys.EntryStays | sls/src/core/SLSListenerAuth.cpp:35-86 | it is there until it expires, unless an event finds the cache full of live entries |
| PlayerKeys.LimiterFollows | sls/src/core/SLSListenerAuth.cpp:240-349 | the rate limiter of any run of the validator is that of the visits it sees |
| PlayerKeys.VisitRefusedExactlyWhen | sls/src/core/SLSListenerAuth.cpp:240-262 | in a run of a fresh validator a visit is refused for its rate if and only if at least the limit of dispatches counted for its source are no older than one window; a refusal changes neither the cache nor the webhooks in flight |
| PlayerKeys.WebhooksPerWindow | sls/src/core/SLSListenerAuth.cpp:122-349 | in any run of a fresh validator in which each dispatch of a source finds room in the map, no interval of the window's length sees more webhooks for that source than the limit |
| PlayerKeys.CrowdedRun | sls/src/core/SLSListenerAuth.cpp:161-349 | a run of the validator itself, with never more than one webhook in flight, in which one IP behind a crowd of 100000 has any number of webhooks sent at one instant |
| RingBudget.MapData.SetCaps | sls-patch/src/core/SLSMapData.cpp:167-173 | the caps are taken over |
| RingBudget.MapData.Add | sls-patch/src/core/SLSMapData.cpp:44-165 | a repeated add succeeds and changes nothing; an add of a new key succeeds if and only if the map with that ring is within both caps, and then creates it; conservation is kept |
| RingBudget.OneMoreFits | sls-patch/src/core/SLSMapData.cpp:61-135 | the two tests made on the counters before the ring exists decide whether the map with that ring is within both caps |
| RingBudget.MapData.Remove | sls-patch/src/core/SLSMapData.cpp:219-253 | the budget of exactly that ring is returned |
| RingBudget.MapData.Clear | sls-patch/src/core/SLSMapData.cpp:402-427 | everything is accounted for down to zero |
| RingBudget.Run | sls-patch/src/core/SLSMapData.cpp:44-173 | after any run: stream count = number of rings, total = sum of their sizes, both within the caps, ring and ts_info keys equal, sizes within bounds |
| RingBudget.TotalWithout | sls-patch/src/core/SLSMapData.cpp:219-253 | the total does not depend on the order in which rings are counted |
| RingBudget.HoldsOneWindowExactlyWhen | sls-patch/src/core/SLSMapData.cpp:91-117 | a ring holds one latency window at the hinted bitrate if and only if the window fits the default ring, or fits 32 MB and the latency is at most one second or whole seconds |
| RingBudget.HoldsTwoWindowsExactlyWhen | sls-patch/src/core/SLSMapData.hpp:82-88 | it holds the two windows the header speaks of if and only if they fit the default ring, or fit 32 MB and the latency is at most half a second |
| RingBudget.GrowsExactlyForAHint | sls-patch/src/core/SLSMapData.cpp:91-117 | a ring is larger than 8 MB if and only if bitrate and latency are given and a second, or the whole seconds of the latency, need more |
| RingBudget.WindowSamples | sls-patch/src/core/SLSMapData.cpp:91-117 | at 100000 kbps, 1999 ms do not fit their ring, and 1000 ms fit once but not twice |
| SpsPps.ParseSpsPps | sls-patch/src/core/common.cpp:648-762 | the byte-by-byte loop equals the NAL-by-NAL reading of the stream |
| SpsPps.ExtractedAreExactSlices | sls-patch/src/core/common.cpp:648-762 | each stored parameter set is untouched or an exact slice from a start code with NAL type 7 (8) to the next start code or the end, at most 188 bytes |
| SpsPps.FoundExactlyWhenPresent | sls-patch/src/core/common.cpp:648-762 | a fresh parse succeeds if and only if the stream holds both kinds of NAL short enough to store |
| SpsPpsRoundTrip.ExtractStoresParamSets | sls-patch/src/core/common.cpp:648-762 | when one parse of an empty record finds both sets, each stands on its own: one start code, the right NAL type, no further start code |
| SpsPpsRoundTrip.ParseStores | sls-patch/src/core/common.cpp:648-762 | any parse into any record, whatever earlier parses stored: each set stands on its own, or does so but for the five-byte start code that ended its stream |
| SpsPpsRoundTrip.Reextracted | sls-patch/src/core/common.cpp:648-762 | what the parser finds in an SPS followed by anything that begins like a PPS, in all three junction cases |
| SpsPpsRoundTrip.RoundTripExactlyWhen | sls-patch/src/core/common.cpp:648-762 | for sets that stand on their own: SPS + PPS parse back to the same two slices if and only if the SPS neither ends in 00 00 00 01 nor lends a zero to a four-byte code |
| SpsPpsRoundTrip.ExtractRoundTrip | sls-patch/src/core/common.cpp:648-762 | whatever a parse stores, together with whatever earlier parses stored: the pair comes back if and only if the junction is clean and the PPS does not end in 00 00 00 00 01 |
| SpsPpsRoundTrip.StoredRoundTripExactlyWhen | sls-patch/src/core/common.cpp:648-762 | the same of every pair of sets that a record can hold |
| SpsPpsRoundTrip.OneParseRoundTrip | sls-patch/src/core/common.cpp:648-762 | when one parse finds both, the clean junction alone decides; an SPS that ends in neither 00 nor 00 00 00 01 is enough |
| BootstrapTrace.RunRoundTripExactlyWhen | sls-patch/src/core/common.cpp:648-762 | the same over every run of packets into a fresh record, whichever packets brought the two sets |
| SpsPpsRoundTrip.TrailingSample | sls-patch/src/core/common.cpp:648-762 | a PPS behind which a start code ends the payload, and an SPS in the next payload: both are stored, the SPS is clean, and the pair does not come back |
| SpsPpsRoundTrip.SampleDoesNotRoundTrip | sls-patch/src/core/common.cpp:648-762 | a stream of a PPS and an SPS that ends in 00: it parses, and the two slices parse back to two others |
| BitReader.ReadBitAt | sls-patch/src/core/common.cpp:764-772 | reads the bit at a position and advances, or fails at the end |
| BitReader.ReadBits | sls-patch/src/core/common.cpp:774-787 | reads a big-endian field or fails without reading past the buffer |
| BitReader.ReadUe | sls-patch/src/core/common.cpp:789-815 | the Exp-Golomb reader with its 32-zero limit and 32-bit result |
| BitReader.UeDecodes | sls-patch/src/core/common.cpp:789-815 | at any bit offset of any buffer, a ue(v) code word (section 9.1 of ITU-T H.264) is consumed exactly |
| BitReader.UeInvertsExactlyUpTo31Bits | sls-patch/src/core/common.cpp:789-815 | decoding inverts encoding if and only if the value is at most 2^31-1; larger ones come out negative |
| Sei.ReadTimecode | sls-patch/src/core/common.cpp:856-886 | the fields of a timecode payload, or failure |
| Sei.ScanMessages | sls-patch/src/core/common.cpp:845-897 | the message loop terminates and yields the first timecode |
| Sei.ParseSeiTimecode | sls-patch/src/core/common.cpp:827-906 | the whole scan records the first timecode of the stream or leaves the record alone |
| Sei.TimecodeInRange | sls-patch/src/core/common.cpp:827-906 | recorded fields are always within five and six bits |
| Sei.FirstFullTimecode | sls-patch/src/core/common.cpp:845-897 | an encoded list of messages yields its first full timecode: all others are skipped to their end, except that an empty message ends the reading |
| Sei.TimecodeRoundTrip | sls-patch/src/core/common.cpp:827-906 | the first SEI NAL of a stream that encodes a list of messages with a full timecode, wherever it is, yields exactly the first full timecode of its list |
| Psi.ParsePat | sls-patch/src/core/common.cpp:1078-1123 | the entry loop finds the PID of the last real program |
| Psi.PatVisitsExactlyItsPrograms | sls-patch/src/core/common.cpp:1101-1121 | for every well-formed PAT exactly (section_length - 9) / 4 entries are visited, ending right before the CRC |
| Psi.PatReadsBack | sls-patch/src/core/common.cpp:1101-1121 | an encoded program list is read back |
| Psi.PatAnnounces | sls-patch/src/core/common.cpp:1078-1123 | for a whole well-formed PAT, with the bound the parser uses, the result is what the program list announces |
| Psi.ParsePmtForAudio | sls-patch/src/core/common.cpp:1125-1213 | the recorded tracks are the first four audio streams in order, ids from 0xC0; both nested loops terminate and stay inside the buffer |
| Psi.AnnouncedTracksOk | sls-patch/src/core/common.cpp:1190-1197 | every announced track satisfies what the gap filler needs of its tracks, and has heard nothing |
| Psi.StreamsReadBack | sls-patch/src/core/common.cpp:1134-1212 | an encoded elementary-stream loop is read back entry by entry |
| Psi.OpusReadsBack | sls-patch/src/core/common.cpp:1167-1188 | an encoded descriptor list is recognised as Opus if and only if some descriptor says so |
| Psi.PmtAnnounces | sls-patch/src/core/common.cpp:1125-1213 | for a whole encoded PMT the tracks are the first four audio entries of the list, in order, with ids from 0xC0 on; video is found if and only if some entry is H.264 or H.265, on the PID of the last such entry |
| Bootstrap.LegacyPtsAgreesExactlyWhen | sls-patch/src/core/common.cpp:632-646 | this decoder inverts PTS encoding if and only if the PTS is below 2^31 with bits 22 to 29 zero |
| Bootstrap.LegacyPtsSample | sls-patch/src/core/common.cpp:632-646 | a PTS with only bit 22 set is read as bit 23 |
| Bootstrap.BothTimesReadBackExactlyWhen | sls-patch/src/core/common.cpp:984-992 | a header with PTS and DTS gives those two, in this order, and the payload behind them, if and only if the decoder inverts both |
| Bootstrap.OneTimeReadsBackExactlyWhen | sls-patch/src/core/common.cpp:977-983 | a header with a PTS alone gives it for both, if and only if the decoder inverts it |
| Bootstrap.PesAcceptedExactlyWhen | sls-patch/src/core/common.cpp:908-1002 | of all encoded PES headers, those with prefix 1 and stream id 0xE0 or 0xC0 are accepted; the payload begins behind the timestamps announced, and a header cut off before that forgets both |
| Bootstrap.TimecodeOnlyInVideo | sls-patch/src/core/common.cpp:994-999 | a timecode is looked for behind every whole header with stream id 0xE0 and behind no other |
| Bootstrap.ClaimsExactlyWhen | sls-patch/src/core/common.cpp:1312-1321 | a packet claims the stream if and only if its header is accepted with its timestamps, or both parameter sets are known behind it: no timestamp is read as none |
| Bootstrap.SilenceHasPayload | sls-patch/src/core/common.cpp:1272-1303 | this parser, which asks for the payload bit, finds the PES packet of every silent packet where the gap filler put it |
| Bootstrap.BuiltEndIs | sls-patch/src/core/common.cpp:1014-1072 | the third packet ends exactly at offset 564, or at 563 when SPS and PPS total 169 bytes |
| Bootstrap.WriteThird | sls-patch/src/core/common.cpp:1031-1072 | the byte-by-byte writes produce the third packet and stay inside it |
| Bootstrap.Assemble | sls-patch/src/core/common.cpp:1001-1073 | PAT, PMT and third packet over the null packets, or giving up for good when they do not fit |
| Bootstrap.Pes2Es | sls-patch/src/core/common.cpp:908-1076 | the PES step of the parser, with every early return: boot state and timecode fields |
| Bootstrap.SavePmt | sls-patch/src/core/common.cpp:1244-1261 | the PMT is saved each time and read for tracks until that has worked once |
| Bootstrap.ParseTsInfo | sls-patch/src/core/common.cpp:1215-1322 | one packet is one step of the boot state and of the timecode fields; short packets change nothing |
| BootstrapRuns.StepKeeps | sls-patch/src/core/common.cpp:1215-1322 | what every packet keeps, whatever it holds |
| BootstrapRuns.BuiltAtMostOnce | sls-patch/src/core/common.cpp:1001-1073 | in every run the block starts each of its seven packets with 0x47, is written at most once, and is seven null packets until then |
| BootstrapRuns.DecidedForGood | sls-patch/src/core/common.cpp:1001-1021 | once decided, no packets change the block or the parameter sets |
| BootstrapRuns.BuiltBlockHolds | sls-patch/src/core/common.cpp:1023-1073 | a built block holds the record's parameter sets and stream PID for ever after, and tables that are packets of the run |
| BootstrapRuns.StreamPidIsKept | sls-patch/src/core/common.cpp:1262-1269 | the elementary stream PID, once taken, is never given up |
| BootstrapRuns.EverythingIsFromOnePacket | sls-patch/src/core/common.cpp:1215-1322 | tables are whole packets of the run, parameter sets exact slices of one packet's stream bytes |
| BootstrapScan.DecidesExactlyWhenFed | sls-patch/src/core/common.cpp:994-1073 | with everything collected, a packet decides the block if and only if it carries stream bytes |
| BootstrapScan.PmtLastLeavesBlockIdle | sls-patch/src/core/SLSMapData.cpp:431-441 | if the PMT arrives last, `check_ts_info` alone leaves seven null packets for ever |
| BootstrapScan.GatherIsTaken | sls-patch/src/core/SLSMapData.cpp:434-441 | the first pass is the run over the packets it looks at, so what holds of runs holds of it |
| BootstrapScan.CompletingPacketDecidesExactlyWhen | sls-patch/src/core/common.cpp:1001-1073 | the packet that completes the record leaves the block wanted if and only if it is the PMT; any other decides it |
| BootstrapScan.CheckTsInfoBuildsExactlyWhen | sls-patch/src/core/SLSMapData.cpp:431-447 | over any chunks of any fresh stream that completes the record: the block is left idle if and only if the last packet looked at was the PMT, and otherwise built if it fits |
| BootstrapPut.CheckTsInfo | sls-patch/src/core/SLSMapData.cpp:429-448 | parses complete packets until the record is complete, says whether it is, and learns from the PMT whether there is video |
| BootstrapPut.CheckSeiTimecode | sls-patch/src/core/SLSMapData.cpp:450-464 | parses every complete packet once a video PID is known |
| BootstrapPut.Put | sls-patch/src/core/SLSMapData.cpp:326-336 | both passes over a chunk, in place |
| BootstrapPut.PublishingIsARun | sls-patch/src/core/SLSMapData.cpp:326-336 | any chunks put into a record are a run of the packets really parsed, so every law of runs holds of them |
| BootstrapPut.PutLeavesBlockIdleExactlyWhen | sls-patch/src/core/SLSMapData.cpp:326-336 | over any chunks put into a fresh stream that complete the record: the block is left idle if and only if the PMT completed it and no packet parsed after it, in a pass that is switched on, carries stream bytes |
| BootstrapScan.ScanDecidesExactlyWhenFed | sls-patch/src/core/SLSMapData.cpp:452-463 | the timecode scan then decides the block if and only if some packet carries stream bytes |
| BootstrapReplay.ThirdReadsBack | sls-patch/src/core/common.cpp:1031-1072 | the parser reads back from the third packet its PID, stream id, timestamp 0 and parameter sets |
| BootstrapReplay.ReplayFinds | sls-patch/src/core/common.cpp:648-762 | extraction from the third packet's payload finds parameter sets that fill the same bytes, or loses at least four bytes |
| BootstrapTrace.RunTraces | sls-patch/src/core/common.cpp:1001-1073 | after any run: a PAT that announces anything is the one the record follows, and a built block holds a PAT, another table, and the record's own parameter sets and PID |
| BootstrapReplay.BlockReproducesItselfExactlyWhen | sls-patch/src/core/common.cpp:1001-1073 | a fresh receiver fed a block of any PAT packet, any other table and any stored sets rebuilds it if and only if the PAT announces the PMT, the stream is not on its PID, neither the SPS nor a padded PPS ends in 00 00 00 01, and the PPS does not end in 00 00 00 00 01 |
| BootstrapReplay.RebuiltExactlyWhen | sls-patch/src/core/common.cpp:1001-1073 | over every run that builds a block: it is rebuilt if and only if the PAT in it announces the PMT in it and its parameter sets are replayable |
| BootstrapSamples.TrailingBlockIsNotReproduced | sls-patch/src/core/common.cpp:1001-1073 | a run that builds a block whose PPS ends in a trailing start code, which is not rebuilt |
| BootstrapSamples.RefreshedBlockIsNotReproduced | sls-patch/src/core/common.cpp:1001-1073 | a run in which the PAT is refreshed before the parameter sets come: the block is not rebuilt |
| BootstrapSamples.SampleBlockIsNotReproduced | sls-patch/src/core/common.cpp:1001-1073 | a block whose SPS ends in 00 00 00 01 is not rebuilt |
| BootstrapSamples.ScanBuildsAtOnce | sls-patch/src/core/SLSMapData.cpp:326-336 | a chunk of PAT, video packet and a PMT that lists the video: the first pass leaves the block idle, the second builds it |
| BootstrapSamples.SilentPmtLeavesBlockIdle | sls-patch/src/core/SLSMapData.cpp:326-336 | the same with a PMT that lists no video: the block stays idle whatever follows |

## Left out

- Counters are unbounded integers; the source uses 64-bit counters, whose wrap-around is out of reach in practice.
- BitrateLimit.ExceedsExactlyWhen: assumes a spike limit below 2^31, beyond which the source's cast of a `float` to `int` has no defined value.
- BitrateLimit.ExceedsExactlyAboveTolerance: speaks of rates below 2^31 kbit/s; what happens above is `BitrateLimit.ExceedsExactlyWhen`.
- BitrateLimit.WindowTotalIsAccurate: assumes a clock that never goes back and no `reset_stats` in mid-run, which restarts the lazy-cleanup clock; `spike_tolerance` is a real number instead of a `float`.
- RateLimit.AtMostRequestsPerWindow: holds for an IP whose dispatches find room in the map, since a full map does not count new IPs; without that it is false, by `RateLimit.NewcomerBoundedExactlyWhen`.
- RateLimit.RefusedExactlyWhen: for an IP whose dispatches find room in the map and a clock that never goes back, for the same reason.
- PlayerKeys.ReplyIsGoodFor: an entry may be lost early from a cache of 50000 live entries, as the source evicts one then.
- Sei.ScanMessages: message sizes are added in unbounded integers, so the overflow of the 32-bit sum in the source is not modelled.
- Egress.Viewer.DrainBuffer: a short write counts as nothing taken, as the source treats it; the real socket may have taken part of the message.
- AudioGapRing.RingOrderIsNumberingOrderExactlyWhen: chunks of at most seven packets, the most the publisher reads at once; `AudioGapRing.RingReadsReordered` has no such bound.
- GapRule.CountIsTheNearestFit: `std::round` is exact round-half-up; the operands are small enough for the double quotient to be exact for this purpose.
- AudioGap.InsertSilence: audio tracks are values in a sequence field of the record, not C structs updated through a pointer.
- Locks, atomics and memory ordering: each public method is one atomic step.
- The publisher ring (`CSLSRecycleArray`): an append-only log for the gap filler and an oracle with legal batch sizes for the egress cursor; its own wrap and overrun handling is not modelled.
- `CSLSMapData::put` and `get` beyond the passes they make over a chunk: key lookup and read-time bookkeeping only; the two parsing passes and the gap filler of one `put` are modelled separately.
- Sockets, epoll, threads, HTTP, configuration, logging and signals: replies and readings are parameters.
- JSON: a webhook body is one of three cases; the key-format check is a boolean.
- `strlcpy` truncation of the resolved stream id: ids that do not fit are refused before it.
- Bitrate statistics for display and the other read-only getters: single expressions.
- Relay managers, listener accept, the web server and its database: their rules follow from single-branch checks.
