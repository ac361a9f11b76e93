/** Per-track state and audio format detection
    (sls-patch/src/core/common.hpp `audio_track_info`,
    sls/src/core/SLSAudioGapFiller.cpp `detect_*` and `build_silent_*_frame`). */
module AudioFormat {
  import opened Bytes

  const INVALID_PTS: int := -1

  /** One entry of the fixed array `ts_info::audio_tracks`. */
  datatype AudioTrack = AudioTrack(
    pid: int,
    streamType: int,
    streamId: byte,
    lastPts: int,
    cc: int,
    expectedCc: int,
    ccInitialized: bool,
    inGap: bool,
    sampleRate: int,
    channels: int,
    sampleRateIndex: int,
    channelConfig: int,
    profile: int,
    bitrateIndex: int,
    formatDetected: bool,
    gapCount: nat,
    silentFrames: nat,
    silentPackets: nat,
    silentBytes: nat,
    lastGapPtsDelta: int,
    lastGapFrames: int,
    partialPesDropped: nat)

  /** `sls_init_audio_track` followed by the three fields the PMT fills in. */
  function NewTrack(pid: int, streamType: int, streamId: byte): AudioTrack {
    AudioTrack(pid, streamType, streamId, INVALID_PTS, 0, 0, false, true,
               0, 0, 0, 0, 0, 0, false, 0, 0, 0, 0, 0, 0, 0)
  }

  predicate IsAac(streamType: int) { streamType == 0x0F || streamType == 0x11 }
  predicate IsMp3(streamType: int) { streamType == 0x03 || streamType == 0x04 }
  predicate IsOpus(streamType: int) { streamType == 0x06 }
  predicate IsSupported(streamType: int) {
    IsAac(streamType) || IsMp3(streamType) || IsOpus(streamType)
  }

  function AdtsSampleRates(): (r: seq<int>)
    ensures |r| == 13 && forall i :: 0 <= i < 13 ==> 7350 <= r[i] <= 96000
  {
    [96000, 88200, 64000, 48000, 44100, 32000, 24000, 22050, 16000, 12000, 11025, 8000, 7350]
  }

  /** MPEG version field: 3 is MPEG-1, 2 is MPEG-2, 0 is MPEG-2.5, 1 is reserved. */
  function Mp3SampleRate(version: int, index: int): int {
    if !(0 <= index < 3) then 0
    else if version == 3 then [44100, 48000, 32000][index]
    else if version == 2 then [22050, 24000, 16000][index]
    else if version == 0 then [11025, 12000, 8000][index]
    else 0
  }

  /** What a detected format guarantees about the fields that encode it. */
  predicate FormatOk(t: AudioTrack) {
    t.formatDetected ==>
      && IsSupported(t.streamType)
      && (IsAac(t.streamType) ==>
            && 1 <= t.profile <= 4 && 0 <= t.sampleRateIndex < 13 && 1 <= t.channelConfig <= 7
            && t.sampleRate == AdtsSampleRates()[t.sampleRateIndex])
      && (IsMp3(t.streamType) ==>
            && t.profile in {0, 2, 3} && 0 <= t.sampleRateIndex < 3 && 0 <= t.channelConfig < 4
            && t.sampleRate == Mp3SampleRate(t.profile, t.sampleRateIndex))
      && (IsOpus(t.streamType) ==> t.sampleRate == 48000 && t.channels == 2)
  }

  predicate TrackOk(t: AudioTrack) {
    && FormatOk(t)
    && 0 <= t.pid < 0x2000
    && 0xC0 <= t.streamId <= 0xDF
    && 0 <= t.expectedCc < 16
    && -1 <= t.lastPts < 0x2_0000_0000
  }

  // --------------------------------------------------------------- detection

  function DetectAdts(es: seq<byte>, t: AudioTrack): AudioTrack {
    if |es| < 7 then t
    else if es[0] != 0xFF || es[1] / 16 != 15 then t
    else
      var profile := es[2] / 64 + 1;
      var rateIndex := es[2] / 4 % 16;
      var config := es[2] % 2 * 4 + es[3] / 64;
      if rateIndex >= 13 || config == 0 || config > 7 then t
      else t.(profile := profile, sampleRateIndex := rateIndex, sampleRate := AdtsSampleRates()[rateIndex],
              channelConfig := config, channels := if config == 7 then 8 else config, formatDetected := true)
  }

  function DetectMp3(es: seq<byte>, t: AudioTrack): AudioTrack {
    if |es| < 4 then t
    else if es[0] != 0xFF || es[1] / 32 != 7 then t
    else
      var version := es[1] / 8 % 4;
      var layer := es[1] / 2 % 4;
      var bitrateIndex := es[2] / 16;
      var rateIndex := es[2] / 4 % 4;
      var mode := es[3] / 64;
      if version == 1 || layer == 0 || rateIndex == 3 || bitrateIndex == 0 || bitrateIndex == 15 then t
      else t.(profile := version, sampleRateIndex := rateIndex, sampleRate := Mp3SampleRate(version, rateIndex),
              channelConfig := mode, channels := if mode == 3 then 1 else 2, bitrateIndex := bitrateIndex,
              formatDetected := true)
  }

  function DetectOpus(es: seq<byte>, t: AudioTrack): AudioTrack {
    if |es| < 1 then t
    else t.(sampleRate := 48000, channels := 2, formatDetected := true)
  }

  function DetectFormat(es: seq<byte>, t: AudioTrack): AudioTrack {
    if IsAac(t.streamType) then DetectAdts(es, t)
    else if IsMp3(t.streamType) then DetectMp3(es, t)
    else if IsOpus(t.streamType) then DetectOpus(es, t)
    else t
  }

  /** `d` differs from `t` at most in the fields that describe the format. */
  predicate OnlyFormatChanged(t: AudioTrack, d: AudioTrack) {
    d == t.(sampleRate := d.sampleRate, channels := d.channels, sampleRateIndex := d.sampleRateIndex,
            channelConfig := d.channelConfig, profile := d.profile, bitrateIndex := d.bitrateIndex,
            formatDetected := d.formatDetected)
  }

  lemma DetectAdtsKeepsTrack(es: seq<byte>, t: AudioTrack)
    requires FormatOk(t) && !t.formatDetected && IsAac(t.streamType)
    ensures FormatOk(DetectAdts(es, t)) && OnlyFormatChanged(t, DetectAdts(es, t))
  {
  }

  lemma DetectMp3KeepsTrack(es: seq<byte>, t: AudioTrack)
    requires FormatOk(t) && !t.formatDetected && IsMp3(t.streamType)
    ensures FormatOk(DetectMp3(es, t)) && OnlyFormatChanged(t, DetectMp3(es, t))
  {
  }

  /** Whatever the payload bytes are, detection leaves the track well formed and
      touches none of the transport fields. */
  lemma DetectionKeepsTrack(es: seq<byte>, t: AudioTrack)
    requires TrackOk(t) && !t.formatDetected
    ensures TrackOk(DetectFormat(es, t)) && OnlyFormatChanged(t, DetectFormat(es, t))
  {
    hide DetectAdts, DetectMp3;
    if IsAac(t.streamType) {
      DetectAdtsKeepsTrack(es, t);
    } else if IsMp3(t.streamType) {
      DetectMp3KeepsTrack(es, t);
    }
  }

  // ----------------------------------------------------------- silent frames

  function AdtsFrame(profile: int, rateIndex: int, config: int): (f: seq<byte>)
    requires 1 <= profile <= 4 && 0 <= rateIndex < 13 && 1 <= config <= 7
    ensures |f| == 13
  {
    [0xFF, 0xF1, (profile - 1) * 64 + rateIndex * 4 + config / 4, config % 4 * 64, 1, 5 * 32 + 0x1F, 0xFC]
    + [0x21, 0x10, 0x05, 0x00, 0xA0, 0x19]
  }

  /** Bytes of a 32 kbit/s Layer III frame; 0 when it could not fit a packet. */
  function Mp3FrameSize(sampleRate: int): (n: nat)
    requires sampleRate > 0
  {
    var size := 144 * 32000 / sampleRate;
    if size < 4 || size > 188 then 0 else size
  }

  function Mp3Frame(t: AudioTrack): (f: seq<byte>)
    requires t.sampleRate > 0 && 0 <= t.profile < 4 && 0 <= t.sampleRateIndex < 3 && 0 <= t.channelConfig < 4
    ensures |f| == Mp3FrameSize(t.sampleRate)
  {
    var size := Mp3FrameSize(t.sampleRate);
    if size == 0 then []
    else [0xFF, 0xE0 + t.profile * 8 + 3, 16 + t.sampleRateIndex * 4, t.channelConfig * 64 + 4] + Fill(size - 4, 0)
  }

  /** The silent frame of a track whose format is known. */
  function SilentFrame(t: AudioTrack): (f: seq<byte>)
    requires FormatOk(t) && t.formatDetected
    ensures |f| == FrameSize(t)
  {
    if IsAac(t.streamType) then AdtsFrame(t.profile, t.sampleRateIndex, t.channelConfig)
    else if IsMp3(t.streamType) then Mp3Frame(t)
    else [0x7E, if t.channels > 1 then 0xFC else 0xF8]
  }

  function FrameSize(t: AudioTrack): nat
    requires FormatOk(t) && t.formatDetected
  {
    if IsAac(t.streamType) then 13
    else if IsMp3(t.streamType) then Mp3FrameSize(t.sampleRate)
    else 2
  }

  /** MPEG-1 frames fit one packet; MPEG-2 and MPEG-2.5 frames never do. */
  lemma Mp3FrameFitsExactlyWhenMpeg1(t: AudioTrack)
    requires FormatOk(t) && t.formatDetected && IsMp3(t.streamType)
    ensures FrameSize(t) > 0 <==> t.profile == 3
    ensures t.profile == 3 ==> FrameSize(t) in {96, 104, 144}
  {
    assert t.sampleRate in {44100, 48000, 32000, 22050, 24000, 16000, 11025, 12000, 8000};
  }

  lemma AdtsBits(profile: int, rateIndex: int, config: int)
    requires 1 <= profile <= 4 && 0 <= rateIndex < 13 && 1 <= config <= 7
    ensures var b2 := (profile - 1) * 64 + rateIndex * 4 + config / 4;
            b2 / 64 + 1 == profile && b2 / 4 % 16 == rateIndex && b2 % 2 == config / 4
    ensures config % 4 * 64 / 64 == config % 4 && config / 4 * 4 + config % 4 == config
  {
  }

  lemma AdtsRoundTrip(profile: int, rateIndex: int, config: int, blank: AudioTrack)
    requires 1 <= profile <= 4 && 0 <= rateIndex < 13 && 1 <= config <= 7
    ensures DetectAdts(AdtsFrame(profile, rateIndex, config), blank)
      == blank.(profile := profile, sampleRateIndex := rateIndex, sampleRate := AdtsSampleRates()[rateIndex],
                channelConfig := config, channels := if config == 7 then 8 else config, formatDetected := true)
  {
    var f := AdtsFrame(profile, rateIndex, config);
    var b2 := (profile - 1) * 64 + rateIndex * 4 + config / 4;
    assert f[0] == 0xFF && f[1] == 0xF1 && f[2] == b2 && f[3] == config % 4 * 64;
    AdtsBits(profile, rateIndex, config);
  }

  /** The first four bytes of an ADTS header by its fields: twelve sync bits, version,
      layer and protection, the profile, the rate, a private bit, the channels, six more. */
  function AdtsHead(sync: int, id: int, profile: int, rate: int, priv: int, config: int, rest: int): (h: seq<byte>)
    requires 0 <= sync < 0x1000 && 0 <= id < 16 && 0 <= profile < 4 && 0 <= rate < 16
    requires 0 <= priv < 2 && 0 <= config < 8 && 0 <= rest < 64
    ensures |h| == 4
  {
    [sync / 16, sync % 16 * 16 + id, profile * 64 + rate * 4 + priv * 2 + config / 4, config % 4 * 64 + rest]
  }

  /** Which ADTS headers are accepted, and what they teach: seven bytes, a sync word of
      twelve ones, one of the thirteen rates and a channel configuration. */
  lemma AdtsAcceptedExactlyWhen(sync: int, id: int, profile: int, rate: int, priv: int, config: int, rest: int,
                                tail: seq<byte>, t: AudioTrack)
    requires 0 <= sync < 0x1000 && 0 <= id < 16 && 0 <= profile < 4 && 0 <= rate < 16
    requires 0 <= priv < 2 && 0 <= config < 8 && 0 <= rest < 64 && !t.formatDetected
    ensures var d := DetectAdts(AdtsHead(sync, id, profile, rate, priv, config, rest) + tail, t);
      && (d.formatDetected <==> |tail| >= 3 && sync == 0xFFF && rate <= 12 && config > 0)
      && d == if d.formatDetected
              then t.(profile := profile + 1, sampleRateIndex := rate, sampleRate := AdtsSampleRates()[rate],
                      channelConfig := config, channels := if config == 7 then 8 else config, formatDetected := true)
              else t
  {
    var h := AdtsHead(sync, id, profile, rate, priv, config, rest);
    var es := h + tail;
    assert es[0] == h[0] && es[1] == h[1] && es[2] == h[2] && es[3] == h[3];
    TwoParts(sync / 16, sync % 16, 16);
    TwoParts(sync % 16, id, 16);
    TwoParts(profile, rate * 4 + priv * 2 + config / 4, 64);
    TwoParts(profile * 16 + rate, priv * 2 + config / 4, 4);
    TwoParts(profile * 32 + rate * 2 + priv, config / 4, 2);
    TwoParts(config % 4, rest, 64);
    TwoParts(profile, rate, 16);
  }

  lemma TwoParts(high: int, low: int, n: int)
    requires n > 0 && 0 <= low < n
    ensures (high * n + low) / n == high && (high * n + low) % n == low
  {
    DivUnique(high * n + low, n, high, low);
  }

  /** The first four bytes of an MPEG audio header by its fields: eleven sync bits, version,
      layer, protection, bit rate, sampling rate, two bits, the channel mode, six more. */
  function Mp3Head(sync: int, version: int, layer: int, crc: int, bitrate: int, rate: int, pad: int, mode: int,
                   rest: int): (h: seq<byte>)
    requires 0 <= sync < 0x800 && 0 <= version < 4 && 0 <= layer < 4 && 0 <= crc < 2 && 0 <= bitrate < 16
    requires 0 <= rate < 4 && 0 <= pad < 4 && 0 <= mode < 4 && 0 <= rest < 64
    ensures |h| == 4
  {
    [sync / 8, sync % 8 * 32 + version * 8 + layer * 2 + crc, bitrate * 16 + rate * 4 + pad, mode * 64 + rest]
  }

  /** Which MPEG audio headers are accepted: a sync word of eleven ones and none of the
      reserved or free values of version, layer, bit rate and sampling rate. */
  lemma Mp3AcceptedExactlyWhen(sync: int, version: int, layer: int, crc: int, bitrate: int, rate: int, pad: int,
                               mode: int, rest: int, tail: seq<byte>, t: AudioTrack)
    requires 0 <= sync < 0x800 && 0 <= version < 4 && 0 <= layer < 4 && 0 <= crc < 2 && 0 <= bitrate < 16
    requires 0 <= rate < 4 && 0 <= pad < 4 && 0 <= mode < 4 && 0 <= rest < 64 && !t.formatDetected
    ensures var d := DetectMp3(Mp3Head(sync, version, layer, crc, bitrate, rate, pad, mode, rest) + tail, t);
      && (d.formatDetected <==> sync == 0x7FF && version != 1 && layer != 0 && rate != 3 && 1 <= bitrate <= 14)
      && d == if d.formatDetected
              then t.(profile := version, sampleRateIndex := rate, sampleRate := Mp3SampleRate(version, rate),
                      channelConfig := mode, channels := if mode == 3 then 1 else 2, bitrateIndex := bitrate,
                      formatDetected := true)
              else t
  {
    var h := Mp3Head(sync, version, layer, crc, bitrate, rate, pad, mode, rest);
    var es := h + tail;
    assert es[0] == h[0] && es[1] == h[1] && es[2] == h[2] && es[3] == h[3];
    TwoParts(sync / 8, sync % 8, 8);
    TwoParts(sync % 8, version * 8 + layer * 2 + crc, 32);
    TwoParts(sync % 8 * 4 + version, layer * 2 + crc, 8);
    TwoParts(sync % 8, version, 4);
    TwoParts(sync % 8 * 16 + version * 4 + layer, crc, 2);
    TwoParts(sync % 8 * 4 + version, layer, 4);
    TwoParts(bitrate, rate * 4 + pad, 16);
    TwoParts(bitrate * 4 + rate, pad, 4);
    TwoParts(bitrate, rate, 4);
    TwoParts(mode, rest, 64);
  }

  /** The rates by their structure: ADTS rates halve every three places down to 8000, the
      last is a sixth of 44100; MPEG-2 and MPEG-2.5 halve and quarter the MPEG-1 rates,
      which are the ADTS rates 4, 3 and 5. */
  lemma RatesAreHalves()
    ensures var r := AdtsSampleRates();
      && (forall i :: 0 <= i < 9 ==> r[i] == 2 * r[i + 3]) && r[9..12] == [12000, 11025, 8000] && 6 * r[12] == r[4]
      && Mp3SampleRate(3, 0) == r[4] && Mp3SampleRate(3, 1) == r[3] && Mp3SampleRate(3, 2) == r[5]
    ensures forall i :: 0 <= i < 3 ==>
      Mp3SampleRate(3, i) == 2 * Mp3SampleRate(2, i) == 4 * Mp3SampleRate(0, i)
  {
  }

  /** Which header is looked for, by the stream type: ADTS for both AAC types, MPEG audio for
      both MPEG types, and for private data any byte means 48 kHz stereo Opus. */
  lemma DetectionByStreamType(es: seq<byte>, t: AudioTrack)
    ensures IsSupported(t.streamType) <==> t.streamType in {0x03, 0x04, 0x06, 0x0F, 0x11}
    ensures t.streamType in {0x0F, 0x11} ==> DetectFormat(es, t) == DetectAdts(es, t)
    ensures t.streamType in {0x03, 0x04} ==> DetectFormat(es, t) == DetectMp3(es, t)
    ensures t.streamType == 0x06 ==>
      DetectFormat(es, t) == if es == [] then t else t.(sampleRate := 48000, channels := 2, formatDetected := true)
    ensures t.streamType !in {0x03, 0x04, 0x06, 0x0F, 0x11} ==> DetectFormat(es, t) == t
  {
  }

  /** The silent Opus packet behind its control byte is one empty frame of configuration 31
      (20 ms), with the channels of the track (section 3.1 of RFC 6716). */
  lemma OpusFrameDescribesItself(t: AudioTrack)
    requires FormatOk(t) && t.formatDetected && IsOpus(t.streamType)
    ensures var f := SilentFrame(t);
      |f| == 2 && f[0] == 0x7E && f[1] / 8 == 31 && f[1] / 4 % 2 + 1 == t.channels && f[1] % 4 == 0
  {
  }

  /** The silent ADTS frame describes itself: MPEG-4 without a checksum, its own length,
      variable rate, one block. */
  lemma AdtsFrameDescribesItself(profile: int, rateIndex: int, config: int)
    requires 1 <= profile <= 4 && 0 <= rateIndex < 13 && 1 <= config <= 7
    ensures var f := AdtsFrame(profile, rateIndex, config);
      && f[1] % 16 == 1
      && (f[3] as int) % 4 * 2048 + (f[4] as int) * 8 + f[5] / 32 == |f|
      && (f[5] as int) % 32 * 64 + f[6] / 4 == 0x7FF && f[6] % 4 == 0
  {
    assert config % 4 * 64 % 4 == 0;
  }

  /** The silent MP3 frame is Layer III at 32 kbit/s without a checksum, padding or
      private bit, and all zeros behind its header. */
  lemma Mp3FrameDescribesItself(t: AudioTrack)
    requires t.profile == 3 && 0 <= t.sampleRateIndex < 3 && 0 <= t.channelConfig < 4
    requires t.sampleRate == Mp3SampleRate(3, t.sampleRateIndex)
    ensures var f := Mp3Frame(t);
      && |f| == 144 * 32000 / t.sampleRate && f[1] / 2 % 4 == 1 && f[1] % 2 == 1 && f[2] / 16 == 1 && f[2] % 4 == 0
      && forall k :: 4 <= k < |f| ==> f[k] == 0
  {
    assert t.sampleRate in {44100, 48000, 32000};
    var f := Mp3Frame(t);
    assert f[1] == 0xFB && f[2] == 16 + t.sampleRateIndex * 4;
  }

  lemma Mp3RoundTrip(t: AudioTrack, blank: AudioTrack)
    requires t.profile == 3 && 0 <= t.sampleRateIndex < 3 && 0 <= t.channelConfig < 4
    requires t.sampleRate == Mp3SampleRate(3, t.sampleRateIndex)
    ensures DetectMp3(Mp3Frame(t), blank)
      == blank.(profile := 3, sampleRateIndex := t.sampleRateIndex, sampleRate := t.sampleRate,
                channelConfig := t.channelConfig, channels := if t.channelConfig == 3 then 1 else 2,
                bitrateIndex := 1, formatDetected := true)
  {
    assert t.sampleRate in {44100, 48000, 32000};
    var f := Mp3Frame(t);
    var b2 := 16 + t.sampleRateIndex * 4;
    var b3 := t.channelConfig * 64 + 4;
    assert f[0] == 0xFF && f[1] == 0xFB && f[2] == b2 && f[3] == b3;
    assert b2 / 16 == 1 && b2 / 4 % 4 == t.sampleRateIndex && b3 / 64 == t.channelConfig;
  }

  /** Silent frames carry the format they were built from: the detector reads back
      the same codec parameters. */
  lemma SilentFrameKeepsFormat(t: AudioTrack)
    requires TrackOk(t) && t.formatDetected && FrameSize(t) > 0
    ensures var seen := DetectFormat(SilentFrame(t), NewTrack(t.pid, t.streamType, t.streamId));
            && seen.formatDetected && seen.sampleRate == t.sampleRate
            && (!IsOpus(t.streamType) ==>
                  && seen.profile == t.profile && seen.sampleRateIndex == t.sampleRateIndex
                  && seen.channelConfig == t.channelConfig)
  {
    var blank := NewTrack(t.pid, t.streamType, t.streamId);
    if IsAac(t.streamType) {
      AdtsRoundTrip(t.profile, t.sampleRateIndex, t.channelConfig, blank);
    } else if IsMp3(t.streamType) {
      Mp3FrameFitsExactlyWhenMpeg1(t);
      Mp3RoundTrip(t, blank);
    }
  }
}
