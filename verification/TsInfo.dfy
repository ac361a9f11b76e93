/** The per-stream parser record `ts_info` (sls-patch/src/core/common.hpp), which
    every parser below updates in place. */
module TsInfoRecord {
  import opened Bytes
  import opened AudioFormat

  const INVALID_PID: int := -1
  const INVALID_DTS_PTS: int := -1
  const MAX_AUDIO_TRACKS := 4

  /** The part of the record that audio gap filling reads and writes. */
  datatype AudioState = AudioState(
    tracks: seq<AudioTrack>,
    gapCount: nat,
    silentFrames: nat,
    silentPackets: nat,
    silentBytes: nat)

  /** A length field and its fixed buffer are one sequence here: `sps_len` bytes of
      `sps` are `sps`, and a table that was never saved is the empty sequence. */
  class TsInfo {
    var esPid: int
    var dts: int
    var pts: int
    var needSpsPps: bool
    var sps: seq<byte>
    var pps: seq<byte>
    const tsData: array<byte>
    var pat: seq<byte>
    var pmtPid: int
    var pmt: seq<byte>

    var audioGapFillEnabled: bool
    var pmtParsed: bool
    var tracks: seq<AudioTrack>
    var gapCount: nat
    var silentFrames: nat
    var silentPackets: nat
    var silentBytes: nat

    var videoPid: int
    var videoPidFound: bool
    var seiValid: bool
    var seiHours: int
    var seiMinutes: int
    var seiSeconds: int
    var seiFrames: int
    var seiLastPts: int
    var seiUpdateCount: nat

    /** `sls_init_ts_info`. */
    constructor ()
      ensures esPid == INVALID_PID && dts == INVALID_DTS_PTS && pts == INVALID_DTS_PTS
      ensures !needSpsPps && sps == [] && pps == [] && pat == [] && pmt == [] && pmtPid == INVALID_PID
      ensures fresh(tsData) && tsData[..] == IdleBlock()
      ensures !audioGapFillEnabled && !pmtParsed && Audio() == AudioState([], 0, 0, 0, 0)
      ensures videoPid == INVALID_PID && !videoPidFound && !seiValid && seiUpdateCount == 0
      ensures seiLastPts == INVALID_DTS_PTS
    {
      esPid, dts, pts, pmtPid := INVALID_PID, INVALID_DTS_PTS, INVALID_DTS_PTS, INVALID_PID;
      needSpsPps, sps, pps, pat, pmt := false, [], [], [], [];
      audioGapFillEnabled, pmtParsed, tracks := false, false, [];
      gapCount, silentFrames, silentPackets, silentBytes := 0, 0, 0, 0;
      videoPid, videoPidFound, seiValid := INVALID_PID, false, false;
      seiHours, seiMinutes, seiSeconds, seiFrames := 0, 0, 0, 0;
      seiLastPts, seiUpdateCount := INVALID_DTS_PTS, 0;
      tsData := new byte[1316](_ => 0);
      new;
      WriteIdle(tsData);
    }

    function Audio(): AudioState
      reads this
    {
      AudioState(tracks, gapCount, silentFrames, silentPackets, silentBytes)
    }
  }

  /** The null-packet headers over zeroed memory. */
  method WriteIdle(buf: array<byte>)
    requires buf.Length == 1316 && forall j :: 0 <= j < 1316 ==> buf[j] == 0
    modifies buf
    ensures buf[..] == IdleBlock()
  {
    var i := 0;
    while i < 1316
      invariant i % 188 == 0 && i <= 1316
      invariant forall j :: 0 <= j < 1316 ==> buf[j] == if j < i then IdleByte(j % 188) else 0
    {
      buf[i] := 0x47;
      buf[i + 1] := 0x1F;
      buf[i + 2] := 0xFF;
      buf[i + 3] := 0x00;
      i := i + TS_PACK_LEN;
    }
  }

  function IdleByte(k: int): byte {
    if k == 0 then 0x47 else if k == 1 then 0x1F else if k == 2 then 0xFF else 0
  }

  /** Seven null packets (PID 0x1FFF): the bootstrap block before it is built. */
  function IdleBlock(): (s: seq<byte>)
    ensures |s| == 1316
  {
    seq(1316, j => IdleByte(j % 188))
  }
}
