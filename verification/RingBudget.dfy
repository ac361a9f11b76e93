/** The ring-memory budget of the stream map (`CSLSMapData::add`, `remove`, `clear`,
    `set_caps`, sls-patch/src/core/SLSMapData.cpp). */
module RingBudget {
  import opened Bytes
  import opened MapSizes

  /** Default size of a ring (sls/src/core/SLSRecycleArray.cpp). */
  const DEFAULT_RING_BYTES := 8388608
  /** Largest ring a bitrate hint can ask for. */
  const MAX_RING_BYTES := 33554432

  /** `0` means no cap. */
  datatype Caps = Caps(maxStreams: int, maxTotalBytes: int)

  /** Size a ring gets for a bitrate and latency hint: one latency window of data, at
      least one second, never below the default nor above 32 MB. */
  function IntendedSize(maxBitrateKbps: int, latencyMs: int): (n: int)
    ensures DEFAULT_RING_BYTES <= n <= MAX_RING_BYTES
  {
    if maxBitrateKbps > 0 && latencyMs > 0 then
      var bytesPerSec := maxBitrateKbps * 1000 / 8;
      var seconds := if latencyMs / 1000 < 1 then 1 else latencyMs / 1000;
      var target := bytesPerSec * seconds;
      var capped := if target > MAX_RING_BYTES then MAX_RING_BYTES else target;
      if capped > DEFAULT_RING_BYTES then capped else DEFAULT_RING_BYTES
    else DEFAULT_RING_BYTES
  }

  /** A ring of this size holds what the hinted bitrate produces in `windows` latency
      windows: kilobits per second times milliseconds are bits. */
  predicate Holds(size: int, maxBitrateKbps: int, latencyMs: int, windows: int) {
    windows * (maxBitrateKbps * latencyMs) <= 8 * size
  }

  /** The clamps, seen by an amount of bits; the hint's byte rate is exact. */
  lemma RoomExactlyWhen(maxBitrateKbps: int, latencyMs: int, bits: int)
    requires maxBitrateKbps > 0 && latencyMs > 0
    ensures var seconds := if latencyMs / 1000 < 1 then 1 else latencyMs / 1000;
      bits <= 8 * IntendedSize(maxBitrateKbps, latencyMs) <==>
        bits <= 8 * DEFAULT_RING_BYTES || (bits <= 8 * MAX_RING_BYTES && bits <= maxBitrateKbps * (1000 * seconds))
  {
    var seconds := if latencyMs / 1000 < 1 then 1 else latencyMs / 1000;
    assert maxBitrateKbps * 1000 / 8 == 125 * maxBitrateKbps;
    MulAssoc(125, maxBitrateKbps, seconds);
    MulAssoc(maxBitrateKbps, 1000, seconds);
    MulAssoc(1000, maxBitrateKbps, seconds);
  }

  lemma MulExactlyLe(k: int, x: int, y: int)
    requires k > 0
    ensures k * x <= k * y <==> x <= y
  {
    if x <= y {
      MulLe(k, x, y);
    } else {
      MulLe(k, y + 1, x);
      MulDist(k, y, 1);
    }
  }

  /** The ring holds one latency window exactly when the window fits the default ring,
      or fits 32 MB and the latency is at most one second or whole seconds: the size is
      computed from the latency in truncated seconds. */
  lemma HoldsOneWindowExactlyWhen(maxBitrateKbps: int, latencyMs: int)
    requires maxBitrateKbps > 0 && latencyMs > 0
    ensures Holds(IntendedSize(maxBitrateKbps, latencyMs), maxBitrateKbps, latencyMs, 1) <==>
      var bits := maxBitrateKbps * latencyMs;
      bits <= 8 * DEFAULT_RING_BYTES
      || (bits <= 8 * MAX_RING_BYTES && (latencyMs <= 1000 || latencyMs % 1000 == 0))
  {
    hide IntendedSize;
    var seconds := if latencyMs / 1000 < 1 then 1 else latencyMs / 1000;
    RoomExactlyWhen(maxBitrateKbps, latencyMs, maxBitrateKbps * latencyMs);
    MulExactlyLe(maxBitrateKbps, latencyMs, 1000 * seconds);
  }

  /** It holds the two windows the header speaks of exactly when they fit the default
      ring, or fit 32 MB and the latency is at most half a second. */
  lemma HoldsTwoWindowsExactlyWhen(maxBitrateKbps: int, latencyMs: int)
    requires maxBitrateKbps > 0 && latencyMs > 0
    ensures Holds(IntendedSize(maxBitrateKbps, latencyMs), maxBitrateKbps, latencyMs, 2) <==>
      var bits := 2 * (maxBitrateKbps * latencyMs);
      bits <= 8 * DEFAULT_RING_BYTES || (bits <= 8 * MAX_RING_BYTES && latencyMs <= 500)
  {
    hide IntendedSize;
    var seconds := if latencyMs / 1000 < 1 then 1 else latencyMs / 1000;
    RoomExactlyWhen(maxBitrateKbps, latencyMs, 2 * (maxBitrateKbps * latencyMs));
    MulExactlyLe(maxBitrateKbps, 2 * latencyMs, 1000 * seconds);
    MulAssoc(2, maxBitrateKbps, latencyMs);
    MulAssoc(maxBitrateKbps, 2, latencyMs);
  }

  /** Without a hint a ring is 8 MB; with one it is larger exactly when a second, or the
      whole seconds of the latency, at that bitrate need more. */
  lemma GrowsExactlyForAHint(maxBitrateKbps: int, latencyMs: int)
    ensures IntendedSize(maxBitrateKbps, latencyMs) > 8 * 1024 * 1024 <==>
      && maxBitrateKbps > 0 && latencyMs > 0
      && maxBitrateKbps * (1000 * if latencyMs < 1000 then 1 else latencyMs / 1000) > 8 * (8 * 1024 * 1024)
  {
    hide IntendedSize;
    if maxBitrateKbps > 0 && latencyMs > 0 {
      RoomExactlyWhen(maxBitrateKbps, latencyMs, 8 * DEFAULT_RING_BYTES + 1);
    } else {
      NoHint(maxBitrateKbps, latencyMs);
    }
  }

  lemma NoHint(maxBitrateKbps: int, latencyMs: int)
    requires maxBitrateKbps <= 0 || latencyMs <= 0
    ensures IntendedSize(maxBitrateKbps, latencyMs) == DEFAULT_RING_BYTES
  {
  }

  /** Far below the ceiling a ring can be shorter than one window (100 Mbit/s at 1999 ms),
      and shorter than two (100 Mbit/s at one second). */
  lemma WindowSamples()
    ensures IntendedSize(100000, 1999) == 12500000 && !Holds(IntendedSize(100000, 1999), 100000, 1999, 1)
    ensures Holds(IntendedSize(100000, 1000), 100000, 1000, 1) && !Holds(IntendedSize(100000, 1000), 100000, 1000, 2)
  {
  }

  /** Sum of the ring sizes. */
  ghost function Total(rings: map<string, int>): int
    decreases |rings|
  {
    if rings == map[] then 0
    else
      var k :| k in rings;
      rings[k] + Total(rings - {k})
  }

  /** The sum does not depend on the order in which rings are counted. */
  lemma {:induction false} TotalWithout(rings: map<string, int>, k: string)
    requires k in rings
    ensures Total(rings) == rings[k] + Total(rings - {k})
    decreases |rings|
  {
    SizeAfterErase(rings, k);
    var p :| p in rings && Total(rings) == rings[p] + Total(rings - {p});
    if p != k {
      SizeAfterErase(rings, p);
      TotalWithout(rings - {p}, k);
      TotalWithout(rings - {k}, p);
      assert (rings - {p}) - {k} == (rings - {k}) - {p};
    }
  }

  lemma TotalWith(rings: map<string, int>, k: string, n: int)
    requires k !in rings
    ensures Total(rings[k := n]) == n + Total(rings)
  {
    TotalWithout(rings[k := n], k);
    assert rings[k := n] - {k} == rings;
  }

  /** The rings are within both caps. */
  ghost predicate Fits(caps: Caps, rings: map<string, int>) {
    && (caps.maxStreams > 0 ==> |rings| <= caps.maxStreams)
    && (caps.maxTotalBytes > 0 ==> Total(rings) <= caps.maxTotalBytes)
  }

  /** The two tests of `add`, made on the counters, decide it before the ring exists. */
  lemma OneMoreFits(caps: Caps, rings: map<string, int>, key: string, n: int)
    requires key !in rings
    ensures |rings[key := n]| == |rings| + 1 && Total(rings[key := n]) == Total(rings) + n
    ensures Fits(caps, rings[key := n]) <==>
      !(caps.maxStreams > 0 && |rings| >= caps.maxStreams)
      && !(caps.maxTotalBytes > 0 && Total(rings) + n > caps.maxTotalBytes)
  {
    SizeAfterPut(rings, key, n);
    TotalWith(rings, key, n);
  }

  class MapData {
    var rings: map<string, int>
    var tsInfos: set<string>
    var streamCount: int
    var totalRingBytes: int
    var caps: Caps

    constructor ()
      ensures Valid() && rings == map[] && caps == Caps(0, 0)
    {
      rings, tsInfos, streamCount, totalRingBytes, caps := map[], {}, 0, 0, Caps(0, 0);
      new;
      assert Total(map[]) == 0;
    }

    /** Conservation: the counters are the rings' number and size, the two maps have the
        same keys, and every ring size is in bounds. */
    ghost predicate Valid()
      reads this
    {
      && streamCount == |rings|
      && totalRingBytes == Total(rings)
      && tsInfos == rings.Keys
      && forall k :: k in rings ==> DEFAULT_RING_BYTES <= rings[k] <= MAX_RING_BYTES
    }

    /** `set_caps`, called once at start, before any ring exists. */
    method SetCaps(c: Caps)
      modifies this`caps
      ensures caps == c
    {
      caps := c;
    }

    /** The size decision in the middle of `add`. */
    method DecideSize(maxBitrateKbps: int, latencyMs: int) returns (intended: int)
      ensures intended == IntendedSize(maxBitrateKbps, latencyMs)
    {
      intended := DEFAULT_RING_BYTES;
      if maxBitrateKbps > 0 && latencyMs > 0 {
        var bytesPerSec := maxBitrateKbps * 1000 / 8;
        var windowSecs := latencyMs / 1000;
        if windowSecs < 1 {
          windowSecs := 1;
        }
        var target := bytesPerSec * windowSecs;
        if target > MAX_RING_BYTES {
          target := MAX_RING_BYTES;
        }
        if target > intended {
          intended := target;
        }
      }
    }

    /** `add`: a repeated add succeeds and changes nothing; an add of a new key succeeds if
        and only if the map with that ring is within both caps, and then creates it. */
    method Add(key: string, maxBitrateKbps: int, latencyMs: int) returns (ok: bool)
      requires Valid()
      modifies this`rings, this`tsInfos, this`streamCount, this`totalRingBytes
      ensures Valid()
      ensures ok == (key in old(rings) || Fits(caps, old(rings)[key := IntendedSize(maxBitrateKbps, latencyMs)]))
      ensures key in old(rings) || !ok ==> unchanged(this)
      ensures key !in old(rings) && ok ==> rings == old(rings)[key := IntendedSize(maxBitrateKbps, latencyMs)]
      ensures old(Fits(caps, rings)) ==> Fits(caps, rings)
    {
      hide IntendedSize, Total;
      if key in rings {
        return true;
      }
      OneMoreFits(caps, rings, key, IntendedSize(maxBitrateKbps, latencyMs));
      if caps.maxStreams > 0 && streamCount >= caps.maxStreams {
        return false;
      }
      var intended := DecideSize(maxBitrateKbps, latencyMs);
      if caps.maxTotalBytes > 0 && totalRingBytes + intended > caps.maxTotalBytes {
        return false;
      }
      rings := rings[key := intended];
      streamCount := streamCount + 1;
      totalRingBytes := totalRingBytes + intended;
      if key !in tsInfos {
        tsInfos := tsInfos + {key};
      }
      ok := true;
    }

    /** `remove`. */
    method Remove(key: string) returns (ok: bool)
      requires Valid()
      modifies this`rings, this`tsInfos, this`streamCount, this`totalRingBytes
      ensures Valid()
      ensures ok == (key in old(rings)) && rings == old(rings) - {key}
      ensures old(Fits(caps, rings)) ==> Fits(caps, rings)
      ensures !ok ==> streamCount == old(streamCount) && totalRingBytes == old(totalRingBytes)
    {
      tsInfos := tsInfos - {key};
      if key in rings {
        SizeAfterErase(rings, key);
        TotalWithout(rings, key);
        streamCount := streamCount - 1;
        totalRingBytes := totalRingBytes - rings[key];
        rings := rings - {key};
        return true;
      }
      assert rings == rings - {key};
      ok := false;
    }

    /** `clear`: every ring is accounted for as it is freed. */
    method Clear()
      requires Valid()
      modifies this`rings, this`tsInfos, this`streamCount, this`totalRingBytes
      ensures Valid()
      ensures rings == map[] && tsInfos == {} && streamCount == 0 && totalRingBytes == 0
    {
      var left := rings;
      while left != map[]
        invariant streamCount == |left| && totalRingBytes == Total(left)
        decreases |left|
      {
        var k :| k in left;
        SizeAfterErase(left, k);
        TotalWithout(left, k);
        streamCount := streamCount - 1;
        totalRingBytes := totalRingBytes - left[k];
        left := left - {k};
      }
      rings := map[];
      tsInfos := {};
    }
  }

  // ------------------------------------------------------------- whole runs

  datatype Op = Add(key: string, maxBitrateKbps: int, latencyMs: int) | Remove(key: string) | Clear

  /** Over any run from the start: conservation and both caps hold, so the number of
      rings and their total size never pass what was configured. */
  method Run(m: MapData, caps: Caps, ops: seq<Op>)
    requires m.Valid() && m.rings == map[]
    modifies m
    ensures m.Valid() && Fits(m.caps, m.rings) && m.caps == caps
    ensures caps.maxStreams > 0 ==> |m.rings| <= caps.maxStreams
    ensures caps.maxTotalBytes > 0 ==> Total(m.rings) <= caps.maxTotalBytes
    ensures caps.maxTotalBytes > 0 ==> |m.rings| * DEFAULT_RING_BYTES <= caps.maxTotalBytes
  {
    m.SetCaps(caps);
    for i := 0 to |ops|
      invariant m.Valid() && Fits(m.caps, m.rings) && m.caps == caps
    {
      match ops[i] {
      case Add(key, maxBitrateKbps, latencyMs) =>
        var ok := m.Add(key, maxBitrateKbps, latencyMs);
      case Remove(key) =>
        var ok := m.Remove(key);
      case Clear =>
        m.Clear();
      }
    }
    TotalAtLeastDefaults(m.rings);
  }

  lemma {:induction false} TotalAtLeastDefaults(rings: map<string, int>)
    requires forall k :: k in rings ==> rings[k] >= DEFAULT_RING_BYTES
    ensures Total(rings) >= |rings| * DEFAULT_RING_BYTES
    decreases |rings|
  {
    if rings != map[] {
      var k :| k in rings;
      SizeAfterErase(rings, k);
      TotalWithout(rings, k);
      TotalAtLeastDefaults(rings - {k});
    }
  }
}
