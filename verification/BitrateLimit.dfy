/** The sliding-window bitrate limiter and its violation state machine
    (sls/src/core/SLSBitrateLimit.cpp). */
module BitrateLimit {
  import Bytes

  datatype DataPoint = DataPoint(timestamp: int, bytes: nat)
  datatype CheckResult = Ok | Violation | Disconnect

  datatype Config = Config(maxKbps: nat, thresholdMs: int, windowMs: int, spikeTolerance: real) {
    predicate Valid() { thresholdMs > 0 && windowMs > 0 && spikeTolerance >= 1.0 }
  }

  datatype State = State(window: seq<DataPoint>, total: int, inViolation: bool, violationStart: int, lastCleanup: int)

  function Sum(points: seq<DataPoint>): nat {
    if |points| == 0 then 0 else Sum(points[..|points| - 1]) + points[|points| - 1].bytes
  }

  /** The front of the queue is dropped while it is older than the cutoff. */
  function DropOld(window: seq<DataPoint>, cutoff: int): seq<DataPoint> {
    if |window| > 0 && window[0].timestamp < cutoff then DropOld(window[1..], cutoff) else window
  }

  /** What is dropped is a prefix of old points; the first point kept is not old. */
  lemma {:induction false} DropOldFacts(window: seq<DataPoint>, cutoff: int)
    ensures var r := DropOld(window, cutoff);
      && |r| <= |window| && r == window[|window| - |r|..]
      && (forall i :: 0 <= i < |window| - |r| ==> window[i].timestamp < cutoff)
      && (|r| > 0 ==> r[0].timestamp >= cutoff)
  {
    if |window| > 0 && window[0].timestamp < cutoff {
      DropOldFacts(window[1..], cutoff);
    }
  }

  function Cleaned(c: Config, s: State, now: int): State {
    var kept := DropOld(s.window, now - c.windowMs);
    s.(window := kept, total := s.total - (Sum(s.window) - Sum(kept)))
  }

  /** The C++ cast of a 64-bit value to `int`. */
  function Int32(x: int): int {
    (x + 0x8000_0000) % 0x1_0000_0000 - 0x8000_0000
  }

  /** The averaging window, never shorter than one second while it fills up. */
  function EffectiveWindow(c: Config, s: State, now: int): (w: int)
    requires c.Valid()
    ensures w > 0
  {
    if |s.window| > 0 && now - s.window[0].timestamp < c.windowMs then
      if now - s.window[0].timestamp < 1000 then 1000 else now - s.window[0].timestamp
    else c.windowMs
  }

  /** Kilobits per second over the averaging window. */
  function Rate(c: Config, s: State, now: int): int
    requires c.Valid()
  {
    s.total * 8 * 1000 / EffectiveWindow(c, s, now) / 1000
  }

  function SpikeLimit(c: Config): int { (c.maxKbps as real * c.spikeTolerance).Floor }

  predicate ExceedsSpike(c: Config, s: State, now: int)
    requires c.Valid() && s.total >= 0
  {
    Int32(Rate(c, s, now)) > SpikeLimit(c)
  }

  /** The state in which a call measures: point queued, old points possibly dropped. */
  function Measured(c: Config, s: State, bytes: nat, now: int): State {
    var pushed := s.(window := s.window + [DataPoint(now, bytes)], total := s.total + bytes);
    if c.maxKbps == 0 then Cleaned(c, pushed, now)
    else if now - s.lastCleanup > 1000 then Cleaned(c, pushed, now).(lastCleanup := now)
    else pushed
  }

  /** Did the call exceed the spike limit?  Without a limit none does. */
  predicate Exceeded(c: Config, s: State, bytes: nat, now: int)
    requires c.Valid() && Consistent(s)
  {
    c.maxKbps != 0 && (MeasuredConsistent(c, s, bytes, now); ExceedsSpike(c, Measured(c, s, bytes, now), now))
  }

  /** The running total is the sum of the queue. */
  predicate Consistent(s: State) { s.total == Sum(s.window) }

  lemma MeasuredConsistent(c: Config, s: State, bytes: nat, now: int)
    requires Consistent(s)
    ensures Consistent(Measured(c, s, bytes, now))
  {
    hide Sum;
    SumPush(s.window, DataPoint(now, bytes));
  }

  lemma SumPush(points: seq<DataPoint>, p: DataPoint)
    ensures Sum(points + [p]) == Sum(points) + p.bytes
  {
    assert (points + [p])[..|points|] == points;
  }

  /** One call of `check_data_bitrate`. */
  function Check(c: Config, s: State, bytes: nat, now: int): (r: (State, CheckResult))
    requires c.Valid() && Consistent(s)
    ensures Consistent(r.0)
  {
    MeasuredConsistent(c, s, bytes, now);
    var m := Measured(c, s, bytes, now);
    if c.maxKbps == 0 then (m, Ok)
    else if Exceeded(c, s, bytes, now) then
      var v := if m.inViolation then m else m.(inViolation := true, violationStart := now);
      (v, if now - v.violationStart >= c.thresholdMs then Disconnect else Violation)
    else (if m.inViolation then m.(inViolation := false, violationStart := 0) else m, Ok)
  }

  class Limiter {
    var config: Config
    var window: seq<DataPoint>
    var total: int
    var inViolation: bool
    var violationStart: int
    var lastCleanup: int
    var received: int

    constructor ()
      ensures Valid() && config == Config(0, 30000, 5000, 2.0) && View() == State([], 0, false, 0, 0)
    {
      config := Config(0, 30000, 5000, 2.0);
      window, total, inViolation, violationStart, lastCleanup, received := [], 0, false, 0, 0, 0;
    }

    function View(): State
      reads this
    {
      State(window, total, inViolation, violationStart, lastCleanup)
    }

    predicate Valid()
      reads this
    {
      config.Valid() && Consistent(View())
    }

    /** `init`: refuses senseless parameters without touching anything. */
    method Init(maxKbps: int, timeoutSeconds: int, windowMs: int, spikeTolerance: real, now: int) returns (ok: bool)
      requires Valid()
      modifies this
      ensures Valid()
      ensures ok == (maxKbps >= 0 && timeoutSeconds > 0 && windowMs > 0 && spikeTolerance >= 1.0)
      ensures !ok ==> unchanged(this)
      ensures ok ==>
        config == Config(maxKbps, timeoutSeconds * 1000, windowMs, spikeTolerance) && View() == State([], 0, false, 0, now)
    {
      if maxKbps < 0 || timeoutSeconds <= 0 || windowMs <= 0 || spikeTolerance < 1.0 {
        return false;
      }
      config := Config(maxKbps, timeoutSeconds * 1000, windowMs, spikeTolerance);
      while |window| > 0
        modifies this`window
      {
        window := window[1..];
      }
      total := 0;
      ResetStats(now);
      ok := true;
    }

    method ResetStats(now: int)
      modifies this`received, this`inViolation, this`violationStart, this`lastCleanup
      ensures !inViolation && violationStart == 0 && lastCleanup == now && received == 0
    {
      received, inViolation, violationStart, lastCleanup := 0, false, 0, now;
    }

    /** `cleanup_old_data`. */
    method CleanupOldData(now: int)
      requires Consistent(View())
      modifies this`window, this`total
      ensures View() == Cleaned(config, old(View()), now) && Consistent(View())
    {
      hide Sum, DropOld;
      var cutoff := now - config.windowMs;
      ghost var s := View();
      while |window| > 0 && window[0].timestamp < cutoff
        invariant Consistent(View()) && DropOld(window, cutoff) == DropOld(s.window, cutoff)
        modifies this`window, this`total
      {
        DropFront(window, cutoff);
        total := total - window[0].bytes;
        window := window[1..];
      }
      DropNone(window, cutoff);
    }

    method CheckDataBitrate(bytes: nat, now: int) returns (r: CheckResult)
      requires Valid()
      modifies this`window, this`total, this`inViolation, this`violationStart, this`lastCleanup, this`received
      ensures Valid()
      ensures (View(), r) == Check(config, old(View()), bytes, now)
      ensures received == old(received) + bytes
    {
      hide ExceedsSpike, DropOld, Sum;
      ghost var s := View();
      MeasuredConsistent(config, s, bytes, now);
      received := received + bytes;
      SumPush(window, DataPoint(now, bytes));
      window := window + [DataPoint(now, bytes)];
      total := total + bytes;
      if config.maxKbps == 0 {
        CleanupOldData(now);
        return Ok;
      }
      if now - lastCleanup > 1000 {
        CleanupOldData(now);
        lastCleanup := now;
      }
      assert View() == Measured(config, s, bytes, now);
      var exceeds := MeasureSpike(now);
      if exceeds {
        if !inViolation {
          inViolation := true;
          violationStart := now;
        }
        if now - violationStart >= config.thresholdMs {
          return Disconnect;
        }
        return Violation;
      } else {
        if inViolation {
          inViolation := false;
          violationStart := 0;
        }
        return Ok;
      }
    }

    /** The measurement in the middle of `check_data_bitrate`. */
    method MeasureSpike(now: int) returns (exceeds: bool)
      requires Valid()
      ensures exceeds == ExceedsSpike(config, View(), now)
    {
      var effective := config.windowMs;
      if |window| > 0 {
        var actual := now - window[0].timestamp;
        if actual < config.windowMs {
          effective := if actual < 1000 then 1000 else actual;
        }
      }
      var current := Int32(total * 8 * 1000 / effective / 1000);
      var spike := (config.maxKbps as real * config.spikeTolerance).Floor;
      exceeds := current > spike;
    }
  }

  lemma DropFront(window: seq<DataPoint>, cutoff: int)
    requires |window| > 0 && window[0].timestamp < cutoff
    ensures DropOld(window, cutoff) == DropOld(window[1..], cutoff)
    ensures Sum(window) == window[0].bytes + Sum(window[1..])
  {
    SumFront(window);
  }

  lemma DropNone(window: seq<DataPoint>, cutoff: int)
    requires |window| == 0 || window[0].timestamp >= cutoff
    ensures DropOld(window, cutoff) == window
  {
  }

  lemma {:induction false} SumFront(points: seq<DataPoint>)
    requires |points| > 0
    ensures Sum(points) == points[0].bytes + Sum(points[1..])
  {
    var n := |points| - 1;
    if n > 0 {
      SumFront(points[..n]);
      assert points[..n][1..] == points[1..][..n - 1];
    }
  }

  // ------------------------------------------------------------- histories

  /** A history of calls: when, and how many bytes.  Times never go back, and the first
      is not before the start. */
  predicate Clocked(start: int, calls: seq<DataPoint>) {
    && (|calls| > 0 ==> calls[0].timestamp >= start)
    && forall i, j :: 0 <= i < j < |calls| ==> calls[i].timestamp <= calls[j].timestamp
  }

  /** The limiter after `init` at time `start` and a history of calls. */
  function After(c: Config, start: int, calls: seq<DataPoint>): (s: State)
    requires c.Valid()
    ensures Consistent(s)
  {
    if |calls| == 0 then State([], 0, false, 0, start)
    else
      var call := calls[|calls| - 1];
      Check(c, After(c, start, calls[..|calls| - 1]), call.bytes, call.timestamp).0
  }

  /** Bytes of all calls at or after a time: the quantity the limiter is about. */
  function TrueSum(calls: seq<DataPoint>, from: int): nat {
    if |calls| == 0 then 0
    else
      var call := calls[|calls| - 1];
      TrueSum(calls[..|calls| - 1], from) + if call.timestamp >= from then call.bytes else 0
  }

  /** The queue is the last calls of the history: what was dropped is older than
      `lost`, what is kept is not older than `kept`. */
  predicate Suffix(window: seq<DataPoint>, calls: seq<DataPoint>, lost: int, kept: int) {
    && |window| <= |calls| && window == calls[|calls| - |window|..]
    && (forall i :: 0 <= i < |calls| - |window| ==> calls[i].timestamp < lost)
    && (forall i :: 0 <= i < |window| ==> window[i].timestamp >= kept)
  }

  lemma SuffixPush(window: seq<DataPoint>, calls: seq<DataPoint>, lost: int, kept: int, call: DataPoint, lost': int)
    requires Suffix(window, calls, lost, kept) && lost <= lost' && call.timestamp >= kept
    ensures Suffix(window + [call], calls + [call], lost', kept)
  {
  }

  lemma SuffixDrop(window: seq<DataPoint>, calls: seq<DataPoint>, lost: int, kept: int, start: int, cutoff: int)
    requires Suffix(window, calls, lost, kept) && lost <= cutoff && Clocked(start, calls)
    ensures Suffix(DropOld(window, cutoff), calls, cutoff, cutoff)
  {
    hide DropOld;
    DropOldFacts(window, cutoff);
    var r := DropOld(window, cutoff);
    var d, e := |calls| - |window|, |calls| - |r|;
    assert r == window[|window| - |r|..] == calls[e..];
    forall i | 0 <= i < e
      ensures calls[i].timestamp < cutoff
    {
      if i >= d {
        assert window[i - d] == calls[i];
      }
    }
    forall i | 0 <= i < |r|
      ensures r[i].timestamp >= cutoff
    {
      assert r[0] == calls[e] && r[i] == calls[e + i];
    }
  }

  /** A suffix sums to at least the true sum since `lost`. */
  lemma {:induction false} SuffixAtLeast(calls: seq<DataPoint>, d: nat, lost: int)
    requires d <= |calls| && forall i :: 0 <= i < d ==> calls[i].timestamp < lost
    ensures TrueSum(calls, lost) <= Sum(calls[d..])
  {
    if |calls| > 0 {
      var n := |calls| - 1;
      if d < |calls| {
        SuffixAtLeast(calls[..n], d, lost);
        assert calls[d..][..n - d] == calls[..n][d..];
      } else {
        SuffixAtLeast(calls[..n], n, lost);
        assert calls[..n][n..] == [];
      }
    }
  }

  /** A suffix sums to at most the true sum since `kept`. */
  lemma {:induction false} SuffixAtMost(calls: seq<DataPoint>, d: nat, kept: int)
    requires d <= |calls| && forall i :: d <= i < |calls| ==> calls[i].timestamp >= kept
    ensures Sum(calls[d..]) <= TrueSum(calls, kept)
  {
    if d < |calls| {
      var n := |calls| - 1;
      SuffixAtMost(calls[..n], d, kept);
      assert calls[d..][..n - d] == calls[..n][d..];
    }
  }

  lemma SuffixSum(window: seq<DataPoint>, calls: seq<DataPoint>, lost: int, kept: int)
    requires Suffix(window, calls, lost, kept)
    ensures TrueSum(calls, lost) <= Sum(window) <= TrueSum(calls, kept)
  {
    hide Sum, TrueSum;
    var d := |calls| - |window|;
    assert forall i :: d <= i < |calls| ==> calls[i] == window[i - d];
    SuffixAtLeast(calls, d, lost);
    SuffixAtMost(calls, d, kept);
  }

  lemma MeasuredKeepsSuffix(c: Config, s: State, calls: seq<DataPoint>, was: int, start: int, call: DataPoint)
    requires c.Valid() && Clocked(start, calls + [call])
    requires Suffix(s.window, calls, was - c.windowMs, if c.maxKbps == 0 then was - c.windowMs else s.lastCleanup - c.windowMs)
    requires was <= call.timestamp && s.lastCleanup <= call.timestamp
    ensures var m := Measured(c, s, call.bytes, call.timestamp); var now := call.timestamp;
      && Suffix(m.window, calls + [call], now - c.windowMs, if c.maxKbps == 0 then now - c.windowMs else m.lastCleanup - c.windowMs)
      && m.lastCleanup <= now && (c.maxKbps != 0 ==> now - m.lastCleanup <= 1000)
  {
    hide Suffix, Clocked, DropOld, Sum;
    var now := call.timestamp;
    assert DataPoint(call.timestamp, call.bytes) == call;
    var kept := if c.maxKbps == 0 then was - c.windowMs else s.lastCleanup - c.windowMs;
    SuffixPush(s.window, calls, was - c.windowMs, kept, call, now - c.windowMs);
    SuffixDrop(s.window + [call], calls + [call], now - c.windowMs, kept, start, now - c.windowMs);
  }

  lemma {:induction false} AfterKeepsSuffix(c: Config, start: int, calls: seq<DataPoint>)
    requires c.Valid() && Clocked(start, calls)
    ensures var s := After(c, start, calls);
      var now := if |calls| == 0 then start else calls[|calls| - 1].timestamp;
      && Suffix(s.window, calls, now - c.windowMs, if c.maxKbps == 0 then now - c.windowMs else s.lastCleanup - c.windowMs)
      && s.lastCleanup <= now && (c.maxKbps != 0 ==> now - s.lastCleanup <= 1000)
  {
    hide Measured, Sum, Exceeded, ExceedsSpike, DropOld, Suffix, Check, Consistent, Clocked;
    if |calls| > 0 {
      var n := |calls| - 1;
      ClockedPrefix(start, calls);
      var s, call := After(c, start, calls[..n]), calls[n];
      AfterKeepsSuffix(c, start, calls[..n]);
      assert calls == calls[..n] + [call];
      MeasuredKeepsSuffix(c, s, calls[..n], if n == 0 then start else calls[n - 1].timestamp, start, call);
      CheckKeepsMeasured(c, s, call.bytes, call.timestamp);
    } else {
      EmptySuffix(start - c.windowMs, start - c.windowMs);
    }
  }

  lemma CheckKeepsMeasured(c: Config, s: State, bytes: nat, now: int)
    requires c.Valid() && Consistent(s)
    ensures var r, m := Check(c, s, bytes, now).0, Measured(c, s, bytes, now);
      r.window == m.window && r.lastCleanup == m.lastCleanup && r.total == m.total
  {
    hide Exceeded, ExceedsSpike, Measured;
  }

  lemma ClockedPrefix(start: int, calls: seq<DataPoint>)
    requires Clocked(start, calls) && |calls| > 0
    ensures var n := |calls| - 1;
      Clocked(start, calls[..n]) && (if n == 0 then start else calls[n - 1].timestamp) <= calls[n].timestamp
  {
  }

  lemma EmptySuffix(lost: int, kept: int)
    ensures Suffix([], [], lost, kept)
  {
  }

  /** After every limited call the running total is the sum of the queue and lies
      between the true sum over the last window and the true sum over the last window
      plus one second, the longest time between two cleanups. */
  lemma WindowTotalIsAccurate(c: Config, start: int, calls: seq<DataPoint>)
    requires c.Valid() && c.maxKbps != 0 && Clocked(start, calls) && |calls| > 0
    ensures var s := After(c, start, calls); var now := calls[|calls| - 1].timestamp;
      && s.total == Sum(s.window)
      && TrueSum(calls, now - c.windowMs) <= s.total <= TrueSum(calls, now - c.windowMs - 1000)
  {
    hide After, Sum, TrueSum, Suffix;
    var s, now := After(c, start, calls), calls[|calls| - 1].timestamp;
    AfterKeepsSuffix(c, start, calls);
    SuffixSum(s.window, calls, now - c.windowMs, s.lastCleanup - c.windowMs);
    TrueSumGrows(calls, s.lastCleanup - c.windowMs, now - c.windowMs - 1000);
  }

  lemma {:induction false} TrueSumGrows(calls: seq<DataPoint>, a: int, b: int)
    requires b <= a
    ensures TrueSum(calls, a) <= TrueSum(calls, b)
  {
    if |calls| > 0 {
      TrueSumGrows(calls[..|calls| - 1], a, b);
    }
  }

  /** Without a limit every call cleans up, and the total is exact. */
  lemma UnlimitedTotalIsExact(c: Config, start: int, calls: seq<DataPoint>)
    requires c.Valid() && c.maxKbps == 0 && Clocked(start, calls) && |calls| > 0
    ensures After(c, start, calls).total == TrueSum(calls, calls[|calls| - 1].timestamp - c.windowMs)
  {
    hide After, Sum, TrueSum, Suffix;
    var s, now := After(c, start, calls), calls[|calls| - 1].timestamp;
    AfterKeepsSuffix(c, start, calls);
    SuffixSum(s.window, calls, now - c.windowMs, now - c.windowMs);
  }

  /** The queued bits reach one kilobit per second above the limit over the averaging
      window: what exceeding the limit should mean. */
  predicate OverLimit(c: Config, s: State, now: int)
    requires c.Valid()
  {
    s.total * 8 >= (SpikeLimit(c) + 1) * EffectiveWindow(c, s, now)
  }

  /** The nested divisions and the cast decide just that, exactly when the rate (queued
      bits per millisecond of the window) is below 2^31 or its residue modulo 2^32 lies
      between the limit and 2^31; any other rate is taken for a low one. */
  lemma ExceedsExactlyWhen(c: Config, s: State, now: int)
    requires c.Valid() && s.total >= 0 && SpikeLimit(c) < 0x8000_0000
    ensures (ExceedsSpike(c, s, now) <==> OverLimit(c, s, now))
      <==>
        var rate := s.total * 8 / EffectiveWindow(c, s, now);
        rate < 0x8000_0000 || SpikeLimit(c) < rate % 0x1_0000_0000 < 0x8000_0000
  {
    hide EffectiveWindow, Int32;
    RateReaches(s.total, EffectiveWindow(c, s, now), SpikeLimit(c));
    RateIsQuotient(s.total, EffectiveWindow(c, s, now));
    LimitIsNatural(c);
    Int32Small(Rate(c, s, now));
    Int32Residue(Rate(c, s, now), SpikeLimit(c));
  }

  lemma LimitIsNatural(c: Config)
    requires c.Valid()
    ensures SpikeLimit(c) >= 0
  {
    assert c.maxKbps as real * c.spikeTolerance >= 0.0;
  }

  /** Multiplying by 1000 and dividing by it again cancels out. */
  lemma RateIsQuotient(total: int, w: int)
    requires total >= 0 && w > 0
    ensures total * 8 * 1000 / w / 1000 == total * 8 / w
  {
    var bits := total * 8;
    Bytes.DivDiv(bits * 1000, w, 1000);
    Bytes.DivDiv(bits * 1000, 1000, w);
  }

  /** The averaging window by cases: the time since the oldest queued point, at least one
      second, and the whole window once that point is as old or nothing is queued. */
  function AveragedMs(points: seq<DataPoint>, windowMs: int, now: int): (w: int)
    requires windowMs > 0
    ensures w > 0
  {
    if |points| == 0 || now - points[0].timestamp >= windowMs then windowMs
    else if now - points[0].timestamp <= 1000 then 1000
    else now - points[0].timestamp
  }

  /** A call exceeds, over every history and for rates below 2^31, if and only if the whole
      number of kilobits per second that the queue makes is, as a real, above the maximum
      times the tolerance. */
  lemma ExceedsExactlyAboveTolerance(c: Config, start: int, calls: seq<DataPoint>)
    requires c.Valid() && |calls| > 0
    ensures var n := |calls| - 1; var queue := After(c, start, calls).window;
      var kbps := Sum(queue) * 8 / AveragedMs(queue, c.windowMs, calls[n].timestamp);
      kbps < 0x8000_0000 ==>
        (ExceededAt(c, start, calls, n) <==> c.maxKbps != 0 && kbps as real > c.maxKbps as real * c.spikeTolerance)
  {
    hide Sum, Measured, After, Int32, SpikeLimit;
    var n := |calls| - 1;
    var call := calls[n];
    assert calls == calls[..n] + [call];
    AfterPush(c, start, calls[..n], call);
    CheckKeepsMeasured(c, After(c, start, calls[..n]), call.bytes, call.timestamp);
    MeasuredConsistent(c, After(c, start, calls[..n]), call.bytes, call.timestamp);
    var m := Measured(c, After(c, start, calls[..n]), call.bytes, call.timestamp);
    RateIsQuotient(m.total, EffectiveWindow(c, m, call.timestamp));
    Int32Small(Rate(c, m, call.timestamp));
    AboveTolerance(c, m.total * 8 / EffectiveWindow(c, m, call.timestamp));
  }

  lemma AboveTolerance(c: Config, kbps: int)
    requires c.Valid()
    ensures kbps > SpikeLimit(c) <==> kbps as real > c.maxKbps as real * c.spikeTolerance
  {
    var limit := c.maxKbps as real * c.spikeTolerance;
    assert limit.Floor as real <= limit < limit.Floor as real + 1.0;
    if kbps > limit.Floor {
      assert kbps as real >= (limit.Floor + 1) as real;
    }
  }

  /** A second at one and a half times the maximum is within a tolerance of two. */
  lemma SpikeIsTolerated()
    ensures var c := Config(1000, 30000, 5000, 2.0);
      && Check(c, State([], 0, false, 0, 0), 187500, 0).1 == Ok
      && Check(c, State([], 0, false, 0, 0), 250125, 0).1 == Violation
  {
    var c := Config(1000, 30000, 5000, 2.0);
    var s := State([], 0, false, 0, 0);
    assert SpikeLimit(c) == 2000;
    var a, b := Measured(c, s, 187500, 0), Measured(c, s, 250125, 0);
    assert EffectiveWindow(c, a, 0) == 1000 && EffectiveWindow(c, b, 0) == 1000;
    assert Rate(c, a, 0) == 1500 && Rate(c, b, 0) == 2001;
  }

  lemma Int32Residue(x: int, limit: int)
    requires x >= 0 && 0 <= limit < 0x8000_0000
    ensures Int32(x) > limit <==> limit < x % 0x1_0000_0000 < 0x8000_0000
  {
  }

  /** Calls of 2097152000 bytes each, all at the start. */
  function Flood(n: nat): (calls: seq<DataPoint>)
    ensures |calls| == n && forall k :: 0 <= k < n ==> calls[k] == DataPoint(0, 2_097_152_000)
  {
    seq(n, k => DataPoint(0, 2_097_152_000))
  }

  lemma {:induction false} FloodIsQueued(c: Config, n: nat)
    requires c.Valid() && c.maxKbps != 0
    ensures var s := After(c, 0, Flood(n));
      s.window == Flood(n) && s.total == n * 2_097_152_000 && s.lastCleanup == 0
  {
    if n > 0 {
      hide Check, Measured, Flood;
      FloodIsQueued(c, n - 1);
      FloodPush(n);
      var s := After(c, 0, Flood(n - 1));
      CheckKeepsMeasured(c, s, 2_097_152_000, 0);
      FloodIsMeasured(c, s, n);
    }
  }

  lemma FloodPush(n: nat)
    requires n > 0
    ensures Flood(n)[..n - 1] == Flood(n - 1) && Flood(n - 1) + [DataPoint(0, 2_097_152_000)] == Flood(n)
    ensures |Flood(n)| == n && Flood(n)[n - 1] == DataPoint(0, 2_097_152_000)
  {
  }

  lemma FloodIsMeasured(c: Config, s: State, n: nat)
    requires c.maxKbps != 0 && n > 0 && s.window == Flood(n - 1) && s.lastCleanup == 0
    ensures var m := Measured(c, s, 2_097_152_000, 0);
      m.window == Flood(n) && m.total == s.total + 2_097_152_000 && m.lastCleanup == 0
  {
    FloodPush(n);
  }

  /** A run in which it errs: 128 calls in one second, each with a byte count an `int` can
      hold, make a rate of 2^31 kbit/s, which passes for a low one. */
  lemma FloodIsMissed()
    ensures var c := Config(1000, 30000, 5000, 2.0); var s := After(c, 0, Flood(128));
      && c.Valid() && Clocked(0, Flood(128)) && OverLimit(c, s, 0) && !ExceedsSpike(c, s, 0)
      && Check(c, After(c, 0, Flood(127)), 2_097_152_000, 0).1 == Ok
  {
    hide After;
    var c := Config(1000, 30000, 5000, 2.0);
    FloodIsQueued(c, 128);
    FloodIsQueued(c, 127);
    var s := After(c, 0, Flood(128));
    assert EffectiveWindow(c, s, 0) == 1000 && Rate(c, s, 0) == 0x8000_0000 && SpikeLimit(c) == 2000;
    assert !ExceedsSpike(c, s, 0) && OverLimit(c, s, 0);
    LastOfFlood(c);
  }

  lemma LastOfFlood(c: Config)
    requires c.Valid() && c.maxKbps != 0
    requires !ExceedsSpike(c, After(c, 0, Flood(128)), 0)
    ensures Check(c, After(c, 0, Flood(127)), 2_097_152_000, 0).1 == Ok
  {
    hide ExceedsSpike, Sum;
    assert Flood(128)[..127] == Flood(127);
    var s, t := After(c, 0, Flood(127)), After(c, 0, Flood(128));
    SameMeasure(c, Measured(c, s, 2_097_152_000, 0), t, 0);
  }

  /** The verdict looks at the queue and its total only. */
  lemma SameMeasure(c: Config, s: State, t: State, now: int)
    requires c.Valid() && s.total >= 0 && s.window == t.window && s.total == t.total
    ensures ExceedsSpike(c, s, now) == ExceedsSpike(c, t, now)
  {
  }

  /** It never errs upwards: what exceeds is over the limit, whatever the rate. */
  lemma ExceedingIsOverLimit(c: Config, s: State, now: int)
    requires c.Valid() && s.total >= 0 && ExceedsSpike(c, s, now)
    ensures OverLimit(c, s, now)
  {
    hide EffectiveWindow, Int32;
    RateReaches(s.total, EffectiveWindow(c, s, now), SpikeLimit(c));
    Int32Small(Rate(c, s, now));
  }

  /** The cast changes nothing below 2^31 and never makes a number larger. */
  lemma Int32Small(x: int)
    requires 0 <= x
    ensures Int32(x) <= x && (x < 0x8000_0000 ==> Int32(x) == x)
  {
  }

  lemma RateReaches(total: int, w: int, limit: int)
    requires total >= 0 && w > 0
    ensures 0 <= total * 8 * 1000 / w / 1000
    ensures total * 8 * 1000 / w / 1000 > limit <==> total * 8 >= (limit + 1) * w
  {
    var bits := total * 8;
    Bytes.DivDiv(bits * 1000, w, 1000);
    QuotientAtLeast(bits * 1000, w * 1000, limit + 1);
    Bytes.MulAssoc(limit + 1, w, 1000);
    QuotientAtLeast(bits * 1000, w * 1000, 0);
  }

  lemma QuotientAtLeast(x: int, d: int, m: int)
    requires x >= 0 && d > 0
    ensures x / d >= m <==> x >= m * d
  {
    var q := x / d;
    assert x == d * q + x % d;
    if q >= m {
      Bytes.MulLe(d, m, q);
    } else {
      Bytes.MulLe(d, q + 1, m);
      Bytes.MulDist(d, q, 1);
    }
  }

  /** A verdict other than Ok is about real traffic: the bytes of the last window plus
      one second carry more than the limit allows in the averaging window. */
  lemma VerdictMeansTraffic(c: Config, start: int, calls: seq<DataPoint>)
    requires c.Valid() && c.maxKbps != 0 && Clocked(start, calls) && |calls| > 0
    requires ExceedsSpike(c, After(c, start, calls), calls[|calls| - 1].timestamp)
    ensures var s, now := After(c, start, calls), calls[|calls| - 1].timestamp;
      TrueSum(calls, now - c.windowMs - 1000) * 8 >= (SpikeLimit(c) + 1) * EffectiveWindow(c, s, now)
  {
    hide After, TrueSum, ExceedsSpike, EffectiveWindow;
    WindowTotalIsAccurate(c, start, calls);
    ExceedingIsOverLimit(c, After(c, start, calls), calls[|calls| - 1].timestamp);
  }

  // ------------------------------------------------------------ violations

  /** Call `k` of the history exceeded the spike limit. */
  predicate ExceededAt(c: Config, start: int, calls: seq<DataPoint>, k: nat)
    requires c.Valid() && k < |calls|
  {
    Exceeded(c, After(c, start, calls[..k]), calls[k].bytes, calls[k].timestamp)
  }

  /** All calls from `j` on exceeded it. */
  predicate Streak(c: Config, start: int, calls: seq<DataPoint>, j: nat)
    requires c.Valid()
  {
    j < |calls| && forall k :: j <= k < |calls| ==> ExceededAt(c, start, calls, k)
  }

  lemma StreakStep(c: Config, start: int, calls: seq<DataPoint>, j: nat)
    requires c.Valid() && |calls| > 0 && j < |calls|
    ensures var n := |calls| - 1;
      Streak(c, start, calls, j) <==> ExceededAt(c, start, calls, n) && (j == n || Streak(c, start, calls[..n], j))
  {
    hide Exceeded, After;
    var n := |calls| - 1;
    assert forall k :: 0 <= k < n ==> calls[..n][..k] == calls[..k];
    assert forall k :: 0 <= k < n ==> (ExceededAt(c, start, calls, k) <==> ExceededAt(c, start, calls[..n], k));
  }

  /** The state machine remembers the start of the current uninterrupted streak. */
  lemma {:induction false} ViolationIsStreakStart(c: Config, start: int, calls: seq<DataPoint>)
    requires c.Valid() && c.maxKbps != 0
    ensures var s := After(c, start, calls);
      && (s.inViolation <==> exists j: nat :: Streak(c, start, calls, j))
      && (s.inViolation ==>
            exists j: nat :: Streak(c, start, calls, j) && s.violationStart == calls[j].timestamp
              && forall i: nat :: Streak(c, start, calls, i) ==> j <= i)
  {
    hide Exceeded, ExceedsSpike, Streak, Measured;
    if |calls| > 0 {
      var n := |calls| - 1;
      var init, call := calls[..n], calls[n];
      ViolationIsStreakStart(c, start, init);
      forall j: nat | j < |calls|
        ensures Streak(c, start, calls, j) <==>
          ExceededAt(c, start, calls, n) && (j == n || Streak(c, start, init, j))
      {
        StreakStep(c, start, calls, j);
      }
      StreakInRange(c, start, calls);
      StreakInRange(c, start, init);
      MeasuredKeepsViolation(c, After(c, start, init), call.bytes, call.timestamp);
      if ExceededAt(c, start, calls, n) {
        if After(c, start, init).inViolation {
          var j: nat :| Streak(c, start, init, j) && After(c, start, init).violationStart == init[j].timestamp
            && forall i: nat :: Streak(c, start, init, i) ==> j <= i;
          assert Streak(c, start, calls, j);
        } else {
          assert Streak(c, start, calls, n);
        }
      }
    } else {
      StreakInRange(c, start, calls);
    }
  }

  lemma StreakInRange(c: Config, start: int, calls: seq<DataPoint>)
    requires c.Valid()
    ensures forall j: nat :: Streak(c, start, calls, j) ==> j < |calls|
  {
  }

  lemma MeasuredKeepsViolation(c: Config, s: State, bytes: nat, now: int)
    ensures var m := Measured(c, s, bytes, now);
      m.inViolation == s.inViolation && m.violationStart == s.violationStart
  {
  }

  /** The verdict of a call, over every history: Disconnect exactly when this call and
      all calls back to one at least the threshold earlier exceeded the spike limit
      without interruption; Ok exactly when this call did not exceed it. */
  lemma VerdictExactlyWhen(c: Config, start: int, calls: seq<DataPoint>, call: DataPoint)
    requires c.Valid() && Clocked(start, calls + [call])
    ensures var all := calls + [call];
      var r := Check(c, After(c, start, calls), call.bytes, call.timestamp).1;
      && (r == Disconnect <==>
            exists j: nat :: Streak(c, start, all, j) && call.timestamp - all[j].timestamp >= c.thresholdMs)
      && (r == Ok <==> !ExceededAt(c, start, all, |calls|))
  {
    hide Exceeded, ExceedsSpike, Measured, Streak, Check, After;
    var all := calls + [call];
    var n := |calls|;
    assert all[..n] == calls;
    StreakInRange(c, start, all);
    CheckVerdict(c, After(c, start, calls), call.bytes, call.timestamp);
    AfterPush(c, start, calls, call);
    StreakStep(c, start, all, n);
    if c.maxKbps != 0 {
      ViolationIsStreakStart(c, start, all);
      if ExceededAt(c, start, all, n) {
        var j: nat :| Streak(c, start, all, j) && After(c, start, all).violationStart == all[j].timestamp
          && forall i: nat :: Streak(c, start, all, i) ==> j <= i;
        assert forall i: nat :: Streak(c, start, all, i) ==> all[j].timestamp <= all[i].timestamp;
      } else {
        LastOfStreak(c, start, all);
      }
    } else {
      NeverExceeded(c, start, all, n);
      LastOfStreak(c, start, all);
    }
  }

  lemma LastOfStreak(c: Config, start: int, calls: seq<DataPoint>)
    requires c.Valid() && |calls| > 0
    ensures forall j: nat :: Streak(c, start, calls, j) ==> ExceededAt(c, start, calls, |calls| - 1)
  {
  }

  lemma AfterPush(c: Config, start: int, calls: seq<DataPoint>, call: DataPoint)
    requires c.Valid()
    ensures After(c, start, calls + [call]) == Check(c, After(c, start, calls), call.bytes, call.timestamp).0
  {
    hide Check;
    assert (calls + [call])[..|calls|] == calls;
  }

  /** The verdict in terms of the state after the call. */
  lemma CheckVerdict(c: Config, s: State, bytes: nat, now: int)
    requires c.Valid() && Consistent(s)
    ensures var (t, r) := Check(c, s, bytes, now);
      if Exceeded(c, s, bytes, now) then
        t.inViolation && r == if now - t.violationStart >= c.thresholdMs then Disconnect else Violation
      else r == Ok
  {
    hide ExceedsSpike, Measured;
  }

  lemma NeverExceeded(c: Config, start: int, calls: seq<DataPoint>, k: nat)
    requires c.Valid() && c.maxKbps == 0 && k < |calls|
    ensures !ExceededAt(c, start, calls, k)
  {
  }
}
