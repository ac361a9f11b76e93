/** The arithmetic of audio gap filling on a 33-bit wrapping clock
    (sls/src/core/SLSAudioGapFiller.cpp, `frame_pts_duration` and the counting
    part of `generate_gap_packets`). */
module GapRule {
  import opened Bytes

  /** PTS is a 33-bit counter of a 90 kHz clock (section 2.4.3.7 of ISO/IEC 13818-1). */
  const PTS_WRAP: int := 0x2_0000_0000
  const MAX_PTS_GAP: int := 450000
  const MAX_GAP_FRAMES: int := 250

  type Pts = p: int | 0 <= p < 0x2_0000_0000

  function SamplesPerFrame(streamType: int): int {
    if streamType == 0x03 || streamType == 0x04 then 1152
    else if streamType == 0x06 then 960
    else 1024
  }

  function FrameDuration(sampleRate: int, streamType: int): int {
    if sampleRate <= 0 then 0 else SamplesPerFrame(streamType) * 90000 / sampleRate
  }

  /** Clock distance from one PTS forward to another, across the wrap. */
  function Forward(from: Pts, to: Pts): (d: int)
    ensures 0 <= d < PTS_WRAP && (from + d) % PTS_WRAP == to
  {
    if to - from < 0 then to - from + PTS_WRAP else to - from
  }

  /** `std::round` of a positive quotient: nearest integer, halves upward. */
  function RoundedQuotient(a: int, b: int): int
    requires a >= 0 && b > 0
  {
    (2 * a + b) / (2 * b)
  }

  /** How many frames the filler inserts for a clock distance of `delta`. */
  function FillCount(delta: int, frame: int): (n: nat)
    requires delta >= 0
    ensures n <= MAX_GAP_FRAMES
  {
    if frame <= 0 || delta > MAX_PTS_GAP || delta <= frame then 0
    else
      var n := RoundedQuotient(delta, frame) - 1;
      if n <= 0 then 0 else if n > MAX_GAP_FRAMES then MAX_GAP_FRAMES else n
  }

  /** PTS of the i-th inserted frame. */
  function FillPts(last: Pts, frame: int, i: nat): Pts {
    (last + (i + 1) * frame) % PTS_WRAP
  }

  /** The PTS values of `n` inserted frames. */
  function FillTimes(last: Pts, frame: int, n: nat): (s: seq<Pts>)
    ensures |s| == n && forall i :: 0 <= i < n ==> s[i] == FillPts(last, frame, i)
  {
    seq(n, i requires i >= 0 => FillPts(last, frame, i))
  }

  /** The PTS values a listener sees over one gap: last heard, inserted, current. */
  function FilledTimeline(last: Pts, current: Pts, frame: int): (s: seq<Pts>)
    ensures |s| == FillCount(Forward(last, current), frame) + 2
  {
    [last] + FillTimes(last, frame, FillCount(Forward(last, current), frame)) + [current]
  }

  /** The 250-frame cap cuts the fill short. */
  predicate CapBinds(delta: int, frame: int) {
    delta <= MAX_PTS_GAP && 2 * delta >= 503 * frame
  }

  // ---------------------------------------------------------------- counting

  lemma RoundingBounds(a: int, b: int)
    requires a >= 0 && b > 0
    ensures var n := RoundedQuotient(a, b); 2 * b * n <= 2 * a + b < 2 * b * n + 2 * b
  {
    var n := RoundedQuotient(a, b);
    assert 2 * a + b == (2 * b) * n + (2 * a + b) % (2 * b);
  }

  /** Two counts whose remainders both lie in a half-open range one frame wide are equal. */
  lemma SameSlot(delta: int, frame: int, m: int, n: int)
    requires frame > 0
    requires frame <= 2 * (delta - m * frame) < 3 * frame
    requires frame <= 2 * (delta - n * frame) < 3 * frame
    ensures m == n
  {
    if m < n {
      MulLe(frame, m + 1, n);
    } else if n < m {
      MulLe(frame, n + 1, m);
    }
  }

  /** Rounding leaves a step of at least half and less than one and a half frames. */
  lemma UncappedRemainder(delta: int, frame: int)
    requires delta >= 0 && frame > 0
    ensures var n := RoundedQuotient(delta, frame) - 1;
            frame <= 2 * (delta - n * frame) < 3 * frame
  {
    RoundingBounds(delta, frame);
    var n := RoundedQuotient(delta, frame) - 1;
    assert 2 * frame * (n + 1) == 2 * (n * frame) + 2 * frame;
  }

  /** Frames are inserted exactly when the gap is at least one and a half frames
      and at most five seconds. */
  lemma {:induction false} InsertsExactlyWhen(delta: int, frame: int)
    requires delta >= 0
    ensures FillCount(delta, frame) > 0 <==> (frame > 0 && 2 * delta >= 3 * frame && delta <= MAX_PTS_GAP)
  {
    if frame > 0 {
      UncappedRemainder(delta, frame);
      var n := RoundedQuotient(delta, frame) - 1;
      if n <= 0 {
        MulLe(frame, n, 0);
      } else {
        MulLe(frame, 1, n);
      }
    }
  }

  /** The cap limits the count exactly when the gap is at least 251.5 frames. */
  lemma CapBindsExactlyWhen(delta: int, frame: int)
    requires 0 <= delta <= MAX_PTS_GAP && frame > 0
    ensures RoundedQuotient(delta, frame) - 1 > MAX_GAP_FRAMES <==> CapBinds(delta, frame)
  {
    UncappedRemainder(delta, frame);
    var n := RoundedQuotient(delta, frame) - 1;
    if n > MAX_GAP_FRAMES {
      MulLe(frame, 251, n);
    } else {
      MulLe(frame, n, 250);
    }
  }

  /** Reference definition of the count: below the cap, `m` frames are inserted
      if and only if `m` frames leave a step between half and one and a half frames. */
  lemma {:induction false} CountIsTheNearestFit(delta: int, frame: int, m: nat)
    requires frame > 0 && 0 <= delta <= MAX_PTS_GAP && !CapBinds(delta, frame)
    requires 2 * delta >= frame
    ensures FillCount(delta, frame) == m <==> frame <= 2 * (delta - m * frame) < 3 * frame
  {
    UncappedRemainder(delta, frame);
    CapBindsExactlyWhen(delta, frame);
    var n := RoundedQuotient(delta, frame) - 1;
    if n < 0 {
      MulLe(frame, n, -1);
    } else if n == 0 {
    } else {
      MulLe(frame, 1, n);
    }
    assert FillCount(delta, frame) == n;
    if frame <= 2 * (delta - m * frame) < 3 * frame {
      SameSlot(delta, frame, m, n);
    }
  }

  /** No codec sampled at 48 kHz or less can reach the cap. */
  lemma {:induction false} CapNeverBindsUpTo48kHz(sampleRate: int, streamType: int, delta: int)
    requires 0 < sampleRate <= 48000 && 0 <= delta
    ensures FrameDuration(sampleRate, streamType) >= 1800
    ensures !CapBinds(delta, FrameDuration(sampleRate, streamType))
  {
    var s := SamplesPerFrame(streamType) * 90000;
    var d := s / sampleRate;
    assert s == sampleRate * d + s % sampleRate;
    if d < 1800 {
      MulLe(sampleRate, d, 1799);
    }
  }

  /** At 96 kHz a five-second gap meets the cap, and 218 more frames would fit into the
      step that is left. */
  lemma CapBindsAt96kHz()
    ensures FrameDuration(96000, 0x0F) == 960 && CapBinds(450000, 960)
    ensures FillCount(450000, 960) == 250 && FillCount(450000 - 250 * 960, 960) == 218
  {
  }

  /** A gap of three seconds of Opus is filled, though it is longer than two. */
  lemma ThreeSecondsAreFilled()
    ensures FillCount(270000, FrameDuration(48000, 0x06)) == 149
  {
  }

  // -------------------------------------------------------------- timestamps

  lemma FillCountFits(delta: int, frame: int)
    requires delta >= 0 && FillCount(delta, frame) > 0
    ensures frame > 0
    ensures FillCount(delta, frame) * frame < delta
    ensures CapBinds(delta, frame) ==> FillCount(delta, frame) == MAX_GAP_FRAMES
    ensures !CapBinds(delta, frame) ==>
      frame <= 2 * (delta - FillCount(delta, frame) * frame) < 3 * frame
  {
    UncappedRemainder(delta, frame);
    CapBindsExactlyWhen(delta, frame);
    var n := RoundedQuotient(delta, frame) - 1;
    MulLe(frame, FillCount(delta, frame), n);
  }

  /** Every inserted PTS lies strictly inside the gap, at exactly (i + 1) frames
      from the last heard PTS, across the wrap. */
  lemma {:induction false} FillPtsInsideGap(last: Pts, current: Pts, frame: int, i: nat)
    requires i < FillCount(Forward(last, current), frame)
    ensures Forward(last, FillPts(last, frame, i)) == (i + 1) * frame
    ensures 0 < (i + 1) * frame < Forward(last, current)
    ensures Forward(FillPts(last, frame, i), current) == Forward(last, current) - (i + 1) * frame
  {
    hide FillCount;
    StepFits(Forward(last, current), frame, i);
    ForwardOfSum(last, current, (i + 1) * frame);
  }

  lemma StepFits(delta: int, frame: int, i: nat)
    requires delta >= 0 && i < FillCount(delta, frame)
    ensures 0 < (i + 1) * frame < delta
  {
    hide FillCount;
    FillCountFits(delta, frame);
    MulLe(frame, i + 1, FillCount(delta, frame));
    MulLe(frame, 1, i + 1);
  }

  lemma ForwardOfSum(last: Pts, current: Pts, step: int)
    requires 0 < step < Forward(last, current)
    ensures var p := (last + step) % PTS_WRAP;
      Forward(last, p) == step && Forward(p, current) == Forward(last, current) - step
  {
  }

  /** Consecutive inserted PTS values are exactly one frame apart on the clock. */
  lemma {:induction false} FillPtsSpacing(last: Pts, current: Pts, frame: int, i: nat)
    requires i + 1 < FillCount(Forward(last, current), frame)
    ensures Forward(FillPts(last, frame, i), FillPts(last, frame, i + 1)) == frame
  {
    FillPtsInsideGap(last, current, frame, i);
    FillPtsInsideGap(last, current, frame, i + 1);
    assert (i + 2) * frame == (i + 1) * frame + frame;
  }

  /** The clock step between neighbours of the filled timeline: one frame
      everywhere, and the remainder before the current packet. */
  lemma TimelineSteps(last: Pts, current: Pts, frame: int, k: nat)
    requires k + 1 < |FilledTimeline(last, current, frame)|
    ensures var n := FillCount(Forward(last, current), frame);
            var s := FilledTimeline(last, current, frame);
            Forward(s[k], s[k + 1]) ==
              if k < n then frame else Forward(last, current) - n * frame
  {
    var n := FillCount(Forward(last, current), frame);
    if n > 0 {
      if k == 0 {
        FillPtsInsideGap(last, current, frame, 0);
      } else if k < n {
        FillPtsSpacing(last, current, frame, k - 1);
      } else {
        FillPtsInsideGap(last, current, frame, n - 1);
      }
    }
  }

  /** Gap filling is idempotent: run again over every neighbouring pair of the
      filled timeline it inserts nothing, exactly when the cap did not cut the
      first fill short. */
  lemma {:induction false} FillingIsIdempotent(last: Pts, current: Pts, frame: int)
    ensures var s := FilledTimeline(last, current, frame);
            (forall k :: 0 <= k < |s| - 1 ==> FillCount(Forward(s[k], s[k + 1]), frame) == 0)
            <==> !(frame > 0 && CapBinds(Forward(last, current), frame))
  {
    var s := FilledTimeline(last, current, frame);
    var delta := Forward(last, current);
    var n := FillCount(delta, frame);
    InsertsExactlyWhen(delta, frame);
    if frame > 0 {
      if CapBinds(delta, frame) {
        FillCountFits(delta, frame);
        TimelineSteps(last, current, frame, n);
        InsertsExactlyWhen(delta - n * frame, frame);
        assert FillCount(Forward(s[n], s[n + 1]), frame) > 0;
      } else {
        forall k | 0 <= k < |s| - 1
          ensures FillCount(Forward(s[k], s[k + 1]), frame) == 0
        {
          TimelineSteps(last, current, frame, k);
          if n > 0 {
            FillCountFits(delta, frame);
            InsertsExactlyWhen(delta - n * frame, frame);
          }
        }
      }
    }
  }
}
