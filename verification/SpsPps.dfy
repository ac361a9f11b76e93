/** Extraction of H.264 parameter sets from an elementary stream
    (`sls_parse_spspps`, sls-patch/src/core/common.cpp).

    The loop of the source looks at one byte position after the other.  The
    specification reads the stream NAL by NAL: jump to the next start code, close the
    parameter set that was open, open a new one. */
module SpsPps {
  import opened Bytes
  import opened TsInfoRecord

  const NAL_SPS := 7
  const NAL_PPS := 8

  /** 00 00 00 01.  One byte must follow it in the buffer. */
  predicate FourAt(es: seq<byte>, i: nat) {
    i + 4 < |es| && es[i] == 0 && es[i + 1] == 0 && es[i + 2] == 0 && es[i + 3] == 1
  }

  /** 00 00 00 00 01. */
  predicate FiveAt(es: seq<byte>, i: nat) {
    i + 4 < |es| && es[i] == 0 && es[i + 1] == 0 && es[i + 2] == 0 && es[i + 3] == 0 && es[i + 4] == 1
  }

  predicate CodeAt(es: seq<byte>, i: nat) { FourAt(es, i) || FiveAt(es, i) }

  function CodeLen(es: seq<byte>, i: nat): (n: nat)
    requires CodeAt(es, i)
  {
    if es[i + 3] != 0 then 4 else 5
  }

  /** First start code at or after `from`, or the end of the stream. */
  function NextCode(es: seq<byte>, from: nat): (c: nat)
    requires from <= |es|
    ensures from <= c <= |es|
    ensures c < |es| ==> CodeAt(es, c)
    decreases |es| - from
  {
    if from == |es| || CodeAt(es, from) then from else NextCode(es, from + 1)
  }

  lemma {:induction false} NextCodeIs(es: seq<byte>, from: nat, c: nat)
    requires from <= c <= |es| && (c < |es| ==> CodeAt(es, c))
    requires forall i: nat :: from <= i < c ==> !CodeAt(es, i)
    ensures NextCode(es, from) == c
    decreases c - from
  {
    if from < c {
      NextCodeIs(es, from + 1, c);
    }
  }

  lemma {:induction false} NothingBefore(es: seq<byte>, from: nat, i: nat)
    requires from <= |es| && from <= i < NextCode(es, from)
    ensures !CodeAt(es, i)
    decreases i - from
  {
    if from < i {
      NothingBefore(es, from + 1, i);
    }
  }

  /** The open NAL unit (`start` is -1 for none), the type last read, and what has been
      stored so far. */
  datatype Scan = Scan(start: int, nalType: int, sps: seq<byte>, pps: seq<byte>)

  datatype Found = Found(sps: seq<byte>, pps: seq<byte>, ok: bool)

  /** Store the open NAL up to `end` if it is a parameter set of at most 188 bytes. */
  function Close(es: seq<byte>, s: Scan, end: nat): (r: Scan)
    requires 0 <= s.start <= end <= |es|
    ensures r.start == s.start && r.nalType == s.nalType
  {
    if end - s.start > TS_PACK_LEN then s
    else if s.nalType == NAL_SPS then s.(sps := es[s.start..end])
    else if s.nalType == NAL_PPS then s.(pps := es[s.start..end])
    else s
  }

  predicate Both(s: Scan) { s.sps != [] && s.pps != [] }

  /** The end of the stream closes the open NAL. */
  function Finish(es: seq<byte>, s: Scan): Found
    requires -1 <= s.start <= |es|
  {
    if s.start < 0 then Found(s.sps, s.pps, false)
    else
      var t := Close(es, s, |es|);
      Found(t.sps, t.pps, Both(t))
  }

  /** The scanner standing at a start code `c`, after closing what was open. */
  function Opened(es: seq<byte>, s: Scan, c: nat): (r: Scan)
    requires CodeAt(es, c) && c + CodeLen(es, c) < |es|
  {
    var t := (es[c + CodeLen(es, c)] as int) % 32;
    s.(nalType := t, start := if t == NAL_SPS || t == NAL_PPS then c else s.start)
  }

  /** The rest of the stream, NAL by NAL. */
  function ScanFrom(es: seq<byte>, pos: nat, s: Scan): Found
    requires pos <= |es| && -1 <= s.start <= pos
    decreases |es| - pos
  {
    var c := NextCode(es, pos);
    if c == |es| then Finish(es, s)
    else
      var t := if s.start >= 0 then Close(es, s, c) else s;
      if s.start >= 0 && Both(t) then Found(t.sps, t.pps, true)
      else if c + CodeLen(es, c) >= |es| then Finish(es, t)
      else ScanFrom(es, c + CodeLen(es, c), Opened(es, t, c))
  }

  /** The whole parse, given what earlier packets had stored. */
  function Extract(es: seq<byte>, sps: seq<byte>, pps: seq<byte>): Found {
    ScanFrom(es, 0, Scan(-1, 0, sps, pps))
  }

  method StoreNal(es: seq<byte>, start: nat, nalType: int, end: nat, ti: TsInfo)
    requires start <= end <= |es|
    modifies ti`sps, ti`pps
    ensures var r := Close(es, Scan(start, nalType, old(ti.sps), old(ti.pps)), end);
      ti.sps == r.sps && ti.pps == r.pps
  {
    var n := end - start;
    if nalType == NAL_SPS {
      if n <= TS_PACK_LEN {
        ti.sps := es[start..end];
      }
    } else if nalType == NAL_PPS {
      if n <= TS_PACK_LEN {
        ti.pps := es[start..end];
      }
    }
  }

  /** `sls_parse_spspps`. */
  method ParseSpsPps(es: seq<byte>, ti: TsInfo) returns (ok: bool)
    modifies ti`sps, ti`pps
    ensures Found(ti.sps, ti.pps, ok) == Extract(es, old(ti.sps), old(ti.pps))
  {
    hide Close, Finish, CodeAt;
    ok := false;
    var pos := 0;
    var start := -1;
    var nalType := 0;
    ghost var all := Extract(es, ti.sps, ti.pps);
    var done := false;
    while pos + 4 < |es|
      invariant 0 <= pos <= |es| && -1 <= start <= pos && !ok
      invariant all == ScanFrom(es, pos, Scan(start, nalType, ti.sps, ti.pps))
    {
      if IsCode(es, pos) {
        CodeHere(es, pos);
        if start >= 0 {
          StoreNal(es, start, nalType, pos, ti);
          if |ti.sps| > 0 && |ti.pps| > 0 {
            return true;
          }
        }
        var nalPos := pos + if es[pos + 3] != 0 then 4 else 5;
        if nalPos >= |es| {
          assert all == Finish(es, Scan(start, nalType, ti.sps, ti.pps));
          if start >= 0 {
            ok := CloseLast(es, start, nalType, ti);
          } else {
            NothingOpen(es, Scan(start, nalType, ti.sps, ti.pps));
          }
          return;
        }
        nalType := (es[nalPos] as int) % 32;
        if nalType == NAL_SPS || nalType == NAL_PPS {
          start := pos;
        }
        pos := nalPos;
      } else {
        NoCodeHere(es, pos);
        pos := pos + 1;
      }
    }
    NoCodeLeft(es, pos);
    if start >= 0 {
      ok := CloseLast(es, start, nalType, ti);
    } else {
      NothingOpen(es, Scan(start, nalType, ti.sps, ti.pps));
    }
  }

  predicate IsCode(es: seq<byte>, pos: nat)
    requires pos + 4 < |es|
    ensures IsCode(es, pos) == CodeAt(es, pos)
  {
    es[pos] == 0 && es[pos + 1] == 0 && es[pos + 2] == 0
    && (es[pos + 3] == 1 || (es[pos + 3] == 0 && es[pos + 4] == 1))
  }

  lemma CodeHere(es: seq<byte>, pos: nat)
    requires pos <= |es| && CodeAt(es, pos)
    ensures NextCode(es, pos) == pos < |es|
  {
  }

  lemma NoCodeHere(es: seq<byte>, pos: nat)
    requires pos < |es| && !CodeAt(es, pos)
    ensures NextCode(es, pos) == NextCode(es, pos + 1)
  {
  }

  lemma NoCodeLeft(es: seq<byte>, pos: nat)
    requires pos <= |es| <= pos + 4
    ensures NextCode(es, pos) == |es|
  {
    NextCodeIs(es, pos, |es|);
  }

  lemma NothingOpen(es: seq<byte>, s: Scan)
    requires s.start == -1
    ensures Finish(es, s) == Found(s.sps, s.pps, false)
  {
  }

  /** The block behind the loop. */
  method CloseLast(es: seq<byte>, start: nat, nalType: int, ti: TsInfo) returns (ok: bool)
    requires start <= |es|
    modifies ti`sps, ti`pps
    ensures Found(ti.sps, ti.pps, ok) == Finish(es, Scan(start, nalType, old(ti.sps), old(ti.pps)))
  {
    StoreNal(es, start, nalType, |es|, ti);
    ok := |ti.sps| > 0 && |ti.pps| > 0;
  }

  // ---------------------------------------------------------- exact slices

  /** A start code that is not the tail of a longer one. */
  predicate IsHead(es: seq<byte>, h: nat) {
    CodeAt(es, h) && !(h > 0 && FiveAt(es, h - 1))
  }

  /** A NAL unit of type `t` starts at `h`. */
  predicate IsNal(es: seq<byte>, h: nat, t: int) {
    IsHead(es, h) && h + CodeLen(es, h) < |es| && (es[h + CodeLen(es, h)] as int) % 32 == t
  }

  /** Where the NAL at `h` ends: at the next start code, or at the end of the stream. */
  function NalEnd(es: seq<byte>, h: nat): (e: nat)
    requires CodeAt(es, h) && h + CodeLen(es, h) < |es|
    ensures h < e <= |es|
  {
    NextCode(es, h + CodeLen(es, h))
  }

  /** `x` is the stream from the start code of a NAL of type `t` up to its end, at most
      188 bytes; behind a start code that ends the stream with no NAL byte after it, the
      slice may also run on to the end of the stream. */
  predicate IsSliceOf(es: seq<byte>, x: seq<byte>, t: int, h: nat, e: nat) {
    && IsNal(es, h, t) && h < e <= |es| && x == es[h..e] && |x| <= TS_PACK_LEN
    && (e == NalEnd(es, h) || (e == |es| == NalEnd(es, h) + 5 && FiveAt(es, NalEnd(es, h))))
  }

  ghost predicate IsSlice(es: seq<byte>, x: seq<byte>, t: int) {
    exists h: nat, e: nat :: IsSliceOf(es, x, t, h, e)
  }

  /** The scanner stands at the start of the stream or on a NAL byte; an open parameter
      set starts at the code right before it. */
  predicate Standing(es: seq<byte>, pos: nat, s: Scan)
    requires pos <= |es|
  {
    && (pos > 0 ==> es[pos - 1] == 1)
    && -1 <= s.start <= pos
    && (s.start >= 0 && s.nalType in {NAL_SPS, NAL_PPS} ==>
          IsNal(es, s.start, s.nalType) && pos == s.start + CodeLen(es, s.start))
  }

  lemma CodeAfterIsHead(es: seq<byte>, pos: nat)
    requires pos <= |es| && (pos > 0 ==> es[pos - 1] == 1) && NextCode(es, pos) < |es|
    ensures IsHead(es, NextCode(es, pos))
  {
    var c := NextCode(es, pos);
    if c > pos {
      NothingBefore(es, pos, c - 1);
    }
  }

  lemma OpenedStands(es: seq<byte>, s: Scan, pos: nat)
    requires pos <= |es| && (pos > 0 ==> es[pos - 1] == 1) && -1 <= s.start <= pos
    requires NextCode(es, pos) < |es| && NextCode(es, pos) + CodeLen(es, NextCode(es, pos)) < |es|
    ensures var c := NextCode(es, pos); Standing(es, c + CodeLen(es, c), Opened(es, s, c))
  {
    hide NextCode;
    CodeAfterIsHead(es, pos);
  }

  /** A start code with no byte after it is the five-byte code at the very end. */
  lemma TrailingCode(es: seq<byte>, c: nat)
    requires CodeAt(es, c) && c + CodeLen(es, c) >= |es|
    ensures c + 5 == |es| && FiveAt(es, c)
  {
  }

  lemma {:induction false} ScanSlices(es: seq<byte>, pos: nat, s: Scan)
    requires pos <= |es| && Standing(es, pos, s)
    ensures var r := ScanFrom(es, pos, s);
      && (r.sps == s.sps || IsSlice(es, r.sps, NAL_SPS))
      && (r.pps == s.pps || IsSlice(es, r.pps, NAL_PPS))
    decreases |es| - pos
  {
    hide NextCode, IsSlice, CodeAt, IsHead;
    var c := NextCode(es, pos);
    CloseSlices(es, pos, s, c);
    if c == |es| {
    } else {
      var t := if s.start >= 0 then Close(es, s, c) else s;
      if s.start >= 0 && Both(t) {
      } else if c + CodeLen(es, c) >= |es| {
        TrailingCode(es, c);
        CloseSlices(es, pos, s, |es|);
        CloseAgain(es, pos, s, c);
      } else {
        OpenedStands(es, t, pos);
        ScanSlices(es, c + CodeLen(es, c), Opened(es, t, c));
      }
    }
  }

  lemma CloseSlices(es: seq<byte>, pos: nat, s: Scan, e: nat)
    requires pos <= |es| && Standing(es, pos, s) && pos <= e <= |es|
    requires e == NextCode(es, pos) || (e == |es| == NextCode(es, pos) + 5 && FiveAt(es, NextCode(es, pos)))
    ensures var t := if s.start >= 0 then Close(es, s, e) else s;
      && (t.sps == s.sps || IsSlice(es, t.sps, NAL_SPS))
      && (t.pps == s.pps || IsSlice(es, t.pps, NAL_PPS))
  {
    hide NextCode, CodeAt;
    if s.start >= 0 && s.nalType in {NAL_SPS, NAL_PPS} && e - s.start <= TS_PACK_LEN {
      assert IsSliceOf(es, es[s.start..e], s.nalType, s.start, e);
    }
  }

  /** Closing at a trailing code and again at the end stores what the second close does,
      or, when that is too long, what the first did. */
  lemma CloseAgain(es: seq<byte>, pos: nat, s: Scan, c: nat)
    requires 0 <= s.start <= c <= |es| || s.start == -1
    ensures s.start >= 0 ==> var t := Close(es, s, c);
      && (Close(es, t, |es|).sps == t.sps || Close(es, t, |es|).sps == Close(es, s, |es|).sps)
      && (Close(es, t, |es|).pps == t.pps || Close(es, t, |es|).pps == Close(es, s, |es|).pps)
  {
  }

  /** Whatever the stream holds and whatever was stored before, each parameter set is
      either untouched or an exact slice of the stream: from a start code with NAL type 7
      (or 8) to the next start code or the end, at most 188 bytes. */
  lemma ExtractedAreExactSlices(es: seq<byte>, sps: seq<byte>, pps: seq<byte>)
    ensures var r := Extract(es, sps, pps);
      && (r.sps == sps || IsSlice(es, r.sps, NAL_SPS))
      && (r.pps == pps || IsSlice(es, r.pps, NAL_PPS))
      && (r.ok ==> r.sps != [] && r.pps != [])
  {
    ScanSlices(es, 0, Scan(-1, 0, sps, pps));
    OkMeansBoth(es, 0, Scan(-1, 0, sps, pps));
  }

  lemma {:induction false} OkMeansBoth(es: seq<byte>, pos: nat, s: Scan)
    requires pos <= |es| && -1 <= s.start <= pos
    ensures ScanFrom(es, pos, s).ok ==> ScanFrom(es, pos, s).sps != [] && ScanFrom(es, pos, s).pps != []
    decreases |es| - pos
  {
    hide NextCode, CodeAt;
    var c := NextCode(es, pos);
    if c < |es| {
      var t := if s.start >= 0 then Close(es, s, c) else s;
      if !(s.start >= 0 && Both(t)) && c + CodeLen(es, c) < |es| {
        OkMeansBoth(es, c + CodeLen(es, c), Opened(es, t, c));
      }
    }
  }

  // ---------------------------------------------------------- completeness

  /** A NAL of type `t` at `h` short enough to be stored. */
  predicate Fits(es: seq<byte>, h: nat, t: int) {
    IsNal(es, h, t) && NalEnd(es, h) - h <= TS_PACK_LEN
  }

  /** Type `t` is stored, open and short enough, or still to come. */
  ghost predicate Reachable(es: seq<byte>, pos: nat, s: Scan, t: int)
    requires pos <= |es|
  {
    || (if t == NAL_SPS then s.sps != [] else s.pps != [])
    || (s.start >= 0 && s.nalType == t && NextCode(es, pos) - s.start <= TS_PACK_LEN)
    || exists h: nat :: pos <= h && Fits(es, h, t)
  }

  /** Start codes behind the one at `c` lie behind its NAL byte position. */
  lemma NextHead(es: seq<byte>, c: nat, h: nat)
    requires CodeAt(es, c) && IsHead(es, h) && c < h
    ensures c + CodeLen(es, c) <= h
  {
  }

  lemma {:induction false} ScanFinds(es: seq<byte>, pos: nat, s: Scan)
    requires pos <= |es| && Standing(es, pos, s) && !Both(s)
    ensures ScanFrom(es, pos, s).ok <==> Reachable(es, pos, s, NAL_SPS) && Reachable(es, pos, s, NAL_PPS)
    decreases |es| - pos
  {
    hide NextCode, CodeAt, IsHead, Reachable;
    var c := NextCode(es, pos);
    if c < |es| && c + CodeLen(es, c) < |es| {
      var t := if s.start >= 0 then Close(es, s, c) else s;
      var next := c + CodeLen(es, c);
      OpenedStands(es, t, pos);
      ReachableStep(es, pos, s, NAL_SPS);
      ReachableStep(es, pos, s, NAL_PPS);
      if Both(t) {
        StoredIsReachable(es, next, Opened(es, t, c));
      } else {
        ScanFinds(es, next, Opened(es, t, c));
      }
    } else {
      ReachableEnd(es, pos, s);
    }
  }

  lemma StoredIsReachable(es: seq<byte>, pos: nat, s: Scan)
    requires pos <= |es| && Both(s)
    ensures Reachable(es, pos, s, NAL_SPS) && Reachable(es, pos, s, NAL_PPS)
  {
  }

  /** What is reachable before a NAL is read is reachable behind its NAL byte. */
  lemma ReachableStep(es: seq<byte>, pos: nat, s: Scan, t: int)
    requires pos <= |es| && Standing(es, pos, s) && t in {NAL_SPS, NAL_PPS}
    requires var c := NextCode(es, pos); c < |es| && c + CodeLen(es, c) < |es|
    ensures var c := NextCode(es, pos); var closed := if s.start >= 0 then Close(es, s, c) else s;
      Reachable(es, pos, s, t) <==> Reachable(es, c + CodeLen(es, c), Opened(es, closed, c), t)
  {
    hide NextCode, CodeAt, IsHead, Fits;
    NalsSplit(es, pos, NextCode(es, pos), t);
  }

  /** At the end of the stream only what is stored or open is reachable. */
  lemma ReachableEnd(es: seq<byte>, pos: nat, s: Scan)
    requires pos <= |es| && Standing(es, pos, s) && !Both(s)
    requires var c := NextCode(es, pos); c == |es| || c + CodeLen(es, c) >= |es|
    ensures ScanFrom(es, pos, s).ok <==> Reachable(es, pos, s, NAL_SPS) && Reachable(es, pos, s, NAL_PPS)
  {
    hide NextCode, CodeAt, IsHead, Fits;
    var c := NextCode(es, pos);
    if c < |es| {
      TrailingCode(es, c);
    }
    NoNalLeft(es, pos, c);
  }

  lemma NoNalLeft(es: seq<byte>, pos: nat, c: nat)
    requires pos <= |es| && c == NextCode(es, pos) && (c == |es| || c + 5 == |es|)
    requires c < |es| ==> c + CodeLen(es, c) >= |es|
    ensures forall h: nat, t: int :: pos <= h ==> !Fits(es, h, t)
  {
    hide NextCode;
    forall h: nat, t: int | pos <= h
      ensures !Fits(es, h, t)
    {
      if h < c {
        NothingBefore(es, pos, h);
      }
    }
  }

  /** The NALs from `pos` on are the one at the next code and those behind it. */
  lemma NalsSplit(es: seq<byte>, pos: nat, c: nat, t: int)
    requires pos <= |es| && (pos > 0 ==> es[pos - 1] == 1) && c == NextCode(es, pos) && c < |es|
    requires c + CodeLen(es, c) < |es|
    ensures (exists h: nat :: pos <= h && Fits(es, h, t)) <==>
      Fits(es, c, t) || exists h: nat :: c + CodeLen(es, c) <= h && Fits(es, h, t)
    ensures Fits(es, c, t) <==>
      (es[c + CodeLen(es, c)] as int) % 32 == t && NextCode(es, c + CodeLen(es, c)) - c <= TS_PACK_LEN
  {
    hide NextCode, CodeAt;
    CodeAfterIsHead(es, pos);
    forall h: nat | pos <= h && Fits(es, h, t)
      ensures h == c || c + CodeLen(es, c) <= h
    {
      if h < c {
        NothingBefore(es, pos, h);
      } else if c < h {
        NextHead(es, c, h);
      }
    }
  }

  /** A fresh parse succeeds exactly when the stream holds an SPS and a PPS that fit. */
  lemma FoundExactlyWhenPresent(es: seq<byte>)
    ensures Extract(es, [], []).ok <==>
      (exists h: nat :: Fits(es, h, NAL_SPS)) && (exists h: nat :: Fits(es, h, NAL_PPS))
  {
    hide ScanFrom;
    ScanFinds(es, 0, Scan(-1, 0, [], []));
  }
}
