/** Extracting again from what was extracted: the stored SPS followed by the stored
    PPS, as the bootstrap block carries them. */
module SpsPpsRoundTrip {
  import opened Bytes
  import opened SpsPps

  /** A stored parameter set on its own: a start code, a NAL byte of type `t`, and no
      further start code. */
  predicate ParamSet(x: seq<byte>, t: int) {
    |x| <= TS_PACK_LEN && Begins(x, t) && NextCode(x, CodeLen(x, 0)) == |x|
  }

  predicate Begins(x: seq<byte>, t: int) {
    StartsNal(x) && (x[CodeLen(x, 0)] as int) % 32 == t
  }

  predicate StartsNal(x: seq<byte>) { CodeAt(x, 0) && CodeLen(x, 0) < |x| }

  /** The slice of a parameter set up to the next start code stands on its own. */
  lemma SliceIsParamSet(es: seq<byte>, h: nat, t: int)
    requires IsNal(es, h, t) && t in {NAL_SPS, NAL_PPS} && NalEnd(es, h) - h <= TS_PACK_LEN
    ensures ParamSet(es[h..NalEnd(es, h)], t)
  {
    hide NextCode;
    var n, e := CodeLen(es, h), NalEnd(es, h);
    var x := es[h..e];
    assert es[h + n] != 0;
    assert e > h + n;
    assert CodeAt(x, 0) && CodeLen(x, 0) == n;
    forall i: nat | n <= i < |x|
      ensures !CodeAt(x, i)
    {
      NothingBefore(es, h + n, h + i);
    }
    NextCodeIs(x, n, |x|);
  }

  /** A successful fresh parse stores parameter sets that stand on their own. */
  lemma {:induction false} ScanStoresParamSets(es: seq<byte>, pos: nat, s: Scan)
    requires pos <= |es| && Standing(es, pos, s) && !Both(s)
    requires (s.sps == [] || ParamSet(s.sps, NAL_SPS)) && (s.pps == [] || ParamSet(s.pps, NAL_PPS))
    ensures var r := ScanFrom(es, pos, s);
      r.ok ==> ParamSet(r.sps, NAL_SPS) && ParamSet(r.pps, NAL_PPS)
    decreases |es| - pos
  {
    hide NextCode, CodeAt, IsHead, ParamSet;
    var c := NextCode(es, pos);
    CloseStoresParamSet(es, pos, s);
    if c < |es| {
      var t := if s.start >= 0 then Close(es, s, c) else s;
      if !(s.start >= 0 && Both(t)) {
        if c + CodeLen(es, c) < |es| {
          OpenedStands(es, t, pos);
          ScanStoresParamSets(es, c + CodeLen(es, c), Opened(es, t, c));
        } else {
          if s.start < c {
            LateCloseIsNoSuccess(es, s, c);
          } else {
            TrailingCode(es, c);
          }
        }
      }
    }
  }

  lemma CloseStoresParamSet(es: seq<byte>, pos: nat, s: Scan)
    requires pos <= |es| && Standing(es, pos, s)
    requires (s.sps == [] || ParamSet(s.sps, NAL_SPS)) && (s.pps == [] || ParamSet(s.pps, NAL_PPS))
    ensures var t := if s.start >= 0 then Close(es, s, NextCode(es, pos)) else s;
      (t.sps == [] || ParamSet(t.sps, NAL_SPS)) && (t.pps == [] || ParamSet(t.pps, NAL_PPS))
  {
    hide NextCode, CodeAt, IsHead, ParamSet;
    if s.start >= 0 && s.nalType in {NAL_SPS, NAL_PPS} && NextCode(es, pos) - s.start <= TS_PACK_LEN {
      SliceIsParamSet(es, s.start, s.nalType);
    }
  }

  /** A second close at the end of the stream adds no parameter set. */
  lemma LateCloseIsNoSuccess(es: seq<byte>, s: Scan, c: nat)
    requires -1 <= s.start < c <= |es| && !Both(s)
    requires s.start >= 0 ==> !Both(Close(es, s, c))
    ensures !Finish(es, if s.start >= 0 then Close(es, s, c) else s).ok
  {
  }

  lemma ExtractStoresParamSets(es: seq<byte>)
    ensures var r := Extract(es, [], []);
      r.ok ==> ParamSet(r.sps, NAL_SPS) && ParamSet(r.pps, NAL_PPS)
  {
    hide ScanFrom, ParamSet;
    ScanStoresParamSets(es, 0, Scan(-1, 0, [], []));
  }

  // ------------------------------------------------------------- round trip

  predicate EndsInCode(x: seq<byte>) {
    |x| >= 4 && x[|x| - 4] == 0 && x[|x| - 3] == 0 && x[|x| - 2] == 0 && x[|x| - 1] == 1
  }

  /** The last byte of the SPS makes the start code of the PPS one byte longer. */
  predicate LendsZero(sps: seq<byte>, pps: seq<byte>) {
    |sps| > 0 && sps[|sps| - 1] == 0 && |pps| > 3 && pps[3] == 1
  }

  /** The junction makes a start code of its own: the SPS ends in 00 00 00 01, or it ends
      in 00 and the PPS begins with the four-byte code. */
  predicate BadJunction(sps: seq<byte>, pps: seq<byte>) {
    EndsInCode(sps) || LendsZero(sps, pps)
  }

  /** Start codes of `a + b` at or behind `|a|` are those of `b`. */
  lemma CodesOfTail(a: seq<byte>, b: seq<byte>, j: nat)
    ensures CodeAt(a + b, |a| + j) <==> CodeAt(b, j)
    ensures CodeAt(b, j) ==> CodeLen(a + b, |a| + j) == CodeLen(b, j)
  {
    var es := a + b;
    assert forall k :: 0 <= k < |b| ==> es[|a| + k] == b[k];
    if j + 4 < |b| {
      assert es[|a| + j] == b[j] && es[|a| + j + 1] == b[j + 1] && es[|a| + j + 2] == b[j + 2];
      assert es[|a| + j + 3] == b[j + 3] && es[|a| + j + 4] == b[j + 4];
    }
  }

  /** A code that fits inside `a` is a code of `a + b`, and conversely. */
  lemma CodesOfHead(a: seq<byte>, b: seq<byte>, i: nat)
    requires i + 4 < |a|
    ensures CodeAt(a + b, i) <==> CodeAt(a, i)
    ensures CodeAt(a, i) ==> CodeLen(a + b, i) == CodeLen(a, i)
  {
  }

  lemma NextCodeOfTail(a: seq<byte>, b: seq<byte>, from: nat)
    requires from <= |b|
    ensures NextCode(a + b, |a| + from) == |a| + NextCode(b, from)
  {
    hide NextCode, CodeAt;
    var c := NextCode(b, from);
    forall i: nat | |a| + from <= i < |a| + c
      ensures !CodeAt(a + b, i)
    {
      CodesOfTail(a, b, i - |a|);
      NothingBefore(b, from, i - |a|);
    }
    CodesOfTail(a, b, c);
    NextCodeIs(a + b, |a| + from, |a| + c);
  }

  /** The code that straddles the junction, if any. */
  lemma StraddlingCode(sps: seq<byte>, x: seq<byte>, i: nat)
    requires ParamSet(sps, NAL_SPS) && StartsNal(x) && CodeLen(sps, 0) <= i < |sps|
    ensures CodeAt(sps + x, i) <==>
      (EndsInCode(sps) && i == |sps| - 4) || (LendsZero(sps, x) && i == |sps| - 1)
  {
    hide NextCode;
    var es := sps + x;
    var n := |sps|;
    assert forall k :: 0 <= k < 5 ==> es[n + k] == x[k];
    if i + 4 < n {
      NothingBefore(sps, CodeLen(sps, 0), i);
      CodesOfHead(sps, x, i);
    } else if i == n - 4 {
      assert es[i + 4] == x[0] == 0;
    } else if i == n - 3 {
      assert es[i + 3] == x[0] && es[i + 4] == x[1];
    } else if i == n - 2 {
      assert es[i + 2] == x[0] && es[i + 3] == x[1] && es[i + 4] == x[2];
    } else {
      assert es[i + 1] == x[0] && es[i + 2] == x[1] && es[i + 3] == x[2] && es[i + 4] == x[3];
    }
  }

  /** Where the scan of SPS + PPS first stops behind the SPS NAL byte. */
  function JunctionAt(sps: seq<byte>, x: seq<byte>): int {
    if EndsInCode(sps) then |sps| - 4 else if LendsZero(sps, x) then |sps| - 1 else |sps|
  }

  /** An SPS that ends in 00 00 00 01 does so behind its NAL byte. */
  lemma EndCodeIsBehindNal(x: seq<byte>)
    requires ParamSet(x, NAL_SPS) && EndsInCode(x)
    ensures CodeLen(x, 0) <= |x| - 4
  {
    var n := CodeLen(x, 0);
    assert x[n] != 0 && x[n] != 1 && x[n - 1] == 1;
  }

  lemma JunctionIsNextCode(sps: seq<byte>, x: seq<byte>)
    requires ParamSet(sps, NAL_SPS) && StartsNal(x)
    ensures NextCode(sps + x, CodeLen(sps, 0)) == JunctionAt(sps, x) > 0
  {
    hide NextCode, CodeAt;
    var from, c := CodeLen(sps, 0), JunctionAt(sps, x);
    if EndsInCode(sps) {
      EndCodeIsBehindNal(sps);
    }
    forall i: nat | from <= i < c
      ensures !CodeAt(sps + x, i)
    {
      StraddlingCode(sps, x, i);
    }
    if c < |sps| {
      StraddlingCode(sps, x, c);
    } else {
      StartCodes(sps, x);
    }
    NextCodeIs(sps + x, from, c);
  }

  /** The two start codes of the concatenation, and their NAL bytes. */
  lemma StartCodes(sps: seq<byte>, x: seq<byte>)
    requires ParamSet(sps, NAL_SPS) && StartsNal(x)
    ensures var es := sps + x; var n := |sps|;
      && CodeAt(es, 0) && CodeLen(es, 0) == CodeLen(sps, 0) < n && NextCode(es, 0) == 0
      && (es[CodeLen(sps, 0)] as int) % 32 == NAL_SPS
      && CodeAt(es, n) && CodeLen(es, n) == CodeLen(x, 0) < |x| && NextCode(es, n) == n
      && es[n + CodeLen(x, 0)] == x[CodeLen(x, 0)]
  {
    CodesOfHead(sps, x, 0);
    CodesOfTail(sps, x, 0);
    CodeHere(sps + x, 0);
    CodeHere(sps + x, |sps|);
  }

  /** One turn of the scan. */
  lemma ScanStep(es: seq<byte>, pos: nat, s: Scan)
    requires pos <= |es| && -1 <= s.start <= pos && NextCode(es, pos) < |es|
    ensures var c := NextCode(es, pos); var t := if s.start >= 0 then Close(es, s, c) else s;
      !(s.start >= 0 && Both(t)) && c + CodeLen(es, c) < |es| ==>
        ScanFrom(es, pos, s) == ScanFrom(es, c + CodeLen(es, c), Opened(es, t, c))
  {
    hide NextCode, CodeAt, Close, Opened;
  }

  /** The scan behind a PPS NAL byte: the next start code, or the end, closes it. */
  lemma PpsCloses(es: seq<byte>, pos: nat, s: Scan)
    requires pos <= |es| && 0 <= s.start < pos && s.nalType == NAL_PPS && s.sps != []
    requires NextCode(es, pos) - s.start <= TS_PACK_LEN
    ensures ScanFrom(es, pos, s) == Found(s.sps, es[s.start..NextCode(es, pos)], true)
  {
    hide NextCode, CodeAt, Opened;
  }

  /** The scan up to the first start code behind the SPS NAL byte, at `c`. */
  lemma ScanBegins(es: seq<byte>, len: nat, c: nat)
    requires CodeAt(es, 0) && NextCode(es, 0) == 0 && CodeLen(es, 0) == len < |es|
    requires (es[len] as int) % 32 == NAL_SPS
    requires NextCode(es, len) == c < |es| && c + CodeLen(es, c) < |es| && 0 < c <= TS_PACK_LEN
    ensures Extract(es, [], []) ==
      ScanFrom(es, c + CodeLen(es, c), Opened(es, Scan(0, NAL_SPS, es[0..c], []), c))
  {
    hide NextCode, CodeAt, ScanFrom;
    var s0 := Scan(-1, 0, [], []);
    ScanStep(es, 0, s0);
    var s1 := Opened(es, s0, 0);
    assert s1 == Scan(0, NAL_SPS, [], []);
    ScanStep(es, len, s1);
  }

  /** What the NAL byte behind the junction says, and where it is. */
  lemma JunctionNal(sps: seq<byte>, x: seq<byte>)
    requires ParamSet(sps, NAL_SPS) && StartsNal(x)
    ensures var es := sps + x; var c := JunctionAt(sps, x); var n := |sps|;
      && CodeAt(es, c) && c + CodeLen(es, c) == (if EndsInCode(sps) then n else n + CodeLen(x, 0))
      && es[c + CodeLen(es, c)] == if EndsInCode(sps) then 0 else x[CodeLen(x, 0)]
  {
    hide NextCode;
    StartCodes(sps, x);
    var es, n := sps + x, |sps|;
    assert es[n] == x[0] && es[n + 1] == x[1] && es[n + 2] == x[2] && es[n + 3] == x[3];
  }

  /** What the parse finds in an SPS followed by anything that begins like a PPS: the SPS
      up to the junction, and the PPS up to its next start code, with the byte it
      borrowed. */
  lemma Reextracted(sps: seq<byte>, x: seq<byte>)
    requires ParamSet(sps, NAL_SPS) && Begins(x, NAL_PPS) && NextCode(x, CodeLen(x, 0)) < TS_PACK_LEN
    ensures var end := NextCode(x, CodeLen(x, 0));
      Extract(sps + x, [], [])
        == if EndsInCode(sps) then Found(sps[..|sps| - 4], x[..end], true)
           else if LendsZero(sps, x) then Found(sps[..|sps| - 1], [0] + x[..end], true)
           else Found(sps, x[..end], true)
  {
    hide NextCode, CodeAt, ScanFrom, Extract, CodeLen, LendsZero;
    var es, n, c := sps + x, |sps|, JunctionAt(sps, x);
    var end := NextCode(x, CodeLen(x, 0));
    StartsOfReextracted(sps, x);
    assert es[0..c] == sps[..c] && es[n..n + end] == x[..end];
    if EndsInCode(sps) {
      ScanStep(es, n, Scan(0, 0, es[0..c], []));
      PpsCloses(es, n + CodeLen(x, 0), Scan(n, NAL_PPS, es[0..c], []));
    } else {
      PpsCloses(es, n + CodeLen(x, 0), Scan(c, NAL_PPS, es[0..c], []));
      if LendsZero(sps, x) {
        BorrowedByte(sps, x, end);
      } else {
        assert sps[..n] == sps;
      }
    }
  }

  lemma BorrowedByte(sps: seq<byte>, x: seq<byte>, end: nat)
    requires LendsZero(sps, x) && end <= |x|
    ensures (sps + x)[|sps| - 1..|sps| + end] == [0] + x[..end]
  {
  }

  /** The scan up to the NAL byte behind the junction. */
  lemma StartsOfReextracted(sps: seq<byte>, x: seq<byte>)
    requires ParamSet(sps, NAL_SPS) && Begins(x, NAL_PPS)
    ensures var es := sps + x; var n := |sps|; var c := JunctionAt(sps, x);
      && CodeLen(x, 0) > 0 && n + CodeLen(x, 0) < |es| && 0 < c <= n
      && NextCode(es, n + CodeLen(x, 0)) == n + NextCode(x, CodeLen(x, 0))
      && Extract(es, [], []) ==
           (if EndsInCode(sps) then ScanFrom(es, n, Scan(0, 0, es[0..c], []))
            else ScanFrom(es, n + CodeLen(x, 0), Scan(c, NAL_PPS, es[0..c], [])))
      && NextCode(es, n) == n && CodeAt(es, n) && CodeLen(es, n) == CodeLen(x, 0)
      && Opened(es, Scan(0, 0, es[0..c], []), n) == Scan(n, NAL_PPS, es[0..c], [])
  {
    hide NextCode, CodeAt, ScanFrom, Extract;
    StartCodes(sps, x);
    JunctionIsNextCode(sps, x);
    JunctionNal(sps, x);
    NextCodeOfTail(sps, x, CodeLen(x, 0));
    ScanBegins(sps + x, CodeLen(sps, 0), JunctionAt(sps, x));
  }

  /** Parameter sets come back unchanged from their concatenation exactly when the
      junction makes no start code of its own. */
  lemma RoundTripExactlyWhen(sps: seq<byte>, pps: seq<byte>)
    requires ParamSet(sps, NAL_SPS) && ParamSet(pps, NAL_PPS)
    ensures Extract(sps + pps, [], []) == Found(sps, pps, true) <==> !BadJunction(sps, pps)
  {
    hide Extract, NextCode, CodeAt, ScanFrom;
    if |pps| < TS_PACK_LEN {
      Reextracted(sps, pps);
      assert pps[..|pps|] == pps;
    } else {
      LongPps(sps, pps);
    }
  }

  /** The same for a PPS of exactly 188 bytes, which cannot borrow a byte. */
  lemma LongPps(sps: seq<byte>, pps: seq<byte>)
    requires ParamSet(sps, NAL_SPS) && ParamSet(pps, NAL_PPS) && |pps| == TS_PACK_LEN
    ensures Extract(sps + pps, [], []) == Found(sps, pps, true) <==> !BadJunction(sps, pps)
  {
    hide Extract, NextCode, CodeAt, ScanFrom, CodeLen, LendsZero;
    var es, n, c := sps + pps, |sps|, JunctionAt(sps, pps);
    StartsOfReextracted(sps, pps);
    assert es[0..c] == sps[..c] && es[n..] == pps;
    if EndsInCode(sps) {
      ScanStep(es, n, Scan(0, 0, es[0..c], []));
      PpsCloses(es, n + CodeLen(pps, 0), Scan(n, NAL_PPS, es[0..c], []));
    } else if c == n {
      PpsCloses(es, n + CodeLen(pps, 0), Scan(n, NAL_PPS, es[0..c], []));
    } else {
      ScanTooLong(es, n + CodeLen(pps, 0), Scan(c, NAL_PPS, es[0..c], []));
    }
  }

  lemma ScanTooLong(es: seq<byte>, pos: nat, s: Scan)
    requires pos <= |es| && 0 <= s.start < pos && NextCode(es, pos) == |es| > s.start + TS_PACK_LEN
    ensures ScanFrom(es, pos, s).sps == s.sps
  {
    hide NextCode, CodeAt, Opened;
  }

  // ------------------------------------------- sets stored over several parses

  /** 00 00 00 00 01 at the very end of a stream: a start code with no NAL byte. */
  const TRAILER: seq<byte> := [0, 0, 0, 0, 1]

  predicate EndsInTrailer(x: seq<byte>) {
    |x| >= 5 && x[|x| - 5..] == TRAILER
  }

  /** A parameter set as the record may hold it: it stands on its own, perhaps followed
      by the start code that ended its stream. */
  predicate Stored(x: seq<byte>, t: int) {
    ParamSet(x, t) || (EndsInTrailer(x) && |x| <= TS_PACK_LEN && ParamSet(x[..|x| - 5], t))
  }

  /** Every slice that any parse stores is of this kind. */
  lemma SliceIsStored(es: seq<byte>, x: seq<byte>, t: int)
    requires IsSlice(es, x, t) && t in {NAL_SPS, NAL_PPS}
    ensures Stored(x, t)
  {
    hide NextCode, ParamSet;
    var h: nat, e: nat :| IsSliceOf(es, x, t, h, e);
    var end := NalEnd(es, h);
    SliceIsParamSet(es, h, t);
    if e != end {
      assert x[..|x| - 5] == es[h..end];
      assert x[|x| - 5..] == es[end..];
      TrailerIsFive(es, end);
    }
  }

  lemma TrailerIsFive(es: seq<byte>, c: nat)
    requires FiveAt(es, c) && c + 5 == |es|
    ensures es[c..] == TRAILER
  {
  }

  /** A set that stands on its own does not end in the trailer: it would be a start code,
      or its NAL byte would be 0 or 1. */
  lemma StandingHasNoTrailer(x: seq<byte>, t: int)
    requires ParamSet(x, t) && t in {NAL_SPS, NAL_PPS}
    ensures !EndsInTrailer(x)
  {
    hide NextCode;
    if EndsInTrailer(x) {
      var i := |x| - 5;
      var end := x[i..];
      assert x[i] == end[0] && x[i + 1] == end[1] && x[i + 2] == end[2] && x[i + 3] == end[3] && x[i + 4] == end[4];
      if CodeLen(x, 0) <= i {
        NothingBefore(x, CodeLen(x, 0), i);
      }
    }
  }

  /** What the parse finds when the SPS carries the trailer: it is cut there, and the NAL
      in between is neither SPS nor PPS. */
  lemma ReextractedBehindTrailer(core: seq<byte>, x: seq<byte>)
    requires ParamSet(core, NAL_SPS) && Begins(x, NAL_PPS) && NextCode(x, CodeLen(x, 0)) <= TS_PACK_LEN
    ensures Extract(core + (TRAILER + x), [], [])
      == Found(if EndsInCode(core) then core[..|core| - 4] else core, x[..NextCode(x, CodeLen(x, 0))], true)
  {
    hide NextCode, ScanFrom, Extract, CodeAt;
    var y := TRAILER + x;
    var es, n, c := core + y, |core|, JunctionAt(core, y);
    var end := NextCode(x, CodeLen(x, 0));
    TrailerStarts(x);
    StartCodes(core, y);
    JunctionIsNextCode(core, y);
    JunctionNal(core, y);
    ScanBegins(es, CodeLen(core, 0), c);
    var s := Scan(0, 0, es[0..c], []);
    assert Opened(es, Scan(0, NAL_SPS, es[0..c], []), c) == s;
    if EndsInCode(core) {
      ScanStep(es, n, s);
      assert Opened(es, s, n) == s;
    }
    assert Extract(es, [], []) == ScanFrom(es, n + 5, s);
    assert es == (core + TRAILER) + x;
    ParamsBehind(core + TRAILER, x, s);
    assert es[0..c] == core[..c] && core[..n] == core;
  }

  lemma TrailerStarts(x: seq<byte>)
    requires Begins(x, NAL_PPS)
    ensures var y := TRAILER + x;
      StartsNal(y) && CodeLen(y, 0) == 5 && y[5] == 0 && |y| > 3 && y[3] == 0
  {
  }

  /** The scan standing right at a PPS that follows `a`. */
  lemma ParamsBehind(a: seq<byte>, x: seq<byte>, s: Scan)
    requires Begins(x, NAL_PPS) && NextCode(x, CodeLen(x, 0)) <= TS_PACK_LEN
    requires 0 <= s.start <= |a| && s.nalType == 0 && s.sps != [] && s.pps == []
    ensures ScanFrom(a + x, |a|, s) == Found(s.sps, x[..NextCode(x, CodeLen(x, 0))], true)
  {
    hide NextCode, ScanFrom;
    var es, n, end := a + x, |a|, NextCode(x, CodeLen(x, 0));
    CodesOfTail(a, x, 0);
    CodeHere(es, n);
    NextCodeOfTail(a, x, CodeLen(x, 0));
    ScanStep(es, n, s);
    assert es[n + CodeLen(x, 0)] == x[CodeLen(x, 0)];
    assert Opened(es, s, n) == Scan(n, NAL_PPS, s.sps, []);
    PpsCloses(es, n + CodeLen(x, 0), Scan(n, NAL_PPS, s.sps, []));
    assert es[n..n + end] == x[..end];
  }

  /** A stored PPS begins like one, and its next start code is its end exactly when it
      carries no trailer. */
  lemma StoredPps(pps: seq<byte>)
    requires Stored(pps, NAL_PPS)
    ensures |pps| <= TS_PACK_LEN && Begins(pps, NAL_PPS)
    ensures (NextCode(pps, CodeLen(pps, 0)) == |pps| <==> !EndsInTrailer(pps))
    ensures EndsInTrailer(pps) ==> NextCode(pps, CodeLen(pps, 0)) <= |pps| - 5
  {
    hide NextCode;
    if ParamSet(pps, NAL_PPS) {
      StandingHasNoTrailer(pps, NAL_PPS);
    } else {
      var core := pps[..|pps| - 5];
      assert pps == core + pps[|pps| - 5..] == core + TRAILER;
      CodesOfHead(core, TRAILER, 0);
      CodesOfTail(core, TRAILER, 0);
    }
  }

  /** The round trip of every pair a record can hold: it comes back exactly when the
      junction makes no start code of its own and the PPS carries no trailer. */
  lemma StoredRoundTripExactlyWhen(sps: seq<byte>, pps: seq<byte>)
    requires Stored(sps, NAL_SPS) && Stored(pps, NAL_PPS)
    ensures Extract(sps + pps, [], []) == Found(sps, pps, true) <==> !BadJunction(sps, pps) && !EndsInTrailer(pps)
  {
    hide Extract, NextCode, CodeAt, ScanFrom, ParamSet;
    StoredPps(pps);
    if !ParamSet(sps, NAL_SPS) {
      var core := sps[..|sps| - 5];
      assert sps == core + TRAILER;
      assert sps + pps == core + (TRAILER + pps);
      TrailerIsCode(sps);
      ReextractedBehindTrailer(core, pps);
    } else if ParamSet(pps, NAL_PPS) {
      StandingHasNoTrailer(pps, NAL_PPS);
      RoundTripExactlyWhen(sps, pps);
    } else {
      Reextracted(sps, pps);
    }
  }

  lemma TrailerIsCode(x: seq<byte>)
    requires EndsInTrailer(x)
    ensures EndsInCode(x)
  {
    var end := x[|x| - 5..];
    assert x[|x| - 4] == end[1] && x[|x| - 3] == end[2] && x[|x| - 2] == end[3] && x[|x| - 1] == end[4];
  }

  /** A PPS followed by a start code that ends the stream, then, in another packet, an
      SPS: both are stored, the SPS is clean, and yet the pair does not come back. */
  lemma TrailingSample()
    ensures var first := [0, 0, 0, 1, 0x68, 0xCE] + TRAILER; var second: seq<byte> := [0, 0, 0, 1, 0x67, 0x42];
      && Extract(first, [], []) == Found([], first, false)
      && Extract(second, [], first) == Found(second, first, true)
      && !BadJunction(second, first)
      && Extract(second + first, [], []) == Found(second, [0, 0, 0, 1, 0x68, 0xCE], true)
  {
    hide ScanFrom, NextCode;
    var pps: seq<byte> := [0, 0, 0, 1, 0x68, 0xCE];
    var first, second: seq<byte> := pps + TRAILER, [0, 0, 0, 1, 0x67, 0x42];
    TrailingCodes();
    ScanStep(first, 0, Scan(-1, 0, [], []));
    assert Opened(first, Scan(-1, 0, [], []), 0) == Scan(0, NAL_PPS, [], []);
    EndsAtTrailer(first, 4, Scan(0, NAL_PPS, [], []));
    assert first[0..] == first;
    ScanStep(second, 0, Scan(-1, 0, [], first));
    assert Opened(second, Scan(-1, 0, [], first), 0) == Scan(0, NAL_SPS, [], first);
    SpsEnds(second, 4, Scan(0, NAL_SPS, [], first));
    assert second[0..] == second;
    Reextracted(second, first);
    assert first[..6] == pps;
  }

  lemma TrailingCodes()
    ensures var first := [0, 0, 0, 1, 0x68, 0xCE] + TRAILER; var second: seq<byte> := [0, 0, 0, 1, 0x67, 0x42];
      && NextCode(first, 0) == 0 && NextCode(first, 4) == 6 && NextCode(second, 0) == 0 && NextCode(second, 4) == 6
  {
    var first: seq<byte> := [0, 0, 0, 1, 0x68, 0xCE, 0, 0, 0, 0, 1];
    assert first == [0, 0, 0, 1, 0x68, 0xCE] + TRAILER;
    NextCodeIs(first, 0, 0);
    NextCodeIs(first, 4, 6);
    NextCodeIs([0, 0, 0, 1, 0x67, 0x42], 0, 0);
    NextCodeIs([0, 0, 0, 1, 0x67, 0x42], 4, 6);
  }

  /** A trailing start code closes the open PPS, and the end of the stream closes it
      again, later. */
  lemma EndsAtTrailer(es: seq<byte>, pos: nat, s: Scan)
    requires pos <= |es| <= TS_PACK_LEN && s.start == 0 && s.nalType == NAL_PPS && s.sps == s.pps == []
    requires NextCode(es, pos) + 5 == |es| && FiveAt(es, NextCode(es, pos))
    ensures ScanFrom(es, pos, s) == Found([], es[0..], false)
  {
    hide NextCode;
  }

  /** What a record may hold: nothing yet, or stored sets. */
  predicate ParamsStored(sps: seq<byte>, pps: seq<byte>) {
    (sps == [] || Stored(sps, NAL_SPS)) && (pps == [] || Stored(pps, NAL_PPS))
  }

  /** Any parse of any stream into any such record keeps it so. */
  lemma ParseStores(es: seq<byte>, sps: seq<byte>, pps: seq<byte>)
    requires ParamsStored(sps, pps)
    ensures ParamsStored(Extract(es, sps, pps).sps, Extract(es, sps, pps).pps)
  {
    hide Extract, Stored, IsSlice;
    ExtractedAreExactSlices(es, sps, pps);
    var r := Extract(es, sps, pps);
    if r.sps != sps {
      SliceIsStored(es, r.sps, NAL_SPS);
    }
    if r.pps != pps {
      SliceIsStored(es, r.pps, NAL_PPS);
    }
  }

  /** Extracting from what any parse has stored, whichever earlier parse stored the other
      set, returns the same two slices exactly when the junction is clean and the PPS
      carries no trailing start code. */
  lemma ExtractRoundTrip(es: seq<byte>, sps: seq<byte>, pps: seq<byte>)
    requires ParamsStored(sps, pps)
    ensures var r := Extract(es, sps, pps);
      r.sps != [] && r.pps != [] ==>
        (Extract(r.sps + r.pps, [], []) == Found(r.sps, r.pps, true)
         <==> !BadJunction(r.sps, r.pps) && !EndsInTrailer(r.pps))
  {
    hide Extract, Stored;
    ParseStores(es, sps, pps);
    var r := Extract(es, sps, pps);
    if r.sps != [] && r.pps != [] {
      StoredRoundTripExactlyWhen(r.sps, r.pps);
    }
  }

  /** When one parse finds both sets, no trailing start code can be among them, and the
      clean junction is enough; in particular an SPS that ends in neither 00 nor
      00 00 00 01. */
  lemma OneParseRoundTrip(es: seq<byte>)
    requires Extract(es, [], []).ok
    ensures var r := Extract(es, [], []);
      && (Extract(r.sps + r.pps, [], []) == r <==> !BadJunction(r.sps, r.pps))
      && (r.sps != [] && r.sps[|r.sps| - 1] != 0 && !EndsInCode(r.sps) ==> Extract(r.sps + r.pps, [], []) == r)
  {
    hide Extract, NextCode;
    ExtractStoresParamSets(es);
    RoundTripExactlyWhen(Extract(es, [], []).sps, Extract(es, [], []).pps);
  }

  /** A PPS followed by an SPS that ends in 00. */
  const SAMPLE: seq<byte> := [0, 0, 0, 1, 0x68, 0xCE, 0, 0, 0, 1, 0x67, 0x42, 0]

  /** The sample parses, and what it stores does not parse back to itself: the last byte
      of the SPS goes over to the PPS. */
  lemma SampleDoesNotRoundTrip()
    ensures Extract(SAMPLE, [], []) == Found([0, 0, 0, 1, 0x67, 0x42, 0], [0, 0, 0, 1, 0x68, 0xCE], true)
    ensures Extract([0, 0, 0, 1, 0x67, 0x42, 0] + [0, 0, 0, 1, 0x68, 0xCE], [], [])
      == Found([0, 0, 0, 1, 0x67, 0x42], [0, 0, 0, 0, 1, 0x68, 0xCE], true)
  {
    hide ScanFrom, NextCode;
    var es := SAMPLE;
    var sps: seq<byte> := [0, 0, 0, 1, 0x67, 0x42, 0];
    var pps: seq<byte> := [0, 0, 0, 1, 0x68, 0xCE];
    SampleCodes();
    ScanStep(es, 0, Scan(-1, 0, [], []));
    var s1 := Scan(0, NAL_PPS, [], []);
    assert Opened(es, Scan(-1, 0, [], []), 0) == s1;
    ScanStep(es, 4, s1);
    assert es[0..6] == pps;
    assert Opened(es, Scan(0, NAL_PPS, [], pps), 6) == Scan(6, NAL_SPS, [], pps);
    SpsEnds(es, 10, Scan(6, NAL_SPS, [], pps));
    assert es[6..] == sps;
    Reextracted(sps, pps);
    assert pps[..6] == pps && sps[..6] == [0, 0, 0, 1, 0x67, 0x42];
  }

  /** The start codes of the sample and of its two parts. */
  lemma SampleCodes()
    ensures NextCode(SAMPLE, 0) == 0 && NextCode(SAMPLE, 4) == 6 && NextCode(SAMPLE, 10) == 13
    ensures ParamSet([0, 0, 0, 1, 0x67, 0x42, 0], NAL_SPS) && ParamSet([0, 0, 0, 1, 0x68, 0xCE], NAL_PPS)
  {
    NextCodeIs(SAMPLE, 0, 0);
    NextCodeIs(SAMPLE, 4, 6);
    NextCodeIs(SAMPLE, 10, 13);
    NextCodeIs([0, 0, 0, 1, 0x67, 0x42, 0], 4, 7);
    NextCodeIs([0, 0, 0, 1, 0x68, 0xCE], 4, 6);
  }

  /** The end of the stream closes an SPS. */
  lemma SpsEnds(es: seq<byte>, pos: nat, s: Scan)
    requires pos <= |es| && 0 <= s.start < pos && s.nalType == NAL_SPS && s.pps != []
    requires NextCode(es, pos) == |es| && |es| - s.start <= TS_PACK_LEN
    ensures ScanFrom(es, pos, s) == Found(es[s.start..], s.pps, true)
  {
    hide NextCode, CodeAt, Opened;
  }
}
