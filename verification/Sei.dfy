/** The SEI timecode scan (`sls_parse_sei_timecode`, sls-patch/src/core/common.cpp).

    The source reads payload type and size as ue(v) codes; the model does what it
    does.  Sizes are added in unbounded integers. */
module Sei {
  import opened Bytes
  import opened BitReader
  import opened SpsPps
  import opened TsInfoRecord

  const NAL_SEI := 6
  const TIMECODE_PAYLOAD := 136

  datatype Timecode = Timecode(hours: int, minutes: int, seconds: int, frames: int)

  /** Where the message loop goes next: done with a timecode, on to another message, or
      out of this NAL. */
  datatype Next = Hit(t: Timecode) | Continue(bit: nat) | Leave

  /** `n` bits, or None when the buffer ends first. */
  function Field(es: seq<byte>, bit: nat, n: nat): (r: Option<int>)
    requires 0 < n <= 6
    ensures r.Some? ==> bit + n <= |es| * 8 && 0 <= r.value < 64
  {
    if bit + n > |es| * 8 then None
    else
      assert Pow2(n) <= 64 by { FieldWidth(n); }
      Some(BitsValue(es, bit, n))
  }

  lemma FieldWidth(n: nat)
    requires n <= 6
    ensures Pow2(n) <= 64
  {
    Pow2Grows(n, 6);
  }

  /** Behind the payload: the next message starts on the byte after it. */
  function Skip(es: seq<byte>, bit: nat, size: nat): Next {
    var start := (bit + 7) / 8;
    if start + size > |es| || size == 0 then Leave else Continue((start + size) * 8)
  }

  /** The timecode fields of a payload of type 136, from `bit` on. */
  function TimecodeAt(es: seq<byte>, bit: nat, size: nat): Next {
    if bit + 7 > |es| * 8 then Leave
    else if BitAt(es, bit + 5) == 0 then Skip(es, bit + 7, size)
    else if bit + 30 > |es| * 8 then Leave
    else Hit(Timecode(BitsValue(es, bit + 7, 5), BitsValue(es, bit + 12, 6),
                      BitsValue(es, bit + 18, 6), BitsValue(es, bit + 24, 6)))
  }

  /** One SEI message at `bit`. */
  function MessageAt(es: seq<byte>, bit: nat): (r: Next)
    requires bit <= |es| * 8
    ensures r.Continue? ==> bit < r.bit <= |es| * 8
  {
    var kind := UeAt(es, bit);
    if kind.value < 0 then Leave
    else
      var size := UeAt(es, kind.pos);
      if size.value < 0 then Leave
      else if kind.value == TIMECODE_PAYLOAD && size.value >= 4 then TimecodeAt(es, size.pos, size.value)
      else Skip(es, size.pos, size.value)
  }

  /** All messages of a NAL. */
  function MessagesFrom(es: seq<byte>, bit: nat): Option<Timecode>
    decreases |es| * 8 - bit
  {
    if bit + 8 > |es| * 8 then None
    else
      match MessageAt(es, bit)
      case Hit(t) => Some(t)
      case Leave => None
      case Continue(next) => MessagesFrom(es, next)
  }

  /** All NALs of a stream: the first timecode, if any. */
  function TimecodeFrom(es: seq<byte>, pos: nat): Option<Timecode>
    requires pos <= |es|
    decreases |es| - pos
  {
    var c := NextCode(es, pos);
    if c == |es| then None
    else
      var nal := c + CodeLen(es, c);
      if nal >= |es| then None
      else
        var here := if (es[nal] as int) % 32 == NAL_SEI then MessagesFrom(es, (nal + 1) * 8) else None;
        if here.Some? then here else TimecodeFrom(es, nal + 1)
  }

  lemma SmallBits(es: seq<byte>, bit: nat, n: nat)
    requires n <= 6 && bit + n <= |es| * 8
    ensures Int32(BitsValue(es, bit, n)) == BitsValue(es, bit, n) < 64
  {
    FieldWidth(n);
  }

  /** The payload of a timecode message. */
  method ReadTimecode(es: seq<byte>, bit: nat, size: nat) returns (r: Next)
    requires bit <= |es| * 8
    ensures r == TimecodeAt(es, bit, size)
  {
    hide Int32, BitAt;
    forall b: nat, n: nat | n <= 6 && b + n <= |es| * 8
      ensures Int32(BitsValue(es, b, n)) == BitsValue(es, b, n) < 64
    {
      SmallBits(es, b, n);
    }
    var at := bit;
    var countType, full, dontConvert;
    countType, at := ReadBits(es, at, 5);
    if countType < 0 {
      return Leave;
    }
    full, at := ReadBits(es, at, 1);
    if full < 0 {
      return Leave;
    }
    OneBit(es, bit + 5);
    dontConvert, at := ReadBits(es, at, 1);
    if dontConvert < 0 {
      return Leave;
    }
    if full != 0 {
      var hours, minutes, seconds, frames;
      hours, at := ReadBits(es, at, 5);
      minutes, at := ReadBits(es, at, 6);
      seconds, at := ReadBits(es, at, 6);
      frames, at := ReadBits(es, at, 6);
      if hours < 0 || minutes < 0 || seconds < 0 || frames < 0 {
        return Leave;
      }
      return Hit(Timecode(hours, minutes, seconds, frames));
    }
    r := AfterPayload(es, at, size);
  }

  lemma OneBit(es: seq<byte>, bit: nat)
    requires bit < |es| * 8
    ensures BitsValue(es, bit, 1) == BitAt(es, bit)
  {
    assert BitsValue(es, bit, 0) == 0;
  }

  method AfterPayload(es: seq<byte>, bit: nat, size: nat) returns (r: Next)
    ensures r == Skip(es, bit, size)
  {
    var start := (bit + 7) / 8;
    if start + size > |es| {
      return Leave;
    }
    if size == 0 {
      return Leave;
    }
    r := Continue((start + size) * 8);
  }

  /** The message loop of one SEI NAL. */
  method ScanMessages(es: seq<byte>, from: nat) returns (r: Option<Timecode>)
    ensures r == MessagesFrom(es, from)
  {
    hide UeAt, TimecodeAt, Skip;
    var bit := from;
    while bit + 8 <= |es| * 8
      invariant MessagesFrom(es, from) == MessagesFrom(es, bit)
      decreases |es| * 8 - bit
    {
      var kind, size, at;
      kind, at := ReadUe(es, bit);
      if kind < 0 {
        return None;
      }
      size, at := ReadUe(es, at);
      if size < 0 {
        return None;
      }
      var next;
      if kind == TIMECODE_PAYLOAD && size >= 4 {
        next := ReadTimecode(es, at, size);
      } else {
        next := AfterPayload(es, at, size);
      }
      assert next == MessageAt(es, bit);
      match next {
      case Hit(t) => return Some(t);
      case Leave => return None;
      case Continue(b) => bit := b;
      }
    }
    r := None;
  }

  /** `sls_parse_sei_timecode`: the first timecode found is recorded with the PTS of the
      packet; without one nothing changes. */
  method ParseSeiTimecode(es: seq<byte>, ti: TsInfo)
    modifies ti`seiValid, ti`seiHours, ti`seiMinutes, ti`seiSeconds, ti`seiFrames, ti`seiLastPts, ti`seiUpdateCount
    ensures match TimecodeFrom(es, 0)
      case Some(t) =>
        && ti.seiValid && ti.seiHours == t.hours && ti.seiMinutes == t.minutes && ti.seiSeconds == t.seconds
        && ti.seiFrames == t.frames && ti.seiLastPts == ti.pts && ti.seiUpdateCount == old(ti.seiUpdateCount) + 1
      case None => unchanged(ti)
  {
    hide MessagesFrom, CodeAt;
    var pos := 0;
    while pos + 4 < |es|
      invariant pos <= |es| && TimecodeFrom(es, 0) == TimecodeFrom(es, pos)
      invariant unchanged(ti)
    {
      if IsCode(es, pos) {
        CodeHere(es, pos);
        var nalPos := pos + if es[pos + 3] != 0 then 4 else 5;
        if nalPos >= |es| {
          return;
        }
        if (es[nalPos] as int) % 32 == NAL_SEI {
          var found := ScanMessages(es, (nalPos + 1) * 8);
          if found.Some? {
            ti.seiValid := true;
            ti.seiHours := found.value.hours;
            ti.seiMinutes := found.value.minutes;
            ti.seiSeconds := found.value.seconds;
            ti.seiFrames := found.value.frames;
            ti.seiLastPts := ti.pts;
            ti.seiUpdateCount := ti.seiUpdateCount + 1;
            return;
          }
        }
        pos := nalPos + 1;
      } else {
        NoCodeHere(es, pos);
        pos := pos + 1;
      }
    }
    NoCodeLeft(es, pos);
  }

  // ------------------------------------------------------------- round trip

  /** Recorded timecodes always have fields of five and six bits. */
  lemma {:induction false} TimecodeInRange(es: seq<byte>, pos: nat)
    requires pos <= |es|
    ensures var r := TimecodeFrom(es, pos);
      r.Some? ==> 0 <= r.value.hours < 32 && 0 <= r.value.minutes < 64
                  && 0 <= r.value.seconds < 64 && 0 <= r.value.frames < 64
    decreases |es| - pos
  {
    hide MessagesFrom, CodeAt, NextCode;
    var c := NextCode(es, pos);
    if c < |es| {
      var nal := c + CodeLen(es, c);
      if nal < |es| {
        MessagesInRange(es, (nal + 1) * 8);
        TimecodeInRange(es, nal + 1);
      }
    }
  }

  lemma {:induction false} MessagesInRange(es: seq<byte>, bit: nat)
    ensures var r := MessagesFrom(es, bit);
      r.Some? ==> 0 <= r.value.hours < 32 && 0 <= r.value.minutes < 64
                  && 0 <= r.value.seconds < 64 && 0 <= r.value.frames < 64
    decreases |es| * 8 - bit
  {
    hide UeAt, BitsValue;
    if bit + 8 <= |es| * 8 {
      assert Pow2(5) == 32 && Pow2(6) == 64;
      match MessageAt(es, bit)
      case Hit(_) =>
      case Leave =>
      case Continue(next) => MessagesInRange(es, next);
    }
  }

  /** The bits of a timecode payload: the count type, the full flag, one flag bit, and
      the four fields. */
  function PayloadBits(t: Timecode, countType: nat, flag: int): seq<int>
    requires t.hours >= 0 && t.minutes >= 0 && t.seconds >= 0 && t.frames >= 0
  {
    (Binary(countType, 5) + [1] + [flag])
    + (Binary(t.hours, 5) + (Binary(t.minutes, 6) + (Binary(t.seconds, 6) + Binary(t.frames, 6))))
  }

  /** A timecode message: type 136, a size, the payload. */
  function MessageBits(t: Timecode, size: nat, countType: nat, flag: int): seq<int>
    requires t.hours >= 0 && t.minutes >= 0 && t.seconds >= 0 && t.frames >= 0
  {
    (UeCode(TIMECODE_PAYLOAD) + UeCode(size)) + PayloadBits(t, countType, flag)
  }

  lemma FieldReadsBack(es: seq<byte>, bit: nat, x: nat, n: nat, rest: seq<int>)
    requires x < Pow2(n) && Holds(es, bit, Binary(x, n) + rest)
    ensures bit + n <= |es| * 8 && BitsValue(es, bit, n) == x && Holds(es, bit + n, rest)
  {
    hide Holds, Binary, BitsValue, Pow2;
    HoldsSplit(es, bit, Binary(x, n), rest);
    HoldsFits(es, bit, Binary(x, n));
    BitsOfBinary(es, bit, x, n);
  }

  lemma FlagReadsBack(es: seq<byte>, bit: nat, b: int, rest: seq<int>)
    requires Holds(es, bit, [b] + rest)
    ensures bit < |es| * 8 && BitAt(es, bit) == b && Holds(es, bit + 1, rest)
  {
    hide BitAt;
    HoldsSplit(es, bit, [b], rest);
    assert BitAt(es, bit + 0) == [b][0];
  }

  /** Every start code before `h` ends before it together with its NAL byte, so that the
      scan comes to stand at `h`, and no SEI NAL before `h` holds a timecode. */
  predicate FirstAt(es: seq<byte>, from: nat, h: nat) {
    forall c: nat :: from <= c < h && CodeAt(es, c) ==> NoTimecodeAt(es, c, h)
  }

  predicate NoTimecodeAt(es: seq<byte>, c: nat, h: nat)
    requires CodeAt(es, c)
  {
    var nal := c + CodeLen(es, c);
    && nal < h && nal < |es|
    && ((es[nal] as int) % 32 == NAL_SEI ==> MessagesFrom(es, (nal + 1) * 8) == None)
  }

  /** The messages of an SEI NAL: a full timecode, one without the full flag, any other
      type (or a timecode too short to be read); `rest` is what follows the bits that are
      looked at. */
  datatype Message =
    | Full(t: Timecode, size: nat, countType: nat, flag: int, rest: seq<int>)
    | Partial(size: nat, countType: nat, flag: int, rest: seq<int>)
    | Other(kind: nat, size: nat, rest: seq<int>)

  predicate Legal(m: Message) {
    && m.size <= 0x7FFF_FFFF
    && match m
       case Full(t, size, countType, flag, _) =>
         && 0 <= t.hours < 32 && 0 <= t.minutes < 64 && 0 <= t.seconds < 64 && 0 <= t.frames < 64
         && size >= 4 && countType < 32 && flag in {0, 1}
       case Partial(size, countType, flag, rest) =>
         size >= 4 && countType < 32 && flag in {0, 1} && EndsBehind(|Head(m)|, size, |rest|)
       case Other(kind, size, rest) =>
         kind <= 0x7FFF_FFFF && (kind != TIMECODE_PAYLOAD || size < 4) && EndsBehind(|Head(m)|, size, |rest|)
  }

  /** The message ends its size in bytes behind the byte in which the reader stands. */
  predicate EndsBehind(head: nat, size: nat, rest: nat) {
    head + rest == ((head + 7) / 8 + size) * 8
  }

  function Head(m: Message): seq<int> {
    match m
    case Full(t, size, countType, flag, _) =>
      if t.hours >= 0 && t.minutes >= 0 && t.seconds >= 0 && t.frames >= 0 then MessageBits(t, size, countType, flag)
      else []
    case Partial(size, countType, flag, _) =>
      (UeCode(TIMECODE_PAYLOAD) + UeCode(size)) + (Binary(countType, 5) + ([0] + [flag]))
    case Other(kind, size, _) => UeCode(kind) + UeCode(size)
  }

  function ListBits(msgs: seq<Message>): seq<int> {
    if |msgs| == 0 then [] else (Head(msgs[0]) + msgs[0].rest) + ListBits(msgs[1..])
  }

  /** Message `k` is the first that stops the reader: a full timecode, or an empty one. */
  predicate Stops(msgs: seq<Message>, k: nat) {
    && k < |msgs| && (msgs[k].Full? || msgs[k].size == 0)
    && forall j :: 0 <= j < k ==> !msgs[j].Full? && msgs[j].size > 0
  }

  lemma CodesReadBack(es: seq<byte>, bit: nat, kind: nat, size: nat, rest: seq<int>)
    requires kind <= 0x7FFF_FFFF && size <= 0x7FFF_FFFF && Holds(es, bit, (UeCode(kind) + UeCode(size)) + rest)
    ensures UeAt(es, bit).value == kind && UeAt(es, bit).pos == bit + |UeCode(kind)|
    ensures var at := bit + |UeCode(kind)|;
      UeAt(es, at).value == size && UeAt(es, at).pos == at + |UeCode(size)|
    ensures Holds(es, bit + |UeCode(kind) + UeCode(size)|, rest)
  {
    hide UeAt, UeCode, Holds;
    HoldsSplit(es, bit, UeCode(kind) + UeCode(size), rest);
    HoldsSplit(es, bit, UeCode(kind), UeCode(size));
    UeInvertsExactlyUpTo31Bits(es, bit, kind);
    UeInvertsExactlyUpTo31Bits(es, bit + |UeCode(kind)|, size);
  }

  lemma NotFull(es: seq<byte>, at: nat, size: nat, countType: nat, flag: int)
    requires countType < 32 && Holds(es, at, Binary(countType, 5) + ([0] + [flag]))
    ensures TimecodeAt(es, at, size) == Skip(es, at + 7, size) && at + 7 <= |es| * 8
  {
    hide Binary, Holds, BitsValue, BitAt, Skip;
    assert Pow2(5) == 32;
    FieldReadsBack(es, at, countType, 5, [0] + [flag]);
    FlagReadsBack(es, at + 5, 0, [flag]);
    HoldsFits(es, at + 6, [flag]);
  }

  lemma SkipIs(es: seq<byte>, bit: nat, head: nat, size: nat, rest: nat)
    requires bit % 8 == 0 && EndsBehind(head, size, rest) && bit + head + rest <= |es| * 8
    ensures Skip(es, bit + head, size) == if size == 0 then Leave else Continue(bit + head + rest)
  {
  }

  lemma PartialIsSkipped(es: seq<byte>, bit: nat, m: Message)
    requires m.Partial? && Legal(m) && Holds(es, bit, Head(m))
    ensures MessageAt(es, bit) == Skip(es, bit + |Head(m)|, m.size)
  {
    hide UeAt, UeCode, Holds, TimecodeAt, Binary, Skip, EndsBehind;
    HoldsFits(es, bit, Head(m));
    CodesReadBack(es, bit, TIMECODE_PAYLOAD, m.size, Binary(m.countType, 5) + ([0] + [m.flag]));
    NotFull(es, bit + |UeCode(TIMECODE_PAYLOAD) + UeCode(m.size)|, m.size, m.countType, m.flag);
  }

  lemma OtherIsSkipped(es: seq<byte>, bit: nat, m: Message)
    requires m.Other? && Legal(m) && Holds(es, bit, Head(m))
    ensures MessageAt(es, bit) == Skip(es, bit + |Head(m)|, m.size)
  {
    hide UeAt, UeCode, Holds, TimecodeAt, Skip, EndsBehind;
    HoldsFits(es, bit, Head(m));
    assert Head(m) == (UeCode(m.kind) + UeCode(m.size)) + [];
    CodesReadBack(es, bit, m.kind, m.size, []);
  }

  /** Every message that is no full timecode is skipped to its end, unless it is empty. */
  lemma MessageIsSkipped(es: seq<byte>, bit: nat, m: Message)
    requires bit % 8 == 0 && Legal(m) && !m.Full? && Holds(es, bit, Head(m) + m.rest)
    ensures bit + |Head(m) + m.rest| <= |es| * 8
    ensures MessageAt(es, bit) == if m.size == 0 then Leave else Continue(bit + |Head(m) + m.rest|)
  {
    hide Holds, MessageAt, Head, Skip, EndsBehind;
    HoldsFits(es, bit, Head(m) + m.rest);
    HoldsSplit(es, bit, Head(m), m.rest);
    SkipIs(es, bit, |Head(m)|, m.size, |m.rest|);
    if m.Partial? {
      PartialIsSkipped(es, bit, m);
    } else {
      OtherIsSkipped(es, bit, m);
    }
  }

  lemma WholeBytes(m: Message)
    requires Legal(m) && !m.Full?
    ensures |Head(m) + m.rest| % 8 == 0 && |Head(m) + m.rest| >= 8
  {
    hide Head, EndsBehind;
    HeadIsLong(m);
    EndsOnByte(|Head(m)|, m.size, |m.rest|);
  }

  lemma HeadIsLong(m: Message)
    requires !m.Full?
    ensures |Head(m)| > 0
  {
    hide UeCode;
  }

  lemma EndsOnByte(head: nat, size: nat, rest: nat)
    requires EndsBehind(head, size, rest) && head > 0
    ensures (head + rest) % 8 == 0 && head + rest >= 8
  {
  }

  /** An SEI NAL that encodes a list of messages yields its first full timecode, unless an
      empty message comes before it, which ends the reading. */
  lemma {:induction false} FirstFullTimecode(es: seq<byte>, bit: nat, msgs: seq<Message>, k: nat)
    requires bit % 8 == 0 && Stops(msgs, k) && (forall j :: 0 <= j <= k ==> Legal(msgs[j]))
    requires Holds(es, bit, ListBits(msgs))
    ensures MessagesFrom(es, bit) == if msgs[k].Full? then Some(msgs[k].t) else None
    decreases k
  {
    hide Holds, Legal, MessageAt, Head;
    var m := msgs[0];
    HoldsSplit(es, bit, Head(m) + m.rest, ListBits(msgs[1..]));
    if m.Full? {
      HoldsSplit(es, bit, Head(m), m.rest);
      FullReadsBack(es, bit, m);
    } else {
      MessageIsSkipped(es, bit, m);
      WholeBytes(m);
      if k > 0 {
        FirstFullTimecode(es, bit + |Head(m) + m.rest|, msgs[1..], k - 1);
      }
    }
  }

  lemma FullReadsBack(es: seq<byte>, bit: nat, m: Message)
    requires m.Full? && Legal(m) && Holds(es, bit, Head(m))
    ensures MessagesFrom(es, bit) == Some(m.t)
  {
    hide Holds, MessagesFrom, MessageBits;
    MessageReadsBack(es, bit, m.t, m.size, m.countType, m.flag);
  }

  /** A stream holds an SEI NAL that encodes a list of messages with a full timecode, and no
      NAL before it holds one: the scan yields exactly the first full timecode of the list,
      wherever the NAL is. */
  lemma {:induction false} TimecodeRoundTrip(es: seq<byte>, from: nat, h: nat, msgs: seq<Message>, k: nat)
    requires from <= h && CodeAt(es, h) && h + CodeLen(es, h) < |es| && FirstAt(es, from, h)
    requires (es[h + CodeLen(es, h)] as int) % 32 == NAL_SEI
    requires Stops(msgs, k) && msgs[k].Full? && (forall j :: 0 <= j <= k ==> Legal(msgs[j]))
    requires Holds(es, (h + CodeLen(es, h) + 1) * 8, ListBits(msgs))
    ensures TimecodeFrom(es, from) == Some(msgs[k].t)
    decreases h - from
  {
    hide MessagesFrom, ListBits, NextCode, CodeAt, Legal;
    var c := NextCode(es, from);
    if c > h {
      NothingBefore(es, from, h);
    } else if c < h {
      assert NoTimecodeAt(es, c, h);
      TimecodeRoundTrip(es, c + CodeLen(es, c) + 1, h, msgs, k);
    } else {
      FirstFullTimecode(es, (h + CodeLen(es, h) + 1) * 8, msgs, k);
    }
  }

  lemma PayloadReadsBack(es: seq<byte>, at: nat, t: Timecode, size: nat, countType: nat, flag: int)
    requires 0 <= t.hours < 32 && 0 <= t.minutes < 64 && 0 <= t.seconds < 64 && 0 <= t.frames < 64
    requires countType < 32 && Holds(es, at, PayloadBits(t, countType, flag))
    ensures TimecodeAt(es, at, size) == Hit(t)
  {
    hide Binary, Holds, BitsValue, BitAt;
    assert Pow2(5) == 32 && Pow2(6) == 64;
    var tail := Binary(t.hours, 5) + (Binary(t.minutes, 6) + (Binary(t.seconds, 6) + Binary(t.frames, 6)));
    assert PayloadBits(t, countType, flag) == Binary(countType, 5) + ([1] + ([flag] + tail));
    FieldReadsBack(es, at, countType, 5, [1] + ([flag] + tail));
    FlagReadsBack(es, at + 5, 1, [flag] + tail);
    FlagReadsBack(es, at + 6, flag, tail);
    FieldReadsBack(es, at + 7, t.hours, 5, Binary(t.minutes, 6) + (Binary(t.seconds, 6) + Binary(t.frames, 6)));
    FieldReadsBack(es, at + 12, t.minutes, 6, Binary(t.seconds, 6) + Binary(t.frames, 6));
    FieldReadsBack(es, at + 18, t.seconds, 6, Binary(t.frames, 6));
    assert Binary(t.frames, 6) + [] == Binary(t.frames, 6);
    FieldReadsBack(es, at + 24, t.frames, 6, []);
  }

  lemma MessageReadsBack(es: seq<byte>, bit: nat, t: Timecode, size: nat, countType: nat, flag: int)
    requires 0 <= t.hours < 32 && 0 <= t.minutes < 64 && 0 <= t.seconds < 64 && 0 <= t.frames < 64
    requires countType < 32 && flag in {0, 1} && 4 <= size <= 0x7FFF_FFFF
    requires Holds(es, bit, MessageBits(t, size, countType, flag))
    ensures MessagesFrom(es, bit) == Some(t)
  {
    hide UeAt, UeCode, Holds, TimecodeAt, Skip, PayloadBits;
    var first, second := UeCode(TIMECODE_PAYLOAD), UeCode(size);
    HoldsSplit(es, bit, first + second, PayloadBits(t, countType, flag));
    HoldsSplit(es, bit, first, second);
    UeInvertsExactlyUpTo31Bits(es, bit, TIMECODE_PAYLOAD);
    UeInvertsExactlyUpTo31Bits(es, bit + |first|, size);
    PayloadReadsBack(es, bit + |first + second|, t, size, countType, flag);
    HoldsFits(es, bit, MessageBits(t, size, countType, flag));
    assert |first| == 2 * BitLength(TIMECODE_PAYLOAD + 1) - 1;
    assert |first| >= 8 by {
      CodeOfTimecodeType();
    }
  }

  lemma CodeOfTimecodeType()
    ensures |UeCode(TIMECODE_PAYLOAD)| == 15
  {
    assert BitLength(137) == 8;
  }
}
