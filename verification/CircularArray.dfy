/** The growable circular byte buffer `CSLSArray` (sls/src/core/SLSArray.cpp) and the
    FIFO queue it refines. */
module CircularArray {
  import opened Bytes

  const DEFAULT_MAX_DATA_SIZE := 4096

  function Min(a: int, b: int): int { if a <= b then a else b }
  function Max(a: int, b: int): int { if a >= b then a else b }

  /** `n` bytes of a circular buffer starting at `pos`. */
  function Window(data: seq<byte>, pos: nat, n: nat): (w: seq<byte>)
    requires pos <= |data| && n <= |data|
    ensures |w| == n && forall k :: 0 <= k < n ==> w[k] == data[Wrap(pos + k, |data|)]
  {
    if pos + n <= |data| then data[pos..pos + n] else data[pos..] + data[..pos + n - |data|]
  }

  /** A position one turn further when it has run off the end. */
  function Wrap(pos: nat, size: nat): nat {
    if pos >= size then pos - size else pos
  }

  /** How many bytes `get_inline` believes are ready. */
  function ReadyBytes(size: nat, readPos: nat, writePos: nat, count: int): int {
    if count == 0 then 0
    else if readPos < writePos then writePos - readPos
    else size - readPos + writePos
  }

  class CircularBuffer {
    var arrayData: array<byte>
    var readPos: nat
    var writePos: nat
    var dataCount: int

    /** The positions the copies rely on. */
    predicate Shape()
      reads this
    {
      readPos <= arrayData.Length && writePos <= arrayData.Length
      && (readPos == arrayData.Length ==> readPos == 0) && (writePos == arrayData.Length ==> writePos == 0)
    }

    /** The byte count is one the buffer can hold. */
    predicate Countable()
      reads this
    {
      Shape() && 0 <= dataCount <= arrayData.Length
    }

    /** The circular invariant: the write position is the read position plus the count. */
    predicate Valid()
      reads this
    {
      Countable() && writePos == Wrap(readPos + dataCount, arrayData.Length)
    }

    /** The stored bytes, oldest first. */
    function Contents(): (s: seq<byte>)
      requires Countable()
      reads this, arrayData
    {
      Window(arrayData[..], readPos, dataCount)
    }

    constructor ()
      ensures Valid() && Contents() == [] && fresh(arrayData) && arrayData.Length == DEFAULT_MAX_DATA_SIZE
    {
      arrayData := new byte[DEFAULT_MAX_DATA_SIZE];
      writePos, readPos, dataCount := 0, 0, 0;
    }

    method SetSize(n: nat)
      modifies this
      ensures Valid() && Contents() == [] && fresh(arrayData) && arrayData.Length == n
    {
      arrayData := new byte[n];
      writePos, readPos, dataCount := 0, 0, 0;
    }

    method Clear()
      modifies this`readPos, this`writePos, this`dataCount
      ensures Valid() && Contents() == []
    {
      writePos, readPos, dataCount := 0, 0, 0;
    }

    /** `get_inline`: copy out at most `size` bytes.  Stated on every state in which the
        copies stay inside the buffer, whether or not the circular invariant holds. */
    method GetInline(out: array<byte>, size: nat) returns (n: int)
      requires Shape() && size <= out.Length && out != arrayData
      modifies this`readPos, this`dataCount, out
      ensures n == Min(ReadyBytes(arrayData.Length, old(readPos), writePos, old(dataCount)), size)
      ensures 0 <= n <= arrayData.Length && Shape()
      ensures out[..n] == Window(arrayData[..], old(readPos), n)
      ensures out[n..] == old(out[n..])
      ensures dataCount == old(dataCount) - n
      ensures readPos == Wrap(old(readPos) + n, arrayData.Length)
    {
      if dataCount == 0 {
        return 0;
      }
      if readPos < writePos {
        var ready := writePos - readPos;
        n := if ready <= size then ready else size;
        CopyOut(arrayData, readPos, out, n);
        readPos := readPos + n;
        dataCount := dataCount - n;
      } else {
        var ready := arrayData.Length - readPos + writePos;
        n := if ready <= size then ready else size;
        CopyOut(arrayData, readPos, out, n);
        if arrayData.Length - readPos >= n {
          readPos := readPos + n;
        } else {
          readPos := n - (arrayData.Length - readPos);
        }
        dataCount := dataCount - n;
      }
      if readPos == arrayData.Length {
        readPos := 0;
      }
    }

    /** On a buffer that satisfies the invariant, reading is dequeuing. */
    method Get(out: array<byte>, size: nat) returns (n: int)
      requires Valid() && size <= out.Length && out != arrayData
      modifies this`readPos, this`dataCount, out
      ensures Valid()
      ensures n == Min(|old(Contents())|, size)
      ensures out[..n] == old(Contents())[..n] && out[n..] == old(out[n..])
      ensures Contents() == old(Contents())[n..]
    {
      hide Window, ReadyBytes;
      ghost var was := Contents();
      ReadyIsCount(arrayData.Length, readPos, writePos, dataCount);
      n := GetInline(out, size);
      WindowSplit(arrayData[..], old(readPos), n, dataCount);
    }

    /** `put` when the data fits: enqueue without growing. */
    method PutInPlace(data: seq<byte>)
      requires Countable() && 0 < |data| <= arrayData.Length - dataCount
      modifies this`writePos, this`dataCount, arrayData
      ensures Countable() && dataCount == old(dataCount) + |data|
      ensures writePos == Wrap(old(writePos) + |data|, arrayData.Length)
      ensures forall j :: 0 <= j < |data| ==> arrayData[Wrap(old(writePos) + j, arrayData.Length)] == data[j]
      ensures forall k :: 0 <= k < arrayData.Length && !Inside(k, old(writePos), |data|, arrayData.Length) ==>
        arrayData[k] == old(arrayData[k])
      ensures old(Valid()) ==> Valid() && Contents() == old(Contents()) + data
    {
      hide Window, Inside;
      ghost var was := arrayData[..];
      CopyIn(arrayData, writePos, data);
      if arrayData.Length - writePos >= |data| {
        writePos := writePos + |data|;
      } else {
        var first := arrayData.Length - writePos;
        writePos := |data| - first;
      }
      if writePos == arrayData.Length {
        writePos := 0;
      }
      dataCount := dataCount + |data|;
      if old(Valid()) {
        WindowAppend(was, arrayData[..], readPos, old(dataCount), data);
      }
    }

    /** `put` when the data does not fit: a new buffer, old bytes first. */
    method Grow(data: seq<byte>)
      requires Countable() && |data| > arrayData.Length - dataCount
      modifies this
      ensures fresh(arrayData)
      ensures arrayData.Length == old(arrayData.Length) + Max(DEFAULT_MAX_DATA_SIZE, |data|)
      ensures Countable() && readPos == 0 && writePos == 0
      ensures old(Valid()) ==> Contents() == old(Contents()) + data
      ensures old(Valid()) ==>
        (Valid() <==> old(dataCount) == old(arrayData.Length) && |data| >= DEFAULT_MAX_DATA_SIZE)
    {
      hide Window;
      var extLen := arrayData.Length + if DEFAULT_MAX_DATA_SIZE >= |data| then DEFAULT_MAX_DATA_SIZE else |data|;
      var ext := new byte[extLen];
      var re := MoveOut(ext);
      ghost var head := ext[..re];
      Store(ext, re, data);
      assert ext[..re + |data|] == head + data;
      arrayData := ext;
      writePos, readPos := 0, 0;
      dataCount := re + |data|;
      WindowFromStart(ext[..], re + |data|);
    }

    /** The `get_inline` of a growing put: on a valid buffer it takes everything. */
    method MoveOut(ext: array<byte>) returns (re: int)
      requires Countable() && ext != arrayData && ext.Length >= arrayData.Length
      modifies this`readPos, this`dataCount, ext
      ensures 0 <= re <= old(dataCount)
      ensures old(Valid()) ==> re == old(dataCount) && ext[..re] == old(Contents())
    {
      hide Window;
      if Valid() {
        ReadyIsCount(arrayData.Length, readPos, writePos, dataCount);
      }
      re := GetInline(ext, dataCount);
    }

    /** `put`.  Without growth it is a plain enqueue.  With growth the right bytes and
        the right count are kept, but the invariant survives exactly when the buffer
        was full and at least 4096 bytes were added. */
    method Put(data: seq<byte>) returns (ok: bool)
      requires Countable()
      modifies this, arrayData
      ensures ok == (data != []) && Countable()
      ensures arrayData.Length == Room(old(arrayData.Length), old(dataCount), |data|)
      ensures |data| > old(arrayData.Length - dataCount) ==> fresh(arrayData) && readPos == writePos == 0
      ensures !ok ==> unchanged(this) && unchanged(arrayData)
      ensures old(Valid()) ==> Contents() == old(Contents()) + data
      ensures old(Valid()) && |data| <= old(arrayData.Length - dataCount) ==> Valid() && arrayData == old(arrayData)
      ensures old(Valid()) && |data| > old(arrayData.Length - dataCount) ==>
        (Valid() <==> old(dataCount) == old(arrayData.Length) && |data| >= DEFAULT_MAX_DATA_SIZE)
      ensures fresh(arrayData) || arrayData == old(arrayData)
    {
      if |data| <= 0 {
        assert old(Countable()) ==> Contents() + data == Contents();
        return false;
      }
      ok := true;
      if |data| > arrayData.Length - dataCount {
        Grow(data);
      } else {
        PutInPlace(data);
      }
    }
  }

  /** On a buffer with data, reads hand out the stored bytes and no others, whatever
      their size, exactly when the write position follows the count. */
  lemma ReadsAreExactExactlyWhenValid(size: nat, readPos: nat, writePos: nat, count: int)
    requires 0 < count <= size && readPos < size && writePos < size
    ensures ReadyBytes(size, readPos, writePos, count) == count <==> writePos == Wrap(readPos + count, size)
  {
  }

  /** Size of a buffer after a put. */
  function Room(capacity: nat, count: int, n: nat): nat {
    if n > capacity - count then capacity + Max(DEFAULT_MAX_DATA_SIZE, n) else capacity
  }

  /** A put that leaves the buffer valid: nothing, or it fits, or the buffer is full and
      at least 4096 bytes come. */
  predicate Harmless(capacity: nat, count: int, n: nat) {
    n <= capacity - count || (count == capacity && n >= DEFAULT_MAX_DATA_SIZE)
  }

  /** After any other growth the next read of everything hands out the whole buffer:
      the stored bytes, and bytes behind them that were never stored. */
  method OverreadAfterGrowth(buf: CircularBuffer, data: seq<byte>) returns (out: array<byte>, n: int)
    requires buf.Valid() && !Harmless(buf.arrayData.Length, buf.dataCount, |data|)
    modifies buf, buf.arrayData
    ensures n == out.Length == buf.arrayData.Length > |old(buf.Contents()) + data|
    ensures out[..|old(buf.Contents()) + data|] == old(buf.Contents()) + data
    ensures buf.dataCount < 0
  {
    hide Window;
    ghost var q := buf.Contents() + data;
    var ok := buf.Put(data);
    out := new byte[buf.arrayData.Length];
    WindowFromStart(buf.arrayData[..], |q|);
    n := buf.GetInline(out, out.Length);
    WindowFromStart(buf.arrayData[..], n);
    assert out[..n] == buf.arrayData[..];
  }

  /** And a put that fits into the free space overwrites the oldest stored bytes. */
  method OverwriteAfterGrowth(buf: CircularBuffer, data: seq<byte>, more: seq<byte>)
    requires buf.Valid() && !Harmless(buf.arrayData.Length, buf.dataCount, |data|)
    requires 0 < |more| <= Room(buf.arrayData.Length, buf.dataCount, |data|) - (buf.dataCount + |data|)
    modifies buf, buf.arrayData
    ensures buf.Countable() && buf.dataCount == old(buf.dataCount) + |data| + |more|
    ensures buf.Contents()[..|more|] == more
    ensures forall k :: |more| <= k < |old(buf.Contents()) + data| ==>
      buf.Contents()[k] == (old(buf.Contents()) + data)[k]
  {
    hide Window;
    ghost var q := buf.Contents() + data;
    var ok := buf.Put(data);
    ghost var grown := buf.arrayData[..];
    WindowFromStart(grown, |q|);
    assert grown[..|q|] == q;
    buf.PutInPlace(more);
    ghost var now := buf.arrayData[..];
    WindowFromStart(now, buf.dataCount);
    assert forall j :: 0 <= j < |more| ==> now[Wrap(0 + j, |now|)] == more[j];
    assert forall j :: 0 <= j < |more| ==> now[j] == more[j];
    assert forall k :: |more| <= k < |q| ==> !Inside(k, 0, |more|, |now|);
  }

  /** One byte, then 4096 more, into a new buffer: 4097 bytes are stored, and a read of
      everything returns 8192. */
  method MisreadSample() returns (stored: int, n: int)
    ensures stored == 4097 && n == 8192
  {
    hide Window;
    var buf := new CircularBuffer();
    var ok := buf.Put([7]);
    ok := buf.Put(Fill(4096, 9));
    stored := buf.dataCount;
    var out := new byte[8192];
    n := buf.GetInline(out, 8192);
  }

  lemma ReadyIsCount(size: nat, readPos: nat, writePos: nat, count: int)
    requires 0 <= count <= size && readPos <= size && (readPos == size ==> size == 0)
    requires writePos == Wrap(readPos + count, size)
    ensures ReadyBytes(size, readPos, writePos, count) == count
  {
  }

  lemma WindowFromStart(data: seq<byte>, n: nat)
    requires n <= |data|
    ensures Window(data, 0, n) == data[..n]
  {
  }

  /** Taking `n` bytes off the front of a window moves its start. */
  lemma WindowSplit(data: seq<byte>, pos: nat, n: nat, rest: nat)
    requires pos <= |data| && (pos == |data| ==> pos == 0) && n + rest <= |data|
    ensures Window(data, pos, n) == Window(data, pos, n + rest)[..n]
    ensures Window(data, Wrap(pos + n, |data|), rest) == Window(data, pos, n + rest)[n..]
  {
  }

  /** Does circular position `k` lie among the `n` positions from `pos` on? */
  predicate Inside(k: nat, pos: nat, n: nat, size: nat) {
    pos <= k < pos + n || k + size < pos + n
  }

  /** The one or two memcpys of `put`. */
  method CopyIn(buf: array<byte>, pos: nat, data: seq<byte>)
    requires pos <= buf.Length && |data| <= buf.Length
    modifies buf
    ensures forall j :: 0 <= j < |data| ==> buf[Wrap(pos + j, buf.Length)] == data[j]
    ensures forall k :: 0 <= k < buf.Length && !Inside(k, pos, |data|, buf.Length) ==> buf[k] == old(buf[k])
  {
    if buf.Length - pos >= |data| {
      Store(buf, pos, data);
    } else {
      var first := buf.Length - pos;
      Store(buf, pos, data[..first]);
      Store(buf, 0, data[first..]);
    }
  }

  /** The one or two memcpys of `get_inline`. */
  method CopyOut(buf: array<byte>, pos: nat, out: array<byte>, n: nat)
    requires pos <= buf.Length && n <= buf.Length && n <= out.Length && buf != out
    modifies out
    ensures out[..n] == Window(buf[..], pos, n) && out[n..] == old(out[n..])
  {
    if buf.Length - pos >= n {
      Store(out, 0, buf[pos..pos + n]);
      assert out[..n] == buf[pos..pos + n];
    } else {
      var first := buf.Length - pos;
      Store(out, 0, buf[pos..]);
      Store(out, first, buf[..n - first]);
      assert out[..n] == buf[pos..] + buf[..n - first];
    }
  }

  /** Writing at the end of a window extends it. */
  lemma WindowAppend(was: seq<byte>, now: seq<byte>, pos: nat, count: nat, data: seq<byte>)
    requires |was| == |now| && pos <= |was| && (pos == |was| ==> pos == 0) && count + |data| <= |was|
    requires forall j :: 0 <= j < |data| ==> now[Wrap(Wrap(pos + count, |was|) + j, |was|)] == data[j]
    requires forall k :: 0 <= k < |was| && !Inside(k, Wrap(pos + count, |was|), |data|, |was|) ==> now[k] == was[k]
    ensures Window(now, pos, count + |data|) == Window(was, pos, count) + data
  {
    hide Window, Wrap, Inside;
    var w, v := Window(now, pos, count + |data|), Window(was, pos, count);
    forall k | 0 <= k < count
      ensures w[k] == v[k]
    {
      StoredIsOutside(pos, count, |data|, |was|, k);
    }
    forall j | 0 <= j < |data|
      ensures w[count + j] == data[j]
    {
      WrapTwice(pos, count, |was|, j);
    }
  }

  lemma StoredIsOutside(pos: nat, count: nat, n: nat, size: nat, k: nat)
    requires pos <= size && (pos == size ==> pos == 0) && count + n <= size && k < count
    ensures Wrap(pos + k, size) < size && !Inside(Wrap(pos + k, size), Wrap(pos + count, size), n, size)
  {
  }

  lemma WrapTwice(pos: nat, count: nat, size: nat, j: nat)
    requires pos <= size && (pos == size ==> pos == 0) && count + j < size
    ensures Wrap(pos + (count + j), size) == Wrap(Wrap(pos + count, size) + j, size)
  {
  }

  // --------------------------------------------------------------- FIFO queue

  datatype Op = Put(data: seq<byte>) | Get(size: nat)

  /** The queue after a run of operations. */
  function Queue(q: seq<byte>, ops: seq<Op>): seq<byte> {
    if |ops| == 0 then q
    else
      var before := Queue(q, ops[..|ops| - 1]);
      match ops[|ops| - 1]
      case Put(data) => before + data
      case Get(size) => before[Min(|before|, size)..]
  }

  /** Everything the gets of a run return, in order. */
  function Output(q: seq<byte>, ops: seq<Op>): seq<byte> {
    if |ops| == 0 then []
    else
      var before := Queue(q, ops[..|ops| - 1]);
      Output(q, ops[..|ops| - 1])
      + match ops[|ops| - 1] case Put(_) => [] case Get(size) => before[..Min(|before|, size)]
  }

  /** Everything the puts of a run store, in order. */
  function Input(ops: seq<Op>): seq<byte> {
    if |ops| == 0 then []
    else Input(ops[..|ops| - 1]) + match ops[|ops| - 1] case Put(data) => data case Get(_) => []
  }

  /** Size of the buffer after a run. */
  function Capacity(capacity: nat, q: seq<byte>, ops: seq<Op>): nat {
    if |ops| == 0 then capacity
    else
      var init := ops[..|ops| - 1];
      match ops[|ops| - 1]
      case Put(data) => Room(Capacity(capacity, q, init), |Queue(q, init)|, |data|)
      case Get(_) => Capacity(capacity, q, init)
  }

  predicate HarmlessAt(capacity: nat, q: seq<byte>, ops: seq<Op>, k: nat)
    requires k < |ops|
  {
    ops[k].Put? ==> Harmless(Capacity(capacity, q, ops[..k]), |Queue(q, ops[..k])|, |ops[k].data|)
  }

  /** Every growth in the first `n` operations meets a full buffer with at least 4096
      bytes. */
  predicate OnlyHarmlessGrowth(capacity: nat, q: seq<byte>, ops: seq<Op>, n: nat)
    requires n <= |ops|
  {
    forall k :: 0 <= k < n ==> HarmlessAt(capacity, q, ops, k)
  }

  /** First in, first out: what has come out followed by what is still stored is what
      was stored at the start followed by what was put in. */
  lemma {:induction false} FirstInFirstOut(q: seq<byte>, ops: seq<Op>)
    ensures Output(q, ops) + Queue(q, ops) == q + Input(ops)
  {
    if |ops| > 0 {
      var init := ops[..|ops| - 1];
      FirstInFirstOut(q, init);
      var before := Queue(q, init);
      match ops[|ops| - 1]
      case Put(data) =>
        assert Output(q, ops) + Queue(q, ops) == (Output(q, init) + before) + data;
        assert (q + Input(init)) + data == q + Input(ops);
      case Get(size) =>
        var n := Min(|before|, size);
        assert Output(q, ops) + Queue(q, ops) == Output(q, init) + (before[..n] + before[n..]);
        assert before[..n] + before[n..] == before;
        assert q + Input(ops) == q + Input(init);
    }
  }

  /** Any run of puts and gets, stopped as soon as the buffer is no longer valid: up to
      there it refines the queue, and it comes to its end with a valid buffer if and only
      if every growth on the way is harmless. */
  method Run(buf: CircularBuffer, ops: seq<Op>) returns (output: seq<byte>, done: nat)
    requires buf.Valid()
    modifies buf, buf.arrayData
    ensures done <= |ops| && buf.Countable() && (buf.Valid() ==> done == |ops|)
    ensures buf.Valid() <==> OnlyHarmlessGrowth(old(buf.arrayData.Length), old(buf.Contents()), ops, |ops|)
    ensures buf.arrayData.Length == Capacity(old(buf.arrayData.Length), old(buf.Contents()), ops[..done])
    ensures buf.Contents() == Queue(old(buf.Contents()), ops[..done])
    ensures output == Output(old(buf.Contents()), ops[..done])
    ensures output + buf.Contents() == old(buf.Contents()) + Input(ops[..done])
  {
    hide Window, Wrap, Harmless, HarmlessAt, OnlyHarmlessGrowth, Queue, Output, Capacity, Room;
    ghost var q, capacity := buf.Contents(), buf.arrayData.Length;
    output, done := [], 0;
    NothingDone(capacity, q, ops);
    while done < |ops| && buf.Valid()
      invariant done <= |ops| && buf.Countable()
      invariant buf.arrayData == old(buf.arrayData) || fresh(buf.arrayData)
      invariant buf.arrayData.Length == Capacity(capacity, q, ops[..done])
      invariant buf.Contents() == Queue(q, ops[..done]) && output == Output(q, ops[..done])
      invariant buf.Valid() <==> OnlyHarmlessGrowth(capacity, q, ops, done)
    {
      OneMore(capacity, q, ops, done);
      match ops[done] {
      case Put(data) =>
        PutStep(buf, data);
        assert output + [] == output;
      case Get(size) =>
        var out := new byte[size];
        var n := buf.Get(out, size);
        output := output + out[..n];
      }
      done := done + 1;
    }
    StoppedByHarm(capacity, q, ops, done);
    FirstInFirstOut(q, ops[..done]);
  }

  lemma NothingDone(capacity: nat, q: seq<byte>, ops: seq<Op>)
    ensures Queue(q, ops[..0]) == q && Output(q, ops[..0]) == [] && Capacity(capacity, q, ops[..0]) == capacity
    ensures OnlyHarmlessGrowth(capacity, q, ops, 0)
  {
  }

  /** One more operation, seen by the specification. */
  lemma OneMore(capacity: nat, q: seq<byte>, ops: seq<Op>, n: nat)
    requires n < |ops|
    ensures var before, room := Queue(q, ops[..n]), Capacity(capacity, q, ops[..n]);
      match ops[n]
      case Put(data) =>
        && Queue(q, ops[..n + 1]) == before + data && Output(q, ops[..n + 1]) == Output(q, ops[..n])
        && Capacity(capacity, q, ops[..n + 1]) == Room(room, |before|, |data|)
        && (OnlyHarmlessGrowth(capacity, q, ops, n + 1) <==>
              OnlyHarmlessGrowth(capacity, q, ops, n) && Harmless(room, |before|, |data|))
      case Get(size) =>
        && var taken := Min(|before|, size);
        && Queue(q, ops[..n + 1]) == before[taken..]
        && Output(q, ops[..n + 1]) == Output(q, ops[..n]) + before[..taken]
        && Capacity(capacity, q, ops[..n + 1]) == room
        && (OnlyHarmlessGrowth(capacity, q, ops, n + 1) <==> OnlyHarmlessGrowth(capacity, q, ops, n))
  {
    hide Harmless, Room;
    assert ops[..n + 1][..n] == ops[..n];
    assert Output(q, ops[..n]) + [] == Output(q, ops[..n]);
    assert OnlyHarmlessGrowth(capacity, q, ops, n + 1) <==>
      OnlyHarmlessGrowth(capacity, q, ops, n) && HarmlessAt(capacity, q, ops, n);
  }

  lemma StoppedByHarm(capacity: nat, q: seq<byte>, ops: seq<Op>, n: nat)
    requires n <= |ops|
    ensures OnlyHarmlessGrowth(capacity, q, ops, |ops|) ==> OnlyHarmlessGrowth(capacity, q, ops, n)
  {
  }

  method PutStep(buf: CircularBuffer, data: seq<byte>)
    requires buf.Valid()
    modifies buf, buf.arrayData
    ensures buf.Countable() && buf.Contents() == old(buf.Contents()) + data
    ensures buf.Valid() <==> Harmless(old(buf.arrayData.Length), |old(buf.Contents())|, |data|)
    ensures buf.arrayData.Length == Room(old(buf.arrayData.Length), |old(buf.Contents())|, |data|)
    ensures fresh(buf.arrayData) || buf.arrayData == old(buf.arrayData)
  {
    hide Window, Wrap;
    var ok := buf.Put(data);
  }
}
