/** Bit-level reading of an H.264 stream
    (`sls_parse_sei_read_bit_at`, `sls_parse_sei_read_bits`, `sls_parse_sei_read_ue`,
    sls-patch/src/core/common.cpp). */
module BitReader {
  import opened Bytes

  function Pow2(n: nat): (p: nat)
    ensures p >= 1
  {
    if n == 0 then 1 else 2 * Pow2(n - 1)
  }

  /** Bit `k` of a buffer, most significant bit of each byte first. */
  function BitAt(buf: seq<byte>, k: nat): (b: int)
    requires k < |buf| * 8
    ensures b == 0 || b == 1
  {
    (buf[k / 8] as int) / Pow2(7 - k % 8) % 2
  }

  /** The `n` bits from `pos` on, as an unsigned number. */
  function BitsValue(buf: seq<byte>, pos: nat, n: nat): (v: nat)
    requires pos + n <= |buf| * 8
    ensures v < Pow2(n)
  {
    if n == 0 then 0 else BitsValue(buf, pos, n - 1) * 2 + BitAt(buf, pos + n - 1)
  }

  /** Zero bits from `pos` on, counted up to 32 or the end of the buffer. */
  function ZeroRun(buf: seq<byte>, pos: nat, limit: nat): (z: nat)
    requires pos <= |buf| * 8
    ensures z <= limit && pos + z <= |buf| * 8
    ensures z < limit && pos + z < |buf| * 8 ==> BitAt(buf, pos + z) == 1
    decreases limit
  {
    if limit == 0 || pos == |buf| * 8 || BitAt(buf, pos) == 1 then 0
    else 1 + ZeroRun(buf, pos + 1, limit - 1)
  }

  function Int32(x: int): int {
    (x + 0x8000_0000) % 0x1_0000_0000 - 0x8000_0000
  }

  datatype Read = Read(value: int, pos: nat)

  /** What `sls_parse_sei_read_ue` computes. */
  function UeAt(buf: seq<byte>, pos: nat): (r: Read)
    requires pos <= |buf| * 8
    ensures pos <= r.pos <= |buf| * 8
    ensures r.value != -1 ==> r.pos > pos
  {
    var z := ZeroRun(buf, pos, 32);
    if z == 32 then Read(-1, pos + 32)
    else if pos + z == |buf| * 8 then Read(-1, pos + z)
    else if z == 0 then Read(0, pos + 1)
    else if pos + 2 * z + 1 > |buf| * 8 then Read(-1, |buf| * 8)
    else Read(Int32(Pow2(z) - 1 + BitsValue(buf, pos + z + 1, z)), pos + 2 * z + 1)
  }

  /** One bit; -1 and no step at the end of the buffer. */
  method ReadBitAt(buf: seq<byte>, pos: nat) returns (b: int, pos': nat)
    requires pos <= |buf| * 8
    ensures if pos < |buf| * 8 then b == BitAt(buf, pos) && pos' == pos + 1 else b == -1 && pos' == pos
  {
    if pos >= |buf| * 8 {
      return -1, pos;
    }
    var at := pos / 8;
    var shift := 7 - pos % 8;
    b := (buf[at] as int) / Pow2(shift) % 2;
    pos' := pos + 1;
  }

  /** `n` bits as one number; -1 for a senseless `n` and when the buffer ends first. */
  method ReadBits(buf: seq<byte>, pos: nat, n: int) returns (v: int, pos': nat)
    requires pos <= |buf| * 8
    ensures n <= 0 || n > 32 ==> v == -1 && pos' == pos
    ensures 0 < n <= 32 && pos + n <= |buf| * 8 ==> v == Int32(BitsValue(buf, pos, n)) && pos' == pos + n
    ensures 0 < n <= 32 && pos + n > |buf| * 8 ==> v == -1 && pos' == |buf| * 8
  {
    pos' := pos;
    if n <= 0 || n > 32 {
      return -1, pos';
    }
    var value := 0;
    for i := 0 to n
      invariant pos' == pos + i <= |buf| * 8 && value == BitsValue(buf, pos, i)
    {
      var b;
      b, pos' := ReadBitAt(buf, pos');
      if b < 0 {
        return -1, pos';
      }
      value := value * 2 + b;
    }
    v := Int32(value);
  }

  lemma ZeroRunStep(buf: seq<byte>, pos: nat, limit: nat)
    requires pos <= |buf| * 8
    ensures limit == 0 || pos == |buf| * 8 || BitAt(buf, pos) != 0 ==> ZeroRun(buf, pos, limit) == 0
    ensures limit > 0 && pos < |buf| * 8 && BitAt(buf, pos) == 0 ==>
      ZeroRun(buf, pos, limit) == 1 + ZeroRun(buf, pos + 1, limit - 1)
  {
  }

  /** The first loop of `sls_parse_sei_read_ue`: leading zeros, and the 1 behind them
      unless the buffer ended or there were 32. */
  method SkipZeros(buf: seq<byte>, pos: nat) returns (zeros: nat, ended: bool, pos': nat)
    requires pos <= |buf| * 8
    ensures zeros == ZeroRun(buf, pos, 32)
    ensures ended == (zeros < 32 && pos + zeros == |buf| * 8)
    ensures pos' == pos + zeros + if zeros < 32 && !ended then 1 else 0
  {
    hide BitAt, ZeroRun;
    pos' := pos;
    zeros := 0;
    ended := false;
    while zeros < 32
      invariant 0 <= zeros <= 32 && pos' == pos + zeros <= |buf| * 8
      invariant ZeroRun(buf, pos, 32) == zeros + ZeroRun(buf, pos', 32 - zeros)
    {
      ZeroRunStep(buf, pos', 32 - zeros);
      var b;
      b, pos' := ReadBitAt(buf, pos');
      if b < 0 {
        ended := true;
        return;
      }
      if b == 1 {
        return;
      }
      zeros := zeros + 1;
    }
    ZeroRunStep(buf, pos', 0);
  }

  /** `sls_parse_sei_read_ue`. */
  method ReadUe(buf: seq<byte>, pos: nat) returns (v: int, pos': nat)
    requires pos <= |buf| * 8
    ensures Read(v, pos') == UeAt(buf, pos)
  {
    hide BitAt, Int32, ZeroRun;
    var zeros, ended;
    zeros, ended, pos' := SkipZeros(buf, pos);
    if ended || zeros == 32 {
      return -1, pos';
    }
    if zeros == 0 {
      return 0, pos';
    }
    var code := 0;
    ghost var from := pos';
    for i := 0 to zeros
      invariant pos' == from + i <= |buf| * 8 && code == BitsValue(buf, from, i)
    {
      var b;
      b, pos' := ReadBitAt(buf, pos');
      if b < 0 {
        return -1, pos';
      }
      code := code * 2 + b;
    }
    v := Int32(Pow2(zeros) - 1 + code);
  }

  // ------------------------------------------------- the Exp-Golomb code itself

  /** Number of binary digits of a positive number. */
  function BitLength(x: nat): (n: nat)
    requires x > 0
    ensures n >= 1 && Pow2(n - 1) <= x < Pow2(n)
  {
    if x == 1 then 1 else 1 + BitLength(x / 2)
  }

  /** `x` in `n` binary digits, most significant first. */
  function Binary(x: nat, n: nat): (s: seq<int>)
    ensures |s| == n && forall i :: 0 <= i < n ==> s[i] == 0 || s[i] == 1
  {
    if n == 0 then [] else Binary(x / 2, n - 1) + [x % 2]
  }

  function Zeros(n: nat): (s: seq<int>)
    ensures |s| == n && forall i :: 0 <= i < n ==> s[i] == 0
  {
    seq(n, _ => 0)
  }

  /** The ue(v) code word of section 9.1 of ITU-T H.264: as many zeros as v + 1 has
      digits behind its first, then v + 1 in binary. */
  function UeCode(v: nat): (s: seq<int>)
    ensures |s| == 2 * BitLength(v + 1) - 1
  {
    Zeros(BitLength(v + 1) - 1) + Binary(v + 1, BitLength(v + 1))
  }

  /** The buffer holds these bits from `pos` on. */
  predicate Holds(buf: seq<byte>, pos: nat, bits: seq<int>) {
    pos + |bits| <= |buf| * 8 && forall i :: 0 <= i < |bits| ==> BitAt(buf, pos + i) == bits[i]
  }

  lemma HoldsSplit(buf: seq<byte>, pos: nat, a: seq<int>, b: seq<int>)
    ensures Holds(buf, pos, a + b) <==> Holds(buf, pos, a) && Holds(buf, pos + |a|, b)
  {
    hide BitAt;
    if Holds(buf, pos, a + b) {
      forall i | 0 <= i < |a|
        ensures BitAt(buf, pos + i) == a[i]
      {
        assert (a + b)[i] == a[i];
      }
      forall i | 0 <= i < |b|
        ensures BitAt(buf, pos + |a| + i) == b[i]
      {
        assert (a + b)[|a| + i] == b[i];
        assert BitAt(buf, pos + (|a| + i)) == b[i];
      }
    }
    if Holds(buf, pos, a) && Holds(buf, pos + |a|, b) {
      forall i | 0 <= i < |a + b|
        ensures BitAt(buf, pos + i) == (a + b)[i]
      {
        if i >= |a| {
          assert BitAt(buf, pos + |a| + (i - |a|)) == b[i - |a|];
        }
      }
    }
  }

  /** Reading back a binary number of known width. */
  lemma {:induction false} BitsOfBinary(buf: seq<byte>, pos: nat, x: nat, n: nat)
    requires x < Pow2(n) && Holds(buf, pos, Binary(x, n))
    ensures BitsValue(buf, pos, n) == x
  {
    hide BitAt;
    if n > 0 {
      HoldsSplit(buf, pos, Binary(x / 2, n - 1), [x % 2]);
      BitsOfBinary(buf, pos, x / 2, n - 1);
      assert BitAt(buf, pos + (n - 1) + 0) == [x % 2][0];
    }
  }

  /** The first digit of a positive number is 1; the rest is what is left of it. */
  lemma LeadingDigit(x: nat)
    requires x > 0
    ensures var n := BitLength(x); Binary(x, n) == [1] + Binary(x - Pow2(n - 1), n - 1)
  {
    hide Binary, Pow2;
    LeadingDigitOf(x, BitLength(x));
  }

  lemma {:induction false} LeadingDigitOf(x: nat, n: nat)
    requires n > 0 && Pow2(n - 1) <= x < Pow2(n)
    ensures Binary(x, n) == [1] + Binary(x - Pow2(n - 1), n - 1)
  {
    if n > 1 {
      hide Pow2, Binary;
      var h := Pow2(n - 2);
      Pow2Double(n - 2);
      Pow2Double(n - 1);
      Halves(x, h);
      LeadingDigitOf(x / 2, n - 1);
      BinaryPush(x, n);
      BinaryPush(x - 2 * h, n - 1);
    } else {
      OneDigit(x);
    }
  }

  lemma OneDigit(x: nat)
    requires Pow2(0) <= x < Pow2(1)
    ensures Binary(x, 1) == [1] && Binary(x - Pow2(0), 0) == []
  {
  }

  lemma Halves(x: nat, h: nat)
    requires 2 * h <= x < 4 * h
    ensures h <= x / 2 < 2 * h && (x - 2 * h) / 2 == x / 2 - h && (x - 2 * h) % 2 == x % 2
  {
  }

  lemma BinaryPush(x: nat, n: nat)
    requires n > 0
    ensures Binary(x, n) == Binary(x / 2, n - 1) + [x % 2]
  {
  }

  lemma {:induction false} ZeroRunIs(buf: seq<byte>, pos: nat, z: nat, limit: nat)
    requires z < limit && Holds(buf, pos, Zeros(z) + [1])
    ensures ZeroRun(buf, pos, limit) == z
    decreases z
  {
    hide BitAt;
    assert BitAt(buf, pos + z) == (Zeros(z) + [1])[z];
    if z > 0 {
      assert BitAt(buf, pos + 0) == (Zeros(z) + [1])[0] == 0;
      assert Zeros(z) + [1] == [0] + (Zeros(z - 1) + [1]);
      HoldsSplit(buf, pos, [0], Zeros(z - 1) + [1]);
      ZeroRunIs(buf, pos + 1, z - 1, limit - 1);
    }
  }

  lemma {:induction false} AllZeros(buf: seq<byte>, pos: nat, z: nat, limit: nat)
    requires limit <= z && Holds(buf, pos, Zeros(z))
    ensures ZeroRun(buf, pos, limit) == limit
    decreases limit
  {
    hide BitAt;
    if limit > 0 {
      assert BitAt(buf, pos + 0) == Zeros(z)[0] == 0;
      assert Zeros(z) == [0] + Zeros(z - 1);
      HoldsSplit(buf, pos, [0], Zeros(z - 1));
      AllZeros(buf, pos + 1, z - 1, limit - 1);
    }
  }

  lemma {:induction false} Pow2Grows(a: nat, b: nat)
    requires a <= b
    ensures Pow2(a) <= Pow2(b)
    decreases b
  {
    if a < b {
      Pow2Grows(a, b - 1);
    }
  }

  lemma Pow2Values()
    ensures Pow2(31) == 0x8000_0000 && Pow2(32) == 0x1_0000_0000
  {
    assert Pow2(8) == 256;
    assert Pow2(16) == 65536;
    assert Pow2(24) == 0x100_0000;
    assert Pow2(31) == 0x8000_0000;
  }

  /** At any bit offset of any buffer that holds a code word of at most 31 leading
      zeros, the reader consumes exactly the code word and yields its value as a 32-bit
      `int`. */
  lemma UeDecodes(buf: seq<byte>, pos: nat, v: nat)
    requires BitLength(v + 1) <= 32 && Holds(buf, pos, UeCode(v))
    ensures UeAt(buf, pos) == Read(Int32(v), pos + |UeCode(v)|)
  {
    hide BitAt, Int32, Pow2, Binary, Zeros, Holds, BitsValue, ZeroRun, BitLength;
    var n := BitLength(v + 1);
    var z := n - 1;
    var rest := Binary(v + 1 - Pow2(z), z);
    LeadingDigit(v + 1);
    assert UeCode(v) == (Zeros(z) + [1]) + rest;
    HoldsSplit(buf, pos, Zeros(z) + [1], rest);
    HoldsFits(buf, pos, UeCode(v));
    ZeroRunIs(buf, pos, z, 32);
    Pow2Double(z);
    BitsOfBinary(buf, pos + z + 1, v + 1 - Pow2(z), z);
    Int32OfZero();
    Pow2Zero();
  }

  lemma HoldsFits(buf: seq<byte>, pos: nat, bits: seq<int>)
    requires Holds(buf, pos, bits)
    ensures pos + |bits| <= |buf| * 8
  {
  }

  lemma Pow2Double(z: nat)
    ensures Pow2(z + 1) == 2 * Pow2(z)
  {
  }

  lemma Pow2Zero()
    ensures Pow2(0) == 1
  {
  }

  lemma Int32OfZero()
    ensures Int32(0) == 0
  {
  }

  /** Decoding inverts encoding exactly for the values an `int` can hold: for larger
      ones the reader returns a negative number, which its callers take for an error. */
  lemma UeInvertsExactlyUpTo31Bits(buf: seq<byte>, pos: nat, v: nat)
    requires Holds(buf, pos, UeCode(v))
    ensures UeAt(buf, pos) == Read(v, pos + |UeCode(v)|) <==> v <= 0x7FFF_FFFF
    ensures v > 0x7FFF_FFFF ==> UeAt(buf, pos).value < 0
  {
    hide BitAt, UeAt, Pow2, Binary, Zeros, Holds, Int32, UeCode;
    Pow2Values();
    var n := BitLength(v + 1);
    if n <= 32 {
      UeDecodes(buf, pos, v);
      Pow2Grows(n, 32);
      Int32Range(v);
    } else {
      Pow2Grows(32, n - 1);
      ManyZerosFail(buf, pos, v);
    }
  }

  lemma Int32Range(v: nat)
    requires v < 0x1_0000_0000
    ensures if v <= 0x7FFF_FFFF then Int32(v) == v else Int32(v) < 0
  {
  }

  lemma ManyZerosFail(buf: seq<byte>, pos: nat, v: nat)
    requires BitLength(v + 1) > 32 && Holds(buf, pos, UeCode(v))
    ensures UeAt(buf, pos).value == -1
  {
    hide BitAt, Pow2, Binary, Zeros, Holds, ZeroRun, BitLength, UeAt;
    var n := BitLength(v + 1);
    HoldsSplit(buf, pos, Zeros(n - 1), Binary(v + 1, n));
    HoldsFits(buf, pos, UeCode(v));
    AllZeros(buf, pos, n - 1, 32);
    TooManyZeros(buf, pos);
  }

  lemma TooManyZeros(buf: seq<byte>, pos: nat)
    requires pos <= |buf| * 8 && ZeroRun(buf, pos, 32) == 32
    ensures UeAt(buf, pos).value == -1
  {
  }
}
