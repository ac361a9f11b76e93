/** Byte-level vocabulary shared by every component.

    The C++ code works on `uint8_t` buffers with shifts and masks.  The model
    keeps a byte as an integer in 0..255 and writes each mask as a quotient or a
    remainder: `b & 0x0F` is `b % 16`, `b >> 4` is `b / 16`, and an OR of fields
    that do not overlap is a sum. */
module Bytes {
  type byte = x: int | 0 <= x < 256

  /** Length of one MPEG-TS packet. */
  const TS_PACK_LEN := 188
  /** Length of one UDP-sized datagram: seven TS packets. */
  const TS_UDP_LEN := 1316
  const TS_SYNC_BYTE: byte := 0x47

  datatype Option<+T> = None | Some(value: T)

  /** `n` copies of one byte, as left behind by memset. */
  function Fill(n: nat, b: byte): (s: seq<byte>)
    ensures |s| == n && forall i :: 0 <= i < n ==> s[i] == b
  {
    seq(n, _ => b)
  }

  /** A sequence that kept everything outside `a..b`. */
  lemma Spliced<T>(was: seq<T>, now: seq<T>, a: nat, b: nat)
    requires |was| == |now| && a <= b <= |was|
    requires forall j :: 0 <= j < |was| && !(a <= j < b) ==> now[j] == was[j]
    ensures now == was[..a] + now[a..b] + was[b..]
  {
  }

  /** The memcpy of the C++ code: overwrite `src` at `pos`, touch nothing else. */
  method Store(buf: array<byte>, pos: nat, src: seq<byte>)
    requires pos + |src| <= buf.Length
    modifies buf
    ensures forall j :: 0 <= j < buf.Length ==>
      buf[j] == if pos <= j < pos + |src| then src[j - pos] else old(buf[j])
  {
    for k := 0 to |src|
      invariant forall j :: 0 <= j < buf.Length ==>
        buf[j] == if pos <= j < pos + k then src[j - pos] else old(buf[j])
    {
      buf[pos + k] := src[k];
    }
  }

  // ------------------------------------------------- quotients and remainders

  lemma MulLe(m: int, x: int, y: int)
    requires m >= 0 && x <= y
    ensures m * x <= m * y
  {
  }

  lemma MulDist(a: int, x: int, y: int)
    ensures a * (x + y) == a * x + a * y
  {
  }

  lemma MulAssoc(a: int, b: int, c: int)
    ensures a * (b * c) == (a * b) * c
  {
  }

  lemma DivUnique(p: int, m: int, q: int, r: int)
    requires m > 0 && p == m * q + r && 0 <= r < m
    ensures p / m == q && p % m == r
  {
    var q', r' := p / m, p % m;
    assert p == m * q' + r';
    if q' < q {
      MulLe(m, q' + 1, q);
    }
    if q < q' {
      MulLe(m, q + 1, q');
    }
  }

  /** A shift by two amounts in turn is one shift by their sum. */
  lemma DivDiv(p: int, a: int, b: int)
    requires p >= 0 && a > 0 && b > 0
    ensures a * b > 0 && p / a / b == p / (a * b)
  {
    var q, r := p / a, p % a;
    var q2, r2 := q / b, q % b;
    assert p == a * q + r && q == b * q2 + r2;
    MulDist(a, b * q2, r2);
    MulAssoc(a, b, q2);
    MulLe(a, 1, b);
    MulLe(a, r2, b - 1);
    MulLe(a, 0, r2);
    MulDist(a, b, -1);
    DivUnique(p, a * b, q2, a * r2 + r);
  }
}
