/** Bytes and the little-endian 32-bit field layout that `struct.pack('<I', n)` produces. */
module Bytes {

  type Byte = b: int | 0 <= b < 256

  /** Exclusive upper bound of an unsigned 32-bit field. */
  const Two32: int := 0x1_0000_0000

  type U32 = n: int | 0 <= n < 0x1_0000_0000

  /** The four bytes of `n`, least significant first. */
  function EncodeLE32(n: U32): (r: seq<Byte>)
    ensures |r| == 4
  {
    var q1 := n / 256;
    var q2 := q1 / 256;
    [n % 256, q1 % 256, q2 % 256, q2 / 256]
  }

  /** The unsigned value stored in four little-endian bytes. */
  function DecodeLE32(b: seq<Byte>): (n: U32)
    requires |b| == 4
  {
    var b0, b1, b2, b3: int := b[0], b[1], b[2], b[3];
    b0 + 256 * (b1 + 256 * (b2 + 256 * b3))
  }

  /** Splitting off one base-256 digit: quotient and remainder are unique. */
  lemma DigitSplit(x: int, q: int, r: int)
    requires 0 <= r < 256 && x == r + 256 * q
    ensures x / 256 == q && x % 256 == r
  {
  }

  /** Reading back an encoded field gives the encoded value. */
  lemma DecodeEncode(n: U32)
    ensures DecodeLE32(EncodeLE32(n)) == n
  {
    var q1 := n / 256;
    var q2 := q1 / 256;
    assert n == n % 256 + 256 * q1;
    assert q1 == q1 % 256 + 256 * q2;
    assert q2 == q2 % 256 + 256 * (q2 / 256);
  }

  /** Re-encoding a decoded field gives back the same four bytes. */
  lemma EncodeDecode(b: seq<Byte>)
    requires |b| == 4
    ensures EncodeLE32(DecodeLE32(b)) == b
  {
    var b0, b1, b2, b3: int := b[0], b[1], b[2], b[3];
    var n := DecodeLE32(b);
    DigitSplit(n, b1 + 256 * (b2 + 256 * b3), b0);
    DigitSplit(b1 + 256 * (b2 + 256 * b3), b2 + 256 * b3, b1);
    DigitSplit(b2 + 256 * b3, b3, b2);
  }

  /** Two values with the same encoding are equal. */
  lemma EncodeInjective(m: U32, n: U32)
    requires EncodeLE32(m) == EncodeLE32(n)
    ensures m == n
  {
    DecodeEncode(m);
    DecodeEncode(n);
  }
}
