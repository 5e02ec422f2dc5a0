/** Octets as they appear in a Python `bytearray`, and the protocol's big-endian 16-bit fields. */
module Bytes {

  /** One element of a `bytearray`: an integer in 0..255. */
  type Byte = b: int | 0 <= b < 256

  /** `(hi << 8) + lo`: a 16-bit field read in network byte order. */
  function BE16(hi: Byte, lo: Byte): (v: nat)
    ensures v < 0x1_0000
    ensures v / 256 == hi && v % 256 == lo
  {
    hi * 256 + lo
  }

  /** `n >> 8` for a value that fits in 16 bits. */
  function High(n: nat): (b: Byte)
    requires n < 0x1_0000
  {
    n / 256
  }

  /** `n & 0xFF`. */
  function Low(n: nat): (b: Byte)
  {
    n % 256
  }

  /** Writing a 16-bit value as two bytes and reading them back gives the value. */
  lemma HighLowRoundTrip(n: nat)
    requires n < 0x1_0000
    ensures BE16(High(n), Low(n)) == n
  {
  }

  /** Two byte pairs read as the same 16-bit value are the same pair. */
  lemma BE16Injective(h1: Byte, l1: Byte, h2: Byte, l2: Byte)
    requires BE16(h1, l1) == BE16(h2, l2)
    ensures h1 == h2 && l1 == l2
  {
  }
}
