/** Bytes and big-endian pairs. */
module Bytes {

  type byte = n: nat | n < 256

  type uint16 = n: nat | n < 0x1_0000

  /** The number a big-endian pair of bytes stands for. */
  function U16(hi: byte, lo: byte): uint16 {
    256 * hi + lo
  }

  /** The pair of bytes that stands for a number, of which the low sixteen bits are kept. */
  function BigEndian(n: nat): (bytes: seq<byte>)
    ensures |bytes| == 2
  {
    [n / 256 % 256, n % 256]
  }

  lemma BigEndianInverse(n: nat, hi: byte, lo: byte)
    ensures U16(BigEndian(n)[0], BigEndian(n)[1]) == n % 0x1_0000
    ensures BigEndian(U16(hi, lo)) == [hi, lo]
  {
  }
}
