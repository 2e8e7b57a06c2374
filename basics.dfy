/** Values shared by every layer: bytes, optional values and little-endian byte arithmetic. */
module Basics {

  /** An unsigned 8-bit value, as `unsigned char` in the driver. */
  type byte = b: int | 0 <= b < 0x100

  /** A value that may be absent: the model of a pointer that may be null. */
  datatype Option<+T> = None | Some(value: T)

  function Min(a: int, b: int): int { if a <= b then a else b }

  /** Least significant byte of a 16-bit length, `n & 0xFF`. */
  function Lsb(n: nat): byte { n % 0x100 }

  /** Second byte of a length, `(n >> 8) & 0xFF`. */
  function Msb(n: nat): byte { (n / 0x100) % 0x100 }

  /** The 16-bit value of a little-endian byte pair, `lo + (hi << 8)`. */
  function Le16(lo: byte, hi: byte): nat { lo + hi * 0x100 }

  lemma Le16OfLength(n: nat)
    requires n < 0x1_0000
    ensures Le16(Lsb(n), Msb(n)) == n
  {
  }
}
