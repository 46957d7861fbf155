/** Conversions between eight-bit bytes and their integer values, kept apart
    from the rest so that the solver proves them with nothing else in sight. */
module Bytes {
  /** A byte 0..255, the unit the checksum works in. */
  type Byte = bv8

  /** An integer 0..255 converts to the byte that has it as value. */
  lemma ByteConversion(n: int)
    requires 0 <= n < 256
    ensures (n as Byte) as int == n
  {
    if n < 64 {
    } else if n < 128 {
    } else if n < 192 {
    } else {
    }
  }

  /** A byte converts back from its integer value. */
  lemma ByteOfValue(b: Byte)
    ensures (b as int) as Byte == b
  {
  }
}
