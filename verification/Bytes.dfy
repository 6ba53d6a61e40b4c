/** Bytes and the integers they stand for. */
module Bytes {
  type Byte = bv8

  lemma SmallByte(n: int)
    requires 0 <= n < 128
    ensures (n as Byte) < 0x80
  {
  }

  lemma ByteBack(b: Byte)
    ensures 0 <= b as int < 256 && (b as int) as Byte == b
  {
  }
}
