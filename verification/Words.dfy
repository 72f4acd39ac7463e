/** Bytes and 32-bit words as bounded numbers. */
module Words {
  const U32 := 0x1_0000_0000
  const U64 := 0x1_0000_0000_0000_0000

  type Byte = b: nat | b < 256
  type Word = w: nat | w < U32
}
