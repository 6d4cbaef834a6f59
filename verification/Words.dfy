module Words {
  const WORD_BITS: nat := 32
  const WORD_SIZE: nat := 0x1_0000_0000

  /** An unsigned machine word of 32 bits. */
  type Word32 = x: int | 0 <= x < 0x1_0000_0000

  type Byte = x: int | 0 <= x < 256
}
