/** Bytes and 32-bit words, as numbers. */
module Words {
  const WORD: nat := 0x1_0000_0000
  type Word = x: int | 0 <= x < WORD
  type Byte = x: int | 0 <= x < 0x100
}
