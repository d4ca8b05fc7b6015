/** What every part shares: 32-bit words, bytes, optional values and the memory flags of `kmalloc.h`. */
module Words {
  const WORD_LIMIT := 0x1_0000_0000
  type Word = n: nat | n < WORD_LIMIT
  type byte = n: nat | n < 256

  /** A 32-bit word seen as a signed number. */
  function AsSigned(n: Word): int {
    if n < 0x8000_0000 then n else n - WORD_LIMIT
  }

  datatype Option<+T> = None | Some(value: T)

  const MEM_RW := 2
  const MEM_USER := 4
}
