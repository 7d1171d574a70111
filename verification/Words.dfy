/** The ranges of C's unsigned integers. */
module Words {

  const UINT32 := 0x1_0000_0000
  type Word = x: int | 0 <= x < UINT32

  const UINT64 := 0x1_0000_0000_0000_0000
}
