/** Machine words. */
module Words {
  const WORD32 := 0x1_0000_0000
  const SIGNED32 := 0x8000_0000
  const WORD64 := 0x1_0000_0000_0000_0000
  const SIGNED64 := 0x8000_0000_0000_0000
}
