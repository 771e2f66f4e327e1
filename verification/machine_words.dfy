/** Unsigned machine words as bounded integers; conversions and wrap-around are written out where they happen. */
module MachineWords {
  // One past the largest 32-bit word.
  const WRAP: nat := 0x1_0000_0000

  type uint32 = x: int | 0 <= x < 0x1_0000_0000
  type uint64 = x: int | 0 <= x < 0x1_0000_0000_0000_0000
}
