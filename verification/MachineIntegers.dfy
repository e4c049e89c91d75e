/** The ranges of machine integers. */
module MachineIntegers {
  const TWO_TO_32 := 0x1_0000_0000
  const TWO_TO_64 := 0x1_0000_0000_0000_0000

  // The largest value of a 32-bit signed integer.
  const INT_MAX := 0x7FFF_FFFF
}
