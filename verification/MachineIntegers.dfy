/** 32-bit integers: unchecked sums wrap around. */
module MachineIntegers {

  const MAXIMUM := 0x7FFF_FFFF

  type int32 = n: int | -0x8000_0000 <= n <= MAXIMUM

  function Wrap(n: int): int32 {
    (n + 0x8000_0000) % 0x1_0000_0000 - 0x8000_0000
  }
}
