/** Bytes, machine-word ranges and the page size. */
module Words {
  type byte = x: int | 0 <= x < 256

  const TWO31: nat := 0x8000_0000
  const TWO32: nat := 0x1_0000_0000
  const TWO63: nat := 0x8000_0000_0000_0000
  const TWO64: nat := 0x1_0000_0000_0000_0000
  const PAGE: nat := 4096
}
