/** Machine integers. */
module Numbers {
  const U64: nat := 0x1_0000_0000_0000_0000

  type Byte = b: nat | b < 256
  type Uint64 = x: nat | x < U64
}
