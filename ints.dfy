/** The fixed-width unsigned integer types of the source, as bounded `int`s. */
module Ints {

  /** One above the largest `u64`. */
  const U64_LIMIT: nat := 0x1_0000_0000_0000_0000

  type u16 = x: int | 0 <= x < 0x1_0000
  type u32 = x: int | 0 <= x < 0x1_0000_0000
  type u64 = x: int | 0 <= x < U64_LIMIT
}
