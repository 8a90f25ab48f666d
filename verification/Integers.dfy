/** The machine integers that the source stores and transmits. */
module Integers {
  type byte = n: nat | n <= 0xFF
  type bytes = seq<byte>
  type u32 = n: nat | n <= 0xFFFF_FFFF
  type u64 = n: nat | n <= 0xFFFF_FFFF_FFFF_FFFF
  type i32 = n: int | -0x8000_0000 <= n <= 0x7FFF_FFFF
}
