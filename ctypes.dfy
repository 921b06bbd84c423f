/** Fixed-width C integer types used by the recorder, and the wrap-around of
    `unsigned long long` arithmetic, written out explicitly. */
module CTypes {

  const U8_LIMIT: int := 0x100
  const U32_LIMIT: int := 0x1_0000_0000
  /** 2^64: `unsigned long long` arithmetic is performed modulo this value. */
  const U64_LIMIT: int := 0x1_0000_0000_0000_0000
  const I64_MIN: int := -0x8000_0000_0000_0000
  const I64_MAX: int := 0x7FFF_FFFF_FFFF_FFFF

  /** `__u8`: `can_dlc` and each payload byte. */
  type U8 = x: int | 0 <= x < U8_LIMIT
  /** `canid_t` (`__u32`): the raw `can_id`. */
  type U32 = x: int | 0 <= x < U32_LIMIT
  /** `unsigned long long`. */
  type U64 = x: int | 0 <= x < U64_LIMIT
  /** `time_t` and `long` on a 64-bit Linux target. */
  type I64 = x: int | I64_MIN <= x <= I64_MAX

  /** C conversion of any integer value to `unsigned long long`: reduction modulo 2^64. */
  function ToU64(x: int): (r: U64)
    ensures 0 <= x < U64_LIMIT ==> r == x
    ensures (r - x) % U64_LIMIT == 0
  {
    x % U64_LIMIT
  }
}
