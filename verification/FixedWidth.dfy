/** The machine integers of the source. Every operation on one of these types carries the proof
    obligation that it does not leave the type's range, so an expression that is unchecked in the
    source and verifies here cannot overflow. */
module FixedWidth {
  import opened Wrappers

  newtype i64 = x: int | -0x8000_0000_0000_0000 <= x < 0x8000_0000_0000_0000
  newtype u8 = x: int | 0 <= x < 0x100
  newtype u16 = x: int | 0 <= x < 0x1_0000
  newtype u32 = x: int | 0 <= x < 0x1_0000_0000
  newtype u64 = x: int | 0 <= x < 0x1_0000_0000_0000_0000

  const I64_MAX: int := 0x7fff_ffff_ffff_ffff
  const I64_MIN: int := -0x8000_0000_0000_0000
  const U16_MAX: int := 0xffff
  const U32_MAX: int := 0xffff_ffff
  const U64_MAX: int := 0xffff_ffff_ffff_ffff

  function CheckedAdd(a: i64, b: i64): Option<i64> {
    var sum := a as int + b as int;
    if I64_MIN <= sum <= I64_MAX then Some(sum as i64) else None
  }

  function CheckedSub(a: i64, b: i64): Option<i64> {
    var difference := a as int - b as int;
    if I64_MIN <= difference <= I64_MAX then Some(difference as i64) else None
  }

  function CheckedMul(a: i64, b: i64): Option<i64> {
    var product := a as int * b as int;
    if I64_MIN <= product <= I64_MAX then Some(product as i64) else None
  }

  function CheckedAddU64(a: u64, b: u64): Option<u64> {
    var sum := a as int + b as int;
    if sum <= U64_MAX then Some(sum as u64) else None
  }

  function CheckedMulU64(a: u64, b: u64): Option<u64> {
    var product := a as int * b as int;
    if 0 <= product <= U64_MAX then Some(product as u64) else None
  }
}
