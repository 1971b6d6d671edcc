/** Stock option/result types and the fixed-width integer operations the source relies on.
    Values are unbounded integers; every cast, saturation and checked addition is written out. */
module Machine {

  datatype Option<+T> = None | Some(value: T)

  datatype Result<+T, +E> = Ok(value: T) | Err(error: E)

  const U32_MAX: int := 0xffff_ffff
  const I32_MAX: int := 0x7fff_ffff
  const U64_MAX: int := 0xffff_ffff_ffff_ffff
  const I64_MAX: int := 0x7fff_ffff_ffff_ffff
  const I64_MIN: int := -0x8000_0000_0000_0000

  predicate IsI64(x: int) {
    I64_MIN <= x <= I64_MAX
  }

  predicate IsU64(x: int) {
    0 <= x <= U64_MAX
  }

  /** Clamp to the signed 64-bit range: what `saturating_add`/`saturating_sub` on `i64` do. */
  function ClampI64(x: int): int {
    if x < I64_MIN then I64_MIN else if x > I64_MAX then I64_MAX else x
  }

  /** `x as u64` for an `i64`: the two's-complement reinterpretation. */
  function I64AsU64(x: int): int {
    if x < 0 then x + U64_MAX + 1 else x
  }

  /** `x as i64` for a `u64`. */
  function U64AsI64(x: int): int {
    if x > I64_MAX then x - U64_MAX - 1 else x
  }

  /** `x as i32` for an `i64`: keep the low 32 bits, read as signed. */
  function I64AsI32(x: int): int {
    var low := x % (U32_MAX + 1);
    if low > I32_MAX then low - U32_MAX - 1 else low
  }

  /** `i64::try_from(x).unwrap_or(i64::MAX)` for a `u64`. */
  function U64ToI64Saturating(x: int): int {
    if x > I64_MAX then I64_MAX else x
  }

  /** `a.saturating_sub(b)` on unsigned values. */
  function SubFloor(a: nat, b: nat): nat {
    if a <= b then 0 else a - b
  }

  /** `a.saturating_add(b)` on `u64`. */
  function AddU64Saturating(a: nat, b: nat): nat {
    if a + b > U64_MAX then U64_MAX else a + b
  }

  // ---------------------------------------------------------------- what the casts mean

  /** The four bounds belong to 32- and 64-bit words. */
  lemma WidthsAgree()
    ensures U32_MAX + 1 == 65536 * 65536 && U64_MAX + 1 == (U32_MAX + 1) * (U32_MAX + 1)
    ensures 2 * I32_MAX + 1 == U32_MAX && 2 * I64_MAX + 1 == U64_MAX && I64_MIN == -I64_MAX - 1
  {
  }

  /** A 64-bit reinterpretation stays in the target range and moves by nothing or by one full turn. */
  lemma ReinterpretExactly(x: int)
    ensures IsI64(x) ==> IsU64(I64AsU64(x)) && (I64AsU64(x) == x || I64AsU64(x) == x + U64_MAX + 1)
    ensures IsU64(x) ==> IsI64(U64AsI64(x)) && (U64AsI64(x) == x || U64AsI64(x) == x - U64_MAX - 1)
  {
  }

  /** Truncation to 32 bits lands in range and changes the value by whole turns of 2^32. */
  lemma TruncateExactly(x: int) returns (turns: int)
    ensures -0x8000_0000 <= I64AsI32(x) <= 0x7fff_ffff
    ensures x == I64AsI32(x) + turns * 0x1_0000_0000
  {
    var m := U32_MAX + 1;
    turns := if x % m > I32_MAX then x / m + 1 else x / m;
  }

  /** Each saturating operation returns the representable value nearest to the exact result. */
  lemma SaturationExactly(x: int, y: int, a: nat, b: nat)
    ensures IsI64(ClampI64(x)) && (IsI64(y) ==> (x <= y ==> ClampI64(x) <= y) && (y <= x ==> y <= ClampI64(x)))
    ensures 0 <= x ==> U64ToI64Saturating(x) == ClampI64(x)
    ensures SubFloor(a, b) + b == if a >= b then a else b
    ensures AddU64Saturating(a, b) == (if a + b <= U64_MAX then a + b else U64_MAX)
  {
  }
}
