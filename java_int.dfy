/** Java's fixed-width integer arithmetic written out over Dafny's unbounded integers. */
module JavaInt {

  const INT_MIN: int := -0x8000_0000
  const INT_MAX: int := 0x7fff_ffff
  const LONG_MIN: int := -0x8000_0000_0000_0000
  const LONG_MAX: int := 0x7fff_ffff_ffff_ffff

  predicate IsInt(x: int) { INT_MIN <= x <= INT_MAX }

  predicate IsLong(x: int) { LONG_MIN <= x <= LONG_MAX }

  /** The `int` that Java produces for the mathematical value `x`, by a narrowing cast
      or by overflowing `int` arithmetic: the low 32 bits read as two's complement. */
  function Wrap32(x: int): (r: int)
    ensures IsInt(r)
    ensures IsInt(x) ==> r == x
    ensures (x - r) % 0x1_0000_0000 == 0
  {
    INT_MIN + (x - INT_MIN) % 0x1_0000_0000
  }

  /** The `long` that Java produces for the mathematical value `x` (overflowing `long`
      arithmetic): the low 64 bits read as two's complement. */
  function Wrap64(x: int): (r: int)
    ensures IsLong(r)
    ensures IsLong(x) ==> r == x
    ensures (x - r) % 0x1_0000_0000_0000_0000 == 0
  {
    LONG_MIN + (x - LONG_MIN) % 0x1_0000_0000_0000_0000
  }

  /** Java's integer division `a / b` for a positive divisor: it truncates toward zero,
      so the remainder takes the sign of the dividend (Dafny's `/` floors instead). */
  function TruncDiv(a: int, b: int): (q: int)
    requires b > 0
    ensures a >= 0 ==> q >= 0 && 0 <= a - q * b < b
    ensures a < 0 ==> q <= 0 && -b < a - q * b <= 0
  {
    if a >= 0 then a / b else -((-a) / b)
  }
}
