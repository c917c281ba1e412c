/** Value types shared by every module of the model. */
module Common {

  /** An unsigned 8-bit value: the unit of every packet and shared region. */
  newtype byte = x: int | 0 <= x < 0x100

  /** A reference that may be null. */
  datatype Option<T> = None | Some(value: T)

  const INT32_MIN: int := -0x8000_0000
  const INT32_MAX: int := 0x7FFF_FFFF

  /** The range of a C# `int`. */
  predicate IsInt32(x: int) {
    INT32_MIN <= x <= INT32_MAX
  }

  /** Reinterprets a 32-bit pattern as a two's-complement C# `int`. */
  function ToInt32(u: int): (r: int)
    requires 0 <= u < 0x1_0000_0000
    ensures IsInt32(r)
    ensures r % 0x1_0000_0000 == u
  {
    if u <= INT32_MAX then u else u - 0x1_0000_0000
  }

  /** C#'s `/` on `int`: the quotient is truncated toward zero. */
  function TruncDiv(a: int, b: int): int
    requires b > 0
  {
    if a >= 0 then a / b else -((-a) / b)
  }

  /** C#'s `%` on `int`: the remainder takes the sign of the dividend. */
  function TruncMod(a: int, b: int): int
    requires b > 0
  {
    if a >= 0 then a % b else -((-a) % b)
  }
}
