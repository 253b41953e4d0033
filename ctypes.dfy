/**
 * Fixed-width C integer types and the conversions between them that the
 * drivers and userspace programs rely on.  Dafny integers are unbounded, so
 * every narrowing assignment of the C code is written out with one of the
 * functions below.
 */
module CTypes {
  type U8 = x: int | 0 <= x < 0x100
  type I8 = x: int | -0x80 <= x < 0x80
  type U16 = x: int | 0 <= x < 0x1_0000
  type U32 = x: int | 0 <= x < 0x1_0000_0000
  type I32 = x: int | -0x8000_0000 <= x < 0x8000_0000
  type U64 = x: int | 0 <= x < 0x1_0000_0000_0000_0000

  /** Assignment to a `uint8_t`: the value modulo 2^8. */
  function ToU8(x: int): (r: U8)
    ensures (x - r) % 0x100 == 0
    ensures 0 <= x < 0x100 ==> r == x
  {
    x % 0x100
  }

  /** Assignment to an `int8_t` (two's complement). */
  function ToI8(x: int): (r: I8)
    ensures (x - r) % 0x100 == 0
    ensures -0x80 <= x < 0x80 ==> r == x
  {
    (x + 0x80) % 0x100 - 0x80
  }

  /** Assignment to a `uint16_t`: the value modulo 2^16. */
  function ToU16(x: int): (r: U16)
    ensures (x - r) % 0x1_0000 == 0
    ensures 0 <= x < 0x1_0000 ==> r == x
  {
    x % 0x1_0000
  }

  /** Assignment to an `int32_t` (two's complement, as the kernel compiles signed overflow). */
  function ToI32(x: int): (r: I32)
    ensures (x - r) % 0x1_0000_0000 == 0
    ensures -0x8000_0000 <= x < 0x8000_0000 ==> r == x
  {
    (x + 0x8000_0000) % 0x1_0000_0000 - 0x8000_0000
  }

  /** Assignment of an `unsigned` value to a 32-bit unsigned variable. */
  function ToU32(x: int): (r: U32)
    ensures (x - r) % 0x1_0000_0000 == 0
    ensures 0 <= x < 0x1_0000_0000 ==> r == x
  {
    x % 0x1_0000_0000
  }

  /** C's `%` on `int`: division truncates toward zero, so the remainder has the sign of `a`. */
  function CRem(a: int, b: int): (r: int)
    requires b > 0
    ensures a >= 0 ==> 0 <= r < b
    ensures a < 0 ==> -b < r <= 0
  {
    if a >= 0 then a % b else -((-a) % b)
  }

  /** `x & mask` for a single-bit mask `2^k`, on a non-negative value. */
  predicate HasBit(x: int, mask: int)
    requires x >= 0 && mask > 0
  {
    (x / mask) % 2 == 1
  }
}

/** The negative error codes the drivers return, and the outcome of a `kstrto*` call. */
module Errno {
  const ENOMEM: int := 12
  const EFAULT: int := 14
  const EINVAL: int := 22

  /** What a `kstrtou8`/`kstrtou16`/`kstrtoint` call gives: the parsed value or its error code. */
  datatype Parsed = Parsed(value: int) | ParseError(code: int)
}

module Wrappers {
  datatype Option<T> = None | Some(value: T)
}
