/**
 * The Java primitive types the widget stores: `int`, `long` and `double`.
 * Integers are unbounded in Dafny, so the widths are newtypes and the
 * one multiplication the code performs on a `long` wraps explicitly.
 */
module JavaLang {

  const TwoTo63: int := 0x8000_0000_0000_0000
  const TwoTo64: int := 0x1_0000_0000_0000_0000

  /** A Java `int`. */
  newtype int32 = x: int | -0x8000_0000 <= x < 0x8000_0000

  /** A Java `long`. */
  newtype int64 = x: int | -0x8000_0000_0000_0000 <= x < 0x8000_0000_0000_0000

  /**
   * A Java `double`, kept as its IEEE 754 bit pattern: the widget only stores
   * and returns temperatures, it never computes with them. The all-zero
   * pattern is +0.0, Java's default value for a `double` field.
   */
  type Double = bv64

  /** Two's-complement wrap-around of a mathematical integer into a `long`. */
  function Wrap64(x: int): (r: int64)
    ensures (r as int - x) % TwoTo64 == 0
    ensures -TwoTo63 <= x < TwoTo63 ==> r as int == x
  {
    ((x + TwoTo63) % TwoTo64 - TwoTo63) as int64
  }
}
