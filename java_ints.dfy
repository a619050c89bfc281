/** Java's fixed-width integer types and the wrap-around of `long` arithmetic. */
module JavaInts {
  const MinLong: int := -0x8000_0000_0000_0000
  const MaxLong: int := 0x7fff_ffff_ffff_ffff
  const LongModulus: int := 0x1_0000_0000_0000_0000

  /** A Java `long`. */
  type Long = x: int | MinLong <= x <= MaxLong

  /** A Java `int`. */
  type Int32 = x: int | -0x8000_0000 <= x <= 0x7fff_ffff

  /** The `long` that Java's two's-complement arithmetic yields for the exact value `x`. */
  function WrapLong(x: int): (r: Long)
    ensures MinLong <= x <= MaxLong ==> r == x
    ensures (x - r) % LongModulus == 0
  {
    ((x - MinLong) % LongModulus) + MinLong
  }
}
