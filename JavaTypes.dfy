/** Java-level values the two core classes rely on: nullable references,
    32- and 64-bit integers with Java's wrap-around, and calls that may throw. */
module JavaTypes {

  /** A nullable Java reference: None stands for null. */
  datatype Option<+T> = None | Some(value: T)

  /** A Java String that may be null. */
  type JString = Option<string>

  const INT_MIN: int := -0x8000_0000
  const INT_MAX: int := 0x7fff_ffff

  newtype int32 = x: int | -0x8000_0000 <= x < 0x8000_0000
  newtype int64 = x: int | -0x8000_0000_0000_0000 <= x < 0x8000_0000_0000_0000

  /** Reduces an unbounded integer to the Java int with the same low 32 bits. */
  function WrapInt32(x: int): (r: int32)
    ensures (r as int - x) % 0x1_0000_0000 == 0
    ensures INT_MIN <= x <= INT_MAX ==> r as int == x
  {
    ((x - INT_MIN) % 0x1_0000_0000 + INT_MIN) as int32
  }

  /** Java's `a + b` on two ints: the exact sum, wrapped to 32 bits. */
  function AddInt32(a: int32, b: int32): (r: int32)
    ensures (r as int - (a as int + b as int)) % 0x1_0000_0000 == 0
    ensures INT_MIN <= a as int + b as int <= INT_MAX ==> r as int == a as int + b as int
  {
    WrapInt32(a as int + b as int)
  }

  /** The Java int-to-long widening conversion, which never loses information. */
  function Widen(x: int32): (r: int64)
  {
    x as int as int64
  }

  /** What the cause of a thrown Java Throwable carries. */
  datatype Throwable = Throwable(description: string)

  /** The result of calling code outside the model: it returns a value or throws. */
  datatype Call<+T> = Returns(value: T) | Throws(cause: Throwable)
}
