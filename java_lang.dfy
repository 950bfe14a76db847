/** The few pieces of the Java platform the modelled classes rely on:
    the 32-bit `int`, absent (`null`) results, and the exception an array
    access raises when its index is out of range. */
module JavaLang {

  /** Java's 32-bit two's-complement `int`. */
  newtype Int32 = x: int | -0x8000_0000 <= x < 0x8000_0000

  /** A reference result that may be `null`. */
  datatype Option<+T> = None | Some(value: T)

  /** Either a normal result or the exception that escaped instead. */
  datatype Result<+T, +E> = Ok(value: T) | Err(error: E)

  /** `java.lang.ArrayIndexOutOfBoundsException`, carrying the offending
      index and the length of the array that was accessed. */
  datatype IndexOutOfBounds = IndexOutOfBounds(index: int, length: int)

  /** The outcome of a `void` operation that may raise an index failure. */
  datatype Outcome = Done | Failed(error: IndexOutOfBounds)
}
