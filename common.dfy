/** Values shared by every layer: C#'s nullable references, exceptions,
    32-bit integers and DateTime. */
module Common {

  /** A C# reference that may be null. */
  datatype Option<T> = None | Some(value: T) {

    /** The C# null-coalescing operator: `this ?? fallback`. */
    function OrElse(fallback: Option<T>): Option<T> {
      if Some? then this else fallback
    }
  }

  /** The exceptions the modelled code throws or lets through. */
  datatype Exception =
    | ArgumentNullException(paramName: string)
    | InvalidOperationException(message: string)
    | GeneralException(message: string)   // System.Exception itself
    | StoreException(message: string)     // anything the database layer raises

  /** The outcome of a call that either returns a value or throws. */
  datatype Result<T> = Success(value: T) | Failure(error: Exception)

  /** C#'s `int`. */
  type Int32 = x: int | -0x8000_0000 <= x < 0x8000_0000

  /** Two's-complement truncation of an unbounded integer to 32 bits, which is
      what unchecked C# `int` arithmetic does. */
  function Wrap32(x: int): (r: Int32)
    ensures -0x8000_0000 <= x < 0x8000_0000 ==> r == x
    ensures (x - r) % 0x1_0000_0000 == 0
  {
    (x + 0x8000_0000) % 0x1_0000_0000 - 0x8000_0000
  }

  /** DateTime as a tick count; DateTime.MinValue is 0. */
  type DateTime = nat

  /** The values DateTime.UtcNow returns during one call: `clock(i)` is the
      i-th reading (counting from 0). */
  type Clock = nat -> DateTime
}
