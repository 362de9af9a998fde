/** Shared value types of the transport model: wire bytes, the 32-bit
    identifiers used for request and order ids, and the Option/Result
    wrappers that stand for Rust's `Option` and `anyhow::Result`. */
module Base {

  /** One byte on the wire (Rust `u8`). */
  newtype byte = x: int | 0 <= x < 0x100

  /** A request or order identifier (Rust `i32`). */
  newtype i32 = x: int | -0x8000_0000 <= x < 0x8000_0000

  /** 2^32: one more than the largest `u32`. */
  const TWO_TO_32: int := 0x1_0000_0000

  datatype Option<+T> = None | Some(value: T) {
    /** `Option::unwrap_or` */
    function GetOr(default: T): T {
      match this
      case Some(v) => v
      case None => default
    }
  }

  /** Why a read or a field access failed. */
  datatype Error =
    | UnexpectedEof      // `read_exact` ran out of bytes
    | MissingField       // the message has no field at that position
    | NotAnInteger       // the field is present but does not parse as an integer
    | WriteFailed        // the socket refused a `write_all`

  datatype Result<+T> = Ok(value: T) | Err(error: Error) {
    predicate IsFailure() { Err? }

    function PropagateFailure<U>(): Result<U>
      requires Err?
    {
      Err(error)
    }

    function Extract(): T
      requires Ok?
    {
      value
    }
  }
}
