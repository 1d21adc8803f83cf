// Shared vocabulary of the sonf reactor model: optional values, Java
// exceptions, bytes, idle statuses and Java's fixed-width integers.
module Common {

  datatype Option<T> = None | Some(value: T)

  /** An unsigned view of a Java byte (the two's-complement bit pattern). */
  type Byte = b: int | 0 <= b < 256

  /** The three idle statuses a session tracks (IdleStatus). */
  datatype IdleStatus = ReaderIdle | WriterIdle | BothIdle

  /** The Java exception classes the core throws or reports. */
  datatype ExnKind =
    | IllegalArgument
    | IllegalState
    | IOError               // java.io.IOException
    | PortUnreachable       // java.net.PortUnreachableException, an IOException
    | WriteError            // WriteException, an IOException
    | ConnectError          // java.net.ConnectException, an IOException
    | Runtime
    | NullPointer
    | ClassCast
    | CharacterCoding
    | PlainException        // java.lang.Exception itself
    | JavaError             // a java.lang.Error, not an Exception

  datatype Exn = Exn(kind: ExnKind, msg: string)
  {
    /** instanceof IOException */
    predicate IsIOException() {
      kind in {IOError, PortUnreachable, WriteError, ConnectError}
    }
    /** instanceof Error */
    predicate IsError() {
      kind == JavaError
    }
  }

  /** What a void Java call does: return normally or throw. */
  datatype Outcome = Done | Threw(exn: Exn)

  /** What a value-returning Java call does. */
  datatype Result<T> = Ok(value: T) | Err(exn: Exn)

  const INT_MAX: int := 0x7fff_ffff
  const INT_MIN: int := -0x8000_0000
  const LONG_MAX: int := 0x7fff_ffff_ffff_ffff

  /** Java long arithmetic: reduce an exact result to 64-bit two's complement. */
  function Wrap64(x: int): (r: int)
    ensures -LONG_MAX - 1 <= r <= LONG_MAX
    ensures -LONG_MAX - 1 <= x <= LONG_MAX ==> r == x
  {
    (x + LONG_MAX + 1) % 0x1_0000_0000_0000_0000 - LONG_MAX - 1
  }

  /** Java int arithmetic: reduce an exact result to 32-bit two's complement. */
  function Wrap32(x: int): (r: int)
    ensures INT_MIN <= r <= INT_MAX
    ensures INT_MIN <= x <= INT_MAX ==> r == x
    ensures (r - x) % 0x1_0000_0000 == 0
  {
    (x - INT_MIN) % 0x1_0000_0000 + INT_MIN
  }
}
