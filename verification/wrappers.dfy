/** Failure-compatible result types shared by every module of the model.

    Rust's `std::io::Error` values become constructors of `Error`; a Rust
    panic (`unwrap()` on an error, `unimplemented!()`, `todo!()`, an index
    out of bounds) becomes `Panic`, which ends the connection task.  Code
    that swallows errors in the source (`is_ok()`, `if let Ok`) never
    swallows a `Panic`, because a panic unwinds past it.
 */
module Wrappers {

  datatype Option<+T> = None | Some(value: T) {
    predicate IsFailure() {
      None?
    }

    function PropagateFailure<U>(): Option<U>
      requires None?
    {
      None
    }

    function Extract(): T
      requires Some?
    {
      value
    }

    function GetOr(default: T): T {
      match this
      case Some(v) => v
      case None => default
    }
  }

  /** The reasons a panic can be raised in the source. */
  datatype PanicReason =
    | UnwrapOnError        // `.unwrap()` of an `Err` or of a `None`
    | Unimplemented        // `unimplemented!()` in a one-direction packet
    | Todo                 // `todo!()` for the Play and Transfer states
    | IndexOutOfBounds     // `states[0]` on an empty array

  datatype Error =
    | NotEnoughBytes                              // a reader ran past the end of its buffer
    | VarintTooBig                                // a fifth varint byte still had its continuation bit
    | InvalidUtf8                                 // string bytes are not well-formed UTF-8
    | PacketTooShort                              // the input is shorter than the declared frame length
    | DecompressFailed                            // the zlib stream could not be inflated
    | IdMismatch(expected: int, got: int)         // `id_match!` or the decoded-id recheck
    | UnknownPacketId(state: int, id: int)        // no decoder for this id in this state
    | InvalidNextState                            // a handshake asked for a state other than 1, 2 or 3
    | UnexpectedPacket                            // an out-of-sequence packet in an exchange
    | ConnectionClosed                            // the peer sent nothing more
    | DowncastFailed                              // `downcast_packet` to the wrong type
    | WrongChannel                                // a brand message on another channel
    | InvalidBrand                                // brand bytes are not UTF-8
    | Panic(reason: PanicReason)

  datatype Result<+T> = Ok(value: T) | Err(error: Error) {
    predicate IsFailure() {
      Err?
    }

    function PropagateFailure<U>(): Result<U>
      requires Err?
    {
      Err(error)
    }

    function Extract(): T
      requires Ok?
    {
      value
    }

    /** A Rust `.unwrap()`: every error becomes a panic. */
    function Unwrap(): (r: Result<T>)
      ensures r.Ok? <==> Ok?
      ensures Ok? ==> r == this
      ensures Err? ==> r == Err(Panic(UnwrapOnError))
    {
      match this
      case Ok(v) => Ok(v)
      case Err(_) => Err(Panic(UnwrapOnError))
    }
  }

  predicate IsPanic<T>(r: Result<T>) {
    r.Err? && r.error.Panic?
  }
}
