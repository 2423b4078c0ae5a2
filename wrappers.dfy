/** Failure-compatible result types shared by every module of the model.
    A JavaScript `throw` in the decoders becomes an `Err`; an infinite loop
    in the source becomes `Err(Diverges)`, so that every model member terminates. */
module Wrappers {

  datatype Option<+T> = None | Some(value: T)

  /** The ways a decode can end without a region tree. */
  datatype Error =
    | ReadPastEnd      // `BigInt(undefined)`: a byte index outside the buffer was read
    | RangeError       // `new Uint8Array(buf, start, len)` with the view outside the buffer
    | ContentMismatch  // `ensureContent` / the `CV` callback found other bytes than expected
    | TooShort         // `ensureLength`: the buffer ends before the required length
    | NotFound         // ZIP: no end-of-central-directory signature
    | UnknownWireType  // protobuf wire type other than 0, 1, 2, 5
    | NoParser         // the dispatcher found no parser, or the forced id is not registered
    | MissingRegion    // a property of an absent `regionCache` entry was read (TypeError)
    | Diverges         // the source loops forever on this input
    | NotAnObject      // `in` or a property write on a value that is not an object (TypeError)

  datatype Result<+T> = Ok(value: T) | Err(error: Error) {
    predicate IsFailure() { Err? }

    function PropagateFailure<U>(): Result<U>
      requires Err?
    {
      Err(error)
    }

    function Extract(): T
      requires Ok?
    {
      value
    }
  }

  /** Result of an operation that returns nothing but may throw. */
  datatype Outcome = Pass | Fail(error: Error) {
    predicate IsFailure() { Fail? }

    function PropagateFailure<U>(): Result<U>
      requires Fail?
    {
      Err(error)
    }
  }
}
