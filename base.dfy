/** Values shared by every part of the model: bytes, the 64-bit nonce,
    the errors the chain passes around, and the Option/Result wrappers
    that stand for Go's `(value, error)` returns. */
module Base {

  /** One byte of a Go `[]byte`. */
  type byte = x: int | 0 <= x < 256

  /** A Go `[]byte`; `nil` and the empty slice are both the empty sequence. */
  type Bytes = seq<byte>

  /** Go's `int64`, the type of `Block.Nonce`. */
  newtype int64 = x: int | -0x8000_0000_0000_0000 <= x < 0x8000_0000_0000_0000

  /** The error values that reach the chain. */
  datatype Error =
    | NotFound          // storage holds no entry under the requested key
    | StorageFault      // any other failure reported by the storage collaborator
    | Truncated         // the decoder ran out of input before the block ended
    | FieldTooLong      // the encoder cannot write a field's length
    | PayloadFailure    // building the payload (the coinbase transaction) failed

  datatype Option<+T> = None | Some(value: T)

  datatype Result<+T> = Ok(value: T) | Err(error: Error) {
    predicate IsFailure() { Err? }

    function PropagateFailure<U>(): Result<U>
      requires Err?
    {
      Err(error)
    }

    function Extract(): T
      requires Ok?
    {
      value
    }

    /** The error part, as Go's second return value. */
    function ErrorOf(): Option<Error> {
      if Err? then Some(error) else None
    }
  }
}
