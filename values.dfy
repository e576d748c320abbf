/** Values shared by every part of the model: bytes, the values an ABI decoder
    hands back, Python's None, and the exceptions the script can raise. */
module Values {

  /** One byte of calldata. */
  newtype byte = x: int | 0 <= x < 256

  datatype Option<+T> = None | Some(value: T)

  /** The exceptions the dispatch pipeline can raise. None of them is caught
      by the script: each one ends the whole scan. */
  datatype Error =
    | UnsupportedInput   // calldata that is neither `str` nor `bytes`
    | BadHex             // `bytes.fromhex` rejects the hex tail
    | DecodeFailed       // `decode_single` rejects the argument tail
    | UnpackMismatch     // `a, b = fields` on a list whose length is not 2
    | NoFirstField       // `fields[0] = ...` on an empty list
    | BadAmount          // `Counter[user] += amount` with a non-integer amount

  datatype Result<+T> = Ok(value: T) | Err(error: Error) {
    predicate IsFailure() { Err? }
    function PropagateFailure<U>(): Result<U> requires Err? { Err(error) }
    function Extract(): T requires Ok? { value }
  }

  /** What an ABI decoder yields for the types the registry uses: integers
      (`uint*`, `int*`), strings (`string`, `address`), byte strings
      (`bytes`, `bytes32`) and tuples (fixed arrays such as `uint256[3]`). */
  datatype Value =
    | Int(n: int)
    | Text(s: string)
    | Raw(b: seq<byte>)
    | Tuple(items: seq<Value>)

  /** A Python value that may be `None`. */
  type Field = Option<Value>

  /** The ABI decoder: a type-tuple string and a byte tail give the decoded
      values, or None where the decoder raises. */
  type Decoder = (string, seq<byte>) -> Option<seq<Value>>

  function Min(a: int, b: int): int { if a <= b then a else b }
}
