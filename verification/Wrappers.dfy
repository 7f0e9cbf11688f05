/** Results and errors shared by the models. */
module Wrappers {

  datatype Option<+T> = None | Some(value: T)

  datatype MathError = DomainError | SyntaxError | OverflowError | NotImplemented | DistributedError

  datatype Result<+T> = Ok(value: T) | Err(error: MathError)

  type Byte = b: int | 0 <= b < 256
  type Bytes = seq<Byte>
}
