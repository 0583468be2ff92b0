/** Option and Result, and the error values that io.Reader and io.Writer implementations exchange. */
module Wrappers {

  datatype Option<+T> = None | Some(value: T)

  datatype Result<+T, +E> = Ok(value: T) | Err(error: E)

  /** io.EOF, io.ErrUnexpectedEOF, and every other error value, told apart by a tag. */
  datatype IOError = EOF | UnexpectedEOF | Other(tag: nat)

  /** io.EOF where there had to be more. */
  function Unexpected(e: IOError): IOError { if e == EOF then UnexpectedEOF else e }
}
