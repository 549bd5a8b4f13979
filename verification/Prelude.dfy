/** Datatypes shared by every component model. */
module Prelude {

  /** An optional value, the source's `Option`. */
  datatype Option<+T> = None | Some(value: T)

  /** A fallible outcome; the error payload (wording) is not modelled. */
  datatype Result<+T> = Ok(value: T) | Err

  newtype byte = x: int | 0 <= x < 256
  type Bytes = seq<byte>
}
