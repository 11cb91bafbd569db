/** Small types that several parts share. */
module Wrappers {
  /** A value that may be missing: a null pointer, a failed search, an overflow. */
  datatype Option<+T> = None | Some(value: T)

  type Byte = b: nat | b < 256
}
