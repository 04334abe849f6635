/** The contents of files and streams. */
module Bytes {
  newtype byte = n: int | 0 <= n < 256

  type Bytes = seq<byte>
}
