/** Bytes of buffers and files. */
module Bytes {
  type byte = b: int | 0 <= b < 256
}
