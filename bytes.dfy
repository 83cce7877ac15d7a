/** Octets, as read from a response stream or produced by UTF-8 encoding. */
module Bytes {
  newtype byte = x: int | 0 <= x < 256
}
