/** Eight-bit values. */
module Bytes {
  newtype byte = x: int | 0 <= x < 256
}
