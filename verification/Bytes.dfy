/** Bytes as numbers, for the parts that store, move and decode them. */
module Bytes {
  type byte = b: int | 0 <= b < 256
}
