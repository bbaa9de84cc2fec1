/** Octets, as the C and C++ sources' `unsigned char`. */
module Bytes {
  type Byte = x: int | 0 <= x < 256
}
