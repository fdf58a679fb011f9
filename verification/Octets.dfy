/** The bytes of class files, archives and network buffers. */
module Octets {
  type Byte = b: int | 0 <= b < 256
}
