/** The bytes that pipes carry and images are made of. */
module Bytes {
  type Byte = b: int | 0 <= b < 256
}
