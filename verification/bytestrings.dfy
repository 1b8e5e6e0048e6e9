/** Strings as the program handles them: sequences of bytes. */
module ByteStrings {
  newtype byte = b: int | 0 <= b < 256

  type Bytes = seq<byte>
}
