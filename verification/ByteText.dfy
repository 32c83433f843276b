/** Bytes as the log and the COPY stream carry them. */
module ByteText {
  newtype Byte = x: int | 0 <= x < 256

  type Bytes = seq<Byte>

  const TAB: Byte := 9

  const NEWLINE: Byte := 10

  const CARRIAGE_RETURN: Byte := 13

  const BACKSLASH: Byte := 0x5C
}
