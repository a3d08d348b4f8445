/** Value types shared by every module: Java's 32-bit int, octets and an Option. */
module JavaTypes {

  /** A Java `int`. */
  newtype int32 = x: int | -0x8000_0000 <= x < 0x8000_0000

  /** One byte, read as its unsigned bit pattern 0..255. */
  newtype octet = x: int | 0 <= x < 0x100

  /** A reference that may be null. */
  datatype Option<+T> = None | Some(value: T)
}
