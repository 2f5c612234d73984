/** Octets, as produced by `String.getBytes` and consumed by `java.util.Base64`. */
module Bytes {

  /** One unsigned octet (Java's signed `byte` read as 0..255). */
  type byte = x: int | 0 <= x < 0x100
}
