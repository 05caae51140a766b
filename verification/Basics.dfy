/** Small types and functions that several modules share. */
module Basics {
  type Byte = x: int | 0 <= x < 256

  datatype Option<T> = Some(value: T) | None

  function Clamp(v: int, lo: int, hi: int): int { if v < lo then lo else if v > hi then hi else v }
}
