// Bytes and the small result types shared by the other modules.

module Bytes {
  /** uint8_t */
  type Byte = b: int | 0 <= b < 256

  /** char: one byte, so a C++ string holds only these. */
  type Char = c: char | c as int < 256 witness 'a'

  datatype Option<+T> = None | Some(value: T)

  datatype Result<+T> = Ok(value: T) | Err

  function Min(a: nat, b: nat): nat { if a < b then a else b }

  /** n copies of b. */
  function Fill(b: Byte, n: nat): (r: seq<Byte>)
    ensures |r| == n
  {
    seq(n, _ => b)
  }
}
