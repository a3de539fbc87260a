/** Small value types shared by every module: optional values, results, `u8`
    and `u32` with wrapping arithmetic, RGB triples. */
module Base {

  datatype Option<+T> = None | Some(value: T)

  datatype Result<+T, +E> = Ok(value: T) | Err(error: E)

  /** An unsigned byte (`u8`). */
  type u8 = x: int | 0 <= x < 0x100

  /** An unsigned 32-bit integer (`u32`). */
  type u32 = x: int | 0 <= x < 0x1_0000_0000

  const U32_MODULUS: nat := 0x1_0000_0000

  /** `u32::wrapping_mul` and `u32::wrapping_add`: the exact result reduced
      modulo 2^32. */
  function WrappingMul(a: u32, b: u32): u32
  {
    (a * b) % U32_MODULUS
  }

  function WrappingAdd(a: u32, b: u32): u32
  {
    (a + b) % U32_MODULUS
  }

  /** A colour as three bytes, red, green, blue. */
  datatype Rgb = Rgb(r: u8, g: u8, b: u8)

  /** Byte string of an ASCII text (the UTF-8 encoding of such a text). */
  function AsciiBytes(s: string): (r: seq<u8>)
    requires forall i :: 0 <= i < |s| ==> s[i] as int < 0x80
    ensures |r| == |s|
    ensures forall i :: 0 <= i < |s| ==> r[i] == s[i] as int
  {
    seq(|s|, i requires 0 <= i < |s| => s[i] as int)
  }
}
