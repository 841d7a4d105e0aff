/** Machine integers, C strings and the failure types shared by every component. */
module Prelude {

  datatype Option<+T> = None | Some(value: T)

  datatype Result<+T, +E> = Ok(value: T) | Err(error: E)

  const TWO_8: int := 0x100
  const TWO_16: int := 0x1_0000
  const TWO_32: int := 0x1_0000_0000
  const TWO_63: int := 0x8000_0000_0000_0000
  const TWO_64: int := 0x1_0000_0000_0000_0000

  type Byte = x: int | 0 <= x < TWO_8
  type Word16 = x: int | 0 <= x < TWO_16
  type Word32 = x: int | 0 <= x < TWO_32
  type Word64 = x: int | 0 <= x < TWO_64
  type Int64 = x: int | -TWO_63 <= x < TWO_63

  /** A C string: a `char` is a byte, and memory holds fewer than 2^64 of them. */
  type CText = s: string | IsCText(s)

  predicate IsCText(s: string) {
    |s| < TWO_64 && forall i :: 0 <= i < |s| ==> s[i] as int < TWO_8
  }

  type Bytes = b: seq<Byte> | |b| < TWO_64

  /** The bits of a double that is a number or an infinity. */
  type Real64 = b: Word64 | !IsNaN(b)

  predicate IsNaN(bits: Word64) {
    bits % TWO_63 > 0x7FF0_0000_0000_0000
  }

  /** `static_cast<int64_t>` of an unsigned 64-bit value. */
  function ToSigned(u: Word64): Int64 {
    if u < TWO_63 then u else u - TWO_64
  }

  /** `static_cast<uint64_t>` of a signed 64-bit value. */
  function ToUnsigned(i: Int64): Word64 {
    if i >= 0 then i else i + TWO_64
  }

  /** `static_cast<uint32_t>` of a non-negative value. */
  function ToWord32(n: nat): Word32 {
    n % TWO_32
  }

  /** Does `needle` occur in `hay` at position `i`? */
  predicate OccursAt(hay: string, needle: string, i: nat) {
    i + |needle| <= |hay| && hay[i..i + |needle|] == needle
  }

  /** Is `p` an initial segment of `s`? */
  predicate IsPrefix<T(==)>(p: seq<T>, s: seq<T>) {
    |p| <= |s| && s[..|p|] == p
  }
}
