/** Vocabulary shared by every component: options and results, Rust's fixed-width
    integers, and texts as the UTF-8 bytes of a Rust `String`. */
module Prelude {

  datatype Option<+T> = None | Some(value: T)

  datatype Result<+T, +E> = Ok(value: T) | Err(error: E)

  type byte = b: int | 0 <= b < 256

  const U32_MODULUS: int := 0x1_0000_0000
  const U64_MODULUS: int := 0x1_0000_0000_0000_0000

  const U64_MAX: int := U64_MODULUS - 1

  type u64 = n: int | 0 <= n < U64_MODULUS

  /** The bytes of a Rust `String` or `&[u8]`. */
  type Text = seq<byte>

  ghost predicate NulFree(t: Text) {
    forall i :: 0 <= i < |t| ==> t[i] != 0
  }

  /** The bytes of an ASCII literal; a character that is not printable ASCII reads as `?`. */
  function Ascii(s: string): (t: Text)
    ensures |t| == |s|
    ensures forall i :: 0 <= i < |s| && 0 < s[i] as int < 128 ==> t[i] == s[i] as int
    ensures NulFree(t)
  {
    seq(|s|, i requires 0 <= i < |s| => if 0 < s[i] as int < 128 then s[i] as int else 63)
  }

  /** A lower-case hexadecimal digit. */
  function HexDigit(d: int): (h: byte)
    requires 0 <= d < 16
    ensures h == "0123456789abcdef"[d] as int
  {
    if d < 10 then 48 + d else 87 + d
  }

  /** The value of a digit; 0 when it is none. */
  function DigitOf(h: byte): (d: nat)
    ensures d < 16
  {
    if 48 <= h < 58 then h - 48 else if 97 <= h < 103 then h - 87 else 0
  }

  function Min(a: int, b: int): int {
    if a <= b then a else b
  }

  /** `iter().position(..)`: the first element that satisfies `p`. */
  function FirstIndex<T>(xs: seq<T>, p: T -> bool): (index: Option<nat>)
    ensures index.Some? ==> index.value < |xs| && p(xs[index.value])
    ensures index.Some? ==> forall i :: 0 <= i < index.value ==> !p(xs[i])
    ensures index.None? ==> forall i :: 0 <= i < |xs| ==> !p(xs[i])
  {
    if xs == [] then None
    else if p(xs[0]) then Some(0)
    else match FirstIndex(xs[1..], p)
         case None => None
         case Some(i) => Some(i + 1)
  }

  ghost predicate NoDuplicates<T>(xs: seq<T>) {
    forall i, j :: 0 <= i < j < |xs| ==> xs[i] != xs[j]
  }
}
