/** Go's fixed-width integers: the four widths, their ranges, and the
    conversions between them, which keep the low bits (two's complement
    wrap-around) rather than saturating. Go's int and uint are taken as
    64 bits wide. */
module Ints {

  datatype Width = W8 | W16 | W32 | W64

  /** 2^bits. */
  function Modulus(w: Width): nat
  {
    match w
    case W8 => 0x100
    case W16 => 0x1_0000
    case W32 => 0x1_0000_0000
    case W64 => 0x1_0000_0000_0000_0000
  }

  /** 2^(bits-1): the magnitude of the most negative signed value. */
  function Half(w: Width): int
  {
    match w
    case W8 => 0x80
    case W16 => 0x8000
    case W32 => 0x8000_0000
    case W64 => 0x8000_0000_0000_0000
  }

  predicate InSigned(i: int, w: Width)
  {
    -Half(w) <= i < Half(w)
  }

  predicate InUnsigned(i: int, w: Width)
  {
    0 <= i < Modulus(w)
  }

  /** The unsigned conversion T(x) for an unsigned type T of width w keeps
      the low bits of x: the remainder modulo 2^bits. */
  function WrapUnsigned(x: int, w: Width): (r: nat)
    ensures InUnsigned(r, w)
  {
    x % Modulus(w)
  }

  /** The signed conversion T(x) for a signed type T of width w: the value
      of T's range with the same low bits as x. */
  function WrapSigned(x: int, w: Width): (r: int)
    ensures InSigned(r, w)
    ensures WrapUnsigned(r, w) == WrapUnsigned(x, w)
  {
    var u := x % Modulus(w);
    if u < Half(w) then u else u - Modulus(w)
  }

  /** A converted value is determined by its range and its low bits alone. */
  lemma WrapSignedUnique(x: int, r: int, w: Width)
    requires InSigned(r, w) && WrapUnsigned(r, w) == WrapUnsigned(x, w)
    ensures WrapSigned(x, w) == r
  {
  }

  /** A value already in range is unchanged by the conversion. */
  lemma WrapSignedId(x: int, w: Width)
    requires InSigned(x, w)
    ensures WrapSigned(x, w) == x
  {
  }

  /** Go's float-to-integer conversion discards the fraction (rounds toward
      zero). */
  function Trunc(f: real): (r: int)
    ensures 0.0 <= f ==> r as real <= f < r as real + 1.0
    ensures f < 0.0 ==> r as real - 1.0 < f <= r as real
  {
    if f >= 0.0 then f.Floor else -((-f).Floor)
  }
}
