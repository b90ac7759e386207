/** Fixed-width unsigned and signed integers used by the C++ and Rust sources,
    with the wrap-around and clamping those sources perform spelled out. */
module BoundedInts {

  const TwoTo8: int := 0x100
  const TwoTo16: int := 0x1_0000
  const TwoTo31: int := 0x8000_0000
  const TwoTo32: int := 0x1_0000_0000
  const TwoTo64: int := 0x1_0000_0000_0000_0000

  type uint8 = x: int | 0 <= x < 0x100
  type uint16 = x: int | 0 <= x < 0x1_0000
  type uint32 = x: int | 0 <= x < 0x1_0000_0000
  type uint64 = x: int | 0 <= x < 0x1_0000_0000_0000_0000
  type int32 = x: int | -0x8000_0000 <= x < 0x8000_0000

  const Uint16Max: uint16 := 0xFFFF
  const Uint32Max: uint32 := 0xFFFF_FFFF
  const Uint64Max: uint64 := 0xFFFF_FFFF_FFFF_FFFF

  /** `std::clamp(x, lo, hi)` / Rust `x.clamp(lo, hi)` on integers. */
  function Clamp(x: int, lo: int, hi: int): (r: int)
    requires lo <= hi
    ensures lo <= r <= hi
    ensures lo <= x <= hi ==> r == x
    ensures x < lo ==> r == lo
    ensures hi < x ==> r == hi
  {
    if x < lo then lo else if hi < x then hi else x
  }

  /** Unsigned 64-bit subtraction `a - b` (ULONGLONG), which wraps modulo 2^64. */
  function Sub64(a: uint64, b: uint64): (r: uint64)
    ensures b <= a ==> r == a - b
    ensures a < b ==> r == a - b + TwoTo64
  {
    (a - b) % TwoTo64
  }

  /** `static_cast<uint32_t>` of a 32-bit signed value: two's-complement reinterpretation. */
  function Int32ToUint32(i: int32): (u: uint32)
    ensures 0 <= i ==> u == i
    ensures i < 0 ==> u == i + TwoTo32
  {
    (i + TwoTo32) % TwoTo32
  }

  /** `static_cast<int>` of a 32-bit unsigned value: two's-complement reinterpretation. */
  function Uint32ToInt32(u: uint32): (i: int32)
    ensures u < TwoTo31 ==> i == u
    ensures TwoTo31 <= u ==> i == u - TwoTo32
  {
    if u < TwoTo31 then u else u - TwoTo32
  }

  /** The two casts are inverse to each other, so a status code survives the
      round trip through an unsigned field. */
  lemma Int32RoundTrip(i: int32)
    ensures Uint32ToInt32(Int32ToUint32(i)) == i
  {
  }

  /** `(bits >> (8 * k)) & 0xFF` on an unsigned word. */
  function ByteOf(bits: uint32, k: nat): uint8
    requires k < 4
  {
    var shifted := if k == 0 then bits else if k == 1 then bits / 0x100 else if k == 2 then bits / 0x1_0000 else bits / 0x100_0000;
    (shifted % 256) as uint8
  }
}
