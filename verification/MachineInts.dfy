/**
 Fixed-width C++ integers, written out on unbounded ones. A value that leaves its
 width wraps (unsigned conversions, and the narrowing conversions of gcc and clang);
 division truncates toward zero.
 */
module MachineInts {
  type short = y: int | -0x8000 <= y <= 0x7fff
  type int32 = z: int | -0x8000_0000 <= z <= 0x7fff_ffff
  type uint32 = u: int | 0 <= u <= 0xffff_ffff
  type uchar = c: int | 0 <= c <= 255

  /** Conversion to a 32-bit unsigned integer. */
  function U32(x: int): uint32 {
    if 0 <= x <= 0xffff_ffff then x else x % 0x1_0000_0000
  }

  /** Conversion to a 32-bit signed integer. */
  function I32(x: int): int32 {
    if -0x8000_0000 <= x <= 0x7fff_ffff then x else (x + 0x8000_0000) % 0x1_0000_0000 - 0x8000_0000
  }

  /** Conversion to a 16-bit signed integer. */
  function I16(x: int): short {
    if -0x8000 <= x <= 0x7fff then x else (x + 0x8000) % 0x1_0000 - 0x8000
  }

  /** Conversion to an 8-bit unsigned integer. */
  function U8(x: int): uchar {
    if 0 <= x <= 255 then x else x % 256
  }

  /** The `/` of C++ on signed operands. */
  function Quot(a: int, b: nat): int
    requires b > 0
  {
    if a >= 0 then a / b else -((-a) / b)
  }

  /** A conversion leaves alone what fits, and otherwise changes it by a multiple of two to the width. */
  lemma UnsignedWraps(x: int) returns (k: int, j: int)
    ensures x == U32(x) + 0x1_0000_0000 * k && (0 <= x <= 0xffff_ffff <==> k == 0)
    ensures x == U8(x) + 0x100 * j && (0 <= x <= 0xff <==> j == 0)
  {
    k, j := x / 0x1_0000_0000, x / 0x100;
  }

  lemma SignedWraps(x: int) returns (k: int, j: int)
    ensures x == I32(x) + 0x1_0000_0000 * k && (-0x8000_0000 <= x <= 0x7fff_ffff <==> k == 0)
    ensures x == I16(x) + 0x1_0000 * j && (-0x8000 <= x <= 0x7fff <==> j == 0)
  {
    k, j := (x + 0x8000_0000) / 0x1_0000_0000, (x + 0x8000) / 0x1_0000;
  }

  /** Division truncates: the remainder is smaller than the divisor, and has the sign of the dividend. */
  lemma QuotTruncates(a: int, b: nat)
    requires b > 0
    ensures var r := a - Quot(a, b) * b;
            if a >= 0 then 0 <= r < b else r <= 0 && -r < b
  {
    var n := if a >= 0 then a else -a;
    assert n == n / b * b + n % b;
    assert (-(n / b)) * b == -(n / b * b);
  }
}
