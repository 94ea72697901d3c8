/**
 The integer types of the C code: their ranges and the conversion to a 32-bit int.
 */
module CInts {

  const U32: int := 0x1_0000_0000
  const U64: int := 0x1_0000_0000_0000_0000
  const I32_MIN: int := -0x8000_0000
  const I32_MAX: int := 0x7fff_ffff
  const I64_MIN: int := -0x8000_0000_0000_0000
  const I64_MAX: int := 0x7fff_ffff_ffff_ffff

  /** The conversion of a wider or unsigned integer to a C int. */
  function I32(v: int): (r: int)
    ensures I32_MIN <= r <= I32_MAX
    ensures I32_MIN <= v <= I32_MAX ==> r == v
  {
    (v - I32_MIN) % U32 + I32_MIN
  }

  /** Division in C rounds toward zero, and the remainder has the sign of the dividend. */
  function Quotient(a: int, b: int): (q: int)
    requires b > 0
  {
    if a >= 0 then a / b else -(-a / b)
  }

  function Remainder(a: int, b: int): (r: int)
    requires b > 0
    ensures -b < r < b
  {
    if a >= 0 then a % b else -(-a % b)
  }

  // ---- Integers in memory, lowest byte first ----------------------------------------------------

  type Byte = x: int | 0 <= x < 256

  function IntBytes(v: int): (r: seq<Byte>)
    ensures |r| == 4
  {
    var u := v % U32;
    [u % 0x100, u / 0x100 % 0x100, u / 0x100 / 0x100 % 0x100, u / 0x100 / 0x100 / 0x100]
  }

  /** The unsigned value of the four bytes at an address. */
  function U32At(memory: seq<Byte>, at: int): (u: int)
    requires 0 <= at && at + 4 <= |memory|
    ensures 0 <= u < U32
  {
    var b0: int, b1: int, b2: int, b3: int := memory[at], memory[at + 1], memory[at + 2], memory[at + 3];
    b0 + 0x100 * b1 + 0x1_0000 * b2 + 0x100_0000 * b3
  }

  lemma ReadBack(memory: seq<Byte>, at: int, v: int)
    requires 0 <= at && at + 4 <= |memory| && memory[at..at + 4] == IntBytes(v)
    ensures U32At(memory, at) == v % U32
  {
    var bytes := memory[at..at + 4];
    assert memory[at] == bytes[0] && memory[at + 1] == bytes[1] && memory[at + 2] == bytes[2] && memory[at + 3] == bytes[3];
    Recomposed(v % U32);
  }

  lemma Recomposed(u: int)
    requires 0 <= u < U32
    ensures u % 0x100 + 0x100 * (u / 0x100 % 0x100) + 0x1_0000 * (u / 0x100 / 0x100 % 0x100)
            + 0x100_0000 * (u / 0x100 / 0x100 / 0x100) == u
  {
    var a := u / 0x100;
    var b := a / 0x100;
    assert u == 0x100 * a + u % 0x100;
    assert a == 0x100 * b + a % 0x100;
    assert b == 0x100 * (b / 0x100) + b % 0x100;
  }
}
