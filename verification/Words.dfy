/** The fixed-width C integer types. */
module Words {
  type u8 = x: int | 0 <= x < 0x100
  type u16 = x: int | 0 <= x < 0x1_0000
  type s16 = x: int | -0x8000 <= x < 0x8000
  type s32 = x: int | -0x8000_0000 <= x < 0x8000_0000
  type u32 = x: int | 0 <= x < 0x1_0000_0000

  /** A 16-bit word that the program takes apart byte by byte. */
  datatype Word16 = Word16(hi: u8, lo: u8)

  /** Conversion to `signed short`: keep the low 16 bits, read as two's complement. */
  function ToS16(x: int): s16 {
    var m := x % 0x1_0000;
    if m >= 0x8000 then m - 0x1_0000 else m
  }

  /** The low 16 bits of an integer, as bits. */
  function Bits16(x: int): bv16 {
    (x % 0x1_0000) as bv16
  }

  function Pow2(n: nat): (p: nat)
    ensures p > 0
  {
    if n == 0 then 1 else 2 * Pow2(n - 1)
  }

  lemma Powers()
    ensures Pow2(1) == 2 && Pow2(2) == 4 && Pow2(4) == 0x10 && Pow2(5) == 0x20 && Pow2(6) == 0x40 && Pow2(8) == 0x100
    ensures Pow2(10) == 0x400 && Pow2(12) == 0x1000 && Pow2(16) == 0x1_0000 && Pow2(20) == 0x10_0000
    ensures Pow2(27) == 0x800_0000 && Pow2(28) == 0x1000_0000 && Pow2(32) == 0x1_0000_0000
  {
    assert Pow2(4) == 0x10;
    assert Pow2(8) == 0x100;
    assert Pow2(12) == 0x1000;
    assert Pow2(16) == 0x1_0000;
    assert Pow2(20) == 0x10_0000;
    assert Pow2(24) == 0x100_0000;
    assert Pow2(28) == 0x1000_0000;
    assert Pow2(32) == 0x1_0000_0000;
  }

  /** Exclusive or of the low n bits of two integers in two's complement. */
  function XorBits(x: int, y: int, n: nat): (r: nat)
    ensures r < Pow2(n)
    decreases n
  {
    if n == 0 then 0
    else (if x % 2 == y % 2 then 0 else 1) + 2 * XorBits(x / 2, y / 2, n - 1)
  }

  /** Or of the low n bits of two integers in two's complement. */
  function OrBits(x: int, y: int, n: nat): (r: nat)
    ensures r < Pow2(n)
    decreases n
  {
    if n == 0 then 0
    else (if x % 2 == 0 && y % 2 == 0 then 0 else 1) + 2 * OrBits(x / 2, y / 2, n - 1)
  }
}
