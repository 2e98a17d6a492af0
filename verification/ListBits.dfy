/** The items that core_list_init makes, bit by bit (core_list_join.c). */
module ListBits {
  import opened Arithmetic
  import opened Words
  import opened Bitwise
  import opened ListInit

  /** Bits of a sum of a multiple of a power of two and a smaller number. */
  lemma {:induction false} BitOfParts(q: int, r: nat, n: nat, k: nat)
    requires r < Pow2(n)
    ensures BitOf(q * Pow2(n) + r, k) == if k < n then BitOf(r, k) else BitOf(q, k - n)
    decreases n
  {
    hide BitOf;
    if n > 0 {
      var p := Pow2(n - 1);
      var x := q * Pow2(n) + r;
      assert x / 2 == q * p + r / 2 && x % 2 == r % 2 by {
        Halves(q, p, r);
      }
      LowestBit(x);
      LowestBit(r);
      if k > 0 {
        BitOfParts(q, r / 2, n - 1, k - 1);
        HigherBit(x, k);
        HigherBit(r, k);
      }
    }
  }

  lemma Halves(q: int, p: nat, r: nat)
    ensures (q * (2 * p) + r) / 2 == q * p + r / 2 && (q * (2 * p) + r) % 2 == r % 2
  {
    assert q * (2 * p) == 2 * (q * p);
  }

  /** The low n bits of a number are those of its remainder. */
  lemma BitOfRemainder(x: int, n: nat, k: nat)
    ensures BitOf(x % Pow2(n), k) == if k < n then BitOf(x, k) else 0
  {
    hide BitOf;
    var q, r := x / Pow2(n), x % Pow2(n);
    BitOfParts(q, r, n, k);
    BitOfParts(0, r, n, k);
    ZeroBit(k - n);
  }

  lemma ZeroBit(k: int)
    ensures k >= 0 ==> BitOf(0, k) == 0
  {
    if k >= 0 {
      Div(0, 0, Pow2(k));
    }
  }

  lemma SomePowers()
    ensures Pow2(3) == 8 && Pow2(4) == 16 && Pow2(8) == 0x100 && Pow2(14) == 0x4000
  {
    assert Pow2(8) == 0x10 * Pow2(4);
    assert Pow2(12) == 0x10 * Pow2(8);
  }

  /**
   * Both bytes of item i are the same: bits 0 to 2 are those of i, bits 3 to 6 the exclusive or of bits 0 to 3 of the
   * seed and i, and bit 7 is clear.
   */
  lemma ItemDataBits(seed: s16, i: nat, k: nat)
    requires k < 8
    ensures ItemData(seed, i).hi == ItemData(seed, i).lo
    ensures BitOf(ItemData(seed, i).lo as int, k) ==
      if k < 3 then BitOf(i, k)
      else if k < 7 then (if BitOf(seed as int, k - 3) == BitOf(i, k - 3) then 0 else 1)
      else 0
  {
    hide BitOf, XorBits, Pow2;
    SomePowers();
    var x := XorBits(seed, i, 4);
    BitOfParts(x, i % 8, 3, k);
    if k < 3 {
      BitOfRemainder(i, 3, k);
    } else if k < 7 {
      XorBitOf(seed, i, 4, k - 3);
    } else {
      BitOfParts(0, x, 4, 4);
      ZeroBit(0);
    }
  }

  /**
   * Bit k of the index of a mixed item: the exclusive or of bit k of i and of the seed; or, for bits 8 to 10, one as
   * well where i + 1 has a one in bit k - 8.
   */
  lemma MixedIdxBits(seed: s16, i: nat, k: nat)
    requires k < 14
    ensures var mixed := if BitOf(i, k) == BitOf(seed as int, k) then 0 else 1;
            BitOf(MixedIdx(seed, i) as int, k) == if 8 <= k < 11 && BitOf(i + 1, k - 8) == 1 then 1 else mixed
  {
    hide BitOf, XorBits, OrBits, Pow2;
    SomePowers();
    var h, b := (i + 1) % 8, XorBits(i, seed, 16);
    BitOfRemainder(OrBits(h * 0x100, b, 16), 14, k);
    OrBitOf(h * 0x100, b, 16, k);
    XorBitOf(i, seed, 16, k);
    BitOfParts(h, 0, 8, k);
    ZeroBit(k);
    if k >= 8 {
      BitOfRemainder(i + 1, 3, k - 8);
    }
    BitRange(i + 1, k - 8);
  }

  lemma BitRange(x: int, k: int)
    ensures k >= 0 ==> BitOf(x, k) == 0 || BitOf(x, k) == 1
  {
  }
}
