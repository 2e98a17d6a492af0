/** Facts about the bits of numbers. */
module Bitwise {
  import opened Arithmetic
  import opened Words

  /** Bit k of a number in two's complement. */
  function BitOf(x: int, k: nat): int {
    x / Pow2(k) % 2
  }

  lemma HalfOf(x: int, p: nat)
    requires p > 0
    ensures x / (2 * p) == x / 2 / p
  {
    var h, b := x / 2, x % 2;
    var q, r := h / p, h % p;
    assert x == 2 * h + b && h == q * p + r;
    assert x == q * (2 * p) + (2 * r + b);
    Div(q, 2 * r + b, 2 * p);
  }

  lemma HigherBit(x: int, k: nat)
    requires k > 0
    ensures BitOf(x, k) == BitOf(x / 2, k - 1)
  {
    HalfOf(x, Pow2(k - 1));
  }

  lemma LowestBit(x: int)
    ensures BitOf(x, 0) == x % 2
  {
    assert Pow2(0) == 1;
  }

  /** Exclusive or, bit by bit. */
  lemma {:induction false} XorBitOf(x: int, y: int, n: nat, k: nat)
    requires k < n
    ensures BitOf(XorBits(x, y, n), k) == if BitOf(x, k) == BitOf(y, k) then 0 else 1
    decreases n
  {
    var half := XorBits(x / 2, y / 2, n - 1);
    hide BitOf;
    LowestBit(x);
    LowestBit(y);
    LowestBit(XorBits(x, y, n));
    if k > 0 {
      XorBitOf(x / 2, y / 2, n - 1, k - 1);
      HigherBit(x, k);
      HigherBit(y, k);
      HigherBit(XorBits(x, y, n), k);
      assert XorBits(x, y, n) / 2 == half;
    }
  }

  /** Or, bit by bit. */
  lemma {:induction false} OrBitOf(x: int, y: int, n: nat, k: nat)
    requires k < n
    ensures BitOf(OrBits(x, y, n), k) == if BitOf(x, k) == 0 && BitOf(y, k) == 0 then 0 else 1
    decreases n
  {
    var half := OrBits(x / 2, y / 2, n - 1);
    hide BitOf;
    LowestBit(x);
    LowestBit(y);
    LowestBit(OrBits(x, y, n));
    if k > 0 {
      OrBitOf(x / 2, y / 2, n - 1, k - 1);
      HigherBit(x, k);
      HigherBit(y, k);
      HigherBit(OrBits(x, y, n), k);
      assert OrBits(x, y, n) / 2 == half;
    }
  }

  lemma {:induction false} OrZero(x: nat, n: nat)
    requires x < Pow2(n)
    ensures OrBits(x, 0, n) == x
  {
    if n > 0 {
      OrZero(x / 2, n - 1);
    }
  }

  lemma {:induction false} OrComm(x: nat, y: nat, n: nat)
    ensures OrBits(x, y, n) == OrBits(y, x, n)
  {
    if n > 0 {
      OrComm(x / 2, y / 2, n - 1);
    }
  }

  lemma Halve(x1: nat, x0: nat, p: nat)
    ensures (x1 * (2 * p) + x0) % 2 == x0 % 2
    ensures (x1 * (2 * p) + x0) / 2 == x1 * p + x0 / 2
  {
    assert x1 * (2 * p) == 2 * (x1 * p);
  }

  /** Or of a multiple of a power of two and a smaller number is their sum. */
  lemma {:induction false} OrIsSum(q: nat, y: nat, k: nat, n: nat)
    requires y < Pow2(k) && q * Pow2(k) + y < Pow2(n)
    ensures OrBits(q * Pow2(k), y, n) == q * Pow2(k) + y
  {
    if k == 0 {
      OrZero(q, n);
    } else if n > 0 {
      Halve(q, 0, Pow2(k - 1));
      assert q * Pow2(k) == 2 * (q * Pow2(k - 1));
      OrIsSum(q, y / 2, k - 1, n - 1);
    }
  }

  /** Or works on the two parts of a number separately. */
  lemma {:induction false} OrSplit(x1: nat, x0: nat, y1: nat, y0: nat, k: nat, n: nat)
    requires k <= n && x0 < Pow2(k) && y0 < Pow2(k)
    ensures OrBits(x1 * Pow2(k) + x0, y1 * Pow2(k) + y0, n) == OrBits(x1, y1, n - k) * Pow2(k) + OrBits(x0, y0, k)
  {
    if k > 0 {
      var p := Pow2(k - 1);
      Halve(x1, x0, p);
      Halve(y1, y0, p);
      OrSplit(x1, x0 / 2, y1, y0 / 2, k - 1, n - 1);
      Double(OrBits(x1, y1, n - k), p);
      hide Pow2;
    }
  }

  lemma Double(a: nat, p: nat)
    ensures 2 * (a * p) == a * (2 * p)
  {
  }
}
