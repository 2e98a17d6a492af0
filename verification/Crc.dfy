/** The 16-bit CRC of CoreMark (core_util.c): reflected, polynomial constant 0xA001. */
module Crc {
  import opened Words
  import opened WordBits

  /** Addition over GF(2). */
  function Add(a: bv16, b: bv16): bv16 { a ^ b }

  function Bit(x: bv16): bv16 { x & 1 }

  function Half(x: bv16): bv16 { x >> 1 }

  /** One step of the reflected register: shift right, and add the polynomial if a one is shifted out. */
  function Shift(crc: bv16): bv16 {
    if Bit(crc) == 1 then Add(Half(crc), 0xA001) else Half(crc)
  }

  /** The low n bits of data enter the register one by one, lowest bit first. */
  function Serial(data: bv16, crc: bv16, n: nat): bv16
    decreases n
  {
    if n == 0 then crc else Serial(Half(data), Shift(Add(crc, Bit(data))), n - 1)
  }

  function CrcU8(data: bv8, crc: bv16): bv16 {
    Serial(data as bv16, crc, 8)
  }

  function CrcU16(newval: bv16, crc: bv16): bv16 {
    CrcU8((newval >> 8) as bv8, CrcU8((newval & 0xff) as bv8, crc))
  }

  function CrcU32(newval: bv32, crc: bv16): bv16 {
    CrcU16((newval >> 16) as bv16, CrcU16((newval & 0xffff) as bv16, crc))
  }

  /** crcu16 of a word kept as two bytes. */
  function CrcWord(newval: Word16, crc: bv16): bv16 {
    CrcU8(newval.hi as bv8, CrcU8(newval.lo as bv8, crc))
  }

  /** crc16 of the word that has these two bytes. */
  lemma CrcWordIs(d: Word16, crc: bv16)
    ensures CrcWord(d, crc) == CrcU16(Bits(d), crc) == CrcU16(Bits16(0x100 * d.hi as int + d.lo as int), crc)
  {
    hide CrcU8, Bits;
    BytesOfBits(d);
    BitsAreBytes(d);
  }

  /** crcu32 takes the low half first. */
  lemma CrcOfHalves(hi: bv16, lo: bv16, crc: bv16)
    ensures CrcU32((hi as bv32 << 16) | lo as bv32, crc) == CrcU16(hi, CrcU16(lo, crc))
  {
    hide CrcU16;
    Halves(hi, lo);
  }

  lemma Halves(hi: bv16, lo: bv16)
    ensures var w := (hi as bv32 << 16) | lo as bv32;
            (w & 0xffff) as bv16 == lo && (w >> 16) as bv16 == hi
  {
  }

  function CrcStream(values: seq<bv16>, crc: bv16): bv16 {
    if |values| == 0 then crc else CrcStream(values[1..], CrcU16(values[0], crc))
  }

  /** One turn of the loop of crcu8, with the source's own constants 0x4002, 0x8000 and 0x7fff. */
  method Turn(data: bv8, crc: bv16) returns (d: bv8, r: bv16)
    ensures d as bv16 == Half(data as bv16) && r == Shift(Add(crc, Bit(data as bv16)))
  {
    TurnCases(data, crc);
    CarryOne(crc);
    CarryZero(crc);
    var x16 := (data & 1) ^ ((crc & 1) as bv8);
    d := data >> 1;
    r := crc;
    var carry;
    if x16 == 1 {
      r := r ^ 0x4002;
      carry := 1;
    } else {
      carry := 0;
    }
    r := r >> 1;
    if carry == 1 {
      r := r | 0x8000;
    } else {
      r := r & 0x7fff;
    }
  }

  lemma ByteBits(data: bv8)
    ensures (data >> 1) as bv16 == (data as bv16) >> 1 && (data as bv16) & 1 == (data & 1) as bv16
    ensures data & 1 == 0 || data & 1 == 1
  {
  }

  lemma CarryOne(x: bv16)
    ensures (x >> 1) ^ 0xA001 == ((x ^ 0x4002) >> 1) | 0x8000
  {
  }

  lemma CarryZero(x: bv16)
    ensures x >> 1 == (x >> 1) & 0x7fff
  {
  }

  lemma FlipLowBit(x: bv16)
    ensures (x ^ 1) >> 1 == x >> 1
    ensures (x & 1 == 0 && (x ^ 1) & 1 == 1) || (x & 1 == 1 && (x ^ 1) & 1 == 0)
  {
  }

  lemma TurnCases(data: bv8, crc: bv16)
    ensures (data >> 1) as bv16 == Half(data as bv16)
    ensures (data & 1) ^ ((crc & 1) as bv8) == 1 <==> Bit(Add(crc, Bit(data as bv16))) == 1
    ensures Half(Add(crc, Bit(data as bv16))) == crc >> 1
  {
    ByteBits(data);
    FlipLowBit(crc);
    AddZero(crc);
  }

  method Crcu8(data: bv8, crc: bv16) returns (r: bv16)
    ensures r == CrcU8(data, crc)
  {
    hide Shift, Add, Bit, Half;
    var d := data;
    r := crc;
    for i := 0 to 8
      invariant Serial(d as bv16, r, 8 - i) == CrcU8(data, crc)
    {
      d, r := Turn(d, r);
    }
  }

  // ----- bit-vector facts

  lemma AddComm(a: bv16, b: bv16)
    ensures Add(a, b) == Add(b, a)
  {
  }

  lemma AddAssoc(a: bv16, b: bv16, c: bv16)
    ensures Add(Add(a, b), c) == Add(a, Add(b, c))
  {
  }

  lemma AddSelf(a: bv16)
    ensures Add(a, a) == 0
  {
  }

  lemma AddZero(a: bv16)
    ensures Add(a, 0) == a
  {
  }

  lemma AddSwap(a: bv16, b: bv16, c: bv16, d: bv16)
    ensures Add(Add(a, b), Add(c, d)) == Add(Add(a, c), Add(b, d))
  {
    hide Add;
    AddAssoc(a, b, Add(c, d));
    AddAssoc(b, c, d);
    AddComm(b, c);
    AddAssoc(c, b, d);
    AddAssoc(a, c, Add(b, d));
  }

  lemma AddCancel(a: bv16, b: bv16)
    ensures Add(Add(a, b), b) == a
  {
    hide Add;
    AddAssoc(a, b, b);
    AddSelf(b);
    AddZero(a);
  }

  lemma HalfLinear(a: bv16, b: bv16)
    ensures Half(Add(a, b)) == Add(Half(a), Half(b)) && Bit(Add(a, b)) == Add(Bit(a), Bit(b))
    ensures Bit(a) == 0 || Bit(a) == 1
  {
  }

  // ----- linearity

  lemma ShiftLinear(a: bv16, b: bv16)
    ensures Shift(Add(a, b)) == Add(Shift(a), Shift(b))
  {
    HalfLinear(a, b);
    HalfLinear(b, a);
    PolynomialCases(Half(a), Half(b));
    hide Half, Bit;
  }

  lemma PolynomialCases(a: bv16, b: bv16)
    ensures Add(Add(a, 0xA001), Add(b, 0xA001)) == Add(a, b)
    ensures Add(Add(a, 0xA001), b) == Add(Add(a, b), 0xA001) && Add(a, Add(b, 0xA001)) == Add(Add(a, b), 0xA001)
  {
    hide Add;
    AddSwap(a, 0xA001, b, 0xA001);
    AddSelf(0xA001);
    AddZero(Add(a, b));
    AddAssoc(a, 0xA001, b);
    AddComm(0xA001, b);
    AddAssoc(a, b, 0xA001);
  }

  /** The register is linear over XOR, in data and crc together. */
  lemma {:induction false} SerialLinear(d1: bv16, c1: bv16, d2: bv16, c2: bv16, n: nat)
    ensures Serial(Add(d1, d2), Add(c1, c2), n) == Add(Serial(d1, c1, n), Serial(d2, c2, n))
    decreases n
  {
    hide Shift, Add, Bit, Half;
    if n > 0 {
      HalfLinear(d1, d2);
      AddSwap(c1, c2, Bit(d1), Bit(d2));
      ShiftLinear(Add(c1, Bit(d1)), Add(c2, Bit(d2)));
      SerialLinear(Half(d1), Shift(Add(c1, Bit(d1))), Half(d2), Shift(Add(c2, Bit(d2))), n - 1);
    }
  }

  // ----- invertibility

  /** The inverse of Shift. */
  function Unshift(crc: bv16): bv16 {
    if crc & 0x8000 == 0x8000 then (Add(crc, 0xA001) << 1) | 1 else crc << 1
  }

  function ShiftN(crc: bv16, n: nat): bv16
    decreases n
  {
    if n == 0 then crc else ShiftN(Shift(crc), n - 1)
  }

  function UnshiftN(crc: bv16, n: nat): bv16 {
    if n == 0 then crc else Unshift(UnshiftN(crc, n - 1))
  }

  lemma TopBit(x: bv16)
    ensures ((x >> 1) ^ 0xA001) & 0x8000 == 0x8000 && (x >> 1) & 0x8000 == 0
    ensures x & 1 == 1 ==> ((x >> 1) << 1) | 1 == x
    ensures x & 1 != 1 ==> (x >> 1) << 1 == x
    ensures (x ^ 0xA001) ^ 0xA001 == x
  {
  }

  lemma LowBit(x: bv16)
    ensures x & 0x8000 == 0x8000 ==> (((x ^ 0xA001) << 1) | 1) >> 1 == x ^ 0xA001
    ensures x & 0x8000 != 0x8000 ==> (x << 1) >> 1 == x
    ensures (((x ^ 0xA001) << 1) | 1) & 1 == 1 && (x << 1) & 1 != 1
  {
  }

  lemma ShiftInverse(crc: bv16)
    ensures Unshift(Shift(crc)) == crc && Shift(Unshift(crc)) == crc
  {
    TopBit(crc);
    TopBit(crc >> 1);
    LowBit(crc);
  }

  lemma {:induction false} ShiftNInverse(crc: bv16, n: nat)
    ensures UnshiftN(ShiftN(crc, n), n) == crc && ShiftN(UnshiftN(crc, n), n) == crc
    decreases n
  {
    hide Shift, Unshift;
    if n > 0 {
      ShiftNInverse(Shift(crc), n - 1);
      ShiftInverse(crc);
      ShiftNInverse(crc, n - 1);
      ShiftInverse(UnshiftN(crc, n - 1));
    }
  }

  // ----- adding the data at once

  /** What is left of the data after n bits. */
  function HalfN(data: bv16, n: nat): bv16
    decreases n
  {
    if n == 0 then data else HalfN(Half(data), n - 1)
  }

  lemma LowBitApart(x: bv16)
    ensures x == Add(Bit(x), (x >> 1) << 1)
    ensures Shift((x >> 1) << 1) == Half(x)
  {
    assert ((x >> 1) << 1) & 1 != 1;
    assert ((x >> 1) << 1) >> 1 == x >> 1;
  }

  lemma Consume(data: bv16, crc: bv16)
    ensures Shift(Add(crc, data)) == Add(Shift(Add(crc, Bit(data))), Half(data))
  {
    hide Shift, Add, Bit, Half;
    LowBitApart(data);
    AddAssoc(crc, Bit(data), (data >> 1) << 1);
    ShiftLinear(Add(crc, Bit(data)), (data >> 1) << 1);
  }

  /** The data may as well be added to the register at once; n steps then shift it out again. */
  lemma {:induction false} SerialAtOnce(data: bv16, crc: bv16, n: nat)
    ensures Serial(data, crc, n) == Add(ShiftN(Add(crc, data), n), HalfN(data, n))
    decreases n
  {
    hide Shift, Add, Bit, Half;
    if n == 0 {
      AddCancel(crc, data);
    } else {
      var d, c := Half(data), Shift(Add(crc, Bit(data)));
      Consume(data, crc);
      SerialAtOnce(d, c, n - 1);
    }
  }

  lemma {:induction false} SerialSplit(data: bv16, crc: bv16, m: nat, n: nat)
    ensures Serial(data, crc, m + n) == Serial(HalfN(data, m), Serial(data, crc, m), n)
    decreases m
  {
    hide Shift, Add, Bit, Half;
    if m > 0 {
      SerialSplit(Half(data), Shift(Add(crc, Bit(data))), m - 1, n);
    }
  }

  // ----- sixteen bits at a time

  /** m has ones in its low n bits. */
  ghost predicate LowOnes(m: bv16, n: nat)
    decreases n
  {
    n == 0 || (m & 1 == 1 && LowOnes(m >> 1, n - 1))
  }

  lemma MaskStep(d1: bv16, d2: bv16, m: bv16)
    requires d1 & m == d2 & m && m & 1 == 1
    ensures Bit(d1) == Bit(d2) && Half(d1) & (m >> 1) == Half(d2) & (m >> 1)
  {
  }

  /** Only the low n bits of the data enter the register. */
  lemma {:induction false} SerialMask(d1: bv16, d2: bv16, crc: bv16, m: bv16, n: nat)
    requires LowOnes(m, n) && d1 & m == d2 & m
    ensures Serial(d1, crc, n) == Serial(d2, crc, n)
    decreases n
  {
    hide Shift, Add, Bit, Half;
    if n > 0 {
      MaskStep(d1, d2, m);
      SerialMask(Half(d1), Half(d2), Shift(Add(crc, Bit(d1))), m >> 1, n - 1);
    }
  }

  lemma ByteIsLowOnes()
    ensures LowOnes(0xff, 8)
  {
    assert LowOnes(0x0f, 4) by {
      assert LowOnes(0x3, 2);
      assert LowOnes(0x7, 3);
    }
    assert LowOnes(0x1f, 5);
    assert LowOnes(0x3f, 6);
    assert LowOnes(0x7f, 7);
  }

  lemma BytesOfWord(v: bv16)
    ensures ((v & 0xff) as bv8) as bv16 == v & 0xff && ((v >> 8) as bv8) as bv16 == v >> 8
    ensures (v & 0xff) & 0xff == v & 0xff
    ensures v >> 1 >> 1 >> 1 >> 1 >> 1 >> 1 >> 1 >> 1 == v >> 8
    ensures (v >> 8) >> 1 >> 1 >> 1 >> 1 >> 1 >> 1 >> 1 >> 1 == 0
  {
  }

  lemma HalfEight(v: bv16)
    ensures HalfN(v, 8) == Half(Half(Half(Half(Half(Half(Half(Half(v))))))))
  {
    hide Half;
    HalfSplit(v, 4, 4);
  }

  lemma HalfEightIsShift(v: bv16)
    ensures Half(Half(Half(Half(Half(Half(Half(Half(v)))))))) == v >> 1 >> 1 >> 1 >> 1 >> 1 >> 1 >> 1 >> 1
  {
  }

  /** crcu16 is sixteen steps of the register on the value added to the crc. */
  lemma WordAtOnce(v: bv16, crc: bv16)
    ensures CrcU16(v, crc) == ShiftN(Add(crc, v), 16)
  {
    hide Shift, Add, Bit, Half, ShiftN, HalfN, Serial;
    BytesOfWord(v);
    ByteIsLowOnes();
    SerialMask(v & 0xff, v, crc, 0xff, 8);
    HalfEight(v);
    HalfEightIsShift(v);
    SerialSplit(v, crc, 8, 8);
    SerialAtOnce(v, crc, 16);
    HalfSplit(v, 8, 8);
    HalfEight(v >> 8);
    HalfEightIsShift(v >> 8);
    AddZero(ShiftN(Add(crc, v), 16));
  }

  lemma {:induction false} HalfSplit(data: bv16, m: nat, n: nat)
    ensures HalfN(data, m + n) == HalfN(HalfN(data, m), n)
    decreases m
  {
    hide Half;
    if m > 0 {
      HalfSplit(Half(data), m - 1, n);
    }
  }

  /** crcu16 is linear over XOR. */
  lemma WordLinear(v1: bv16, c1: bv16, v2: bv16, c2: bv16)
    ensures CrcU16(Add(v1, v2), Add(c1, c2)) == Add(CrcU16(v1, c1), CrcU16(v2, c2))
  {
    hide Shift, Add, CrcU16;
    WordAtOnce(v1, c1);
    WordAtOnce(v2, c2);
    WordAtOnce(Add(v1, v2), Add(c1, c2));
    AddSwap(c1, c2, v1, v2);
    ShiftNLinear(Add(c1, v1), Add(c2, v2), 16);
  }

  lemma {:induction false} ShiftNLinear(a: bv16, b: bv16, n: nat)
    ensures ShiftN(Add(a, b), n) == Add(ShiftN(a, n), ShiftN(b, n))
    decreases n
  {
    hide Shift, Add;
    if n > 0 {
      ShiftLinear(a, b);
      ShiftNLinear(Shift(a), Shift(b), n - 1);
    }
  }

  /** The crc before a word, from the crc behind it. */
  function Uncrc(v: bv16, crc: bv16): bv16 {
    Add(UnshiftN(crc, 16), v)
  }

  /** For every word, crcu16 is a bijection on the crc. */
  lemma WordBijective(v: bv16, crc: bv16)
    ensures Uncrc(v, CrcU16(v, crc)) == crc && CrcU16(v, Uncrc(v, crc)) == crc
  {
    hide Shift, Add, Unshift, CrcU16, ShiftN, UnshiftN;
    WordAtOnce(v, crc);
    ShiftNInverse(Add(crc, v), 16);
    AddCancel(crc, v);
    WordAtOnce(v, Uncrc(v, crc));
    AddCancel(UnshiftN(crc, 16), v);
    ShiftNInverse(crc, 16);
  }

  /** For every crc, different words give different crcs. */
  lemma WordInjective(v1: bv16, v2: bv16, crc: bv16)
    requires v1 != v2
    ensures CrcU16(v1, crc) != CrcU16(v2, crc)
  {
    hide Shift, Add, Unshift, CrcU16, ShiftN, UnshiftN;
    WordAtOnce(v1, crc);
    WordAtOnce(v2, crc);
    ShiftNInverse(Add(crc, v1), 16);
    ShiftNInverse(Add(crc, v2), 16);
    AddComm(crc, v1);
    AddComm(crc, v2);
    AddCancel(v1, crc);
    AddCancel(v2, crc);
  }

  /** Streams that differ only in how they started stay different. */
  lemma {:induction false} StreamInjective(values: seq<bv16>, c1: bv16, c2: bv16)
    requires c1 != c2
    ensures CrcStream(values, c1) != CrcStream(values, c2)
  {
    hide CrcU16, Uncrc;
    if |values| > 0 {
      WordBijective(values[0], c1);
      WordBijective(values[0], c2);
      StreamInjective(values[1..], CrcU16(values[0], c1), CrcU16(values[0], c2));
    }
  }

  /** One wrong value anywhere in a stream of any length always changes the crc. */
  lemma {:induction false} OneErrorIsDetected(a: seq<bv16>, b: seq<bv16>, k: nat, crc: bv16)
    requires |a| == |b| && k < |a| && a[k] != b[k]
    requires forall i :: 0 <= i < |a| && i != k ==> a[i] == b[i]
    ensures CrcStream(a, crc) != CrcStream(b, crc)
    decreases k
  {
    hide CrcU16;
    if k == 0 {
      WordInjective(a[0], b[0], crc);
      assert a[1..] == b[1..];
      StreamInjective(a[1..], CrcU16(a[0], crc), CrcU16(b[0], crc));
    } else {
      OneErrorIsDetected(a[1..], b[1..], k - 1, CrcU16(a[0], crc));
    }
  }

  // ----- the polynomial

  /** Bit i becomes bit 15 - i. */
  function Reflect(x: bv16): bv16 {
    ((x & 0x0001) << 15) | ((x & 0x0002) << 13) | ((x & 0x0004) << 11) | ((x & 0x0008) << 9)
    | ((x & 0x0010) << 7) | ((x & 0x0020) << 5) | ((x & 0x0040) << 3) | ((x & 0x0080) << 1)
    | ((x & 0x0100) >> 1) | ((x & 0x0200) >> 3) | ((x & 0x0400) >> 5) | ((x & 0x0800) >> 7)
    | ((x & 0x1000) >> 9) | ((x & 0x2000) >> 11) | ((x & 0x4000) >> 13) | ((x & 0x8000) >> 15)
  }

  /** Multiplication by x modulo x^16 + x^15 + x^2 + 1, with the highest power in the highest bit. */
  function TimesX(r: bv16): bv16 {
    if r & 0x8000 == 0x8000 then Add(r << 1, 0x8005) else r << 1
  }

  /** Polynomial division, highest power first: each data bit is added at x^15 and the remainder multiplied by x. */
  function Remainder(data: bv16, r: bv16, n: nat): bv16
    decreases n
  {
    if n == 0 then r else Remainder(Half(data), TimesX(Add(r, Bit(data) << 15)), n - 1)
  }

  lemma ReflectHalf(x: bv16)
    ensures Reflect(x >> 1) == Reflect(x) << 1
  {
  }

  lemma ReflectXor(x: bv16, y: bv16)
    ensures Reflect(x ^ y) == Reflect(x) ^ Reflect(y)
  {
  }

  lemma ReflectLowBit(x: bv16)
    ensures x & 1 == 1 <==> Reflect(x) & 0x8000 == 0x8000
  {
  }

  lemma ReflectConstants()
    ensures Reflect(0xA001) == 0x8005 && Reflect(0) == 0 && Reflect(1) == 0x8000
  {
  }

  lemma ReflectShift(crc: bv16)
    ensures Reflect(Shift(crc)) == TimesX(Reflect(crc))
  {
    hide Reflect, Add;
    ReflectHalf(crc);
    ReflectLowBit(crc);
    ReflectAdd(crc >> 1, 0xA001);
    ReflectConstants();
  }

  lemma ReflectBit(data: bv16)
    ensures Reflect(Bit(data)) == Bit(data) << 15
  {
    ReflectConstants();
    HalfLinear(data, data);
  }

  lemma ReflectAdd(x: bv16, y: bv16)
    ensures Reflect(Add(x, y)) == Add(Reflect(x), Reflect(y))
  {
    ReflectXor(x, y);
  }

  /** Read from the other end, the register is the remainder of a division by x^16 + x^15 + x^2 + 1. */
  lemma {:induction false} SerialIsRemainder(data: bv16, crc: bv16, n: nat)
    ensures Reflect(Serial(data, crc, n)) == Remainder(data, Reflect(crc), n)
    decreases n
  {
    hide Reflect, Add, Bit, Half, Shift, TimesX;
    if n > 0 {
      ReflectAdd(crc, Bit(data));
      ReflectBit(data);
      ReflectShift(Add(crc, Bit(data)));
      SerialIsRemainder(Half(data), Shift(Add(crc, Bit(data))), n - 1);
    }
  }
}
