/** The bits of a 16-bit word that is kept as two bytes. */
module WordBits {
  import opened Words

  /** The word as the machine holds it. */
  function Bits(d: Word16): bv16 {
    ((d.hi as bv8) as bv16 << 8) | (d.lo as bv8) as bv16
  }

  lemma ByteAgain(b: bv8)
    ensures (b as int) as bv8 == b
  {
  }

  lemma FourBitValue(x: int)
    requires 0 <= x < 0x10
    ensures (x as bv4) as int == x
  {
  }

  lemma NibblesValue(h: bv4, l: bv4)
    ensures ((h as bv8 << 4) | l as bv8) as int == 0x10 * (h as int) + l as int
  {
  }

  lemma ByteValue(x: int)
    requires 0 <= x < 0x100
    ensures (x as bv8) as int == x
  {
    var h, l := (x / 0x10) as bv4, (x % 0x10) as bv4;
    FourBitValue(x / 0x10);
    FourBitValue(x % 0x10);
    NibblesValue(h, l);
    ByteAgain((h as bv8 << 4) | l as bv8);
  }

  lemma WordAgain(w: bv16)
    ensures (w as int) as bv16 == w
  {
  }

  lemma Widened(b: bv8)
    ensures (b as bv16) as int == b as int
  {
  }

  lemma WordDigits(w: bv16)
    ensures (w & 0xff) as int == w as int % 0x100 && (w >> 8) as int == w as int / 0x100
  {
  }

  lemma Joined(hi: bv8, lo: bv8)
    ensures var w := (hi as bv16 << 8) | lo as bv16;
            w & 0xff == lo as bv16 && w >> 8 == hi as bv16
  {
  }

  lemma JoinedValue(hi: bv8, lo: bv8)
    ensures ((hi as bv16 << 8) | lo as bv16) as int == 0x100 * (hi as int) + lo as int
  {
    var w := (hi as bv16 << 8) | lo as bv16;
    Joined(hi, lo);
    Widened(hi);
    Widened(lo);
    WordDigits(w);
  }

  lemma SameWord(x: int, w: bv16)
    requires w as int == x
    ensures Bits16(x) == w
  {
    WordAgain(w);
  }

  /** The two bytes are those of the word. */
  lemma BitsAreBytes(d: Word16)
    ensures Bits(d) as int == 0x100 * d.hi as int + d.lo as int && Bits(d) == Bits16(0x100 * d.hi as int + d.lo as int)
  {
    hide Bits16;
    JoinedValue(d.hi as bv8, d.lo as bv8);
    ByteValue(d.hi);
    ByteValue(d.lo);
    SameWord(0x100 * d.hi as int + d.lo as int, Bits(d));
  }

  lemma BytesOfBits(d: Word16)
    ensures (Bits(d) >> 8) as bv8 == d.hi as bv8 && (Bits(d) & 0xff) as bv8 == d.lo as bv8
  {
    Joined(d.hi as bv8, d.lo as bv8);
  }

  lemma ByteDigits(b: bv8)
    ensures (b & 1) as int == b as int % 2 && (b >> 1) as int == b as int / 2
  {
  }

  lemma ByteFields(b: bv8)
    ensures (b & 7) as int == b as int % 8 && (b & 0x7f) as int == b as int % 0x80
  {
  }

  lemma ShiftThree(b: bv8)
    ensures (b >> 3) as int == b as int / 8
  {
  }

  lemma LowNibble(b: bv8)
    ensures (b & 0xf) as int == b as int % 16
  {
  }

  lemma Nibble(b: bv8)
    ensures ((b >> 3) & 0xf) as int == b as int % 0x80 / 8
  {
    ShiftThree(b);
    LowNibble(b >> 3);
    EighthOf(b as int);
  }

  lemma EighthOf(x: nat)
    requires x < 0x100
    ensures x / 8 % 16 == x % 0x80 / 8
  {
  }

  lemma TopBitOf(b: bv8)
    ensures b & 0x80 != 0 <==> b as int >= 0x80
  {
  }

  lemma UpperBits(hi: bv8, lo: bv8)
    ensures var w := (hi as bv16 << 8) | lo as bv16;
            (w >> 8) & 1 == (hi & 1) as bv16 && (w >> 9) & 1 == ((hi >> 1) & 1) as bv16
  {
  }

  lemma LowerBits(hi: bv8, lo: bv8)
    ensures var w := (hi as bv16 << 8) | lo as bv16;
            && w & 1 == (lo & 1) as bv16 && w & 7 == (lo & 7) as bv16 && w & 0x7f == (lo & 0x7f) as bv16
            && w & 0x80 == (lo & 0x80) as bv16 && (w >> 3) & 0xf == ((lo >> 3) & 0xf) as bv16
  {
  }

  lemma SmallBit(b: bv8)
    ensures (b as bv16) as int == b as int && (b as bv16 == 0 <==> b == 0)
  {
  }

  /** The bits that the list kernel looks at, as numbers. */
  lemma UpperFields(d: Word16)
    ensures ((Bits(d) >> 8) & 1) as int == d.hi as int % 2
    ensures ((Bits(d) >> 9) & 1) as int == d.hi as int / 2 % 2
  {
    var hi, lo := d.hi as bv8, d.lo as bv8;
    ByteValue(d.hi);
    UpperBits(hi, lo);
    ByteDigits(hi);
    ByteDigits(hi >> 1);
    SmallBit(hi & 1);
    SmallBit((hi >> 1) & 1);
  }

  lemma LowerFields(d: Word16)
    ensures (Bits(d) & 1) as int == d.lo as int % 2 && (Bits(d) & 7) as int == d.lo as int % 8
    ensures (Bits(d) & 0x7f) as int == d.lo as int % 0x80 && ((Bits(d) >> 3) & 0xf) as int == d.lo as int % 0x80 / 8
    ensures Bits(d) & 0x80 != 0 <==> d.lo >= 0x80
    ensures (Bits(d) & 0xff) as int == d.lo
  {
    var hi, lo := d.hi as bv8, d.lo as bv8;
    ByteValue(d.lo);
    LowerBits(hi, lo);
    Joined(hi, lo);
    ByteDigits(lo);
    ByteFields(lo);
    Nibble(lo);
    TopBitOf(lo);
    SmallBit(lo);
    SmallBit(lo & 1);
    SmallBit(lo & 7);
    SmallBit(lo & 0x7f);
    SmallBit(lo & 0x80);
    SmallBit((lo >> 3) & 0xf);
  }
}
