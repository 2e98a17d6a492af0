/** The table as one little-endian number, in which the entries are consecutive groups of bits (fat.c). */
module FatBits {
  import opened Arithmetic
  import opened Words
  import opened FatEntries

  /** Byte i counts 256^i. */
  ghost function Little(s: seq<u8>): nat {
    if |s| == 0 then 0 else s[0] + 0x100 * Little(s[1..])
  }

  /** Bits 12 n to 12 n + 11 of a FAT12 table, bits 16 n to 16 n + 15 of a FAT16 table. */
  ghost function BitsAt(t: FatType, x: nat, n: nat): nat {
    match t
    case Fat12 => x / Pow2(12 * n) % 0x1000
    case Fat16 => x / Pow2(16 * n) % 0x1_0000
  }

  /** The same number with these bits replaced by the low bits of value. */
  ghost function WithBits(t: FatType, x: nat, n: nat, value: u16): int {
    match t
    case Fat12 => x + (value as int % 0x1000 - BitsAt(t, x, n)) * Pow2(12 * n)
    case Fat16 => x + (value as int - BitsAt(t, x, n)) * Pow2(16 * n)
  }

  lemma EightMore(k: nat)
    ensures Pow2(k + 8) == 0x100 * Pow2(k) && Pow2(k + 4) == 0x10 * Pow2(k)
  {
    assert Pow2(k + 4) == 0x10 * Pow2(k) by {
      assert Pow2(k + 2) == 4 * Pow2(k);
    }
    assert Pow2(k + 6) == 4 * Pow2(k + 4);
  }

  lemma DropByte(b: nat, x: nat, p: nat)
    requires b < 0x100 && p > 0
    ensures (b + 0x100 * x) / (0x100 * p) == x / p
  {
    var q, r := DivDef(x, p);
    assert b + 0x100 * x == q * (0x100 * p) + (b + 0x100 * r);
    Div(q, b + 0x100 * r, 0x100 * p);
  }

  /** Dividing by 256^k drops the first k bytes. */
  lemma {:induction false} LittleDrop(s: seq<u8>, k: nat)
    requires k <= |s|
    ensures Little(s) / Pow2(8 * k) == Little(s[k..])
  {
    if k == 0 {
      assert s[0..] == s;
    } else {
      LittleDrop(s[1..], k - 1);
      assert s[1..][k - 1..] == s[k..];
      EightMore(8 * (k - 1));
      DropByte(s[0], Little(s[1..]), Pow2(8 * (k - 1)));
    }
  }

  /** A new byte changes the number by its difference. */
  lemma {:induction false} LittleUpdate(s: seq<u8>, i: nat, b: u8)
    requires i < |s|
    ensures Little(s[i := b]) == Little(s) + (b - s[i]) * Pow2(8 * i)
  {
    if i == 0 {
      assert s[i := b][1..] == s[1..];
    } else {
      LittleUpdate(s[1..], i - 1, b);
      assert s[i := b][1..] == s[1..][i - 1 := b];
      EightMore(8 * (i - 1));
      Scaled(b - s[i], Pow2(8 * (i - 1)));
    }
  }

  lemma Scaled(d: int, p: nat)
    ensures d * (0x100 * p) == 0x100 * (d * p) && d * (0x10 * p) == 0x10 * d * p
  {
  }

  /** The first two bytes of a number and the rest. */
  lemma LittleTwo(s: seq<u8>) returns (rest: nat)
    requires |s| >= 2
    ensures Little(s) == s[0] + 0x100 * s[1] + 0x1_0000 * rest
  {
    assert s[1..][1..] == s[2..];
    rest := Little(s[2..]);
  }

  lemma Low12(b0: u8, b1: u8, rest: nat)
    ensures (b0 + 0x100 * b1 + 0x1_0000 * rest) % 0x1000 == b0 + b1 % 16 * 0x100
    ensures (b0 + 0x100 * b1 + 0x1_0000 * rest) / 16 % 0x1000 == b0 / 16 + b1 * 16
    ensures (b0 + 0x100 * b1 + 0x1_0000 * rest) % 0x1_0000 == b0 + b1 * 0x100
  {
    Div(b1 / 16 + 16 * rest, b0 + b1 % 16 * 0x100, 0x1000);
    Div(b0 / 16 + b1 * 16 + 0x1000 * rest, b0 % 16, 16);
    Div(rest, b0 / 16 + b1 * 16, 0x1000);
    Div(rest, b0 + b1 * 0x100, 0x1_0000);
  }

  lemma DivTwice(x: nat, p: nat)
    requires p > 0
    ensures x / (0x10 * p) == x / p / 0x10
  {
    var q, r := DivDef(x, p);
    var w, m := DivDef(q, 0x10);
    assert x == w * (0x10 * p) + (m * p + r);
    MulMono(m, 15, p);
    Div(w, m * p + r, 0x10 * p);
  }

  /** The bits in front of entry n are those of the bytes in front of it, and four more if it is odd. */
  lemma FirstBit(n: nat)
    ensures n % 2 == 0 ==> 12 * n == 8 * Offset(Fat12, n)
    ensures n % 2 == 1 ==> 12 * n == 8 * Offset(Fat12, n) + 4
    ensures 16 * n == 8 * Offset(Fat16, n)
  {
  }

  /** An entry is its group of bits. */
  lemma EntryIsBits(t: FatType, table: seq<u8>, n: nat)
    requires n < MaxClusterNumber(|table|, t)
    ensures Entry(t, table, n) == BitsAt(t, Little(table), n)
  {
    EntryFits(|table|, t, n);
    hide MaxClusterNumber, Little;
    var o := Offset(t, n);
    LittleDrop(table, o);
    var rest := LittleTwo(table[o..]);
    Low12(table[o], table[o + 1], rest);
    FirstBit(n);
    EightMore(8 * o);
    if t.Fat12? && n % 2 == 1 {
      DivTwice(Little(table), Pow2(8 * o));
    }
  }

  /** Two bytes as one number. */
  function Two(b0: u8, b1: u8): int {
    b0 as int + 0x100 * (b1 as int)
  }

  /** What the two bytes of an entry are worth after a store, with the half byte that is not the entry's. */
  lemma StoredBytes(t: FatType, odd: bool, b0: u8, b1: u8, value: u16)
    ensures var change := Two(Pack0(t, odd, b0, value), Pack1(t, odd, b1, value)) - Two(b0, b1);
            match t
            case Fat12 => change == (value as int % 0x1000 - Unpack(t, odd, b0, b1) as int) * if odd then 0x10 else 1
            case Fat16 => change == value as int - Unpack(t, odd, b0, b1) as int
  {
    OddNibbles(b0, value);
    EvenNibbles(b1, value);
  }

  /** Two new bytes change the number by their difference. */
  lemma TwoBytes(s: seq<u8>, o: nat, p0: u8, p1: u8)
    requires o + 1 < |s|
    ensures Little(s[o := p0][o + 1 := p1]) == Little(s) + (Two(p0, p1) - Two(s[o], s[o + 1])) * Pow2(8 * o)
  {
    hide Little, Pow2;
    LittleUpdate(s, o, p0);
    LittleUpdate(s[o := p0], o + 1, p1);
    EightMore(8 * o);
    var d, e, p: int := p0 as int - s[o] as int, p1 as int - s[o + 1] as int, Pow2(8 * o);
    TwoDigits(d, e, p);
  }

  lemma TwoDigits(d: int, e: int, p: int)
    ensures d * p + e * (0x100 * p) == (d + 0x100 * e) * p
  {
  }

  /** The bits of the entry, as a change of the whole number; bit is the number of bits in front of the entry. */
  lemma Placed(t: FatType, odd: bool, o: nat, bit: nat, change: int, diff: int)
    requires bit == 8 * o + if t.Fat12? && odd then 4 else 0
    requires change == diff * if t.Fat12? && odd then 0x10 else 1
    ensures change * Pow2(8 * o) == diff * Pow2(bit)
  {
    EightMore(8 * o);
    hide Pow2;
    Scaled(diff, Pow2(8 * o));
  }

  /** A store in terms of the two bytes it writes. */
  lemma StoreIsTwoBytes(t: FatType, table: seq<u8>, n: nat, value: u16) returns (change: int)
    requires n < MaxClusterNumber(|table|, t)
    ensures Little(Store(t, table, n, value)) == Little(table) + change * Pow2(8 * Offset(t, n))
    ensures t.Fat12? ==> change == (value as int % 0x1000 - Entry(t, table, n) as int) * if n % 2 == 1 then 0x10 else 1
    ensures t.Fat16? ==> change == value as int - Entry(t, table, n) as int
  {
    EntryFits(|table|, t, n);
    var o, odd := Offset(t, n), n % 2 == 1;
    var b0, b1 := table[o], table[o + 1];
    hide Pack0, Pack1, Unpack, Pow2, Little, MaxClusterNumber, Offset;
    var p0, p1 := Pack0(t, odd, b0, value), Pack1(t, odd, b1, value);
    StoredBytes(t, odd, b0, b1, value);
    TwoBytes(table, o, p0, p1);
    change := Two(p0, p1) - Two(b0, b1);
  }

  /** Storing replaces the bits of the entry by the low bits of the value, and leaves every other bit of the table. */
  lemma StoreIsBits(t: FatType, table: seq<u8>, n: nat, value: u16)
    requires n < MaxClusterNumber(|table|, t)
    ensures Little(Store(t, table, n, value)) == WithBits(t, Little(table), n, value)
  {
    hide Pow2, Little, MaxClusterNumber, Store, Entry, BitsAt, WithBits;
    EntryIsBits(t, table, n);
    var change := StoreIsTwoBytes(t, table, n, value);
    PlacedBits(t, Little(table), n, change, value);
  }

  lemma PlacedBits(t: FatType, x: nat, n: nat, change: int, value: u16)
    requires t.Fat12? ==> change == (value as int % 0x1000 - BitsAt(t, x, n)) * if n % 2 == 1 then 0x10 else 1
    requires t.Fat16? ==> change == value as int - BitsAt(t, x, n)
    ensures WithBits(t, x, n, value) == x + change * Pow2(8 * Offset(t, n))
  {
    hide BitsAt, Offset, Pow2;
    FirstBit(n);
    if t.Fat12? {
      Placed(t, n % 2 == 1, Offset(t, n), 12 * n, change, value as int % 0x1000 - BitsAt(t, x, n));
    } else {
      Placed(t, n % 2 == 1, Offset(t, n), 16 * n, change, value as int - BitsAt(t, x, n));
    }
  }
}
