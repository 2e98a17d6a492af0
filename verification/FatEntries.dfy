/** Packing of cluster numbers into the bytes of a FAT12 or FAT16 table (fat.c). */
module FatEntries {
  import opened Words

  datatype FatType = Fat12 | Fat16

  /** GetFATMaxClusterNumber: the number of whole entries in a table of the given size. */
  function MaxClusterNumber(size: nat, t: FatType): nat {
    match t
    case Fat12 => size * 2 / 3
    case Fat16 => size / 2
  }

  /** First byte of entry n. */
  function Offset(t: FatType, n: nat): nat {
    match t
    case Fat12 => n + n / 2
    case Fat16 => 2 * n
  }

  /** GetFATMaxClusterNumber counts exactly the entries whose two bytes lie inside the table. */
  lemma EntryFits(size: nat, t: FatType, n: nat)
    ensures n < MaxClusterNumber(size, t) <==> Offset(t, n) + 1 < size
  {
  }

  /** The entry held in two neighbouring bytes; odd FAT12 entries start in the middle of the first byte. */
  function Unpack(t: FatType, odd: bool, b0: u8, b1: u8): u16 {
    match t
    case Fat12 => if odd then b0 / 16 + b1 * 16 else b0 + b1 % 16 * 0x100
    case Fat16 => b0 + b1 * 0x100
  }

  function Pack0(t: FatType, odd: bool, b0: u8, value: u16): u8 {
    match t
    case Fat12 => if odd then b0 % 16 + value % 16 * 16 else value % 0x100
    case Fat16 => value % 0x100
  }

  function Pack1(t: FatType, odd: bool, b1: u8, value: u16): u8 {
    match t
    case Fat12 => if odd then value / 16 % 0x100 else b1 / 16 * 16 + value / 0x100 % 16
    case Fat16 => value / 0x100
  }

  /** What an entry keeps of a value. */
  function Stored(t: FatType, value: u16): u16 {
    match t
    case Fat12 => value % 0x1000
    case Fat16 => value
  }

  lemma OddNibbles(b0: u8, v: u16)
    ensures (b0 % 16 + v % 16 * 16) / 16 == v % 16
    ensures v % 16 + v / 16 % 0x100 * 16 == v % 0x1000
  {
  }

  lemma EvenNibbles(b1: u8, v: u16)
    ensures (b1 / 16 * 16 + v / 0x100 % 16) % 16 == v / 0x100 % 16
    ensures v % 0x100 + v / 0x100 % 16 * 0x100 == v % 0x1000
  {
  }

  lemma UnpackPack(t: FatType, odd: bool, b0: u8, b1: u8, value: u16)
    ensures Unpack(t, odd, Pack0(t, odd, b0, value), Pack1(t, odd, b1, value)) == Stored(t, value)
  {
    OddNibbles(b0, value);
    EvenNibbles(b1, value);
  }

  /** The other entry that shares a byte keeps its half of it. */
  lemma SharedByte(b: u8, value: u16)
    ensures Pack0(Fat12, true, b, value) % 16 == b % 16
    ensures Pack1(Fat12, false, b, value) / 16 == b / 16
  {
  }

  function Entry(t: FatType, table: seq<u8>, n: nat): u16
    requires n < MaxClusterNumber(|table|, t)
  {
    EntryFits(|table|, t, n);
    Unpack(t, n % 2 == 1, table[Offset(t, n)], table[Offset(t, n) + 1])
  }

  function Store(t: FatType, table: seq<u8>, n: nat, value: u16): (r: seq<u8>)
    requires n < MaxClusterNumber(|table|, t)
    ensures |r| == |table|
  {
    EntryFits(|table|, t, n);
    var o := Offset(t, n);
    table[o := Pack0(t, n % 2 == 1, table[o], value)][o + 1 := Pack1(t, n % 2 == 1, table[o + 1], value)]
  }

  /** The table as the sequence of its entries. */
  function Entries(t: FatType, table: seq<u8>): (T: seq<u16>)
    ensures |T| == MaxClusterNumber(|table|, t)
    ensures forall n :: 0 <= n < |T| ==> T[n] == Entry(t, table, n)
  {
    seq(MaxClusterNumber(|table|, t), n requires 0 <= n < MaxClusterNumber(|table|, t) => Entry(t, table, n))
  }

  /** Two FAT12 entries have a byte in common only if they are an even entry and the odd one behind it. */
  lemma Apart(t: FatType, n: nat, m: nat)
    requires n != m
    ensures t.Fat16? || n / 2 != m / 2 ==>
              Offset(t, n) + 1 < Offset(t, m) || Offset(t, m) + 1 < Offset(t, n)
    ensures t.Fat12? && n / 2 == m / 2 && n % 2 == 0 ==> m % 2 == 1 && Offset(t, m) == Offset(t, n) + 1
    ensures t.Fat12? && n / 2 == m / 2 && n % 2 == 1 ==> m % 2 == 0 && Offset(t, n) == Offset(t, m) + 1
  {
  }

  /** Entries are a lens on the table: storing one changes that one and no other. */
  lemma StoreEntry(t: FatType, table: seq<u8>, n: nat, value: u16, m: nat)
    requires n < MaxClusterNumber(|table|, t) && m < MaxClusterNumber(|table|, t)
    ensures Entry(t, Store(t, table, n, value), m) == if m == n then Stored(t, value) else Entry(t, table, m)
  {
    hide MaxClusterNumber, Pack0, Pack1;
    EntryFits(|table|, t, n);
    EntryFits(|table|, t, m);
    if m == n {
      var o := Offset(t, n);
      UnpackPack(t, n % 2 == 1, table[o], table[o + 1], value);
    } else {
      Apart(t, n, m);
      SharedByte(table[Offset(t, n)], value);
      SharedByte(table[Offset(t, n) + 1], value);
      hide Offset;
    }
  }

  lemma StoreEntries(t: FatType, table: seq<u8>, n: nat, value: u16)
    requires n < MaxClusterNumber(|table|, t)
    ensures Entries(t, Store(t, table, n, value)) == Entries(t, table)[n := Stored(t, value)]
  {
    hide MaxClusterNumber, Store, Entry;
    forall m | 0 <= m < |Entries(t, table)|
      ensures Entry(t, Store(t, table, n, value), m) == Entries(t, table)[n := Stored(t, value)][m]
    {
      StoreEntry(t, table, n, value, m);
    }
  }
}
