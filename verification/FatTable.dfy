/** The FAT of a mounted file system (FATStruct) and the operations on it (fat.c). */
module FatTable {
  import opened Words
  import opened FatEntries
  import opened FatBits
  import opened FatChains

  class FATStruct {
    const FATTable: array<u8>
    const FATType: FatType
    const MaxCluster: nat

    /** ReadFAT: MaxClusterNumber is computed from the size of the table. */
    constructor (table: array<u8>, t: FatType)
      requires t.Fat12? ==> table.Length <= 0x1_0000
      ensures Valid() && FATTable == table && FATType == t
    {
      FATTable, FATType, MaxCluster := table, t, MaxClusterNumber(table.Length, t);
    }

    /** Offsets into a FAT12 table are 16-bit numbers. */
    ghost predicate Valid() {
      && MaxCluster == MaxClusterNumber(FATTable.Length, FATType)
      && (FATType.Fat12? ==> FATTable.Length <= 0x1_0000)
    }

    /** The entries of the table. */
    ghost function T(): (r: seq<u16>)
      requires Valid()
      reads FATTable
      ensures |r| == MaxCluster
    {
      Entries(FATType, FATTable[..])
    }

    method GetFATNextCluster(NCluster: nat) returns (NextCluster: u16)
      requires Valid() && NCluster < MaxCluster
      ensures NextCluster == T()[NCluster]
      ensures NextCluster == BitsAt(FATType, Little(FATTable[..]), NCluster)
    {
      hide Little, BitsAt;
      EntryFits(FATTable.Length, FATType, NCluster);
      EntryIsBits(FATType, FATTable[..], NCluster);
      match FATType
      case Fat12 =>
        var FATOffset := (NCluster + NCluster / 2) % 0x1_0000;
        if NCluster % 2 == 1 {
          NextCluster := FATTable[FATOffset] as int / 16 + FATTable[FATOffset + 1] as int * 16;
        } else {
          NextCluster := FATTable[FATOffset] as int + FATTable[FATOffset + 1] as int % 16 * 0x100;
        }
      case Fat16 =>
        NextCluster := FATTable[2 * NCluster] as int + FATTable[2 * NCluster + 1] as int * 0x100;
    }

    /** The two assignments to the first byte of a FAT12 entry. */
    method SetFirstByte(o: nat, odd: bool, Value: u16)
      requires o < FATTable.Length
      modifies FATTable
      ensures FATTable[..] == old(FATTable[..])[o := Pack0(Fat12, odd, old(FATTable[o]), Value)]
    {
      if odd {
        FATTable[o] := FATTable[o] % 16;
        FATTable[o] := FATTable[o] as int + Value as int % 16 * 16;
      } else {
        FATTable[o] := Value % 0x100;
      }
    }

    /** The assignments to the second byte of a FAT12 entry. */
    method SetSecondByte(o: nat, odd: bool, Value: u16)
      requires o < FATTable.Length
      modifies FATTable
      ensures FATTable[..] == old(FATTable[..])[o := Pack1(Fat12, odd, old(FATTable[o]), Value)]
    {
      if odd {
        FATTable[o] := Value / 16 % 0x100;
      } else {
        FATTable[o] := FATTable[o] / 16 * 16;
        FATTable[o] := FATTable[o] as int + Value as int / 0x100 % 16;
      }
    }

    method SetFATNextCluster(NCluster: nat, Value: u16)
      requires Valid() && NCluster < MaxCluster
      modifies FATTable
      ensures T() == old(T())[NCluster := Stored(FATType, Value)]
      ensures Little(FATTable[..]) == WithBits(FATType, Little(old(FATTable[..])), NCluster, Value)
    {
      hide Entries, Pack0, Pack1, Little, WithBits;
      EntryFits(FATTable.Length, FATType, NCluster);
      StoreIsBits(FATType, FATTable[..], NCluster, Value);
      StoreEntries(FATType, FATTable[..], NCluster, Value);
      match FATType
      case Fat12 =>
        var FATOffset := (NCluster + NCluster / 2) % 0x1_0000;
        SetFirstByte(FATOffset, NCluster % 2 == 1, Value);
        SetSecondByte(FATOffset + 1, NCluster % 2 == 1, Value);
      case Fat16 =>
        PackWord(Value);
        FATTable[2 * NCluster] := Value % 0x100;
        FATTable[2 * NCluster + 1] := Value / 0x100;
      assert FATTable[..] == Store(FATType, old(FATTable[..]), NCluster, Value);
    }

    static lemma PackWord(value: u16)
      ensures forall odd, b :: Pack0(Fat16, odd, b, value) == value % 0x100 && Pack1(Fat16, odd, b, value) == value / 0x100
    {
    }

    /** Returns TRUE or FALSE; the loop ends because every turn zeroes a non-zero entry. */
    method FreeFATCluster(NCluster: nat) returns (ok: bool)
      requires Valid() && NCluster < MaxCluster && Closed(FATType, T())
      modifies FATTable
      ensures (T(), ok) == Freed(FATType, old(T()), NCluster)
    {
      var n: nat := NCluster;
      while true
        invariant 0 <= n < MaxCluster && Closed(FATType, T())
        invariant Freed(FATType, T(), n) == Freed(FATType, old(T()), NCluster)
        decreases NonZero(T())
      {
        var NextCluster := GetFATNextCluster(n);
        match Status(FATType, MaxCluster, NextCluster)
        case NotUsed =>
          return true;
        case Allocated =>
          NonZeroDrops(T(), n);
          ClosedKept(FATType, T(), n);
          SetFATNextCluster(n, 0x0000);
          n := NextCluster;
        case Final =>
          SetFATNextCluster(n, 0x0000);
          return true;
        case Reserved =>
          return false;
        case Defective =>
          return false;
      }
    }

    /** Takes the least free cluster and marks it as the end of a chain. */
    method GetFATFirstFreeCluster() returns (ClusterNum: nat)
      requires Valid() && HasFree(T())
      modifies FATTable
      ensures IsFirstFree(old(T()), ClusterNum)
      ensures T() == old(T())[ClusterNum := FinalMarker(FATType)]
    {
      ClusterNum := 2;
      ghost var free :| 2 <= free < MaxCluster && T()[free] == 0;
      var EntryValue := GetFATNextCluster(ClusterNum);
      while EntryValue != 0x0000
        invariant T() == old(T())
        invariant 2 <= ClusterNum <= free && EntryValue == T()[ClusterNum]
        invariant forall m :: 2 <= m < ClusterNum ==> T()[m] != 0
        decreases free - ClusterNum
      {
        ClusterNum := ClusterNum + 1;
        EntryValue := GetFATNextCluster(ClusterNum);
      }
      SetFATNextCluster(ClusterNum, 0xFFFF);
    }
  }
}
