/** The data area of the card, cluster by cluster (fat.c). */
module FatDisk {
  import opened Arithmetic
  import opened Words
  import opened FatTable
  import opened FatRuns

  /** First byte of cluster c on the card. */
  function Addr(base: nat, clusterSize: nat, c: nat): nat
    requires c >= 2
  {
    base + (c - 2) * clusterSize
  }

  /** Clusters follow one another on the card. */
  lemma AddrApart(base: nat, clusterSize: nat, c: nat, d: nat)
    requires 2 <= c < d
    ensures Addr(base, clusterSize, c) + clusterSize <= Addr(base, clusterSize, d)
  {
    MulMono(c - 1, d - 2, clusterSize);
    assert (c - 1) * clusterSize == (c - 2) * clusterSize + clusterSize;
  }

  lemma MulSplit(first: nat, c: nat, spc: nat, size: nat)
    ensures (first + c * spc) * size == first * size + c * (spc * size)
  {
  }

  /** All of cluster c lies on the card if the data area does. */
  lemma ClusterFits(base: nat, clusterSize: nat, c: nat, n: nat, size: nat)
    requires 2 <= c < n && Addr(base, clusterSize, n) <= size
    ensures Addr(base, clusterSize, c) + clusterSize <= size
  {
    hide Addr;
    AddrApart(base, clusterSize, c, n);
  }

  function Cluster(bytes: seq<u8>, at: nat, clusterSize: nat): (r: seq<u8>)
    requires at + clusterSize <= |bytes|
    ensures |r| == clusterSize
  {
    bytes[at..at + clusterSize]
  }

  /** The bytes of cluster c; clusters 0 and 1 have none. */
  function ClusterOf(bytes: seq<u8>, base: nat, clusterSize: nat, n: nat, c: nat): (r: seq<u8>)
    requires 2 <= n && Addr(base, clusterSize, n) <= |bytes| && c < n
    ensures 2 <= c ==> |r| == clusterSize
  {
    if c < 2 then []
    else
      ClusterFits(base, clusterSize, c, n, |bytes|);
      Cluster(bytes, Addr(base, clusterSize, c), clusterSize)
  }

  /** The bytes of each cluster. */
  function Clusters(bytes: seq<u8>, base: nat, clusterSize: nat, n: nat): (D: seq<seq<u8>>)
    requires 2 <= n && Addr(base, clusterSize, n) <= |bytes|
    ensures |D| == n
    ensures forall c :: 2 <= c < n ==> |D[c]| == clusterSize
  {
    seq(n, c requires 0 <= c < n => ClusterOf(bytes, base, clusterSize, n, c))
  }

  /** Overwriting the bytes of one cluster changes that cluster and no other. */
  lemma ClusterWritten(bytes: seq<u8>, bytes': seq<u8>, base: nat, clusterSize: nat, n: nat, c: nat, data: seq<u8>)
    requires 2 <= c < n && Addr(base, clusterSize, n) <= |bytes| == |bytes'| && |data| == clusterSize
    requires Addr(base, clusterSize, c) + clusterSize <= |bytes|
    requires bytes' == bytes[..Addr(base, clusterSize, c)] + data + bytes[Addr(base, clusterSize, c) + clusterSize..]
    ensures Clusters(bytes', base, clusterSize, n) == Clusters(bytes, base, clusterSize, n)[c := data]
  {
    var D, D' := Clusters(bytes, base, clusterSize, n), Clusters(bytes', base, clusterSize, n);
    hide Addr;
    forall d | 0 <= d < n
      ensures D'[d] == D[c := data][d]
    {
      if 2 <= d < c {
        AddrApart(base, clusterSize, d, c);
      } else if 2 <= c < d {
        AddrApart(base, clusterSize, c, d);
        AddrApart(base, clusterSize, d, n);
      }
    }
  }

  class FileSys {
    const FAT: FATStruct
    const card: array<u8>
    const SectorSize: nat
    const SectorPerCluster: nat
    const FirstClusterSector: nat
    const RootDirSector: nat
    /** The chains of the files on the volume. */
    ghost var files: map<nat, seq<nat>>

    constructor (FAT: FATStruct, card: array<u8>, sectorSize: nat, sectorPerCluster: nat, first: nat, root: nat)
      ensures this.FAT == FAT && this.card == card && files == map[]
      ensures SectorSize == sectorSize && SectorPerCluster == sectorPerCluster
      ensures FirstClusterSector == first && RootDirSector == root
    {
      this.FAT, this.card, this.files := FAT, card, map[];
      SectorSize, SectorPerCluster, FirstClusterSector, RootDirSector := sectorSize, sectorPerCluster, first, root;
    }

    function ClusterSize(): nat {
      SectorPerCluster * SectorSize
    }

    ghost function Base(): nat {
      FirstClusterSector * SectorSize
    }

    ghost function Vol(): Volume
      requires FAT.Valid()
      reads this`files, FAT.FATTable
    {
      Volume(FAT.T(), files)
    }

    /** The whole data area is on the card, and the volume is good. */
    ghost predicate Valid()
      reads this`files, FAT.FATTable
    {
      && FAT.Valid() && FAT.FATTable != card && ClusterSize() > 0 && FAT.MaxCluster >= 2
      && Addr(Base(), ClusterSize(), FAT.MaxCluster) <= card.Length
      && Good(FAT.FATType, Vol())
    }

    /** The contents of the clusters. */
    ghost function D(): (r: seq<seq<u8>>)
      requires FAT.MaxCluster >= 2 && Addr(Base(), ClusterSize(), FAT.MaxCluster) <= card.Length
      reads card
      ensures |r| == FAT.MaxCluster
      ensures forall c :: 2 <= c < |r| ==> |r[c]| == ClusterSize()
    {
      Clusters(card[..], Base(), ClusterSize(), FAT.MaxCluster)
    }

    function GetFATDirSectorNumber(ClusterNumber: nat): nat {
      if ClusterNumber < 2 then RootDirSector
      else FirstClusterSector + (ClusterNumber - 2) * SectorPerCluster
    }

    lemma SectorAddr(c: nat)
      requires 2 <= c
      ensures GetFATDirSectorNumber(c) * SectorSize == Addr(Base(), ClusterSize(), c)
    {
      MulSplit(FirstClusterSector, c - 2, SectorPerCluster, SectorSize);
    }

    /** The bytes of cluster c are those of its sectors, counted from the first sector of the data area. */
    lemma OnCard(c: nat)
      requires Valid() && 2 <= c < FAT.MaxCluster
      ensures var at := (FirstClusterSector + (c - 2) * SectorPerCluster) * SectorSize;
              at + SectorPerCluster * SectorSize <= card.Length && D()[c] == card[at..at + SectorPerCluster * SectorSize]
    {
      hide Good;
      MulSplit(FirstClusterSector, c - 2, SectorPerCluster, SectorSize);
      AddrApart(Base(), ClusterSize(), c, FAT.MaxCluster);
    }

    /** What lies in front of the data area, such as the FAT and the root directory, and behind it is as before. */
    twostate predicate OutsideKept()
      reads card
    {
      var start, end := FirstClusterSector * SectorSize,
                        (FirstClusterSector + (FAT.MaxCluster - 2) * SectorPerCluster) * SectorSize;
      forall i :: 0 <= i < card.Length && (i < start || i >= end) ==> card[i] == old(card[i])
    }

    /** The ReadSector driver call: count sectors from start on, successfully read into Buf. */
    method ReadSector(start: nat, count: nat, Buf: array<u8>)
      requires start * SectorSize + count * SectorSize <= card.Length && Buf.Length == count * SectorSize
      requires Buf != card
      modifies Buf
      ensures Buf[..] == card[start * SectorSize..start * SectorSize + Buf.Length]
    {
      var at := start * SectorSize;
      forall i | 0 <= i < Buf.Length {
        Buf[i] := card[at + i];
      }
    }

    /** The WriteSector driver call. */
    method WriteSector(start: nat, count: nat, Buf: array<u8>)
      requires start * SectorSize + count * SectorSize <= card.Length && Buf.Length == count * SectorSize
      requires Buf != card
      modifies card
      ensures card[..] == old(card[..start * SectorSize]) + Buf[..] + old(card[start * SectorSize + Buf.Length..])
    {
      var at := start * SectorSize;
      forall i | 0 <= i < Buf.Length {
        card[at + i] := Buf[i];
      }
    }

    /** A cluster lies inside the data area. */
    lemma InsideArea(c: nat)
      requires 2 <= c < FAT.MaxCluster
      ensures FirstClusterSector * SectorSize <= (FirstClusterSector + (c - 2) * SectorPerCluster) * SectorSize
      ensures (FirstClusterSector + (c - 2) * SectorPerCluster) * SectorSize + SectorPerCluster * SectorSize
           <= (FirstClusterSector + (FAT.MaxCluster - 2) * SectorPerCluster) * SectorSize
    {
      MulMono(c - 1, FAT.MaxCluster - 2, SectorPerCluster);
      var k, l, m := (c - 2) * SectorPerCluster, (c - 1) * SectorPerCluster, (FAT.MaxCluster - 2) * SectorPerCluster;
      assert l == k + SectorPerCluster;
      MulMono(FirstClusterSector, FirstClusterSector + k, SectorSize);
      MulMono(FirstClusterSector + l, FirstClusterSector + m, SectorSize);
      Distribute(1, FirstClusterSector + k, SectorPerCluster, SectorSize);
    }

    method ReadCluster(c: nat, Buf: array<u8>)
      requires Valid() && 2 <= c < FAT.MaxCluster && Buf.Length == ClusterSize()
      requires Buf != card && Buf != FAT.FATTable
      modifies Buf
      ensures Valid() && D() == old(D()) && Buf[..] == D()[c]
      ensures var at := (FirstClusterSector + (c - 2) * SectorPerCluster) * SectorSize;
              at + SectorPerCluster * SectorSize <= card.Length && Buf[..] == card[at..at + SectorPerCluster * SectorSize]
    {
      hide Addr, Good;
      SectorAddr(c);
      OnCard(c);
      AddrApart(Base(), ClusterSize(), c, FAT.MaxCluster);
      ReadSector(GetFATDirSectorNumber(c), SectorPerCluster, Buf);
    }

    method WriteCluster(c: nat, Buf: array<u8>)
      requires Valid() && 2 <= c < FAT.MaxCluster && Buf.Length == ClusterSize()
      requires Buf != card && Buf != FAT.FATTable
      modifies card
      ensures Valid() && D() == old(D())[c := Buf[..]]
      ensures var at := (FirstClusterSector + (c - 2) * SectorPerCluster) * SectorSize;
              at + SectorPerCluster * SectorSize <= card.Length
              && card[..] == old(card[..])[..at] + Buf[..] + old(card[..])[at + SectorPerCluster * SectorSize..]
      ensures OutsideKept()
    {
      hide Addr, Good, Clusters;
      SectorAddr(c);
      OnCard(c);
      ghost var before := card[..];
      AddrApart(Base(), ClusterSize(), c, FAT.MaxCluster);
      WriteSector(GetFATDirSectorNumber(c), SectorPerCluster, Buf);
      ClusterWritten(before, card[..], Base(), ClusterSize(), FAT.MaxCluster, c, Buf[..]);
      InsideArea(c);
      assert forall i :: 0 <= i < card.Length ==> card[i] == card[..][i] && before[i] == old(card[i]);
    }
  }
}
