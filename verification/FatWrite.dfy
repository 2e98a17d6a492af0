/** Writing a file through a handle (fat.c). */
module FatWrite {
  import opened Arithmetic
  import opened Words
  import opened FatEntries
  import opened FatChains
  import opened FatRuns
  import opened FatDisk
  import opened FatContent

  /** The directory entry of a file. */
  class DirEntry {
    var StartCluster: nat
    var FileLength: u32
  }

  class FileHandle {
    var StartCluster: nat
    var CurrCluster: nat
    const ClusterBuf: array<u8>
    var ClusterBufOffset: nat
    var FileTotalSize: u32
    var Pos: u32
    var Dirty: bool
    /** The number of clusters that have been fetched into ClusterBuf so far. */
    ghost var fetched: nat

    /** The fields as OpenFATFile and OpenFATEmptyFile set them. */
    constructor (start: nat, total: u32, clusterSize: nat)
      ensures StartCluster == CurrCluster == start && FileTotalSize == total
      ensures fresh(ClusterBuf) && ClusterBuf.Length == clusterSize && ClusterBufOffset == 0
      ensures Pos == 0 && !Dirty && fetched == 0
    {
      StartCluster, CurrCluster, FileTotalSize := start, start, total;
      ClusterBuf := new u8[clusterSize];
      ClusterBufOffset, Pos, Dirty, fetched := 0, 0, false, 0;
    }
  }

  /** The buffer of the handle is a cluster of its own, apart from the volume. */
  ghost predicate HandleOk(fs: FileSys, fd: FileHandle, f: nat)
    reads fs`files, fs.FAT.FATTable
  {
    && fs.Valid() && f in fs.files
    && fd.ClusterBuf.Length == fs.ClusterSize()
    && fd.ClusterBuf != fs.card && fd.ClusterBuf != fs.FAT.FATTable
  }

  lemma ChainFacts(fs: FileSys, f: nat)
    requires fs.Valid() && f in fs.files
    ensures |fs.files[f]| > 0 && InData(fs.D(), fs.files[f]) && Sized(fs.D(), fs.ClusterSize())
    ensures Last(fs.files[f]) !in fs.files[f][..|fs.files[f]| - 1]
    ensures 2 <= fs.files[f][0] < fs.FAT.MaxCluster && 2 <= Last(fs.files[f]) < fs.FAT.MaxCluster
  {
    var c := fs.files[f];
    assert IsChain(fs.FAT.FATType, fs.FAT.T(), c);
    forall i | 0 <= i < |c| - 1
      ensures c[i] != Last(c)
    {
      ChainIsAcyclic(fs.FAT.FATType, fs.FAT.T(), c, i, |c| - 1);
    }
  }

  /** What the clusters of file f hold. */
  ghost function Bytes(fs: FileSys, f: nat): seq<u8>
    requires fs.Valid() && f in fs.files
    reads fs`files, fs.FAT.FATTable, fs.card
  {
    ChainFacts(fs, f);
    Content(fs.D(), fs.files[f])
  }

  /** The chains of the other files, and what their clusters hold. */
  ghost function Others(fs: FileSys, f: nat): map<nat, (seq<nat>, seq<u8>)>
    requires fs.Valid()
    reads fs`files, fs.FAT.FATTable, fs.card
  {
    map g | g in fs.files && g != f :: (fs.files[g], Bytes(fs, g))
  }

  /** Every other file has kept its chain and the contents of its clusters. */
  twostate predicate OthersKept(fs: FileSys, f: nat)
    requires old(fs.Valid()) && fs.Valid()
    reads fs`files, fs.FAT.FATTable, fs.card
  {
    Others(fs, f) == old(Others(fs, f))
  }

  /** W has been written through this handle: all but the last piece is on the card, that piece is in ClusterBuf. */
  ghost predicate WritingUpTo(fs: FileSys, fd: FileHandle, f: nat, W: seq<u8>)
    reads fs`files, fs.FAT.FATTable, fs.card, fd, fd.ClusterBuf
  {
    && HandleOk(fs, fd, f)
    && var c := fs.files[f];
       ChainFacts(fs, f);
       && fd.StartCluster == c[0] && fd.CurrCluster == Last(c)
       && fd.FileTotalSize == fd.Pos == |W|
       && fd.ClusterBufOffset <= fs.ClusterSize()
       && W == Content(fs.D(), c[..|c| - 1]) + fd.ClusterBuf[..fd.ClusterBufOffset]
       && (!fd.Dirty ==> W == [])
  }

  /** The state between two calls of WriteFATFile: ClusterBuf is never left full. */
  ghost predicate Writing(fs: FileSys, fd: FileHandle, f: nat, W: seq<u8>)
    reads fs`files, fs.FAT.FATTable, fs.card, fd, fd.ClusterBuf
  {
    WritingUpTo(fs, fd, f, W) && fd.ClusterBufOffset < fs.ClusterSize()
  }

  /** `memcpy(fd->ClusterBuf + fd->ClusterBufOffset, Buf, WLen)`, and the fields that count the bytes. */
  method CopyIn(fd: FileHandle, Buf: seq<u8>)
    requires fd.ClusterBufOffset + |Buf| <= fd.ClusterBuf.Length
    requires fd.FileTotalSize + |Buf| < 0x1_0000_0000 && fd.Pos + |Buf| < 0x1_0000_0000
    modifies fd`ClusterBufOffset, fd`Dirty, fd`FileTotalSize, fd`Pos, fd.ClusterBuf
    ensures fd.ClusterBufOffset == old(fd.ClusterBufOffset) + |Buf| && fd.Dirty
    ensures fd.FileTotalSize == old(fd.FileTotalSize) + |Buf| && fd.Pos == old(fd.Pos) + |Buf|
    ensures fd.ClusterBuf[..fd.ClusterBufOffset] == old(fd.ClusterBuf[..fd.ClusterBufOffset]) + Buf
  {
    var at := fd.ClusterBufOffset;
    forall i | 0 <= i < |Buf| {
      fd.ClusterBuf[at + i] := Buf[i];
    }
    fd.ClusterBufOffset := fd.ClusterBufOffset + |Buf|;
    fd.Dirty := true;
    fd.FileTotalSize := fd.FileTotalSize + |Buf|;
    fd.Pos := fd.Pos + |Buf|;
  }

  /** Writing the last cluster of a chain appends to the bytes before it. */
  lemma ContentOfLast(D: seq<seq<u8>>, c: seq<nat>, data: seq<u8>)
    requires |c| > 0 && InData(D, c) && Last(c) !in c[..|c| - 1]
    ensures InData(D[Last(c) := data], c)
    ensures Content(D[Last(c) := data], c) == Content(D, c[..|c| - 1]) + data
  {
    var init, D' := c[..|c| - 1], D[Last(c) := data];
    assert c == init + [Last(c)];
    ContentFrame(D, D', init);
    ContentSnoc(D', init, Last(c));
  }

  /** A cluster of f is in no other file. */
  lemma LastIsApart(fs: FileSys, f: nat, g: nat)
    requires fs.Valid() && f in fs.files && g in fs.files && f != g
    ensures |fs.files[f]| > 0 && Last(fs.files[f]) !in fs.files[g]
  {
    assert Disjoint(fs.files[f], fs.files[g]);
  }

  lemma AppendIsGood(t: FatType, v: Volume, f: nat, n: u16)
    requires Good(t, v) && f in v.files && IsFirstFree(v.T, n)
    ensures |v.files[f]| > 0 && Last(v.files[f]) < |v.T|
    ensures Good(t, Appended(t, v, f, n)) && Step(t, v, Append(f), Appended(t, v, f, n))
  {
    AppendReplaces(t, v, f, n);
    ReplacesIsGood(t, v, f, v.files[f] + [n as nat], Appended(t, v, f, n));
  }

  lemma FirstFreeIsU16(t: FatType, T: seq<u16>, n: nat)
    requires BelowMarkers(t, |T|) && IsFirstFree(T, n)
    ensures n < 0x1_0000
  {
  }

  /** `NewCluster = GetFATFirstFreeCluster(..); SetFATNextCluster(.., fd->CurrCluster, NewCluster);` */
  method LinkNewCluster(fs: FileSys, CurrCluster: nat, ghost f: nat) returns (NewCluster: u16)
    requires fs.Valid() && f in fs.files && |fs.files[f]| > 0 && CurrCluster == Last(fs.files[f])
    requires HasFree(fs.FAT.T())
    modifies fs`files, fs.FAT.FATTable
    ensures fs.Valid() && fs.files == old(fs.files[f := fs.files[f] + [NewCluster as nat]])
    ensures 2 <= NewCluster < fs.FAT.MaxCluster
    ensures Step(fs.FAT.FATType, old(fs.Vol()), Append(f), fs.Vol())
  {
    hide Good, Entries, HasFree, Step;
    ChainFacts(fs, f);
    ghost var v := fs.Vol();
    var n := fs.FAT.GetFATFirstFreeCluster();
    assert Good(fs.FAT.FATType, v);
    VolBelowMarkers(fs.FAT.FATType, v);
    FirstFreeIsU16(fs.FAT.FATType, v.T, n);
    NewCluster := n;
    AppendIsGood(fs.FAT.FATType, v, f, NewCluster);
    fs.FAT.SetFATNextCluster(CurrCluster, NewCluster);
    fs.files := fs.files[f := fs.files[f] + [NewCluster as nat]];
    assert fs.Vol() == Appended(fs.FAT.FATType, v, f, NewCluster);
  }

  lemma VolBelowMarkers(t: FatType, v: Volume)
    requires Good(t, v)
    ensures BelowMarkers(t, |v.T|)
  {
  }

  /** Rewriting the last cluster of f does not concern the bytes of g. */
  lemma BytesOfOther(fs: FileSys, f: nat, g: nat, data: seq<u8>)
    requires fs.Valid() && f in fs.files && g in fs.files && f != g
    ensures |fs.files[f]| > 0 && InData(fs.D(), fs.files[g]) && Last(fs.files[f]) < |fs.D()|
    ensures InData(fs.D()[Last(fs.files[f]) := data], fs.files[g])
    ensures Content(fs.D()[Last(fs.files[f]) := data], fs.files[g]) == Bytes(fs, g)
  {
    ChainFacts(fs, f);
    ChainFacts(fs, g);
    LastIsApart(fs, f, g);
    ContentFrame(fs.D(), fs.D()[Last(fs.files[f]) := data], fs.files[g]);
  }

  /** The cluster is full: write it, take a new one and link it behind. */
  method Flush(fs: FileSys, fd: FileHandle, ghost f: nat, ghost W: seq<u8>)
    requires WritingUpTo(fs, fd, f, W) && fd.ClusterBufOffset == fs.ClusterSize() && fd.Dirty
    requires HasFree(fs.FAT.T())
    modifies fs`files, fs.FAT.FATTable, fs.card, fd`CurrCluster, fd`ClusterBufOffset
    ensures Writing(fs, fd, f, W) && fd.ClusterBufOffset == 0
    ensures Step(fs.FAT.FATType, old(fs.Vol()), Append(f), fs.Vol())
    ensures OthersKept(fs, f)
    ensures fs.OutsideKept()
  {
    hide Good, Entries, HasFree, Step, Clusters, Addr;
    ChainFacts(fs, f);
    ghost var c, D, buf := fs.files[f], fs.D(), fd.ClusterBuf[..];
    ContentOfLast(D, c, buf);
    forall g | g in fs.files && g != f
      ensures InData(D[Last(c) := buf], fs.files[g]) && Content(D[Last(c) := buf], fs.files[g]) == Bytes(fs, g)
    {
      BytesOfOther(fs, f, g, buf);
    }
    fs.WriteCluster(fd.CurrCluster, fd.ClusterBuf);
    assert fs.D() == D[Last(c) := buf];
    var NewCluster := LinkNewCluster(fs, fd.CurrCluster, f);
    assert fs.D() == D[Last(c) := buf];
    fd.CurrCluster := NewCluster;
    fd.ClusterBufOffset := 0;
    ghost var c' := fs.files[f];
    assert c'[..|c'| - 1] == c;
  }

  /** Appending takes one cluster from the free space. */
  lemma AppendTakesOne(t: FatType, v: Volume, f: nat, v': Volume)
    requires Good(t, v) && Step(t, v, Append(f), v')
    ensures |Free(v')| == |Free(v)| - 1
  {
    var n: u16 :| IsFirstFree(v.T, n) && v' == Appended(t, v, f, n);
    LinkedChain(t, v.T, v.files[f], n);
    ChainIsAllocated(t, v.T, v.files[f]);
    var last := Last(v.files[f]);
    assert v.T[last] != 0;
    FinalMarkerIsFinal(t, |v.T|);
    assert n as nat in Free(v);
    assert Free(v') == Free(v) - {n as nat};
  }

  /** There are enough free clusters for the buffer to take n bytes. */
  ghost predicate Room(clusterSize: nat, free: nat, n: nat) {
    n < clusterSize * (free + 1)
  }

  /** That is, as many as WriteFATFile takes: one for every full buffer. */
  lemma RoomIsClusters(clusterSize: nat, free: nat, n: nat)
    requires clusterSize > 0
    ensures Room(clusterSize, free, n) <==> n / clusterSize <= free
  {
    var q, r := DivDef(n, clusterSize);
    if q <= free {
      MulMono(q + 1, free + 1, clusterSize);
    } else {
      MulMono(free + 1, q, clusterSize);
    }
  }

  /** Appending k clusters to a file takes k free clusters, so there are never more appends than free clusters. */
  lemma {:induction false} AppendsTake(t: FatType, vs: seq<Volume>, f: nat, k: nat)
    requires k < |vs| && Good(t, vs[0])
    requires forall i :: 0 <= i < |vs| - 1 ==> Good(t, vs[i]) ==> Step(t, vs[i], Append(f), vs[i + 1])
    ensures Good(t, vs[k]) && |Free(vs[k])| + k == |Free(vs[0])|
  {
    hide Good, Step, Free;
    if k > 0 {
      AppendsTake(t, vs, f, k - 1);
      assert Step(t, vs[k - 1], Append(f), vs[k - 1 + 1]);
      AppendTakesOne(t, vs[k - 1], f, vs[k]);
      StepKeeps(t, vs[k - 1], Append(f), vs[k]);
    }
  }

  lemma RoomForCluster(clusterSize: nat, v: Volume, n: nat)
    requires Room(clusterSize, |Free(v)|, n) && n >= clusterSize > 0
    ensures HasFree(v.T) && Room(clusterSize, |Free(v)| - 1, n - clusterSize)
  {
    assert clusterSize * (|Free(v)| + 1) == clusterSize * |Free(v)| + clusterSize;
    var c :| c in Free(v);
  }

  /** The first half of a turn: copy a piece into the buffer. */
  method Fill(fs: FileSys, fd: FileHandle, Piece: seq<u8>, ghost f: nat, ghost W: seq<u8>)
    requires Writing(fs, fd, f, W) && 0 < |Piece| <= fs.ClusterSize() - fd.ClusterBufOffset
    requires |W| + |Piece| < 0x1_0000_0000
    modifies fd`ClusterBufOffset, fd`Dirty, fd`FileTotalSize, fd`Pos, fd.ClusterBuf
    ensures WritingUpTo(fs, fd, f, W + Piece) && fd.Dirty
    ensures fd.ClusterBufOffset == old(fd.ClusterBufOffset) + |Piece|
  {
    hide Good, Entries, Clusters, Addr, Content, FileSys.Valid, FileSys.D;
    CopyIn(fd, Piece);
  }

  /** One turn of WriteFATFile with the piece that still fits into the buffer. */
  method WriteTurn(fs: FileSys, fd: FileHandle, Piece: seq<u8>, ghost f: nat, ghost W: seq<u8>, ghost more: nat)
    requires Writing(fs, fd, f, W) && 0 < |Piece| <= fs.ClusterSize() - fd.ClusterBufOffset
    requires |W| + |Piece| < 0x1_0000_0000
    requires Room(fs.ClusterSize(), |Free(fs.Vol())|, fd.ClusterBufOffset + |Piece| + more)
    modifies fs`files, fs.FAT.FATTable, fs.card, fd.ClusterBuf
    modifies fd`CurrCluster, fd`ClusterBufOffset, fd`FileTotalSize, fd`Pos, fd`Dirty
    ensures Writing(fs, fd, f, W + Piece)
    ensures Room(fs.ClusterSize(), |Free(fs.Vol())|, fd.ClusterBufOffset + more)
    ensures OthersKept(fs, f) && Conserves(old(fs.Vol()), fs.Vol())
    ensures if old(fd.ClusterBufOffset) + |Piece| < fs.ClusterSize() then
              |Free(fs.Vol())| == |Free(old(fs.Vol()))| && fd.ClusterBufOffset == old(fd.ClusterBufOffset) + |Piece|
            else
              |Free(fs.Vol())| == |Free(old(fs.Vol()))| - 1 && fd.ClusterBufOffset == 0
    ensures fs.OutsideKept()
  {
    hide Good, Entries, Clusters, Addr, Content, Step, Room, Conserves, Free, HasFree, Others;
    ghost var v := fs.Vol();
    Fill(fs, fd, Piece, f, W);
    ConservesRefl(v);
    if fd.ClusterBufOffset == fd.ClusterBuf.Length {
      RoomForCluster(fs.ClusterSize(), v, fd.ClusterBufOffset + more);
      Flush(fs, fd, f, W + Piece);
      AppendTakesOne(fs.FAT.FATType, v, f, fs.Vol());
      StepKeeps(fs.FAT.FATType, v, Append(f), fs.Vol());
    }
  }

  /** at bytes behind a buffer of start bytes have filled taken clusters and off bytes of the next. */
  ghost predicate Took(start: nat, at: nat, cs: nat, taken: nat, off: nat) {
    start + at == taken * cs + off
  }

  lemma TookNone(start: nat, cs: nat)
    ensures Took(start, 0, cs, 0, start)
  {
  }

  lemma TookMore(start: nat, at: nat, cs: nat, taken: nat, off: nat, n: nat)
    requires Took(start, at, cs, taken, off) && off + n <= cs
    ensures if off + n < cs then Took(start, at + n, cs, taken, off + n) else Took(start, at + n, cs, taken + 1, 0)
  {
    assert (taken + 1) * cs == taken * cs + cs;
  }

  lemma TookAll(start: nat, at: nat, cs: nat, taken: nat, off: nat)
    requires Took(start, at, cs, taken, off) && off < cs
    ensures taken == (start + at) / cs && off == (start + at) % cs
  {
    Div(taken, off, cs);
  }

  /** Writes all of Buf; returns the number of bytes that could not be written. */
  method WriteFATFile(fs: FileSys, fd: FileHandle, Buf: seq<u8>, ghost f: nat, ghost W: seq<u8>, ghost more: nat)
    returns (Len: nat)
    requires Writing(fs, fd, f, W) && |W| + |Buf| < 0x1_0000_0000
    requires Room(fs.ClusterSize(), |Free(fs.Vol())|, fd.ClusterBufOffset + |Buf| + more)
    modifies fs`files, fs.FAT.FATTable, fs.card, fd.ClusterBuf
    modifies fd`CurrCluster, fd`ClusterBufOffset, fd`FileTotalSize, fd`Pos, fd`Dirty
    ensures Len == 0 && Writing(fs, fd, f, W + Buf)
    ensures Room(fs.ClusterSize(), |Free(fs.Vol())|, fd.ClusterBufOffset + more)
    ensures OthersKept(fs, f) && Conserves(old(fs.Vol()), fs.Vol())
    ensures |Free(fs.Vol())| == |Free(old(fs.Vol()))| - (old(fd.ClusterBufOffset) + |Buf|) / fs.ClusterSize()
    ensures fd.ClusterBufOffset == (old(fd.ClusterBufOffset) + |Buf|) % fs.ClusterSize()
    ensures fs.OutsideKept()
  {
    hide Good, Entries, Clusters, Addr, Content, Step, Room, Conserves, Free, HasFree, Others, Writing, Took;
    WritingIsValid(fs, fd, f, W);
    Len := |Buf|;
    ghost var at, taken, cs, v := 0, 0, fs.ClusterSize(), fs.Vol();
    ghost var start := fd.ClusterBufOffset;
    ConservesRefl(v);
    TookNone(start, cs);
    assert W + Buf[..0] == W;
    while Len > 0
      invariant Len == |Buf| - at && 0 <= at <= |Buf|
      invariant Writing(fs, fd, f, W + Buf[..at]) && fs.Valid()
      invariant Room(fs.ClusterSize(), |Free(fs.Vol())|, fd.ClusterBufOffset + Len + more)
      invariant OthersKept(fs, f) && Conserves(v, fs.Vol()) && fs.OutsideKept()
      invariant |Free(fs.Vol())| == |Free(v)| - taken && Took(start, at, cs, taken, fd.ClusterBufOffset)
      decreases Len
    {
      var room := fd.ClusterBuf.Length - fd.ClusterBufOffset;
      WritingIsValid(fs, fd, f, W + Buf[..at]);
      var WLen := if Len < room then Len else room;
      var Piece := Buf[|Buf| - Len..|Buf| - Len + WLen];
      Len := Len - WLen;
      ghost var v1 := fs.Vol();
      TookMore(start, at, cs, taken, fd.ClusterBufOffset, WLen);
      taken := if fd.ClusterBufOffset + WLen == cs then taken + 1 else taken;
      WriteTurn(fs, fd, Piece, f, W + Buf[..at], Len + more);
      ConservesTrans(v, v1, fs.Vol());
      assert (W + Buf[..at]) + Piece == W + Buf[..at + WLen];
      at := at + WLen;
      WritingIsValid(fs, fd, f, W + Buf[..at]);
    }
    assert Buf[..at] == Buf;
    WritingIsValid(fs, fd, f, W + Buf);
    TookAll(start, at, cs, taken, fd.ClusterBufOffset);
  }

  lemma WritingIsValid(fs: FileSys, fd: FileHandle, f: nat, W: seq<u8>)
    requires Writing(fs, fd, f, W)
    ensures fs.Valid() && f in fs.files && fd.ClusterBuf.Length == fs.ClusterSize() > fd.ClusterBufOffset
  {
  }

  /** The directory entry and the clusters of file f hold exactly the bytes W. */
  ghost predicate Saved(fs: FileSys, entry: DirEntry, f: nat, W: seq<u8>)
    reads fs`files, fs.FAT.FATTable, fs.card, entry
  {
    && fs.Valid() && f in fs.files && |fs.files[f]| > 0
    && entry.StartCluster == fs.files[f][0] && entry.FileLength == |W|
    && W <= Bytes(fs, f)
  }

  /** Saves the buffer and the length of the file, if anything has been written. */
  method CloseFATFile(fs: FileSys, fd: FileHandle, entry: DirEntry, ghost f: nat, ghost W: seq<u8>) returns (ok: bool)
    requires Writing(fs, fd, f, W)
    requires entry.StartCluster == fd.StartCluster && (!fd.Dirty ==> entry.FileLength == 0)
    modifies fs.card, entry`FileLength
    ensures ok && Saved(fs, entry, f, W)
    ensures fs.Vol() == old(fs.Vol()) && OthersKept(fs, f)
    ensures fs.OutsideKept()
  {
    hide Good, Entries, Clusters, Addr;
    ChainFacts(fs, f);
    ghost var c, D, buf := fs.files[f], fs.D(), fd.ClusterBuf[..];
    ContentOfLast(D, c, buf);
    forall g | g in fs.files && g != f
      ensures InData(D[Last(c) := buf], fs.files[g]) && Content(D[Last(c) := buf], fs.files[g]) == Bytes(fs, g)
    {
      BytesOfOther(fs, f, g, buf);
    }
    if fd.Dirty {
      fs.WriteCluster(fd.CurrCluster, fd.ClusterBuf);
      entry.FileLength := fd.FileTotalSize;
    }
    ok := true;
  }
}
