/** What is written to a file is what is read from it (fat.c). */
module FatRoundTrip {
  import opened Arithmetic
  import opened Words
  import opened FatEntries
  import opened FatChains
  import opened FatRuns
  import opened FatDisk
  import opened FatWrite
  import opened FatOpen
  import opened FatRead

  function Concat(pieces: seq<seq<u8>>): seq<u8> {
    if |pieces| == 0 then [] else pieces[0] + Concat(pieces[1..])
  }

  function Sum(counts: seq<nat>): nat {
    if |counts| == 0 then 0 else counts[0] + Sum(counts[1..])
  }

  ghost function SetOf(c: seq<nat>): set<nat> {
    set n | n in c
  }

  lemma {:induction false} DistinctSetSize(c: seq<nat>)
    requires forall i, j :: 0 <= i < j < |c| ==> c[i] != c[j]
    ensures |SetOf(c)| == |c|
  {
    if |c| > 0 {
      DistinctSetSize(c[1..]);
      assert c[0] !in SetOf(c[1..]);
      assert SetOf(c) == {c[0]} + SetOf(c[1..]);
    }
  }

  lemma ChainSetSize(t: FatType, T: seq<u16>, c: seq<nat>)
    requires IsChain(t, T, c)
    ensures |SetOf(c)| == |c|
  {
    forall i, j | 0 <= i < j < |c|
      ensures c[i] != c[j]
    {
      ChainIsAcyclic(t, T, c, i, j);
    }
    DistinctSetSize(c);
  }

  lemma ZeroedFree(v: Volume, v': Volume, c: seq<nat>)
    requires v'.T == Zeroed(v.T, c)
    requires forall i :: 0 <= i < |c| ==> 2 <= c[i] < |v.T| && v.T[c[i]] != 0
    ensures |Free(v')| == |Free(v)| + |SetOf(c)|
  {
    assert Free(v') == Free(v) + SetOf(c);
    assert Free(v) !! SetOf(c);
  }

  /** The clusters a file gives back become free. */
  lemma DeletedFree(t: FatType, v: Volume, f: nat)
    requires Good(t, v) && f in v.files
    ensures Closed(t, v.T) && |v.files[f]| > 0 && v.files[f][0] < |v.T|
    ensures |Free(Deleted(t, v, f))| == |Free(v)| + |v.files[f]|
  {
    hide Freed, Free, SetOf, Zeroed;
    var c := v.files[f];
    ChainSetSize(t, v.T, c);
    FreedChain(t, v.T, c);
    ChainIsAllocated(t, v.T, c);
    ZeroedFree(v, Deleted(t, v, f), c);
  }

  lemma CreatedFree(t: FatType, v: Volume, f: nat, n: nat)
    requires BelowMarkers(t, |v.T|) && IsFirstFree(v.T, n)
    ensures |Free(Created(t, v, f, n))| == |Free(v)| - 1
  {
    FinalMarkerIsFinal(t, |v.T|);
    assert n in Free(v);
    assert Free(Created(t, v, f, n)) == Free(v) - {n};
  }

  /** The free clusters behind OpenFATEmptyFile. */
  lemma OpenedFree(t: FatType, v: Volume, existing: bool, f: nat, v': Volume)
    requires Good(t, v) && Step(t, v, if existing then Truncate(f) else Create(f), v')
    ensures |Free(v')| == |Free(v)| + |Chain(v, f)| - 1
  {
    if existing {
      DeletedFree(t, v, f);
      var n: nat :| IsFirstFree(Deleted(t, v, f).T, n) && v' == Created(t, Deleted(t, v, f), f, n);
      CreatedFree(t, Deleted(t, v, f), f, n);
    } else {
      var n: nat :| IsFirstFree(v.T, n) && v' == Created(t, v, f, n);
      CreatedFree(t, v, f, n);
    }
  }

  /** Any number of calls of WriteFATFile. */
  method WriteAll(fs: FileSys, fd: FileHandle, pieces: seq<seq<u8>>, ghost f: nat)
    requires Writing(fs, fd, f, []) && fd.ClusterBufOffset == 0 && |Concat(pieces)| < 0x1_0000_0000
    requires Room(fs.ClusterSize(), |Free(fs.Vol())|, |Concat(pieces)|)
    modifies fs`files, fs.FAT.FATTable, fs.card, fd.ClusterBuf
    modifies fd`CurrCluster, fd`ClusterBufOffset, fd`FileTotalSize, fd`Pos, fd`Dirty
    ensures Writing(fs, fd, f, Concat(pieces))
    ensures OthersKept(fs, f)
    ensures fs.OutsideKept()
  {
    hide Good, Entries, Clusters, Addr, Writing, Room, Free, Conserves, Others;
    ghost var W: seq<u8> := [];
    WritingIsValid(fs, fd, f, W);
    var i := 0;
    while i < |pieces|
      invariant 0 <= i <= |pieces| && Writing(fs, fd, f, W) && fs.Valid() && W + Concat(pieces[i..]) == Concat(pieces)
      invariant Room(fs.ClusterSize(), |Free(fs.Vol())|, fd.ClusterBufOffset + |Concat(pieces[i..])|)
      invariant OthersKept(fs, f) && fs.OutsideKept()
    {
      assert pieces[i..][1..] == pieces[i + 1..];
      ghost var more := |Concat(pieces[i + 1..])|;
      assert Concat(pieces[i..]) == pieces[i] + Concat(pieces[i + 1..]);
      var missing := WriteFATFile(fs, fd, pieces[i], f, W, more);
      W := W + pieces[i];
      WritingIsValid(fs, fd, f, W);
      i := i + 1;
    }
    assert W + Concat(pieces[i..]) == W;
  }

  /** Any number of calls of ReadFATFile, each into a buffer of the requested size; out collects what they deliver. */
  method ReadAll(fs: FileSys, fd: FileHandle, counts: seq<nat>, ghost f: nat, ghost W: seq<u8>) returns (out: seq<u8>)
    requires Reading(fs, fd, f, W) && fd.Pos == 0 && |W| + fs.ClusterSize() < 0x1_0000_0000
    modifies fd, fd.ClusterBuf
    ensures out == W[..Min(Sum(counts), |W|)]
    ensures Reading(fs, fd, f, W) && fs.Vol() == old(fs.Vol()) && fs.D() == old(fs.D())
  {
    hide Good, Entries, Clusters, Addr, Reading, FileSys.D, FileSys.Vol, Concat;
    ReadingFacts(fs, fd, f, W);
    out := [];
    var i := 0;
    ghost var asked: nat := 0;
    assert W[..0] == [];
    while i < |counts|
      invariant 0 <= i <= |counts| && asked + Sum(counts[i..]) == Sum(counts)
      invariant Reading(fs, fd, f, W) && fs.Valid() && fs.D() == old(fs.D()) && fs.Vol() == old(fs.Vol())
      invariant fd.Pos == Min(asked, |W|) && out == W[..fd.Pos]
    {
      assert counts[i..][1..] == counts[i + 1..];
      var Buf := new u8[counts[i]];
      BufferIsApart(fs, fd, f, W);
      ghost var p := fd.Pos;
      var Len := ReadFATFile(fs, fd, counts[i], Buf, f, W);
      ReadingFacts(fs, fd, f, W);
      assert Buf[..counts[i] - Len] == W[p..fd.Pos];
      out := out + Buf[..counts[i] - Len];
      asked := asked + counts[i];
      i := i + 1;
    }
  }

  lemma BufferIsApart(fs: FileSys, fd: FileHandle, f: nat, W: seq<u8>)
    requires Reading(fs, fd, f, W)
    ensures fd.ClusterBuf != fs.card && fd.ClusterBuf != fs.FAT.FATTable
  {
  }

  /** Opening a saved file and reading from it. */
  method ReadBack(fs: FileSys, entry: DirEntry, counts: seq<nat>, ghost f: nat, ghost W: seq<u8>) returns (out: seq<u8>)
    requires Saved(fs, entry, f, W) && fs.Valid() && |W| + fs.ClusterSize() < 0x1_0000_0000
    ensures out == W[..Min(Sum(counts), |W|)] && Saved(fs, entry, f, W)
  {
    hide Good, Entries, Clusters, Addr, Reading, CanonicalReading;
    var fd := OpenFATFile(fs, entry, f, W);
    CanonicalFacts(fs, fd, f, W);
    out := ReadAll(fs, fd, counts, f, W);
  }

  /**
   * What is written to a freshly opened file in any number of pieces is what is read from it afterwards in any
   * number of pieces: whether the file is new or replaces an old one, and whether or not it ends with a cluster.
   */
  method RoundTrip(fs: FileSys, entry: DirEntry, existing: bool, pieces: seq<seq<u8>>, counts: seq<nat>, ghost f: nat)
    returns (out: seq<u8>)
    requires fs.Valid() && existing == (f in fs.files)
    requires existing ==> |fs.files[f]| > 0 && entry.StartCluster == fs.files[f][0]
    requires |Free(fs.Vol())| + |Chain(fs.Vol(), f)| > 0
    requires Room(fs.ClusterSize(), |Free(fs.Vol())| + |Chain(fs.Vol(), f)| - 1, |Concat(pieces)|)
    requires |Concat(pieces)| + fs.ClusterSize() < 0x1_0000_0000
    modifies fs`files, fs.FAT.FATTable, fs.card, entry
    ensures out == Concat(pieces)[..Min(Sum(counts), |Concat(pieces)|)]
    ensures Saved(fs, entry, f, Concat(pieces)) && OthersKept(fs, f)
    ensures fs.OutsideKept()
  {
    hide Good, Entries, Clusters, Addr, Writing, Reading, CanonicalReading, Others, Room, Step, Free, FileSys.Vol;
    ghost var v := fs.Vol();
    NewFileHasRoom(fs, f);
    var fd := OpenFATEmptyFile(fs, entry, existing, f);
    OpenedFree(fs.FAT.FATType, v, existing, f, fs.Vol());
    WriteAll(fs, fd, pieces, f);
    WritingIsValid(fs, fd, f, Concat(pieces));
    var ok := CloseFATFile(fs, fd, entry, f, Concat(pieces));
    out := ReadBack(fs, entry, counts, f, Concat(pieces));
  }

  lemma NewFileHasRoom(fs: FileSys, f: nat)
    requires fs.Valid() && |Free(fs.Vol())| + |Chain(fs.Vol(), f)| > 0
    ensures Good(fs.FAT.FATType, fs.Vol())
    ensures f !in fs.files ==> HasFree(fs.FAT.T())
  {
    if f !in fs.files {
      var n :| n in Free(fs.Vol());
    }
  }
}
