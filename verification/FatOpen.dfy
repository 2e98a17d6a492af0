/** Creating, truncating, deleting and opening files (fat.c). */
module FatOpen {
  import opened Words
  import opened FatEntries
  import opened FatChains
  import opened FatRuns
  import opened FatDisk
  import opened FatContent
  import opened FatWrite

  lemma CreateIsGood(t: FatType, v: Volume, f: nat, n: nat)
    requires Good(t, v) && f !in v.files && IsFirstFree(v.T, n)
    ensures Good(t, Created(t, v, f, n)) && Step(t, v, Create(f), Created(t, v, f, n))
  {
    CreateReplaces(t, v, f, n);
    ReplacesIsGood(t, v, f, [n], Created(t, v, f, n));
  }

  lemma DeleteIsGood(t: FatType, v: Volume, f: nat)
    requires Good(t, v) && f in v.files
    ensures Closed(t, v.T) && |v.files[f]| > 0 && v.files[f][0] < |v.T|
    ensures Freed(t, v.T, v.files[f][0]).1
    ensures Good(t, Deleted(t, v, f)) && Step(t, v, Delete(f), Deleted(t, v, f))
    ensures HasFree(Deleted(t, v, f).T)
  {
    DeleteReplaces(t, v, f);
    ReplacesIsGood(t, v, f, [], Deleted(t, v, f));
    assert v.files[f][0] in v.files[f];
    assert Deleted(t, v, f).T[v.files[f][0]] == 0;
  }

  ghost predicate AllInData(D: seq<seq<u8>>, files: map<nat, seq<nat>>) {
    forall g :: g in files ==> InData(D, files[g])
  }

  lemma FilesInData(fs: FileSys)
    requires fs.Valid()
    ensures AllInData(fs.D(), fs.files)
  {
    forall g | g in fs.files
      ensures InData(fs.D(), fs.files[g])
    {
      ChainFacts(fs, g);
    }
  }

  /** The allocation in CreateFATNextEmptyFile: the new file f gets the first free cluster. */
  method AllocateFile(fs: FileSys, ghost f: nat) returns (NewCluster: nat)
    requires fs.Valid() && f !in fs.files && HasFree(fs.FAT.T())
    modifies fs`files, fs.FAT.FATTable
    ensures fs.Valid() && fs.files == old(fs.files)[f := [NewCluster]]
    ensures Step(fs.FAT.FATType, old(fs.Vol()), Create(f), fs.Vol())
    ensures OthersKept(fs, f)
  {
    hide Good, Entries, HasFree, Step, Clusters, Addr, Content;
    FilesInData(fs);
    ghost var v, D := fs.Vol(), fs.D();
    NewCluster := fs.FAT.GetFATFirstFreeCluster();
    CreateIsGood(fs.FAT.FATType, v, f, NewCluster);
    fs.files := fs.files[f := [NewCluster]];
    assert fs.Vol() == Created(fs.FAT.FATType, v, f, NewCluster);
  }

  /** DeleteFATFile, as far as the volume is concerned: the clusters of f become free. */
  method DeleteFATFile(fs: FileSys, entry: DirEntry, ghost f: nat) returns (ok: bool)
    requires fs.Valid() && f in fs.files && |fs.files[f]| > 0 && entry.StartCluster == fs.files[f][0]
    modifies fs`files, fs.FAT.FATTable
    ensures ok && fs.Valid() && fs.files == old(fs.files) - {f}
    ensures Step(fs.FAT.FATType, old(fs.Vol()), Delete(f), fs.Vol())
    ensures HasFree(fs.FAT.T()) && OthersKept(fs, f)
  {
    hide Good, Entries, HasFree, Step, Clusters, Addr, Content, Freed;
    FilesInData(fs);
    ghost var v := fs.Vol();
    DeleteIsGood(fs.FAT.FATType, v, f);
    ok := fs.FAT.FreeFATCluster(entry.StartCluster);
    fs.files := fs.files - {f};
    assert fs.Vol() == Deleted(fs.FAT.FATType, v, f);
  }

  /** CreateFATEmptyFile: one cluster and length 0. */
  method CreateFATEmptyFile(fs: FileSys, entry: DirEntry, ghost f: nat)
    requires fs.Valid() && f !in fs.files && HasFree(fs.FAT.T())
    modifies fs`files, fs.FAT.FATTable, entry
    ensures Saved(fs, entry, f, []) && OthersKept(fs, f)
    ensures Step(fs.FAT.FATType, old(fs.Vol()), Create(f), fs.Vol())
  {
    hide Good, Entries, HasFree, Step, Clusters, Addr, Content;
    var NewCluster := AllocateFile(fs, f);
    entry.StartCluster, entry.FileLength := NewCluster, 0;
  }

  /** An existing file loses its clusters, and in any case it gets a first one. */
  method FirstCluster(fs: FileSys, entry: DirEntry, existing: bool, ghost f: nat) returns (NewCluster: nat)
    requires fs.Valid() && existing == (f in fs.files)
    requires existing ==> |fs.files[f]| > 0 && entry.StartCluster == fs.files[f][0]
    requires !existing ==> HasFree(fs.FAT.T())
    modifies fs`files, fs.FAT.FATTable
    ensures fs.Valid() && f in fs.files && fs.files[f] == [NewCluster] && OthersKept(fs, f)
    ensures Step(fs.FAT.FATType, old(fs.Vol()), if existing then Truncate(f) else Create(f), fs.Vol())
  {
    hide Good, Entries, HasFree, Clusters, Addr, Freed, IsFirstFree;
    if existing {
      var ok := DeleteFATFile(fs, entry, f);
    }
    NewCluster := AllocateFile(fs, f);
  }

  /** Opens a file for writing: an existing one loses its clusters, and in any case it gets a first cluster. */
  method OpenFATEmptyFile(fs: FileSys, entry: DirEntry, existing: bool, ghost f: nat) returns (fd: FileHandle)
    requires fs.Valid() && existing == (f in fs.files)
    requires existing ==> |fs.files[f]| > 0 && entry.StartCluster == fs.files[f][0]
    requires !existing ==> HasFree(fs.FAT.T())
    modifies fs`files, fs.FAT.FATTable, entry
    ensures fresh(fd) && fresh(fd.ClusterBuf) && Writing(fs, fd, f, []) && !fd.Dirty && fd.ClusterBufOffset == 0
    ensures entry.StartCluster == fd.StartCluster && entry.FileLength == 0
    ensures OthersKept(fs, f)
    ensures Step(fs.FAT.FATType, old(fs.Vol()), if existing then Truncate(f) else Create(f), fs.Vol())
  {
    hide Good, Entries, HasFree, Clusters, Addr, Step;
    var NewCluster := FirstCluster(fs, entry, existing, f);
    entry.StartCluster, entry.FileLength := NewCluster, 0;
    ChainFacts(fs, f);
    fd := new FileHandle(NewCluster, 0, fs.ClusterSize());
  }
}
